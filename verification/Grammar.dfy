/** The packed grammar every stage of the generator works on (reader.c,
    pack_grammar): all right-hand sides laid end to end in `ritem`, each closed
    by minus its rule number. Symbols below `ntokens` are tokens, token 0 being
    $end; `ntokens` itself is $accept, `ntokens + 1` the goal. An item is a
    position in `ritem`: the dot stands before the symbol found there. */
module Grammar {
  datatype Grammar = Grammar(ntokens: nat, nsyms: nat, ritem: seq<int>, rlhs: seq<int>, rrhs: seq<int>)

  predicate IsVar(g: Grammar, s: int) {
    g.ntokens <= s < g.nsyms
  }

  /** Rule r has its right-hand side in place. */
  predicate RuleOk(g: Grammar, r: int)
    requires 0 <= r < |g.rlhs| && |g.rrhs| == |g.rlhs| + 1
  {
    && g.ntokens < g.rlhs[r] < g.nsyms
    && 4 <= g.rrhs[r] < g.rrhs[r + 1] <= |g.ritem|
    && g.ritem[g.rrhs[r + 1] - 1] == -r
    && forall i :: g.rrhs[r] <= i < g.rrhs[r + 1] - 1 ==> 0 < g.ritem[i] < g.nsyms && g.ritem[i] != g.ntokens
  }

  /** What pack_grammar leaves: rule 2 is `$accept : goal $end`, the user's
      rules follow from 3 on. */
  predicate WellFormed(g: Grammar) {
    && 1 <= g.ntokens && g.ntokens + 2 <= g.nsyms
    && 3 <= |g.rlhs| && |g.rrhs| == |g.rlhs| + 1
    && 4 <= |g.ritem| && g.ritem[0] == -1 && g.ritem[1] == g.ntokens + 1 && g.ritem[2] == 0 && g.ritem[3] == -2
    && g.rlhs[0] == g.rlhs[1] == 0 && g.rlhs[2] == g.ntokens
    && g.rrhs[0] == g.rrhs[1] == 0 && g.rrhs[2] == 1 && g.rrhs[3] == 4
    && g.rrhs[|g.rlhs|] == |g.ritem|
    && forall r :: 3 <= r < |g.rlhs| ==> RuleOk(g, r)
  }

  /** Rule r rewrites the nonterminal s. */
  predicate IsRule(g: Grammar, r: int, s: int) {
    2 <= r < |g.rlhs| && g.rlhs[r] == s
  }

  /** Item i lies in rule r. */
  predicate InRule(g: Grammar, r: int, i: int) {
    2 <= r < |g.rlhs| && r + 1 < |g.rrhs| && g.rrhs[r] <= i < g.rrhs[r + 1]
  }

  lemma RuleBounds(g: Grammar, r: int)
    requires WellFormed(g) && 2 <= r < |g.rlhs|
    ensures 1 <= g.rrhs[r] < g.rrhs[r + 1] <= |g.ritem|
    ensures g.ritem[g.rrhs[r + 1] - 1] == -r
    ensures IsVar(g, g.rlhs[r])
    ensures forall i :: g.rrhs[r] <= i < g.rrhs[r + 1] - 1 ==> 0 <= g.ritem[i] < g.nsyms && g.ritem[i] != g.ntokens
  {
    if r > 2 { assert RuleOk(g, r); }
  }

  lemma {:induction false} RulesIncrease(g: Grammar, r: int, s: int)
    requires WellFormed(g) && 2 <= r < s <= |g.rlhs|
    ensures g.rrhs[r] < g.rrhs[s]
    decreases s
  {
    RuleBounds(g, s - 1);
    if r < s - 1 { RulesIncrease(g, r, s - 1); }
  }

  /** Every item lies in a rule. */
  lemma {:induction false} FindRule(g: Grammar, i: int, s: int) returns (r: int)
    requires WellFormed(g) && 2 <= s <= |g.rlhs| && 1 <= i < g.rrhs[s]
    ensures InRule(g, r, i)
    decreases s
  {
    if g.rrhs[s - 1] <= i {
      r := s - 1;
    } else {
      r := FindRule(g, i, s - 1);
    }
  }

  lemma ItemRule(g: Grammar, i: int) returns (r: int)
    requires WellFormed(g) && 1 <= i < |g.ritem|
    ensures InRule(g, r, i)
    ensures if i == g.rrhs[r + 1] - 1 then g.ritem[i] == -r else i + 1 < |g.ritem| && InRule(g, r, i + 1) && 0 <= g.ritem[i] < g.nsyms && g.ritem[i] != g.ntokens
  {
    r := FindRule(g, i, |g.rlhs|);
    RuleBounds(g, r);
  }

  /** A symbol after the dot leaves room to move the dot. */
  lemma ItemSymbol(g: Grammar, i: int)
    requires WellFormed(g) && 1 <= i < |g.ritem| && g.ritem[i] >= 0
    ensures i + 1 < |g.ritem|
    ensures g.ritem[i] < g.nsyms && g.ritem[i] != g.ntokens
    ensures g.ritem[i] == 0 <==> i == 2
  {
    var r := ItemRule(g, i);
    if r > 2 {
      assert RuleOk(g, r);
    }
  }

  /** A completed item names its rule. */
  lemma ItemComplete(g: Grammar, i: int)
    requires WellFormed(g) && 1 <= i < |g.ritem| && g.ritem[i] < 0
    ensures 2 <= -g.ritem[i] < |g.rlhs|
    ensures i == g.rrhs[-g.ritem[i] + 1] - 1
  {
    var r := ItemRule(g, i);
  }

  /** Two rules with a common item are the same rule. */
  lemma RuleUnique(g: Grammar, r: int, s: int, i: int)
    requires WellFormed(g) && InRule(g, r, i) && InRule(g, s, i)
    ensures r == s
  {
    if r < s { if r + 1 < s { RulesIncrease(g, r + 1, s); } }
    if s < r { if s + 1 < r { RulesIncrease(g, s + 1, r); } }
  }

  /** The rules of nonterminal s from number r on, in increasing order. */
  function RulesFrom(g: Grammar, s: int, r: nat): (rs: seq<int>)
    requires r <= |g.rlhs|
    ensures forall k :: k in rs <==> r <= k < |g.rlhs| && g.rlhs[k] == s
    ensures forall a, b :: 0 <= a < b < |rs| ==> rs[a] < rs[b]
    decreases |g.rlhs| - r
  {
    if r == |g.rlhs| then []
    else
      var rest := RulesFrom(g, s, r + 1);
      assert forall b :: 0 <= b < |rest| ==> rest[b] in rest;
      if g.rlhs[r] == s then [r] + rest else rest
  }

  /** derives[s] */
  function RulesFor(g: Grammar, s: int): (rs: seq<int>) {
    RulesFrom(g, s, 0)
  }

  lemma DerivesRules(g: Grammar, s: int, r: int)
    requires WellFormed(g) && IsVar(g, s)
    ensures r in RulesFor(g, s) <==> IsRule(g, r, s)
  {
  }

  /** The inner loop of set_derives. */
  method RulesOf(g: Grammar, lhs: int) returns (rules: seq<int>)
    requires WellFormed(g)
    ensures rules == RulesFor(g, lhs)
  {
    rules := [];
    var i := 0;
    while i < |g.rlhs|
      invariant i <= |g.rlhs|
      invariant rules + RulesFrom(g, lhs, i) == RulesFor(g, lhs)
    {
      if g.rlhs[i] == lhs {
        assert rules + ([i] + RulesFrom(g, lhs, i + 1)) == (rules + [i]) + RulesFrom(g, lhs, i + 1);
        rules := rules + [i];
      }
      i := i + 1;
    }
  }

  /** set_derives */
  method SetDerives(g: Grammar) returns (derives: array<seq<int>>)
    requires WellFormed(g)
    ensures fresh(derives) && derives.Length == g.nsyms
    ensures forall s :: IsVar(g, s) ==> derives[s] == RulesFor(g, s)
  {
    derives := new seq<int>[g.nsyms](_ => []);
    var lhs := g.ntokens;
    while lhs < g.nsyms
      invariant g.ntokens <= lhs <= g.nsyms
      invariant forall s :: g.ntokens <= s < lhs ==> derives[s] == RulesFor(g, s)
    {
      var rules := RulesOf(g, lhs);
      derives[lhs] := rules;
      lhs := lhs + 1;
    }
  }
}
