/** closure.c: the closure of a set of kernel items. `EFF` and `first_derives`
    are tables computed once; `closure` then needs one pass over a bit row. */
module ClosureTables {
  import opened Bits
  import opened Graph
  import opened Warshall
  import opened Grammar

  // ----- what a closure is

  /** S holds, with every item, the start items of the symbol after its dot. */
  ghost predicate ItemClosed(g: Grammar, S: set<int>) {
    forall i, r :: i in S && 0 <= i < |g.ritem| && IsVar(g, g.ritem[i]) && IsRule(g, r, g.ritem[i]) && r < |g.rrhs| ==>
      g.rrhs[r] in S
  }

  ghost predicate InClosure(g: Grammar, K: set<int>, j: int) {
    forall S: set<int> :: K <= S && ItemClosed(g, S) ==> j in S
  }

  /** The least such set around the kernel K. */
  ghost function Closure(g: Grammar, K: set<int>): set<int> {
    set j | 1 <= j < |g.ritem| && InClosure(g, K, j)
  }

  ghost predicate IsKernel(g: Grammar, K: set<int>) {
    forall i :: i in K ==> 1 <= i < |g.ritem|
  }

  lemma ClosureHasKernel(g: Grammar, K: set<int>)
    requires IsKernel(g, K)
    ensures K <= Closure(g, K)
  {
  }

  lemma ClosureStep(g: Grammar, K: set<int>, i: int, r: int)
    requires WellFormed(g) && i in Closure(g, K) && IsVar(g, g.ritem[i]) && IsRule(g, r, g.ritem[i])
    ensures g.rrhs[r] in Closure(g, K)
  {
    RuleBounds(g, r);
    forall S: set<int> | K <= S && ItemClosed(g, S) ensures g.rrhs[r] in S {
      assert i in S;
    }
  }

  /** Induction over a closure: what holds of the kernel and is inherited by
      start items holds everywhere. */
  lemma ClosureInduction(g: Grammar, K: set<int>, S: set<int>, j: int)
    requires K <= S && ItemClosed(g, S) && j in Closure(g, K)
    ensures j in S
  {
  }

  // ----- the tables

  function VarCount(g: Grammar): nat
    requires WellFormed(g)
  {
    g.nsyms - g.ntokens
  }

  /** Rule r rewrites b and begins with c; nonterminals count from 0. */
  ghost predicate LeftRule(g: Grammar, b: int, c: int, r: int)
    requires WellFormed(g)
  {
    IsRule(g, r, g.ntokens + b) && (RuleBounds(g, r); g.ritem[g.rrhs[r]] == g.ntokens + c)
  }

  /** b -> c when some rule of b begins with c. */
  ghost predicate LeftEdge(g: Grammar, b: int, c: int)
    requires WellFormed(g)
  {
    exists r :: LeftRule(g, b, c, r)
  }

  ghost function Left(g: Grammar): (G: Graph)
    requires WellFormed(g)
    ensures |G| == VarCount(g) && IsGraph(G)
    ensures forall b, c :: 0 <= b < |G| ==> (c in G[b] <==> 0 <= c < |G| && LeftEdge(g, b, c))
  {
    seq(VarCount(g), b requires 0 <= b < VarCount(g) => set c | 0 <= c < VarCount(g) && LeftEdge(g, b, c))
  }

  /** The rules whose start items the nonterminal s (counted from 0) brings in. */
  ghost predicate FirstDerives(g: Grammar, b: int, r: int)
    requires WellFormed(g)
  {
    2 <= r < |g.rlhs| && Reach(Left(g), b, g.rlhs[r] - g.ntokens)
  }

  ghost predicate KernelDerives(g: Grammar, k: int, r: int)
    requires WellFormed(g) && 0 <= k < |g.ritem|
  {
    IsVar(g, g.ritem[k]) && FirstDerives(g, g.ritem[k] - g.ntokens, r)
  }

  ghost predicate InRuleSet(g: Grammar, K: set<int>, r: int)
    requires WellFormed(g) && IsKernel(g, K)
  {
    exists k :: k in K && KernelDerives(g, k, r)
  }

  /** What `closure` ORs together from `first_derives`. */
  ghost function RuleSet(g: Grammar, K: set<int>): (rs: set<int>)
    requires WellFormed(g) && IsKernel(g, K)
    ensures forall r :: r in rs ==> 2 <= r < |g.rlhs|
  {
    set r | 2 <= r < |g.rlhs| && InRuleSet(g, K, r)
  }

  ghost function Starts(g: Grammar, rs: set<int>): set<int>
    requires WellFormed(g) && forall r :: r in rs ==> 2 <= r < |g.rlhs|
  {
    set r | r in rs :: g.rrhs[r]
  }

  // ----- the tables give the closure

  /** The nonterminals all of whose rules have their start item in S. */
  ghost function Introduced(g: Grammar, S: set<int>): set<int>
    requires WellFormed(g)
  {
    set c | 0 <= c < VarCount(g) && AllStartsIn(g, S, c)
  }

  ghost predicate AllStartsIn(g: Grammar, S: set<int>, c: int)
    requires WellFormed(g)
  {
    forall r :: IsRule(g, r, g.ntokens + c) ==> g.rrhs[r] in S
  }

  lemma IntroducedClosed(g: Grammar, K: set<int>)
    requires WellFormed(g)
    ensures Closed(Left(g), Introduced(g, Closure(g, K)))
  {
    var S := Introduced(g, Closure(g, K));
    forall b, c | b in S && 0 <= b < |Left(g)| && c in Left(g)[b]
      ensures c in S
    {
      var r :| LeftRule(g, b, c, r);
      RuleBounds(g, r);
      forall q | IsRule(g, q, g.ntokens + c) ensures g.rrhs[q] in Closure(g, K) {
        ClosureStep(g, K, g.rrhs[r], q);
      }
    }
  }

  lemma StartsInClosure(g: Grammar, K: set<int>, r: int)
    requires WellFormed(g) && IsKernel(g, K) && r in RuleSet(g, K)
    ensures g.rrhs[r] in Closure(g, K)
  {
    var k :| k in K && KernelDerives(g, k, r);
    var b, c := g.ritem[k] - g.ntokens, g.rlhs[r] - g.ntokens;
    var C := Closure(g, K);
    ClosureHasKernel(g, K);
    forall q | IsRule(g, q, g.ntokens + b) ensures g.rrhs[q] in C {
      ClosureStep(g, K, k, q);
    }
    assert b in Introduced(g, C);
    IntroducedClosed(g, K);
    ReachStays(Left(g), Introduced(g, C), b, c);
    assert AllStartsIn(g, C, c) && IsRule(g, r, g.ntokens + c);
  }

  /** A rule named by the tables passes them on to the symbol it begins with. */
  lemma RuleSetStep(g: Grammar, K: set<int>, q: int, r: int)
    requires WellFormed(g) && IsKernel(g, K) && q in RuleSet(g, K) && 2 <= r < |g.rlhs|
    requires g.ritem[(RuleBounds(g, q); g.rrhs[q])] == g.rlhs[r]
    ensures r in RuleSet(g, K)
  {
    RuleBounds(g, q);
    RuleBounds(g, r);
    var k :| k in K && KernelDerives(g, k, q);
    var a, b, c := g.ritem[k] - g.ntokens, g.rlhs[q] - g.ntokens, g.rlhs[r] - g.ntokens;
    assert LeftRule(g, b, c, q);
    ReachSelf(Left(g), c);
    ReachStep(Left(g), b, c, c);
    ReachTrans(Left(g), a, b, c);
    assert KernelDerives(g, k, r);
  }

  lemma UnionIsClosed(g: Grammar, K: set<int>)
    requires WellFormed(g) && IsKernel(g, K)
    ensures ItemClosed(g, K + Starts(g, RuleSet(g, K)))
  {
    var S := K + Starts(g, RuleSet(g, K));
    forall i, r | i in S && 0 <= i < |g.ritem| && IsVar(g, g.ritem[i]) && IsRule(g, r, g.ritem[i])
      ensures g.rrhs[r] in S
    {
      if i in K {
        ReachSelf(Left(g), g.ritem[i] - g.ntokens);
        assert KernelDerives(g, i, r);
        assert r in RuleSet(g, K);
      } else {
        var q :| q in RuleSet(g, K) && i == g.rrhs[q];
        RuleSetStep(g, K, q, r);
      }
    }
  }

  /** The closure is the kernel plus the start items the tables name. */
  lemma ClosureByTables(g: Grammar, K: set<int>)
    requires WellFormed(g) && IsKernel(g, K)
    ensures Closure(g, K) == K + Starts(g, RuleSet(g, K))
  {
    var S := K + Starts(g, RuleSet(g, K));
    UnionIsClosed(g, K);
    ClosureHasKernel(g, K);
    forall j | j in Starts(g, RuleSet(g, K)) ensures j in Closure(g, K) {
      var r :| r in RuleSet(g, K) && j == g.rrhs[r];
      StartsInClosure(g, K, r);
    }
    forall j | j in Closure(g, K) ensures j in S {
      ClosureInduction(g, K, S, j);
    }
  }

  // ----- building the tables

  ghost predicate DerivesOk(g: Grammar, derives: array<seq<int>>)
    reads derives
  {
    derives.Length == g.nsyms && forall s :: IsVar(g, s) ==> derives[s] == RulesFor(g, s)
  }

  predicate AreRules(g: Grammar, rules: seq<int>) {
    forall k :: 0 <= k < |rules| ==> 2 <= rules[k] < |g.rlhs|
  }

  ghost function Elems(s: seq<int>): (e: set<int>)
    ensures forall x :: x in e <==> x in s
  {
    set x | x in s
  }

  lemma ElemsNext(s: seq<int>, k: nat)
    requires k < |s|
    ensures Elems(s[..k + 1]) == Elems(s[..k]) + {s[k]}
  {
    assert s[..k + 1] == s[..k] + [s[k]];
  }

  lemma DerivesAreRules(g: Grammar, b: int)
    requires WellFormed(g) && 0 <= b < VarCount(g)
    ensures AreRules(g, RulesFor(g, g.ntokens + b))
    ensures var s := g.ntokens + b; forall r :: r in RulesFor(g, s) <==> IsRule(g, r, s)
  {
    var rules := RulesFor(g, g.ntokens + b);
    forall r ensures r in rules <==> IsRule(g, r, g.ntokens + b) {
      DerivesRules(g, g.ntokens + b, r);
    }
    forall k | 0 <= k < |rules| ensures 2 <= rules[k] < |g.rlhs| {
      assert rules[k] in rules;
    }
  }

  /** The nonterminal, if any, that rule r begins with. */
  ghost function LeftOf(g: Grammar, r: int): set<int>
    requires WellFormed(g) && 2 <= r < |g.rlhs|
  {
    RuleBounds(g, r);
    var s := g.ritem[g.rrhs[r]];
    if IsVar(g, s) then {s - g.ntokens} else {}
  }

  /** The nonterminals the listed rules begin with. */
  ghost function Leftmost(g: Grammar, rules: seq<int>): set<int>
    requires WellFormed(g) && AreRules(g, rules)
  {
    if rules == [] then {}
    else Leftmost(g, rules[..|rules| - 1]) + LeftOf(g, rules[|rules| - 1])
  }

  lemma {:induction false} LeftmostHas(g: Grammar, rules: seq<int>, k: nat)
    requires WellFormed(g) && AreRules(g, rules) && k < |rules|
    ensures LeftOf(g, rules[k]) <= Leftmost(g, rules)
    decreases |rules|
  {
    if k < |rules| - 1 {
      LeftmostHas(g, rules[..|rules| - 1], k);
    }
  }

  lemma {:induction false} LeftmostFrom(g: Grammar, rules: seq<int>, c: int) returns (k: nat)
    requires WellFormed(g) && AreRules(g, rules) && c in Leftmost(g, rules)
    ensures k < |rules| && c in LeftOf(g, rules[k])
    decreases |rules|
  {
    if c in LeftOf(g, rules[|rules| - 1]) {
      k := |rules| - 1;
    } else {
      k := LeftmostFrom(g, rules[..|rules| - 1], c);
    }
  }

  lemma LeftmostAll(g: Grammar, b: int)
    requires WellFormed(g) && 0 <= b < VarCount(g)
    ensures AreRules(g, RulesFor(g, g.ntokens + b))
    ensures Leftmost(g, RulesFor(g, g.ntokens + b)) == Left(g)[b]
  {
    var rules := RulesFor(g, g.ntokens + b);
    DerivesAreRules(g, b);
    forall c | c in Leftmost(g, rules) ensures c in Left(g)[b] {
      var k := LeftmostFrom(g, rules, c);
      assert rules[k] in rules;
      assert LeftRule(g, b, c, rules[k]);
    }
    forall c | c in Left(g)[b] ensures c in Leftmost(g, rules) {
      var r :| LeftRule(g, b, c, r);
      assert r in rules;
      var k :| 0 <= k < |rules| && rules[k] == r;
      LeftmostHas(g, rules, k);
    }
  }

  /** SETBIT for every listed number on one row; `s` is what the row holds. */
  method AddBits(a: array2<bv32>, row: nat, rules: seq<int>, ghost rows: seq<set<int>>, ghost s: set<int>)
    requires row < a.Length0 == |rows| && forall k :: 0 <= k < |rules| ==> 0 <= rules[k] < 32 * a.Length1
    requires Rows(a) == rows[row := s]
    modifies a
    ensures Rows(a) == rows[row := s + Elems(rules)]
  {
    hide Rows;
    var k := 0;
    assert s + Elems([]) == s;
    while k < |rules|
      invariant k <= |rules|
      invariant Rows(a) == rows[row := s + Elems(rules[..k])]
    {
      SetBit(a, row, rules[k]);
      ElemsNext(rules, k);
      assert s + Elems(rules[..k + 1]) == s + Elems(rules[..k]) + {rules[k]};
      UpdateTwice(rows, row, s + Elems(rules[..k]), s + Elems(rules[..k + 1]));
      k := k + 1;
    }
    assert rules[..|rules|] == rules;
  }

  method AddLeft(g: Grammar, EFF: array2<bv32>, row: nat, rule: int, ghost rows: seq<set<int>>, ghost s: set<int>)
    requires WellFormed(g) && 2 <= rule < |g.rlhs|
    requires row < EFF.Length0 == VarCount(g) == |rows| && VarCount(g) <= 32 * EFF.Length1
    requires Rows(EFF) == rows[row := s]
    modifies EFF
    ensures Rows(EFF) == rows[row := s + LeftOf(g, rule)]
  {
    hide Rows;
    RuleBounds(g, rule);
    var symbol := g.ritem[g.rrhs[rule]];
    if IsVar(g, symbol) {
      SetBit(EFF, row, symbol - g.ntokens);
      UpdateTwice(rows, row, s, s + {symbol - g.ntokens});
    } else {
      assert s + {} == s;
    }
  }

  lemma LeftmostNext(g: Grammar, rules: seq<int>, k: nat)
    requires WellFormed(g) && AreRules(g, rules) && k < |rules|
    ensures AreRules(g, rules[..k]) && AreRules(g, rules[..k + 1])
    ensures Leftmost(g, rules[..k + 1]) == Leftmost(g, rules[..k]) + LeftOf(g, rules[k])
  {
    assert rules[..k + 1][..k] == rules[..k];
  }

  method EFFRow(g: Grammar, rules: seq<int>, EFF: array2<bv32>, row: nat)
    requires WellFormed(g) && AreRules(g, rules)
    requires EFF.Length0 == VarCount(g) <= 32 * EFF.Length1 && row < EFF.Length0
    requires Rows(EFF)[row] == {}
    modifies EFF
    ensures Rows(EFF) == old(Rows(EFF))[row := Leftmost(g, rules)]
  {
    ghost var rows := Rows(EFF);
    var k := 0;
    UpdateTwice(rows, row, {}, {});
    while k < |rules|
      invariant k <= |rules|
      invariant AreRules(g, rules[..k])
      invariant Rows(EFF) == rows[row := Leftmost(g, rules[..k])]
    {
      LeftmostNext(g, rules, k);
      AddLeft(g, EFF, row, rules[k], rows, Leftmost(g, rules[..k]));
      k := k + 1;
    }
    assert rules[..|rules|] == rules;
  }

  method SetEFF(g: Grammar, derives: array<seq<int>>) returns (EFF: array2<bv32>)
    requires WellFormed(g) && DerivesOk(g, derives)
    ensures fresh(EFF) && EFF.Length0 == VarCount(g) && EFF.Length1 == WordSize(VarCount(g))
    ensures forall b, c :: 0 <= b < VarCount(g) && 0 <= c < VarCount(g) ==>
      (c in Rows(EFF)[b] <==> Reach(Left(g), b, c))
  {
    var n := VarCount(g);
    WordSizeFits(n);
    EFF := NewRows(n, WordSize(n));
    var row := 0;
    while row < n
      invariant row <= n && DerivesOk(g, derives)
      invariant |Rows(EFF)| == n
      invariant forall b :: 0 <= b < n ==> Rows(EFF)[b] == if b < row then Left(g)[b] else {}
    {
      LeftmostAll(g, row);
      EFFRow(g, derives[g.ntokens + row], EFF, row);
      row := row + 1;
    }
    assert forall b :: 0 <= b < n ==> RelationOf(Rows(EFF))[b] == Left(g)[b];
    assert RelationOf(Rows(EFF)) == Left(g);
    ReflexiveTransitiveClosure(EFF);
  }

  /** The rules of the nonterminals below c that the row holds. */
  ghost function RulesBelow(g: Grammar, vrow: set<int>, c: int): (rs: set<int>)
    requires WellFormed(g)
    ensures forall r :: r in rs <==> 2 <= r < |g.rlhs| && g.rlhs[r] - g.ntokens < c && g.rlhs[r] - g.ntokens in vrow
  {
    set r | 2 <= r < |g.rlhs| && g.rlhs[r] - g.ntokens < c && g.rlhs[r] - g.ntokens in vrow
  }

  lemma RulesBelowNext(g: Grammar, vrow: set<int>, c: int)
    requires WellFormed(g) && 0 <= c < VarCount(g)
    ensures AreRules(g, RulesFor(g, g.ntokens + c))
    ensures RulesBelow(g, vrow, c + 1) ==
      RulesBelow(g, vrow, c) + if c in vrow then Elems(RulesFor(g, g.ntokens + c)) else {}
  {
    DerivesAreRules(g, c);
  }

  lemma NoRulesBelow(g: Grammar, vrow: set<int>)
    requires WellFormed(g)
    ensures RulesBelow(g, vrow, 0) == {}
  {
    forall r | 2 <= r < |g.rlhs| ensures g.rlhs[r] >= g.ntokens {
      RuleBounds(g, r);
    }
  }

  method AddVar(g: Grammar, derives: array<seq<int>>, fd: array2<bv32>, row: nat, j: nat, found: bool, ghost rows: seq<set<int>>, ghost vrow: set<int>)
    requires WellFormed(g) && DerivesOk(g, derives) && j < VarCount(g)
    requires row < fd.Length0 == |rows| && |g.rlhs| <= 32 * fd.Length1
    requires found <==> j in vrow
    requires Rows(fd) == rows[row := RulesBelow(g, vrow, j)]
    modifies fd
    ensures Rows(fd) == rows[row := RulesBelow(g, vrow, j + 1)]
  {
    RulesBelowNext(g, vrow, j);
    ghost var before := RulesBelow(g, vrow, j);
    if found {
      AddBits(fd, row, derives[g.ntokens + j], rows, before);
    } else {
      assert before + {} == before;
    }
  }

  lemma RowStart(g: Grammar, rows: seq<set<int>>, row: nat, vrow: set<int>)
    requires WellFormed(g) && row < |rows| && rows[row] == {}
    ensures rows == rows[row := RulesBelow(g, vrow, 0)]
  {
    NoRulesBelow(g, vrow);
    UpdateTwice(rows, row, {}, {});
  }

  /** The body of the loop over one row's nonterminals. */
  method FirstDerivesVar(g: Grammar, derives: array<seq<int>>, EFF: array2<bv32>, fd: array2<bv32>, row: nat, mask: bv32, vword: nat, j: nat, ghost rows: seq<set<int>>, ghost vrow: set<int>) returns (mask': bv32, vword': nat)
    requires WellFormed(g) && DerivesOk(g, derives) && fd != EFF && j < VarCount(g)
    requires EFF.Length0 == VarCount(g) <= 32 * EFF.Length1 && At(mask, vword, j)
    requires row < fd.Length0 == |rows| == VarCount(g) && |g.rlhs| <= 32 * fd.Length1
    requires Rows(EFF)[row] == vrow && Rows(fd) == rows[row := RulesBelow(g, vrow, j)]
    modifies fd
    ensures Rows(fd) == rows[row := RulesBelow(g, vrow, j + 1)] && At(mask', vword', j + 1)
  {
    var found := TestMask(EFF, row, vword, mask, j);
    AddVar(g, derives, fd, row, j, found, rows, vrow);
    mask', vword' := NextColumn(mask, vword, j);
  }

  method FirstDerivesRow(g: Grammar, derives: array<seq<int>>, EFF: array2<bv32>, fd: array2<bv32>, row: nat)
    requires WellFormed(g) && DerivesOk(g, derives) && fd != EFF
    requires EFF.Length0 == VarCount(g) <= 32 * EFF.Length1
    requires fd.Length0 == VarCount(g) && |g.rlhs| <= 32 * fd.Length1 && row < fd.Length0
    requires Rows(fd)[row] == {}
    modifies fd
    ensures Rows(fd) == old(Rows(fd))[row := RulesBelow(g, Rows(EFF)[row], VarCount(g))]
  {
    hide RulesBelow, WellFormed, DerivesOk;
    ghost var rows, vrow := Rows(fd), Rows(EFF)[row];
    RowStart(g, rows, row, vrow);
    var vword, mask: bv32, j := 0, 1, 0;
    while j < VarCount(g)
      invariant j <= VarCount(g) && At(mask, vword, j)
      invariant DerivesOk(g, derives) && Rows(EFF)[row] == vrow
      invariant Rows(fd) == rows[row := RulesBelow(g, vrow, j)]
    {
      mask, vword := FirstDerivesVar(g, derives, EFF, fd, row, mask, vword, j, rows, vrow);
      j := j + 1;
    }
  }

  ghost predicate FirstDerivesOk(g: Grammar, fd: array2<bv32>)
    requires WellFormed(g)
    reads fd
  {
    && fd.Length0 == VarCount(g) && fd.Length1 == WordSize(|g.rlhs|)
    && forall b, r :: 0 <= b < VarCount(g) ==> (r in Rows(fd)[b] <==> FirstDerives(g, b, r))
  }

  method SetFirstDerives(g: Grammar, derives: array<seq<int>>) returns (fd: array2<bv32>)
    requires WellFormed(g) && DerivesOk(g, derives)
    ensures fresh(fd) && FirstDerivesOk(g, fd)
  {
    hide WellFormed, Rows;
    WordSizeFits(|g.rlhs|);
    WordSizeFits(VarCount(g));
    var EFF := SetEFF(g, derives);
    fd := NewRows(VarCount(g), WordSize(|g.rlhs|));
    ghost var eff := Rows(EFF);
    var i := 0;
    while i < VarCount(g)
      invariant i <= VarCount(g) && DerivesOk(g, derives) && Rows(EFF) == eff
      invariant |Rows(fd)| == VarCount(g)
      invariant forall b :: 0 <= b < VarCount(g) ==> Rows(fd)[b] == if b < i then RulesBelow(g, eff[b], VarCount(g)) else {}
    {
      FirstDerivesRow(g, derives, EFF, fd, i);
      i := i + 1;
    }
    forall b, r | 0 <= b < VarCount(g)
      ensures r in Rows(fd)[b] <==> FirstDerives(g, b, r)
    {
      if 2 <= r < |g.rlhs| { RuleBounds(g, r); }
    }
  }
}
