/** reader.c, pack_grammar: from the rules as they were read to the packed grammar
    that every later stage works on. */
module GrammarPacking {
  import opened Grammar
  import opened Derivation
  import opened Actions
  import opened Words
  import opened Reader

  /** What pack_symbols has found for each symbol: its packed number, and for
      tokens their precedence. */
  datatype Symbols = Symbols(ntokens: nat, nsyms: nat, index: seq<int>, term: seq<bool>, prec: seq<int>, assoc: seq<Assoc>)

  ghost predicate SymbolsOk(S: Symbols) {
    && 1 <= S.ntokens && S.ntokens + 2 <= S.nsyms
    && |S.index| == |S.term| == |S.prec| == |S.assoc|
    && forall b :: 0 < b < |S.index| ==> 0 < S.index[b] < S.nsyms && S.index[b] != S.ntokens && (S.term[b] <==> S.index[b] < S.ntokens)
  }

  /** b is a symbol; the left-hand side of a rule is a nonterminal. */
  ghost predicate RhsKnown(S: Symbols, r: seq<int>) {
    forall m :: 0 <= m < |r| ==> 0 < r[m] < |S.index|
  }

  ghost predicate AllKnown(S: Symbols, rules: seq<seq<int>>, lhs: seq<int>)
    requires |S.term| == |S.index|
  {
    && (forall k :: 0 <= k < |rules| ==> RhsKnown(S, rules[k]))
    && (forall k :: 3 <= k < |lhs| ==> 0 < lhs[k] < |S.index| && !S.term[lhs[k]])
  }

  // ----- where the rules lie

  ghost function Pos(rules: seq<seq<int>>, k: nat): nat
    requires k <= |rules|
  {
    4 + |Flat(rules[..k])|
  }

  lemma {:induction false} FlatAt(rules: seq<seq<int>>, k: nat)
    requires k < |rules|
    ensures |Flat(rules[..k])| + |rules[k]| + 1 == |Flat(rules[..k + 1])| <= |Flat(rules)|
    ensures Flat(rules)[|Flat(rules[..k])|..|Flat(rules[..k + 1])|] == rules[k] + [0]
  {
    var n := |rules| - 1;
    assert rules[..k + 1][..k] == rules[..k];
    if k == n {
      assert rules[..k + 1] == rules;
    } else {
      FlatAt(rules[..n], k);
      assert rules[..n][..k] == rules[..k] && rules[..n][..k + 1] == rules[..k + 1];
    }
  }

  lemma ItemsOfRule(rules: seq<seq<int>>, k: nat)
    requires k < |rules|
    ensures Pos(rules, k + 1) == Pos(rules, k) + |rules[k]| + 1 <= |Items(rules, [])|
    ensures forall m :: Pos(rules, k) <= m < Pos(rules, k) + |rules[k]| ==> Items(rules, [])[m] == rules[k][m - Pos(rules, k)]
    ensures Items(rules, [])[Pos(rules, k) + |rules[k]|] == 0
  {
    FlatAt(rules, k);
    var p, f := |Flat(rules[..k])|, Flat(rules);
    assert forall m :: 0 <= m <= |rules[k]| ==> f[p..|Flat(rules[..k + 1])|][m] == (rules[k] + [0])[m];
    assert forall m :: 4 <= m < 4 + |f| ==> Items(rules, [])[m] == f[m - 4];
  }

  // ----- a packed rule

  /** Rule k stands in ritem. */
  ghost predicate InPlace(S: Symbols, ritem: seq<int>, from: nat, r: seq<int>, k: int) {
    && from + |r| < |ritem| && ritem[from + |r|] == -k && RhsKnown(S, r)
    && forall m :: from <= m < from + |r| ==> ritem[m] == S.index[r[m - from]]
  }

  ghost predicate RulePacked(S: Symbols, ritem: seq<int>, rules: seq<seq<int>>, k: int) {
    3 <= k < |rules| + 3 && InPlace(S, ritem, Pos(rules, k - 3), rules[k - 3], k)
  }

  /** The precedence of the last token of a right-hand side. */
  ghost function LastPrec(S: Symbols, r: seq<int>): (int, Assoc)
    requires SymbolsOk(S) && RhsKnown(S, r)
  {
    if r == [] then (0, Token)
    else
      var b := r[|r| - 1];
      if S.term[b] then (S.prec[b], S.assoc[b]) else LastPrec(S, r[..|r| - 1])
  }

  /** The inner loop: one right-hand side. */
  method PackRule(S: Symbols, pitem: array<int>, ritem: array<int>, j0: nat, k: int, ghost r: seq<int>) returns (j: nat, prec: int, assoc: Assoc)
    requires SymbolsOk(S) && RhsKnown(S, r) && NoZero(r) && pitem != ritem
    requires j0 + |r| < pitem.Length && j0 + |r| < ritem.Length && pitem[j0 + |r|] == 0
    requires forall m :: j0 <= m < j0 + |r| ==> pitem[m] == r[m - j0]
    modifies ritem
    ensures j == j0 + |r| + 1 && InPlace(S, ritem[..], j0, r, k) && (prec, assoc) == LastPrec(S, r)
    ensures forall m :: 0 <= m < j0 ==> ritem[m] == old(ritem[m])
  {
    j, prec, assoc := j0, 0, Token;
    while pitem[j] != 0
      invariant j0 <= j <= j0 + |r|
      invariant forall m :: j0 <= m < j ==> ritem[m] == S.index[r[m - j0]]
      invariant forall m :: 0 <= m < j0 ==> ritem[m] == old(ritem[m])
      invariant (prec, assoc) == LastPrec(S, r[..j - j0])
      decreases j0 + |r| - j
    {
      assert r[..j + 1 - j0][..j - j0] == r[..j - j0];
      var b := pitem[j];
      ritem[j] := S.index[b];
      if S.term[b] {
        prec, assoc := S.prec[b], S.assoc[b];
      }
      j := j + 1;
    }
    assert r[..|r|] == r;
    ritem[j] := -k;
    j := j + 1;
  }

  lemma PackedStays(S: Symbols, ritem: seq<int>, next: seq<int>, rules: seq<seq<int>>, k: int, n: nat)
    requires RulePacked(S, ritem, rules, k) && k - 3 < n <= |rules| && |ritem| == |next|
    requires forall m :: 0 <= m < Pos(rules, n) && m < |ritem| ==> next[m] == ritem[m]
    ensures RulePacked(S, next, rules, k)
  {
    PosMono(rules, k - 3, n);
  }

  lemma {:induction false} PosMono(rules: seq<seq<int>>, k: nat, n: nat)
    requires k < n <= |rules|
    ensures Pos(rules, k) + |rules[k]| < Pos(rules, n)
  {
    FlatAt(rules, n - 1);
    if k < n - 1 { PosMono(rules, k, n - 1); }
  }

  /** What a packed grammar is to hold. */
  ghost predicate Packs(S: Symbols, goal: int, rules: seq<seq<int>>, lhs: seq<int>, g: Grammar) {
    && 0 < goal < |S.index| && |lhs| == |rules| + 3 && |g.rlhs| == |lhs| && |g.rrhs| == |lhs| + 1
    && g.ntokens == S.ntokens && g.nsyms == S.nsyms
    && |g.ritem| == Pos(rules, |rules|) && g.ritem[..4] == [-1, S.index[goal], 0, -2]
    && g.rlhs[..3] == [0, 0, S.ntokens] && g.rrhs[..3] == [0, 0, 1]
    && (forall k :: 3 <= k < |lhs| ==> 0 < lhs[k] < |S.index| && g.rlhs[k] == S.index[lhs[k]])
    && (forall k :: 3 <= k <= |lhs| ==> g.rrhs[k] == Pos(rules, k - 3))
    && (forall k :: 3 <= k < |lhs| ==> RulePacked(S, g.ritem, rules, k))
  }

  /** The three rules every grammar begins with. */
  lemma PackedStart(S: Symbols, goal: int, rules: seq<seq<int>>, lhs: seq<int>, g: Grammar)
    requires |S.index| == |S.term| && Packs(S, goal, rules, lhs, g)
    ensures g.ritem[0] == -1 && g.ritem[1] == S.index[goal] && g.ritem[2] == 0 && g.ritem[3] == -2
    ensures g.rlhs[0] == 0 && g.rlhs[1] == 0 && g.rlhs[2] == S.ntokens
    ensures g.rrhs[0] == 0 && g.rrhs[1] == 0 && g.rrhs[2] == 1 && g.rrhs[3] == 4
  {
    hide RulePacked;
    var i, l, r := g.ritem[..4], g.rlhs[..3], g.rrhs[..3];
    assert i[0] == g.ritem[0] && i[1] == g.ritem[1] && i[2] == g.ritem[2] && i[3] == g.ritem[3];
    assert l[0] == g.rlhs[0] && l[1] == g.rlhs[1] && l[2] == g.rlhs[2];
    assert r[0] == g.rrhs[0] && r[1] == g.rrhs[1] && r[2] == g.rrhs[2];
    PosZero(rules);
  }

  lemma PosZero(rules: seq<seq<int>>)
    ensures Pos(rules, 0) == 4
  {
  }

  /** A packed grammar is well-formed. */
  lemma PackedIsWellFormed(S: Symbols, goal: int, rules: seq<seq<int>>, lhs: seq<int>, g: Grammar)
    requires SymbolsOk(S) && AllKnown(S, rules, lhs) && Packs(S, goal, rules, lhs, g) && S.index[goal] == S.ntokens + 1
    ensures WellFormed(g)
  {
    PackedStart(S, goal, rules, lhs, g);
    hide AllKnown, RulePacked, RuleOk;
    assert g.rrhs[|lhs|] == Pos(rules, |rules|);
    forall k | 3 <= k < |lhs| ensures RuleOk(g, k) {
      PackedRuleOk(S, goal, rules, lhs, g, k);
    }
  }

  /** Its rules are the ones read. */
  lemma PackedSpells(S: Symbols, goal: int, rules: seq<seq<int>>, lhs: seq<int>, g: Grammar, k: int)
    requires SymbolsOk(S) && AllKnown(S, rules, lhs) && Packs(S, goal, rules, lhs, g) && 3 <= k < |lhs|
    requires WellFormed(g)
    ensures 0 <= lhs[k] < |S.index| && g.rlhs[k] == S.index[lhs[k]] && SpellsRule(S, g, k, rules[k - 3])
  {
    hide WellFormed, RuleOk, SpellsRule;
    PackedRuleOk(S, goal, rules, lhs, g, k);
    assert RulePacked(S, g.ritem, rules, k);
    RhsSpells(S, g, k, rules[k - 3]);
  }

  /** The right-hand side of rule k, symbol by symbol. */
  ghost predicate SpellsRule(S: Symbols, g: Grammar, k: int, r: seq<int>)
    requires WellFormed(g)
  {
    && RhsKnown(S, r) && IsRuleNo(g, k) && |Rhs(g, k)| == |r|
    && forall m :: 0 <= m < |r| ==> Rhs(g, k)[m] == S.index[r[m]]
  }

  lemma RhsSpells(S: Symbols, g: Grammar, k: int, r: seq<int>)
    requires WellFormed(g) && RhsKnown(S, r) && 3 <= k < |g.rlhs| && k + 1 < |g.rrhs|
    requires g.rrhs[k + 1] == g.rrhs[k] + |r| + 1 && 0 <= g.rrhs[k] && g.rrhs[k] + |r| < |g.ritem|
    requires forall m :: g.rrhs[k] <= m < g.rrhs[k] + |r| ==> g.ritem[m] == S.index[r[m - g.rrhs[k]]]
    ensures SpellsRule(S, g, k, r)
  {
    hide WellFormed;
    var rhs := Rhs(g, k);
    assert rhs == g.ritem[g.rrhs[k]..g.rrhs[k] + |r|];
    forall m | 0 <= m < |r| ensures rhs[m] == S.index[r[m]] {
      assert rhs[m] == g.ritem[g.rrhs[k] + m];
    }
  }

  /** Every rule has its left-hand side and its right-hand side. */
  ghost predicate SpellsAll(S: Symbols, g: Grammar, rules: seq<seq<int>>, lhs: seq<int>)
    requires WellFormed(g)
  {
    && |g.rlhs| == |lhs| == |rules| + 3
    && forall k :: 3 <= k < |lhs| ==> 0 <= lhs[k] < |S.index| && g.rlhs[k] == S.index[lhs[k]] && SpellsRule(S, g, k, rules[k - 3])
  }

  lemma PackedCount(S: Symbols, goal: int, rules: seq<seq<int>>, lhs: seq<int>, g: Grammar)
    requires Packs(S, goal, rules, lhs, g)
    ensures |g.rlhs| == |lhs| == |rules| + 3
  {
    hide RulePacked;
  }

  lemma PackedSpellsAll(S: Symbols, goal: int, rules: seq<seq<int>>, lhs: seq<int>, g: Grammar)
    requires SymbolsOk(S) && AllKnown(S, rules, lhs) && Packs(S, goal, rules, lhs, g) && WellFormed(g)
    ensures SpellsAll(S, g, rules, lhs)
  {
    hide WellFormed, SpellsRule, RulePacked, Packs, AllKnown, SymbolsOk;
    PackedCount(S, goal, rules, lhs, g);
    forall k | 3 <= k < |lhs| ensures 0 <= lhs[k] < |S.index| && g.rlhs[k] == S.index[lhs[k]] && SpellsRule(S, g, k, rules[k - 3]) {
      PackedSpells(S, goal, rules, lhs, g, k);
    }
  }

  lemma PackedRuleOk(S: Symbols, goal: int, rules: seq<seq<int>>, lhs: seq<int>, g: Grammar, k: int)
    requires SymbolsOk(S) && AllKnown(S, rules, lhs) && Packs(S, goal, rules, lhs, g) && 3 <= k < |lhs|
    ensures RuleOk(g, k) && g.rrhs[k + 1] == g.rrhs[k] + |rules[k - 3]| + 1
    ensures forall m :: g.rrhs[k] <= m < g.rrhs[k] + |rules[k - 3]| ==> g.ritem[m] == S.index[rules[k - 3][m - g.rrhs[k]]]
  {
    assert RulePacked(S, g.ritem, rules, k);
    FlatAt(rules, k - 3);
  }

  /** Rules 3 to i - 1 are packed. */
  ghost predicate RulesPackedTo(S: Symbols, rules: seq<seq<int>>, lhs: seq<int>, ritem: seq<int>, rlhs: seq<int>, rrhs: seq<int>, i: int) {
    && 3 <= i <= |lhs| == |rules| + 3 && |rlhs| == |rrhs| == i && |ritem| >= 4
    && rlhs[..3] == [0, 0, S.ntokens] && rrhs[..3] == [0, 0, 1]
    && (forall k :: 3 <= k < i ==> 0 < lhs[k] < |S.index| && rlhs[k] == S.index[lhs[k]] && rrhs[k] == Pos(rules, k - 3))
    && (forall k :: 3 <= k < i ==> RulePacked(S, ritem, rules, k))
  }

  lemma PackedMore(S: Symbols, rules: seq<seq<int>>, lhs: seq<int>, was: seq<int>, ritem: seq<int>, rlhs: seq<int>, rrhs: seq<int>, i: int)
    requires RulesPackedTo(S, rules, lhs, was, rlhs, rrhs, i) && i < |lhs| && 0 < lhs[i] < |S.index| && |was| == |ritem|
    requires forall m :: 0 <= m < Pos(rules, i - 3) && m < |was| ==> ritem[m] == was[m]
    requires RulePacked(S, ritem, rules, i)
    ensures RulesPackedTo(S, rules, lhs, ritem, rlhs + [S.index[lhs[i]]], rrhs + [Pos(rules, i - 3)], i + 1)
  {
    forall k | 3 <= k < i ensures RulePacked(S, ritem, rules, k) {
      PackedStays(S, was, ritem, rules, k, i - 3);
    }
  }

  lemma PackedAll(S: Symbols, goal: int, rules: seq<seq<int>>, lhs: seq<int>, ritem: seq<int>, rlhs: seq<int>, rrhs: seq<int>)
    requires RulesPackedTo(S, rules, lhs, ritem, rlhs, rrhs, |lhs|) && 0 < goal < |S.index|
    requires ritem[..4] == [-1, S.index[goal], 0, -2] && |ritem| == Pos(rules, |rules|)
    ensures Packs(S, goal, rules, lhs, Grammar(S.ntokens, S.nsyms, ritem, rlhs, rrhs + [|ritem|]))
  {
  }

  /** The precedence of a rule: its own, or that of its last token. */
  ghost predicate PrecIs(S: Symbols, r: seq<int>, own: int, ownAssoc: Assoc, prec: int, assoc: Assoc)
    requires SymbolsOk(S)
  {
    RhsKnown(S, r) && (prec, assoc) == if own == UNDEFINED then LastPrec(S, r) else (own, ownAssoc)
  }

  /** The items of rule i. */
  method NextRule(S: Symbols, R: Rules, ritem: array<int>, j0: nat, i: int) returns (j: nat, prec: int, assoc: Assoc)
    requires R.Valid() && R.cur == [] && SymbolsOk(S) && 3 <= i < R.nrules && RhsKnown(S, R.done[i - 3])
    requires ritem != R.pitem && ritem.Length == R.nitems && j0 == Pos(R.done, i - 3)
    modifies ritem
    ensures j == Pos(R.done, i - 2) && RulePacked(S, ritem[..], R.done, i) && (prec, assoc) == LastPrec(S, R.done[i - 3])
    ensures forall m :: 0 <= m < j0 && m < ritem.Length ==> ritem[m] == old(ritem[m])
  {
    ItemsOfRule(R.done, i - 3);
    assert forall m :: 0 <= m < R.nitems ==> R.pitem[m] == Items(R.done, [])[m];
    j, prec, assoc := PackRule(S, R.pitem, ritem, j0, i, R.done[i - 3]);
  }

  /** The loop over the rules. */
  method PackRules(S: Symbols, R: Rules, ritem: array<int>) returns (rlhs: seq<int>, rrhs: seq<int>, j: nat, rprec: seq<int>, rassoc: seq<Assoc>)
    requires R.Valid() && R.cur == [] && SymbolsOk(S) && AllKnown(S, R.done, R.plhs[..R.nrules])
    requires ritem != R.pitem && ritem != R.plhs && ritem != R.rprec && ritem.Length == R.nitems
    modifies ritem
    ensures RulesPackedTo(S, R.done, R.plhs[..R.nrules], ritem[..], rlhs, rrhs, R.nrules) && ritem[..4] == old(ritem[..4])
    ensures |rprec| == |rassoc| == R.nrules && j == Pos(R.done, |R.done|)
    ensures forall k :: 3 <= k < R.nrules ==> PrecIs(S, R.done[k - 3], R.rprec[k], R.rassoc[k], rprec[k], rassoc[k])
  {
    ghost var rules, lhs := R.done, R.plhs[..R.nrules];
    rlhs, rrhs := [0, 0, S.ntokens], [0, 0, 1];
    rprec, rassoc := R.rprec[..3], R.rassoc[..3];
    j := 4;
    for i := 3 to R.nrules
      invariant j == Pos(rules, i - 3) && |rprec| == |rassoc| == i && ritem[..4] == old(ritem[..4])
      invariant RulesPackedTo(S, rules, lhs, ritem[..], rlhs, rrhs, i)
      invariant forall k :: 3 <= k < i ==> PrecIs(S, rules[k - 3], R.rprec[k], R.rassoc[k], rprec[k], rassoc[k])
    {
      ghost var was := ritem[..];
      var start, prec, assoc := j, 0, Token;
      j, prec, assoc := NextRule(S, R, ritem, start, i);
      PackedMore(S, rules, lhs, was, ritem[..], rlhs, rrhs, i);
      assert ritem[..4] == was[..4];
      rlhs, rrhs := rlhs + [S.index[R.plhs[i]]], rrhs + [start];
      rprec := rprec + [if R.rprec[i] == UNDEFINED then prec else R.rprec[i]];
      rassoc := rassoc + [if R.rprec[i] == UNDEFINED then assoc else R.rassoc[i]];
    }
  }

  lemma PosEnd(rules: seq<seq<int>>)
    ensures Pos(rules, |rules|) == |Items(rules, [])|
  {
    assert rules[..|rules|] == rules;
  }

  /** pack_grammar: the packed grammar is well-formed and holds the rules as they
      were read, in packed numbers. */
  method PackGrammar(S: Symbols, goal: int, R: Rules) returns (g: Grammar, rprec: seq<int>, rassoc: seq<Assoc>)
    requires R.Valid() && R.cur == [] && SymbolsOk(S) && AllKnown(S, R.done, R.plhs[..R.nrules])
    requires 0 < goal < |S.index| && S.index[goal] == S.ntokens + 1
    ensures WellFormed(g) && g.ntokens == S.ntokens && g.nsyms == S.nsyms && |g.rlhs| == R.nrules == |rprec| == |rassoc|
    ensures SpellsAll(S, g, R.done, R.plhs[..R.nrules])
    ensures forall k :: 3 <= k < R.nrules ==> PrecIs(S, R.done[k - 3], R.rprec[k], R.rassoc[k], rprec[k], rassoc[k])
  {
    hide SpellsAll, WellFormed, Packs, RulePacked, PrecIs, Pos, SymbolsOk, RhsKnown;
    ghost var rules, lhs := R.done, R.plhs[..R.nrules];
    var ritem := new int[R.nitems];
    ritem[0], ritem[1], ritem[2], ritem[3] := -1, S.index[goal], 0, -2;
    var rlhs, rrhs, j;
    rlhs, rrhs, j, rprec, rassoc := PackRules(S, R, ritem);
    PosEnd(rules);
    assert |R.pitem[..R.nitems]| == R.nitems;
    PackedAll(S, goal, rules, lhs, ritem[..], rlhs, rrhs);
    g := Grammar(S.ntokens, S.nsyms, ritem[..], rlhs, rrhs + [j]);
    PackedIsWellFormed(S, goal, rules, lhs, g);
    PackedSpellsAll(S, goal, rules, lhs, g);
    assert lhs == R.plhs[..R.nrules];
  }
}
