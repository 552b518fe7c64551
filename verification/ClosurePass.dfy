/** closure.c, closure: merge a strictly increasing nucleus with the start items
    named by a bit row of rules, in one pass over the words of the row. */
module ClosurePass {
  import opened Bits
  import opened Grammar
  import opened ClosureTables

  ghost predicate Increasing(s: seq<int>) {
    forall i, j :: 0 <= i < j < |s| ==> s[i] < s[j]
  }

  ghost predicate ItemSeq(g: Grammar, s: seq<int>) {
    Increasing(s) && forall i :: 0 <= i < |s| ==> 1 <= s[i] < |g.ritem|
  }

  /** Drop the leading elements equal to x. */
  ghost function SkipEqual(s: seq<int>, x: int): seq<int> {
    if s != [] && s[0] == x then SkipEqual(s[1..], x) else s
  }

  /** What remains to be written from rule r on, `nuc` being the rest of the
      nucleus. */
  ghost function Merge(g: Grammar, rs: set<int>, r: int, nuc: seq<int>): seq<int>
    requires WellFormed(g)
    decreases |g.rlhs| - r, |nuc|
  {
    if r >= |g.rlhs| then nuc
    else if r !in rs || r < 0 then Merge(g, rs, r + 1, nuc)
    else if nuc != [] && nuc[0] < g.rrhs[r] then [nuc[0]] + Merge(g, rs, r, nuc[1..])
    else [g.rrhs[r]] + Merge(g, rs, r + 1, SkipEqual(nuc, g.rrhs[r]))
  }

  lemma MergeEnds(g: Grammar, rs: set<int>, r: int, nuc: seq<int>)
    requires WellFormed(g) && r >= |g.rlhs|
    ensures Merge(g, rs, r, nuc) == nuc
  {
  }

  lemma {:induction false} MergeSkip(g: Grammar, rs: set<int>, r: int, q: int, nuc: seq<int>)
    requires WellFormed(g) && r <= q
    requires forall k :: r <= k < q ==> k !in rs
    ensures Merge(g, rs, r, nuc) == Merge(g, rs, q, nuc)
    decreases q - r
  {
    if r < q {
      MergeSkip(g, rs, r + 1, q, nuc);
    }
  }

  ghost predicate AreRuleNumbers(g: Grammar, rs: set<int>) {
    forall r :: r in rs ==> 2 <= r < |g.rlhs|
  }

  /** The start items of the rules from r on. */
  ghost function StartsFrom(g: Grammar, rs: set<int>, r: int): set<int>
    requires WellFormed(g) && AreRuleNumbers(g, rs)
  {
    set k | k in rs && k >= r :: g.rrhs[k]
  }

  lemma {:induction false} SkipEqualElems(g: Grammar, s: seq<int>, x: int)
    requires ItemSeq(g, s)
    ensures ItemSeq(g, SkipEqual(s, x))
    ensures s == [] || s[0] >= x ==> forall y :: y in SkipEqual(s, x) ==> y > x
    ensures forall y :: y in s <==> y in SkipEqual(s, x) || (y == x && s != [] && s[0] == x)
  {
    if s != [] && s[0] == x {
      var t := s[1..];
      assert SkipEqual(t, x) == t by { if t != [] { assert s[0] < s[1]; } }
      assert s == [s[0]] + t;
    }
  }

  /** m is in order, lies above low, and holds nucleus and start items. */
  ghost predicate Merged(g: Grammar, rs: set<int>, r: int, nuc: seq<int>, low: int, m: seq<int>)
    requires WellFormed(g) && AreRuleNumbers(g, rs)
  {
    ItemSeq(g, m) && (forall y :: y in m ==> y > low) && Elems(m) == Elems(nuc) + StartsFrom(g, rs, r)
  }

  lemma TakeFromNucleus(g: Grammar, rs: set<int>, r: int, nuc: seq<int>, low: int, m: seq<int>)
    requires WellFormed(g) && AreRuleNumbers(g, rs) && ItemSeq(g, nuc) && nuc != []
    requires forall y :: y in nuc ==> y > low
    requires Merged(g, rs, r, nuc[1..], nuc[0], m)
    ensures Merged(g, rs, r, nuc, low, [nuc[0]] + m)
  {
    assert nuc == [nuc[0]] + nuc[1..];
    assert nuc[0] in nuc;
    ConsItem(g, nuc[0], m);
    ConsItem(g, nuc[0], nuc[1..]);
  }

  lemma TakeStart(g: Grammar, rs: set<int>, r: int, nuc: seq<int>, low: int, m: seq<int>)
    requires WellFormed(g) && AreRuleNumbers(g, rs) && ItemSeq(g, nuc) && r in rs
    requires nuc == [] || nuc[0] >= g.rrhs[r]
    requires g.rrhs[r] > low
    requires Merged(g, rs, r + 1, SkipEqual(nuc, g.rrhs[r]), g.rrhs[r], m)
    ensures Merged(g, rs, r, nuc, low, [g.rrhs[r]] + m)
  {
    var x := g.rrhs[r];
    RuleBounds(g, r);
    ConsItem(g, x, m);
    StartsFromNext(g, rs, r);
    SkipOnly(g, nuc, x);
    assert forall y :: y in [x] + m ==> y == x || y in m;
  }

  lemma StartsFromNext(g: Grammar, rs: set<int>, r: int)
    requires WellFormed(g) && AreRuleNumbers(g, rs) && r in rs
    ensures StartsFrom(g, rs, r) == StartsFrom(g, rs, r + 1) + {g.rrhs[r]}
  {
  }

  lemma SkipOnly(g: Grammar, nuc: seq<int>, x: int)
    requires ItemSeq(g, nuc)
    ensures Elems(nuc) + {x} == Elems(SkipEqual(nuc, x)) + {x}
  {
    SkipEqualElems(g, nuc, x);
  }

  /** The merge loses nothing, adds the start items, and stays in order. */
  lemma {:induction false} MergeIs(g: Grammar, rs: set<int>, r: int, nuc: seq<int>, low: int)
    requires WellFormed(g) && AreRuleNumbers(g, rs) && ItemSeq(g, nuc)
    requires forall y :: y in nuc ==> y > low
    requires forall k :: k in rs && k >= r ==> g.rrhs[k] > low
    ensures Merged(g, rs, r, nuc, low, Merge(g, rs, r, nuc))
    decreases |g.rlhs| - r, |nuc|
  {
    if r >= |g.rlhs| {
      assert StartsFrom(g, rs, r) == {};
    } else if r !in rs || r < 0 {
      MergeIs(g, rs, r + 1, nuc, low);
      assert StartsFrom(g, rs, r) == StartsFrom(g, rs, r + 1);
    } else {
      var x := g.rrhs[r];
      forall k | k in rs && k > r ensures g.rrhs[k] > x {
        RulesIncrease(g, r, k);
      }
      if nuc != [] && nuc[0] < x {
        AfterFirst(g, nuc);
        MergeIs(g, rs, r, nuc[1..], nuc[0]);
        TakeFromNucleus(g, rs, r, nuc, low, Merge(g, rs, r, nuc[1..]));
      } else {
        var rest := SkipEqual(nuc, x);
        SkipEqualElems(g, nuc, x);
        MergeIs(g, rs, r + 1, rest, x);
        TakeStart(g, rs, r, nuc, low, Merge(g, rs, r + 1, rest));
      }
    }
  }

  lemma AfterFirst(g: Grammar, nuc: seq<int>)
    requires ItemSeq(g, nuc) && nuc != []
    ensures ItemSeq(g, nuc[1..]) && forall y :: y in nuc[1..] ==> y > nuc[0]
  {
  }

  lemma ConsItem(g: Grammar, x: int, s: seq<int>)
    requires ItemSeq(g, s) && 1 <= x < |g.ritem| && forall y :: y in s ==> y > x
    ensures ItemSeq(g, [x] + s)
    ensures Elems([x] + s) == {x} + Elems(s)
  {
    var t := [x] + s;
    forall i, j | 0 <= i < j < |t| ensures t[i] < t[j] {
      assert s[j - 1] in s;
    }
  }

  /** A strictly increasing list of items has fewer than nitems entries. */
  lemma {:induction false} IncreasingBound(s: seq<int>, lo: int, hi: int)
    requires Increasing(s) && lo <= hi && forall i :: 0 <= i < |s| ==> lo <= s[i] < hi
    ensures |s| <= hi - lo
    decreases |s|
  {
    if s != [] {
      var k := |s| - 1;
      IncreasingBound(s[..k], lo, s[k]);
    }
  }

  /** The sorted closure of a nucleus. */
  ghost function ClosureSeq(g: Grammar, nucleus: seq<int>): seq<int>
    requires WellFormed(g) && ItemSeq(g, nucleus)
  {
    Merge(g, RuleSet(g, Elems(nucleus)), 0, nucleus)
  }

  /** `closure` computes exactly the least closed set around its nucleus, in
      increasing order and within the space of `itemset`. */
  lemma ClosureSeqIsClosure(g: Grammar, nucleus: seq<int>)
    requires WellFormed(g) && ItemSeq(g, nucleus)
    ensures ItemSeq(g, ClosureSeq(g, nucleus))
    ensures Elems(ClosureSeq(g, nucleus)) == Closure(g, Elems(nucleus))
    ensures |ClosureSeq(g, nucleus)| < |g.ritem|
  {
    var K := Elems(nucleus);
    var rs := RuleSet(g, K);
    forall k | k in rs ensures g.rrhs[k] > 0 {
      RuleBounds(g, k);
    }
    MergeIs(g, rs, 0, nucleus, 0);
    ClosureByTables(g, K);
    assert StartsFrom(g, rs, 0) == Starts(g, rs);
    IncreasingBound(ClosureSeq(g, nucleus), 1, |g.ritem|);
  }

  // ----- the pass itself

  /** ruleset takes in a row of first_derives, word by word. */
  method OrIntoRuleset(ruleset: array<bv32>, fd: array2<bv32>, row: nat)
    requires row < fd.Length0 && fd.Length1 == ruleset.Length
    modifies ruleset
    ensures RowSet(ruleset[..]) == old(RowSet(ruleset[..])) + Rows(fd)[row]
  {
    ghost var x, y := ruleset[..], Matrix(fd)[row];
    var w := 0;
    while w < ruleset.Length
      invariant w <= ruleset.Length
      invariant forall k :: 0 <= k < ruleset.Length ==> ruleset[k] == if k < w then x[k] | y[k] else x[k]
    {
      ruleset[w] := ruleset[w] | fd[row, w];
      w := w + 1;
    }
    RowUnion(x, y, ruleset[..]);
  }

  lemma RuleSetNext(g: Grammar, nucleus: seq<int>, n: nat)
    requires WellFormed(g) && ItemSeq(g, nucleus) && n < |nucleus|
    ensures IsKernel(g, Elems(nucleus[..n])) && IsKernel(g, Elems(nucleus[..n + 1]))
    ensures forall r :: r in RuleSet(g, Elems(nucleus[..n + 1])) <==>
      r in RuleSet(g, Elems(nucleus[..n])) || KernelDerives(g, nucleus[n], r)
  {
    ElemsNext(nucleus, n);
    var a, b := Elems(nucleus[..n]), Elems(nucleus[..n + 1]);
    forall r | KernelDerives(g, nucleus[n], r) ensures InRuleSet(g, b, r) {
      assert nucleus[n] in b;
    }
    forall r | InRuleSet(g, a, r) ensures InRuleSet(g, b, r) {
      var k :| k in a && KernelDerives(g, k, r);
      assert k in b;
    }
  }

  method GatherItem(g: Grammar, fd: array2<bv32>, nucleus: seq<int>, csp: nat, ruleset: array<bv32>)
    requires WellFormed(g) && FirstDerivesOk(g, fd) && ItemSeq(g, nucleus) && csp < |nucleus|
    requires ruleset.Length == WordSize(|g.rlhs|)
    requires IsKernel(g, Elems(nucleus[..csp])) && RowSet(ruleset[..]) == RuleSet(g, Elems(nucleus[..csp]))
    modifies ruleset
    ensures IsKernel(g, Elems(nucleus[..csp + 1]))
    ensures RowSet(ruleset[..]) == RuleSet(g, Elems(nucleus[..csp + 1]))
  {
    RuleSetNext(g, nucleus, csp);
    var symbol := g.ritem[nucleus[csp]];
    ghost var before, after := RuleSet(g, Elems(nucleus[..csp])), RuleSet(g, Elems(nucleus[..csp + 1]));
    if IsVar(g, symbol) {
      ghost var row := Rows(fd)[symbol - g.ntokens];
      forall r ensures r in row <==> KernelDerives(g, nucleus[csp], r) {
        assert r in row <==> FirstDerives(g, symbol - g.ntokens, r);
      }
      assert after == before + row;
      OrIntoRuleset(ruleset, fd, symbol - g.ntokens);
    } else {
      assert after == before;
    }
  }

  method GatherRules(g: Grammar, fd: array2<bv32>, nucleus: seq<int>, ruleset: array<bv32>)
    requires WellFormed(g) && FirstDerivesOk(g, fd) && ItemSeq(g, nucleus)
    requires ruleset.Length == WordSize(|g.rlhs|)
    modifies ruleset
    ensures RowSet(ruleset[..]) == RuleSet(g, Elems(nucleus))
  {
    var rsp := 0;
    while rsp < ruleset.Length
      invariant rsp <= ruleset.Length
      invariant forall k :: 0 <= k < rsp ==> ruleset[k] == 0
    {
      ruleset[rsp] := 0;
      rsp := rsp + 1;
    }
    RowZero(ruleset[..]);
    NoRules(g);
    assert nucleus[..0] == [];
    var csp := 0;
    while csp < |nucleus|
      invariant csp <= |nucleus|
      invariant IsKernel(g, Elems(nucleus[..csp]))
      invariant RowSet(ruleset[..]) == RuleSet(g, Elems(nucleus[..csp]))
    {
      GatherItem(g, fd, nucleus, csp, ruleset);
      csp := csp + 1;
    }
    assert nucleus[..|nucleus|] == nucleus;
  }

  lemma NoRules(g: Grammar)
    requires WellFormed(g)
    ensures IsKernel(g, Elems([])) && RuleSet(g, Elems([])) == {}
  {
  }

  /** One rule of the row: the nucleus items before its start item, the start
      item, and past its copies in the nucleus. */
  lemma MergeTake(g: Grammar, rs: set<int>, r: int, nucleus: seq<int>, c: nat)
    requires WellFormed(g) && 0 <= r < |g.rlhs| && r in rs && c < |nucleus| && nucleus[c] < g.rrhs[r]
    ensures Merge(g, rs, r, nucleus[c..]) == [nucleus[c]] + Merge(g, rs, r, nucleus[c + 1..])
  {
    assert nucleus[c..][1..] == nucleus[c + 1..];
  }

  lemma MergeStart(g: Grammar, rs: set<int>, r: int, nuc: seq<int>)
    requires WellFormed(g) && 0 <= r < |g.rlhs| && r in rs && (nuc != [] ==> nuc[0] >= g.rrhs[r])
    ensures Merge(g, rs, r, nuc) == [g.rrhs[r]] + Merge(g, rs, r + 1, SkipEqual(nuc, g.rrhs[r]))
  {
  }

  lemma SkipTake(nucleus: seq<int>, c: nat, x: int)
    requires c < |nucleus| && nucleus[c] == x
    ensures SkipEqual(nucleus[c..], x) == SkipEqual(nucleus[c + 1..], x)
  {
    assert nucleus[c..][1..] == nucleus[c + 1..];
  }

  lemma SkipNone(s: seq<int>, x: int)
    requires s != [] ==> s[0] != x
    ensures SkipEqual(s, x) == s
  {
  }

  method EmitRule(g: Grammar, ghost rs: set<int>, ruleno: nat, nucleus: seq<int>, csp: nat, itemset: array<int>, end: nat, ghost whole: seq<int>)
    returns (csp': nat, end': nat)
    requires WellFormed(g) && AreRuleNumbers(g, rs) && ruleno in rs
    requires csp <= |nucleus| && end <= itemset.Length && |whole| <= itemset.Length
    requires itemset[..end] + Merge(g, rs, ruleno, nucleus[csp..]) == whole
    modifies itemset
    ensures csp <= csp' <= |nucleus| && end <= end' <= itemset.Length
    ensures itemset[..end'] + Merge(g, rs, ruleno + 1, nucleus[csp'..]) == whole
  {
    hide Merge, SkipEqual;
    csp', end' := csp, end;
    var itemno := g.rrhs[ruleno];
    while csp' < |nucleus| && nucleus[csp'] < itemno
      invariant csp <= csp' <= |nucleus| && end <= end' <= itemset.Length
      invariant itemset[..end'] + Merge(g, rs, ruleno, nucleus[csp'..]) == whole
    {
      MergeTake(g, rs, ruleno, nucleus, csp');
      end' := Put(itemset, end', nucleus[csp'], Merge(g, rs, ruleno, nucleus[csp' + 1..]), whole);
      csp' := csp' + 1;
    }
    ghost var rest := nucleus[csp'..];
    MergeStart(g, rs, ruleno, rest);
    end' := Put(itemset, end', itemno, Merge(g, rs, ruleno + 1, SkipEqual(rest, itemno)), whole);
    while csp' < |nucleus| && nucleus[csp'] == itemno
      invariant csp <= csp' <= |nucleus|
      invariant SkipEqual(nucleus[csp'..], itemno) == SkipEqual(rest, itemno)
      invariant itemset[..end'] + Merge(g, rs, ruleno + 1, SkipEqual(rest, itemno)) == whole
    {
      SkipTake(nucleus, csp', itemno);
      csp' := csp' + 1;
    }
    SkipNone(nucleus[csp'..], itemno);
  }

  /** The next element x of the whole is appended to the item set. */
  method Put(itemset: array<int>, end: nat, x: int, ghost m: seq<int>, ghost whole: seq<int>) returns (end': nat)
    requires end <= itemset.Length && |whole| <= itemset.Length
    requires itemset[..end] + ([x] + m) == whole
    modifies itemset
    ensures end' == end + 1 <= itemset.Length && itemset[..end'] + m == whole
  {
    assert |whole| == end + (1 + |m|);
    ghost var before := itemset[..end];
    itemset[end] := x;
    end' := end + 1;
    assert itemset[..end'] == before + [x];
    assert (before + [x]) + m == before + ([x] + m);
  }

  /** The bits of word number w stand for the rules from 32*w on. */
  ghost predicate HoldsWord(rs: set<int>, word: bv32, w: nat) {
    forall r :: 32 * w <= r < 32 * w + 32 ==> (r in rs <==> r - 32 * w in BitsOf(word))
  }

  lemma ScanBit(rs: set<int>, word: bv32, w: nat, k: nat, mask: bv32)
    requires k < 32 && mask == Mask(k) && HoldsWord(rs, word, w)
    ensures Bit(word, mask) <==> 32 * w + k in rs
  {
  }

  lemma ShiftMask(k: nat, mask: bv32)
    requires k < 32 && mask == Mask(k)
    ensures Shift(mask) == 0 <==> k == 31
    ensures k < 31 ==> Shift(mask) == Mask(k + 1)
  {
    MaskWraps(k);
  }

  /** The test of one bit of the word, and the start item of its rule. */
  method EmitBit(g: Grammar, word: bv32, mask: bv32, ghost w: nat, ghost k: nat, ghost rs: set<int>, ruleno: nat, nucleus: seq<int>, csp: nat, itemset: array<int>, end: nat, ghost whole: seq<int>)
    returns (csp': nat, end': nat)
    requires WellFormed(g) && HoldsWord(rs, word, w) && AreRuleNumbers(g, rs)
    requires k < 32 && mask == Mask(k) && ruleno == 32 * w + k
    requires csp <= |nucleus| && end <= itemset.Length && |whole| <= itemset.Length
    requires itemset[..end] + Merge(g, rs, ruleno, nucleus[csp..]) == whole
    modifies itemset
    ensures csp <= csp' <= |nucleus| && end <= end' <= itemset.Length
    ensures itemset[..end'] + Merge(g, rs, ruleno + 1, nucleus[csp'..]) == whole
  {
    csp', end' := csp, end;
    ScanBit(rs, word, w, k, mask);
    if Bit(word, mask) {
      csp', end' := EmitRule(g, rs, ruleno, nucleus, csp', itemset, end', whole);
    } else {
      MergeSkip(g, rs, ruleno, ruleno + 1, nucleus[csp'..]);
    }
  }

  /** The loop `while (mask)` over one nonzero word of the row. */
  method EmitWord(g: Grammar, word: bv32, w: nat, ghost rs: set<int>, nucleus: seq<int>, csp: nat, itemset: array<int>, end: nat, ghost whole: seq<int>)
    returns (csp': nat, end': nat)
    requires WellFormed(g) && HoldsWord(rs, word, w) && AreRuleNumbers(g, rs)
    requires csp <= |nucleus| && end <= itemset.Length && |whole| <= itemset.Length
    requires itemset[..end] + Merge(g, rs, 32 * w, nucleus[csp..]) == whole
    modifies itemset
    ensures csp <= csp' <= |nucleus| && end <= end' <= itemset.Length
    ensures itemset[..end'] + Merge(g, rs, 32 * w + 32, nucleus[csp'..]) == whole
  {
    csp', end' := csp, end;
    var mask: bv32, ruleno := 1, 32 * w;
    ghost var k := 0;
    assert mask == Mask(0);
    while mask != 0
      invariant k <= 32 && ruleno == 32 * w + k
      invariant if k < 32 then mask == Mask(k) && mask != 0 else mask == 0
      invariant csp <= csp' <= |nucleus| && end <= end' <= itemset.Length
      invariant itemset[..end'] + Merge(g, rs, ruleno, nucleus[csp'..]) == whole
      decreases 32 - k
    {
      csp', end' := EmitBit(g, word, mask, w, k, rs, ruleno, nucleus, csp', itemset, end', whole);
      ShiftMask(k, mask);
      mask := Shift(mask);
      ruleno := ruleno + 1;
      k := k + 1;
    }
  }

  lemma WordOfRow(ws: seq<bv32>, w: nat)
    requires w < |ws|
    ensures HoldsWord(RowSet(ws), ws[w], w)
  {
    forall r | 32 * w <= r < 32 * w + 32
      ensures r in RowSet(ws) <==> r - 32 * w in BitsOf(ws[w])
    {
      assert r / 32 == w && r % 32 == r - 32 * w;
    }
  }

  lemma EmptyWord(rs: set<int>, word: bv32, w: nat)
    requires HoldsWord(rs, word, w) && word == 0
    ensures forall r :: 32 * w <= r < 32 * w + 32 ==> r !in rs
  {
    ZeroBits();
  }

  /** The loop over the words of ruleset. */
  method EmitRules(g: Grammar, nucleus: seq<int>, ruleset: array<bv32>, itemset: array<int>, ghost rs: set<int>)
    returns (csp: nat, itemsetend: nat)
    requires WellFormed(g) && AreRuleNumbers(g, rs) && RowSet(ruleset[..]) == rs
    requires |Merge(g, rs, 0, nucleus)| <= itemset.Length
    requires ruleset.Length == WordSize(|g.rlhs|) && ruleset as object != itemset as object
    modifies itemset
    ensures csp <= |nucleus| && itemsetend <= itemset.Length
    ensures itemset[..itemsetend] + nucleus[csp..] == Merge(g, rs, 0, nucleus)
  {
    hide RowSet, WellFormed, Merge, HoldsWord;
    ghost var whole := Merge(g, rs, 0, nucleus);
    ghost var ws := ruleset[..];
    var ruleno, rsp := 0, 0;
    csp, itemsetend := 0, 0;
    assert nucleus[0..] == nucleus;
    while rsp < ruleset.Length
      invariant rsp <= ruleset.Length && ruleno == 32 * rsp
      invariant ruleset[..] == ws
      invariant csp <= |nucleus| && itemsetend <= itemset.Length
      invariant itemset[..itemsetend] + Merge(g, rs, ruleno, nucleus[csp..]) == whole
    {
      var word := ruleset[rsp];
      WordOfRow(ws, rsp);
      if word == 0 {
        EmptyWord(rs, word, rsp);
        MergeSkip(g, rs, ruleno, ruleno + 32, nucleus[csp..]);
      } else {
        csp, itemsetend := EmitWord(g, word, rsp, rs, nucleus, csp, itemset, itemsetend, whole);
      }
      ruleno := ruleno + 32;
      rsp := rsp + 1;
    }
    WordSizeFits(|g.rlhs|);
    MergeEnds(g, rs, ruleno, nucleus[csp..]);
  }

  /** closure(nucleus, n): fills itemset and returns itemsetend. */
  method Close(g: Grammar, fd: array2<bv32>, nucleus: seq<int>, ruleset: array<bv32>, itemset: array<int>) returns (itemsetend: nat)
    requires WellFormed(g) && FirstDerivesOk(g, fd) && ItemSeq(g, nucleus)
    requires ruleset.Length == WordSize(|g.rlhs|) && itemset.Length == |g.ritem|
    requires ruleset as object != itemset as object
    modifies ruleset, itemset
    ensures itemsetend <= itemset.Length
    ensures itemset[..itemsetend] == ClosureSeq(g, nucleus)
  {
    GatherRules(g, fd, nucleus, ruleset);
    ghost var whole := ClosureSeq(g, nucleus);
    ClosureSeqIsClosure(g, nucleus);
    var csp;
    csp, itemsetend := EmitRules(g, nucleus, ruleset, itemset, RuleSet(g, Elems(nucleus)));
    while csp < |nucleus|
      invariant csp <= |nucleus| && itemsetend <= itemset.Length
      invariant itemset[..itemsetend] + nucleus[csp..] == whole
    {
      assert nucleus[csp..] == [nucleus[csp]] + nucleus[csp + 1..];
      itemsetend := Put(itemset, itemsetend, nucleus[csp], nucleus[csp + 1..], whole);
      csp := csp + 1;
    }
  }
}
