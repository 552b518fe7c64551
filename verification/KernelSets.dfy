/** lr0.c, allocate_itemsets and new_itemsets: the kernels of all successors of
    a state, collected in one array with a region for every symbol. */
module KernelSets {
  import opened Grammar
  import opened ClosurePass
  import opened Automaton

  /** Occurrences of X among the first n items. */
  ghost function Count(g: Grammar, X: int, n: nat): nat
    requires n <= |g.ritem|
  {
    if n == 0 then 0 else Count(g, X, n - 1) + if g.ritem[n - 1] == X then 1 else 0
  }

  /** Occurrences of the symbols below X. */
  ghost function Offset(g: Grammar, X: nat, n: nat): nat
    requires n <= |g.ritem|
  {
    if X == 0 then 0 else Offset(g, X - 1, n) + Count(g, X - 1, n)
  }

  lemma {:induction false} OffsetNext(g: Grammar, X: nat, n: nat)
    requires n < |g.ritem|
    ensures Offset(g, X, n + 1) == Offset(g, X, n) + if 0 <= g.ritem[n] < X then 1 else 0
  {
    if X > 0 { OffsetNext(g, X - 1, n); }
  }

  lemma {:induction false} OffsetZero(g: Grammar, X: nat)
    ensures Offset(g, X, 0) == 0
  {
    if X > 0 { OffsetZero(g, X - 1); }
  }

  lemma {:induction false} OffsetMono(g: Grammar, X: nat, Y: nat, n: nat)
    requires n <= |g.ritem| && X < Y
    ensures Offset(g, X, n) + Count(g, X, n) <= Offset(g, Y, n)
    decreases Y
  {
    if X < Y - 1 { OffsetMono(g, X, Y - 1, n); }
  }

  lemma {:induction false} CountMono(g: Grammar, X: int, m: nat, n: nat)
    requires m <= n <= |g.ritem|
    ensures Count(g, X, m) <= Count(g, X, n)
  {
    if m < n { CountMono(g, X, m, n - 1); }
  }

  /** A list of items cannot yield more successors on X than X has occurrences. */
  lemma {:induction false} GotoFits(g: Grammar, items: seq<int>, X: int, n: nat)
    requires ItemSeq(g, items) && n <= |g.ritem|
    requires forall k :: 0 <= k < |items| ==> items[k] < n
    ensures |GotoSeq(g, items, X)| <= Count(g, X, n)
    decreases |items|
  {
    if items != [] {
      var k := |items| - 1;
      GotoFits(g, items[..k], X, items[k]);
      CountMono(g, X, items[k] + 1, n);
    }
  }

  /** kernel_base: where the region of each symbol starts. */
  ghost predicate BasesOk(g: Grammar, kernelBase: array<int>, kernelItems: array<int>)
    reads kernelBase
  {
    && kernelBase.Length == g.nsyms
    && kernelItems.Length == Offset(g, g.nsyms, |g.ritem|)
    && forall X :: 0 <= X < g.nsyms ==> kernelBase[X] == Offset(g, X, |g.ritem|)
  }

  method CountSymbols(g: Grammar) returns (symbolCount: array<nat>, count: nat)
    requires WellFormed(g)
    ensures fresh(symbolCount) && symbolCount.Length == g.nsyms
    ensures forall X :: 0 <= X < g.nsyms ==> symbolCount[X] == Count(g, X, |g.ritem|)
    ensures count == Offset(g, g.nsyms, |g.ritem|)
  {
    symbolCount := new nat[g.nsyms](_ => 0);
    count := 0;
    OffsetZero(g, g.nsyms);
    var itemp := 0;
    while itemp < |g.ritem|
      invariant itemp <= |g.ritem|
      invariant forall X :: 0 <= X < g.nsyms ==> symbolCount[X] == Count(g, X, itemp)
      invariant count == Offset(g, g.nsyms, itemp)
    {
      var symbol := g.ritem[itemp];
      OffsetNext(g, g.nsyms, itemp);
      if symbol >= 0 {
        ItemSymbol(g, itemp);
        count := count + 1;
        symbolCount[symbol] := symbolCount[symbol] + 1;
      }
      itemp := itemp + 1;
    }
  }

  lemma OffsetNone(g: Grammar)
    ensures Offset(g, 0, |g.ritem|) == 0
  {
  }

  lemma OffsetStep(g: Grammar, X: nat)
    ensures Offset(g, X + 1, |g.ritem|) == Offset(g, X, |g.ritem|) + Count(g, X, |g.ritem|)
  {
  }

  method AllocateItemsets(g: Grammar) returns (kernelBase: array<int>, kernelItems: array<int>)
    requires WellFormed(g)
    ensures fresh(kernelBase) && fresh(kernelItems) && kernelBase != kernelItems && BasesOk(g, kernelBase, kernelItems)
  {
    hide WellFormed, Offset, Count;
    var symbolCount, total := CountSymbols(g);
    kernelBase := new int[g.nsyms];
    kernelItems := new int[total];
    var count, i := 0, 0;
    OffsetNone(g);
    while i < g.nsyms
      invariant i <= g.nsyms && count == Offset(g, i, |g.ritem|)
      invariant forall X :: 0 <= X < g.nsyms ==> symbolCount[X] == Count(g, X, |g.ritem|)
      invariant forall X :: 0 <= X < i ==> kernelBase[X] == Offset(g, X, |g.ritem|)
    {
      OffsetStep(g, i);
      kernelBase[i] := count;
      count := count + symbolCount[i];
      i := i + 1;
    }
  }

  /** The region of X holds the successor kernel on X; -1 stands for a null
      kernel_end. */
  ghost predicate RegionOk(g: Grammar, items: seq<int>, kernelEnd: seq<int>, kernelItems: seq<int>, X: int)
    requires ItemSeq(g, items) && |kernelEnd| == g.nsyms && 0 < X < g.nsyms
  {
    var goto, base := GotoSeq(g, items, X), Offset(g, X, |g.ritem|);
    if goto == [] then kernelEnd[X] == -1
    else kernelEnd[X] == base + |goto| <= |kernelItems| && kernelItems[base..kernelEnd[X]] == goto
  }

  ghost predicate RegionsOk(g: Grammar, items: seq<int>, kernelEnd: seq<int>, kernelItems: seq<int>)
    requires ItemSeq(g, items)
  {
    |kernelEnd| == g.nsyms && forall X :: 0 < X < g.nsyms ==> RegionOk(g, items, kernelEnd, kernelItems, X)
  }

  /** Where the next item for X goes. */
  ghost function Slot(g: Grammar, kEnd: seq<int>, X: int): int
    requires |kEnd| == g.nsyms && 0 < X < g.nsyms
  {
    if kEnd[X] == -1 then Offset(g, X, |g.ritem|) else kEnd[X]
  }

  lemma RegionRoom(g: Grammar, items: seq<int>, k: nat, kEnd: seq<int>, kItems: seq<int>)
    requires WellFormed(g) && ItemSeq(g, items) && k < |items| && g.ritem[items[k]] > 0
    requires |kItems| == Offset(g, g.nsyms, |g.ritem|)
    requires RegionsOk(g, items[..k], kEnd, kItems)
    ensures var X := g.ritem[items[k]];
      && 0 < X < g.nsyms
      && (kEnd[X] == -1 <==> X !in FirstSymbols(g, items[..k]))
      && Slot(g, kEnd, X) == Offset(g, X, |g.ritem|) + |GotoSeq(g, items[..k], X)|
      && Offset(g, X, |g.ritem|) <= Slot(g, kEnd, X) < |kItems|
      && Slot(g, kEnd, X) < Offset(g, X, |g.ritem|) + Count(g, X, |g.ritem|)
  {
    var X, n := g.ritem[items[k]], |g.ritem|;
    ItemSymbol(g, items[k]);
    assert items[..k + 1][..k] == items[..k];
    GotoFits(g, items[..k + 1], X, n);
    OffsetMono(g, X, g.nsyms, n);
    assert RegionOk(g, items[..k], kEnd, kItems, X);
    FirstSymbolElems(g, items[..k]);
    GotoEmpty(g, items[..k], X);
  }

  /** Appending an item to the region of its symbol ... */
  lemma RegionSame(g: Grammar, items: seq<int>, k: nat, kEnd: seq<int>, kItems: seq<int>, X: int, ksp: nat)
    requires WellFormed(g) && ItemSeq(g, items) && k < |items| && g.ritem[items[k]] == X > 0
    requires |kItems| == Offset(g, g.nsyms, |g.ritem|)
    requires RegionsOk(g, items[..k], kEnd, kItems)
    requires X < g.nsyms && ksp == Slot(g, kEnd, X) && ksp < |kItems|
    ensures RegionOk(g, items[..k + 1], kEnd[X := ksp + 1], kItems[ksp := items[k] + 1], X)
  {
    assert items[..k + 1][..k] == items[..k];
    assert RegionOk(g, items[..k], kEnd, kItems, X);
    RegionRoom(g, items, k, kEnd, kItems);
    var base, kItems' := Offset(g, X, |g.ritem|), kItems[ksp := items[k] + 1];
    assert kItems'[base..ksp] == kItems[base..ksp];
    assert kItems'[base..ksp + 1] == kItems'[base..ksp] + [items[k] + 1];
  }

  /** ... leaves the other regions alone. */
  lemma RegionOther(g: Grammar, items: seq<int>, k: nat, kEnd: seq<int>, kItems: seq<int>, X: int, ksp: nat, Y: int)
    requires WellFormed(g) && ItemSeq(g, items) && k < |items| && g.ritem[items[k]] == X > 0
    requires |kItems| == Offset(g, g.nsyms, |g.ritem|)
    requires RegionsOk(g, items[..k], kEnd, kItems)
    requires X < g.nsyms && ksp == Slot(g, kEnd, X) && ksp < |kItems|
    requires 0 < Y < g.nsyms && Y != X
    ensures RegionOk(g, items[..k + 1], kEnd[X := ksp + 1], kItems[ksp := items[k] + 1], Y)
  {
    assert items[..k + 1][..k] == items[..k];
    assert RegionOk(g, items[..k], kEnd, kItems, Y);
    RegionRoom(g, items, k, kEnd, kItems);
    var n := |g.ritem|;
    var goto, base, kItems' := GotoSeq(g, items[..k], Y), Offset(g, Y, n), kItems[ksp := items[k] + 1];
    if goto != [] {
      GotoFits(g, items[..k], Y, n);
      if Y < X { OffsetMono(g, Y, X, n); } else { OffsetMono(g, X, Y, n); }
      assert kItems'[base..kEnd[Y]] == kItems[base..kEnd[Y]];
    }
  }

  lemma RegionAppend(g: Grammar, items: seq<int>, k: nat, kEnd: seq<int>, kItems: seq<int>, X: int, ksp: nat)
    requires WellFormed(g) && ItemSeq(g, items) && k < |items| && g.ritem[items[k]] == X > 0
    requires |kItems| == Offset(g, g.nsyms, |g.ritem|)
    requires RegionsOk(g, items[..k], kEnd, kItems)
    requires X < g.nsyms && ksp == Slot(g, kEnd, X) && ksp < |kItems|
    ensures RegionsOk(g, items[..k + 1], kEnd[X := ksp + 1], kItems[ksp := items[k] + 1])
  {
    var next, kEnd', kItems' := items[..k + 1], kEnd[X := ksp + 1], kItems[ksp := items[k] + 1];
    forall Y | 0 < Y < g.nsyms
      ensures RegionOk(g, next, kEnd', kItems', Y)
    {
      if Y == X {
        RegionSame(g, items, k, kEnd, kItems, X, ksp);
      } else {
        RegionOther(g, items, k, kEnd, kItems, X, ksp, Y);
      }
    }
  }

  lemma RegionSkip(g: Grammar, items: seq<int>, k: nat, kEnd: seq<int>, kItems: seq<int>)
    requires ItemSeq(g, items) && k < |items| && g.ritem[items[k]] <= 0
    requires RegionsOk(g, items[..k], kEnd, kItems)
    ensures RegionsOk(g, items[..k + 1], kEnd, kItems)
    ensures FirstSymbols(g, items[..k + 1]) == FirstSymbols(g, items[..k])
  {
    var next := items[..k + 1];
    assert next[..k] == items[..k];
    forall Y | 0 < Y < g.nsyms
      ensures RegionOk(g, next, kEnd, kItems, Y)
    {
      assert RegionOk(g, items[..k], kEnd, kItems, Y);
    }
  }

  lemma {:induction false} GotoEmpty(g: Grammar, items: seq<int>, X: int)
    requires ItemSeq(g, items)
    ensures GotoSeq(g, items, X) == [] <==> !Has(g, items, X)
  {
    if items != [] {
      GotoEmpty(g, items[..|items| - 1], X);
      HasNext(g, items, |items| - 1, X);
    }
  }

  lemma FirstSymbolsFit(g: Grammar, items: seq<int>)
    requires WellFormed(g) && ItemSeq(g, items)
    ensures |FirstSymbols(g, items)| <= g.nsyms
    ensures forall X :: X in FirstSymbols(g, items) ==> 0 < X < g.nsyms
  {
    SymbolElems(g, items);
    FirstSymbolElems(g, items);
    SortElems(FirstSymbols(g, items));
    var s := Symbols(g, items);
    forall X | X in s ensures 0 < X < g.nsyms {
      var k :| 0 <= k < |items| && g.ritem[items[k]] == X;
      ItemSymbol(g, items[k]);
    }
    forall a | 0 <= a < |s| ensures 0 <= s[a] < g.nsyms {
      assert s[a] in s;
    }
    IncreasingBound(s, 0, g.nsyms);
  }

  /** One turn of the loop of new_itemsets. */
  method AddItem(g: Grammar, ghost items: seq<int>, ghost k: nat, item: int,
                 kernelBase: array<int>, kernelEnd: array<int>, kernelItems: array<int>, shiftSymbol: array<int>, shiftcount: nat)
    returns (shiftcount': nat)
    requires WellFormed(g) && ItemSeq(g, items) && k < |items| && item == items[k] && g.ritem[item] > 0
    requires BasesOk(g, kernelBase, kernelItems) && kernelEnd.Length == g.nsyms && shiftSymbol.Length == g.nsyms
    requires kernelEnd != kernelItems && kernelEnd != shiftSymbol && kernelItems != shiftSymbol
    requires kernelBase !in {kernelEnd, kernelItems, shiftSymbol}
    requires RegionsOk(g, items[..k], kernelEnd[..], kernelItems[..])
    requires shiftcount <= shiftSymbol.Length && shiftSymbol[..shiftcount] == FirstSymbols(g, items[..k])
    modifies kernelEnd, kernelItems, shiftSymbol
    ensures RegionsOk(g, items[..k + 1], kernelEnd[..], kernelItems[..])
    ensures shiftcount' <= shiftSymbol.Length && shiftSymbol[..shiftcount'] == FirstSymbols(g, items[..k + 1])
  {
    var symbol := g.ritem[item];
    shiftcount' := shiftcount;
    RegionRoom(g, items, k, kernelEnd[..], kernelItems[..]);
    assert items[..k + 1][..k] == items[..k];
    FirstSymbolsFit(g, items[..k + 1]);
    var ksp := kernelEnd[symbol];
    RegionAppend(g, items, k, kernelEnd[..], kernelItems[..], symbol, Slot(g, kernelEnd[..], symbol));
    ghost var kItems := kernelItems[..];
    if ksp == -1 {
      shiftSymbol[shiftcount] := symbol;
      shiftcount' := shiftcount + 1;
      ksp := kernelBase[symbol];
    }
    kernelItems[ksp] := item + 1;
    kernelEnd[symbol] := ksp + 1;
    assert kernelItems[..] == kItems[ksp := item + 1];
  }

  /** new_itemsets */
  method NewItemsets(g: Grammar, itemset: array<int>, itemsetend: nat,
                     kernelBase: array<int>, kernelEnd: array<int>, kernelItems: array<int>, shiftSymbol: array<int>)
    returns (nshifts: nat)
    requires WellFormed(g) && itemsetend <= itemset.Length && ItemSeq(g, itemset[..itemsetend])
    requires BasesOk(g, kernelBase, kernelItems) && kernelEnd.Length == g.nsyms && shiftSymbol.Length == g.nsyms
    requires kernelEnd != kernelItems && kernelEnd != shiftSymbol && kernelItems != shiftSymbol
    requires itemset !in {kernelEnd, kernelItems, shiftSymbol}
    requires kernelBase !in {kernelEnd, kernelItems, shiftSymbol}
    modifies kernelEnd, kernelItems, shiftSymbol
    ensures RegionsOk(g, itemset[..itemsetend], kernelEnd[..], kernelItems[..])
    ensures nshifts <= shiftSymbol.Length && shiftSymbol[..nshifts] == FirstSymbols(g, itemset[..itemsetend])
  {
    ghost var items := itemset[..itemsetend];
    var i := 0;
    while i < g.nsyms
      invariant i <= g.nsyms
      invariant forall X :: 0 <= X < i ==> kernelEnd[X] == -1
    {
      kernelEnd[i] := -1;
      i := i + 1;
    }
    nshifts := 0;
    var isp := 0;
    assert items[..0] == [];
    while isp < itemsetend
      invariant isp <= itemsetend && itemset[..itemsetend] == items
      invariant BasesOk(g, kernelBase, kernelItems)
      invariant RegionsOk(g, items[..isp], kernelEnd[..], kernelItems[..])
      invariant nshifts <= shiftSymbol.Length && shiftSymbol[..nshifts] == FirstSymbols(g, items[..isp])
    {
      var item := itemset[isp];
      assert item == items[isp];
      if g.ritem[item] > 0 {
        nshifts := AddItem(g, items, isp, item, kernelBase, kernelEnd, kernelItems, shiftSymbol, nshifts);
      } else {
        RegionSkip(g, items, isp, kernelEnd[..], kernelItems[..]);
      }
      isp := isp + 1;
    }
    assert items[..|items|] == items;
  }
}
