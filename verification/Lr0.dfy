/** lr0.c: the worklist that builds the canonical collection of LR(0) states. */
module Lr0 {
  import opened Bits
  import opened Grammar
  import opened ClosureTables
  import opened ClosurePass
  import opened Automaton
  import opened KernelSets

  // ----- append_states: sorting the shift symbols in place

  lemma {:induction false} InsertSplit(s: seq<int>, x: int, j: nat)
    requires j <= |s| && forall k :: j <= k < |s| ==> s[k] > x
    ensures Insert(s, x) == Insert(s[..j], x) + s[j..]
  {
    if j < |s| {
      var k := |s| - 1;
      InsertSplit(s[..k], x, j);
      assert s[..k][..j] == s[..j];
      assert s[..k][j..] + [s[k]] == s[j..];
      assert (Insert(s[..j], x) + s[..k][j..]) + [s[k]] == Insert(s[..j], x) + (s[..k][j..] + [s[k]]);
    } else {
      assert s[..j] == s;
    }
  }

  /** Sink element i into the sorted part below it. */
  method Sink(a: array<int>, i: nat)
    requires i < a.Length
    modifies a
    ensures a[..i + 1] == Insert(old(a[..i]), old(a[i]))
    ensures forall k :: i < k < a.Length ==> a[k] == old(a[k])
  {
    ghost var s := a[..i];
    var symbol, j := a[i], i;
    while j > 0 && a[j - 1] > symbol
      invariant j <= i
      invariant forall k :: 0 <= k < j ==> a[k] == s[k]
      invariant forall k :: j < k <= i ==> a[k] == s[k - 1] > symbol
      invariant forall k :: j <= k < i ==> s[k] > symbol
      invariant forall k :: i < k < a.Length ==> a[k] == old(a[k])
    {
      a[j] := a[j - 1];
      j := j - 1;
    }
    a[j] := symbol;
    InsertSplit(s, symbol, j);
    assert Insert(s[..j], symbol) == s[..j] + [symbol];
    assert a[..i + 1] == s[..j] + [symbol] + s[j..];
  }

  lemma SortNext(s: seq<int>, i: nat)
    requires i < |s|
    ensures Sort(s[..i + 1]) == Insert(Sort(s[..i]), s[i])
  {
    assert s[..i + 1][..i] == s[..i];
  }

  method SortSymbols(shiftSymbol: array<int>, nshifts: nat)
    requires nshifts <= shiftSymbol.Length
    modifies shiftSymbol
    ensures shiftSymbol[..nshifts] == Sort(old(shiftSymbol[..nshifts]))
  {
    ghost var s := shiftSymbol[..nshifts];
    if nshifts == 0 { return; }
    assert Sort(s[..1]) == s[..1] by { assert s[..1][..0] == []; }
    hide Sort, Insert;
    var i := 1;
    while i < nshifts
      invariant 1 <= i <= nshifts
      invariant shiftSymbol[..i] == Sort(s[..i])
      invariant forall k :: i <= k < nshifts ==> shiftSymbol[k] == s[k]
    {
      SortNext(s, i);
      ghost var below := shiftSymbol[..i];
      assert shiftSymbol[i] == s[i];
      Sink(shiftSymbol, i);
      assert shiftSymbol[..i + 1] == Insert(below, s[i]);
      i := i + 1;
    }
    assert s[..nshifts] == s;
  }

  // ----- the state list and its index

  /** $accept has one rule, number 2. */
  lemma AcceptRule(g: Grammar)
    requires WellFormed(g)
    ensures RulesFor(g, g.ntokens) == [2] && g.rrhs[2] == 1
  {
    var rs := RulesFrom(g, g.ntokens, 0);
    forall r ensures r in rs <==> r == 2 {
      if 3 <= r < |g.rlhs| { assert RuleOk(g, r); }
    }
    forall k | 0 <= k < |rs| ensures rs[k] == 2 {
      assert rs[k] in rs;
    }
    OneValue(rs, 2);
  }

  lemma OneValue(rs: seq<int>, x: int)
    requires (forall a, b :: 0 <= a < b < |rs| ==> rs[a] < rs[b]) && forall k :: 0 <= k < |rs| ==> rs[k] == x
    ensures |rs| <= 1
  {
    if |rs| > 1 { FirstBelow(rs); }
  }

  lemma FirstBelow(rs: seq<int>)
    requires |rs| > 1 && forall a, b :: 0 <= a < b < |rs| ==> rs[a] < rs[b]
    ensures rs[0] < rs[1]
  {
  }

  /** initialize_states: the kernel of state 0 has the starts of the rules of
      $accept. */
  method InitializeStates(g: Grammar, derives: array<seq<int>>) returns (items: seq<int>)
    requires WellFormed(g) && DerivesOk(g, derives)
    ensures items == StartKernel
  {
    AcceptRule(g);
    var startDerives := derives[g.ntokens];
    items := [];
    for i := 0 to |startDerives|
      invariant items == if i == 0 then [] else StartKernel
    {
      items := items + [g.rrhs[startDerives[i]]];
    }
  }

  class StateTable {
    const g: Grammar
    /** first_state .. last_state, in order of their numbers. */
    var states: seq<Core>
    /** state_set: for every item the chain, along `link`, of the states whose
        kernel begins with it. */
    const stateSet: array<seq<int>>

    /** State 0 is not registered; all others are, under their first item. */
    ghost predicate Indexed()
      reads this, stateSet
    {
      && stateSet.Length == |g.ritem|
      && (forall n :: 0 <= n < |states| ==> StateOk(g, states[n]))
      && (forall key, c :: 0 <= key < stateSet.Length && 0 <= c < |stateSet[key]| ==>
           0 < stateSet[key][c] < |states| && states[stateSet[key][c]].items[0] == key)
      && (forall n :: 0 < n < |states| ==> n in stateSet[states[n].items[0]])
    }

    constructor (grammar: Grammar, start: seq<int>)
      requires WellFormed(grammar) && StateOk(grammar, Core(0, start))
      ensures g == grammar && Indexed() && fresh(stateSet)
      ensures states == [Core(0, start)]
    {
      g := grammar;
      states := [Core(0, start)];
      stateSet := new seq<int>[|grammar.ritem|](_ => []);
    }

    /** new_state */
    method NewState(symbol: int, items: seq<int>)
      returns (number: int)
      modifies this`states
      ensures states == old(states) + [Core(symbol, items)] && number == |old(states)|
    {
      number := |states|;
      states := states + [Core(symbol, items)];
    }

    /** The inner comparison of get_state. */
    method SameKernel(items: seq<int>, kernelItems: array<int>, lo: nat, hi: nat) returns (found: bool)
      requires lo <= hi <= kernelItems.Length
      ensures found <==> items == kernelItems[lo..hi]
    {
      found := false;
      if |items| == hi - lo {
        found := true;
        var isp1, isp2 := lo, 0;
        while found && isp1 < hi
          invariant lo <= isp1 <= hi && isp2 == isp1 - lo
          invariant found ==> forall k :: 0 <= k < isp2 ==> items[k] == kernelItems[lo + k]
          invariant !found ==> items != kernelItems[lo..hi]
        {
          if kernelItems[isp1] != items[isp2] {
            assert kernelItems[lo..hi][isp2] != items[isp2];
            found := false;
          }
          isp1, isp2 := isp1 + 1, isp2 + 1;
        }
      }
    }

    /** The search of get_state along the chain of the first kernel item. It
        finds what a search through all registered states would find; 0 stands
        for nothing. */
    method Find(kernelItems: array<int>, lo: nat, hi: nat) returns (number: int)
      requires Indexed() && lo < hi <= kernelItems.Length
      requires ItemSeq(g, kernelItems[lo..hi])
      ensures number != 0 ==> 0 < number < |states| && states[number].items == kernelItems[lo..hi]
      ensures number == 0 ==> forall n :: 0 < n < |states| ==> states[n].items != kernelItems[lo..hi]
    {
      var key := kernelItems[lo];
      assert kernelItems[lo..hi][0] == key;
      var chain := stateSet[key];
      var c := 0;
      while c < |chain|
        invariant c <= |chain|
        invariant forall d :: 0 <= d < c ==> states[chain[d]].items != kernelItems[lo..hi]
      {
        var found := SameKernel(states[chain[c]].items, kernelItems, lo, hi);
        if found {
          return chain[c];
        }
        c := c + 1;
      }
      number := 0;
      forall n | 0 < n < |states| ensures states[n].items != kernelItems[lo..hi] {
        assert StateOk(g, states[n]);
        if states[n].items[0] == key {
          assert n in chain;
        }
      }
    }

    /** Add a state and put it at the end of its chain. */
    method Register(symbol: int, items: seq<int>) returns (number: int)
      requires Indexed() && ItemSeq(g, items) && items != [] && states != []
      modifies this`states, stateSet
      ensures Indexed()
      ensures states == old(states) + [Core(symbol, items)] && number == |old(states)|
    {
      number := NewState(symbol, items);
      var key := items[0];
      var chain := stateSet[key];
      stateSet[key] := chain + [number];
      assert StateOk(g, states[number]);
      forall k, c | 0 <= k < stateSet.Length && 0 <= c < |stateSet[k]|
        ensures 0 < stateSet[k][c] < |states| && states[stateSet[k][c]].items[0] == k
      {
        if k == key && c == |chain| {
          assert stateSet[k][c] == number;
        } else {
          assert stateSet[k][c] == old(stateSet[k])[c];
        }
      }
      forall n | 0 < n < |states| ensures n in stateSet[states[n].items[0]] {
        if n < number {
          assert n in old(stateSet[states[n].items[0]]);
        } else {
          assert stateSet[key][|chain|] == number;
        }
      }
    }

    /** get_state(symbol): the kernel lies in kernelItems[lo..hi]. */
    method GetState(symbol: int, kernelItems: array<int>, lo: nat, hi: nat) returns (number: int)
      requires Indexed() && lo < hi <= kernelItems.Length && stateSet as object != kernelItems
      requires ItemSeq(g, kernelItems[lo..hi]) && states != []
      modifies this`states, stateSet
      ensures Indexed()
      ensures if number < |old(states)| then 0 < number && states == old(states) && states[number].items == kernelItems[lo..hi]
              else number == |old(states)| && states == old(states) + [Core(symbol, kernelItems[lo..hi])]
      ensures number == |old(states)| ==> forall n :: 0 < n < |old(states)| ==> old(states)[n].items != kernelItems[lo..hi]
    {
      number := Find(kernelItems, lo, hi);
      if number == 0 {
        number := Register(symbol, kernelItems[lo..hi]);
      }
    }
  }

  // ----- adding the successors of one state

  /** What holds of the states found so far survives appending more. */
  lemma GotoKept(g: Grammar, states: seq<Core>, states': seq<Core>, s: int, X: int, t: int)
    requires WellFormed(g) && states <= states'
    requires forall n :: 0 <= n < |states'| ==> StateOk(g, states'[n])
    requires forall n :: 0 <= n < |states| ==> StateOk(g, states[n])
    requires IsGoto(g, states, s, X, t)
    ensures IsGoto(g, states', s, X, t)
  {
  }

  lemma SuccessorKernel(g: Grammar, items: seq<int>, X: int)
    requires WellFormed(g) && ItemSeq(g, items) && X in Symbols(g, items)
    ensures 0 < X < g.nsyms
    ensures StateOk(g, Core(X, GotoSeq(g, items, X)))
    ensures GotoSeq(g, items, X) != StartKernel
    ensures var k := GotoSeq(g, items, X); g.ritem[k[0] - 1] == X
  {
    SymbolElems(g, items);
    var l :| 0 <= l < |items| && g.ritem[items[l]] == X;
    ItemSymbol(g, items[l]);
    GotoElems(g, items, X);
    GotoEmpty(g, items, X);
    assert GotoSeq(g, items, X)[0] in GotoSeq(g, items, X);
  }

  lemma SuccessorNew(g: Grammar, states: seq<Core>, t: int, X: int, states': seq<Core>)
    requires WellFormed(g) && StatesOk(g, states) && 0 <= t < |states|
    requires X in Symbols(g, ItemsAt(g, states, t))
    requires states' == states + [Core(X, GotoSeq(g, ItemsAt(g, states, t), X))]
    requires forall n :: 0 < n < |states| ==> states[n].items != GotoSeq(g, ItemsAt(g, states, t), X)
    ensures StatesOk(g, states')
    ensures IsGoto(g, states', t, X, |states|)
  {
    var m := |states|;
    SuccessorKernel(g, ItemsAt(g, states, t), X);
    assert forall n :: 0 <= n < |states'| ==> StateOk(g, states'[n]);
    assert ItemsAt(g, states', t) == ItemsAt(g, states, t);
    assert IsGoto(g, states', t, X, m);
    assert HasParent(g, states', m);
    forall n | 0 < n < m ensures HasParent(g, states', n) {
      assert HasParent(g, states, n);
      var s, Y :| 0 <= s < n && IsGoto(g, states, s, Y, n);
      GotoKept(g, states, states', s, Y, n);
    }
  }

  lemma SuccessorFound(g: Grammar, states: seq<Core>, t: int, X: int, n: int)
    requires WellFormed(g) && StatesOk(g, states) && 0 <= t < |states| && 0 < n < |states|
    requires X in Symbols(g, ItemsAt(g, states, t))
    requires states[n].items == GotoSeq(g, ItemsAt(g, states, t), X)
    ensures IsGoto(g, states, t, X, n)
  {
    SuccessorKernel(g, ItemsAt(g, states, t), X);
    assert HasParent(g, states, n);
    var s, Y :| 0 <= s < n && IsGoto(g, states, s, Y, n);
    SuccessorKernel(g, ItemsAt(g, states, s), Y);
  }

  ghost predicate GotosFound(g: Grammar, states: seq<Core>, t: int, syms: seq<int>, sh: seq<int>)
    requires WellFormed(g) && forall n :: 0 <= n < |states| ==> StateOk(g, states[n])
  {
    |sh| <= |syms| && forall k :: 0 <= k < |sh| ==> IsGoto(g, states, t, syms[k], sh[k])
  }

  /** One turn of the second loop of append_states. */
  method AppendState(table: StateTable, ghost t: int, symbol: int, kernelBase: array<int>, kernelEnd: array<int>, kernelItems: array<int>)
    returns (number: int)
    requires WellFormed(table.g) && table.Indexed() && StatesOk(table.g, table.states)
    requires 0 <= t < |table.states|
    requires BasesOk(table.g, kernelBase, kernelItems) && kernelEnd.Length == table.g.nsyms
    requires RegionsOk(table.g, ItemsAt(table.g, table.states, t), kernelEnd[..], kernelItems[..])
    requires symbol in Symbols(table.g, ItemsAt(table.g, table.states, t))
    requires table.stateSet as object !in {kernelBase, kernelEnd, kernelItems}
    modifies table`states, table.stateSet
    ensures table.Indexed() && StatesOk(table.g, table.states) && old(table.states) <= table.states
    ensures IsGoto(table.g, table.states, t, symbol, number)
  {
    ghost var g, states := table.g, table.states;
    ghost var items := ItemsAt(g, states, t);
    SuccessorKernel(g, items, symbol);
    assert RegionOk(g, items, kernelEnd[..], kernelItems[..], symbol);
    var lo, hi := kernelBase[symbol], kernelEnd[symbol];
    assert kernelItems[lo..hi] == GotoSeq(g, items, symbol);
    number := table.GetState(symbol, kernelItems, lo, hi);
    if number < |states| {
      SuccessorFound(g, states, t, symbol, number);
    } else {
      SuccessorNew(g, states, t, symbol, table.states);
    }
  }

  lemma ItemsSame(g: Grammar, states: seq<Core>, states': seq<Core>, t: int)
    requires WellFormed(g) && StatesOk(g, states) && StatesOk(g, states') && states <= states' && 0 <= t < |states|
    ensures ItemsAt(g, states', t) == ItemsAt(g, states, t)
  {
  }

  lemma GotosNone(g: Grammar, states: seq<Core>, t: int, syms: seq<int>)
    requires WellFormed(g) && forall n :: 0 <= n < |states| ==> StateOk(g, states[n])
    ensures GotosFound(g, states, t, syms, [])
  {
  }

  lemma GotosAll(g: Grammar, states: seq<Core>, t: int, sh: seq<int>)
    requires WellFormed(g) && StatesOk(g, states) && 0 <= t < |states|
    requires var syms := Symbols(g, ItemsAt(g, states, t)); GotosFound(g, states, t, syms, sh) && |sh| == |syms|
    ensures ShiftsOk(g, states, t, sh)
  {
  }

  lemma GotosExtend(g: Grammar, states: seq<Core>, states': seq<Core>, t: int, syms: seq<int>, sh: seq<int>, number: int)
    requires WellFormed(g) && states <= states'
    requires forall n :: 0 <= n < |states'| ==> StateOk(g, states'[n])
    requires forall n :: 0 <= n < |states| ==> StateOk(g, states[n])
    requires GotosFound(g, states, t, syms, sh) && |sh| < |syms|
    requires IsGoto(g, states', t, syms[|sh|], number)
    ensures GotosFound(g, states', t, syms, sh + [number])
  {
    forall k | 0 <= k < |sh| ensures IsGoto(g, states', t, syms[k], sh[k]) {
      GotoKept(g, states, states', t, syms[k], sh[k]);
    }
  }

  /** One turn of the loop, with its number recorded. */
  method AppendNext(table: StateTable, ghost t: int, kernelBase: array<int>, kernelEnd: array<int>, kernelItems: array<int>,
                    symbol: int, shiftset: array<int>, i: nat, ghost syms: seq<int>)
    requires WellFormed(table.g) && table.Indexed() && StatesOk(table.g, table.states)
    requires 0 <= t < |table.states|
    requires BasesOk(table.g, kernelBase, kernelItems) && kernelEnd.Length == table.g.nsyms
    requires RegionsOk(table.g, ItemsAt(table.g, table.states, t), kernelEnd[..], kernelItems[..])
    requires syms == Symbols(table.g, ItemsAt(table.g, table.states, t)) && i < |syms| && symbol == syms[i] && i < shiftset.Length
    requires GotosFound(table.g, table.states, t, syms, shiftset[..i])
    requires table.stateSet as object !in {kernelBase, kernelEnd, kernelItems, shiftset}
    modifies table`states, table.stateSet, shiftset
    ensures table.Indexed() && StatesOk(table.g, table.states) && old(table.states) <= table.states
    ensures ItemsAt(table.g, table.states, t) == old(ItemsAt(table.g, table.states, t))
    ensures GotosFound(table.g, table.states, t, syms, shiftset[..i + 1])
  {
    hide BasesOk, RegionsOk, WellFormed, StateOk, GotosFound, Distinct, HasParent;
    ghost var g, states, sh := table.g, table.states, shiftset[..i];
    var number := AppendState(table, t, symbol, kernelBase, kernelEnd, kernelItems);
    shiftset[i] := number;
    assert shiftset[..i + 1] == sh + [number];
    ItemsSame(g, states, table.states, t);
    GotosExtend(g, states, table.states, t, syms, sh, number);
  }

  /** append_states */
  method AppendStates(table: StateTable, ghost t: int, kernelBase: array<int>, kernelEnd: array<int>, kernelItems: array<int>,
                      shiftSymbol: array<int>, shiftset: array<int>, nshifts: nat)
    requires WellFormed(table.g) && table.Indexed() && StatesOk(table.g, table.states)
    requires 0 <= t < |table.states|
    requires BasesOk(table.g, kernelBase, kernelItems) && kernelEnd.Length == table.g.nsyms
    requires RegionsOk(table.g, ItemsAt(table.g, table.states, t), kernelEnd[..], kernelItems[..])
    requires nshifts <= shiftSymbol.Length == shiftset.Length
    requires shiftSymbol[..nshifts] == FirstSymbols(table.g, ItemsAt(table.g, table.states, t))
    requires table.stateSet as object !in {kernelBase, kernelEnd, kernelItems, shiftSymbol, shiftset}
    requires shiftSymbol !in {kernelBase, kernelEnd, kernelItems, shiftset}
    requires shiftset !in {kernelBase, kernelEnd, kernelItems}
    modifies table`states, table.stateSet, shiftSymbol, shiftset
    ensures table.Indexed() && StatesOk(table.g, table.states) && old(table.states) <= table.states
    ensures ShiftsOk(table.g, table.states, t, shiftset[..nshifts])
  {
    hide WellFormed, StateOk, GotosFound, ShiftsOk, Distinct, HasParent, RegionsOk, BasesOk;
    SortSymbols(shiftSymbol, nshifts);
    ghost var g := table.g;
    ghost var items := ItemsAt(g, table.states, t);
    ghost var syms := Symbols(g, items);
    assert shiftSymbol[..nshifts] == syms;
    var i := 0;
    GotosNone(g, table.states, t, syms);
    assert shiftset[..0] == [];
    while i < nshifts
      invariant i <= nshifts
      invariant table.Indexed() && StatesOk(g, table.states) && old(table.states) <= table.states
      invariant ItemsAt(g, table.states, t) == items
      invariant GotosFound(g, table.states, t, syms, shiftset[..i])
      modifies table`states, table.stateSet, shiftset
    {
      var symbol := shiftSymbol[i];
      assert symbol == syms[i];
      AppendNext(table, t, kernelBase, kernelEnd, kernelItems, symbol, shiftset, i, syms);
      i := i + 1;
    }
    GotosAll(g, table.states, t, shiftset[..nshifts]);
  }

  // ----- the worklist

  /** save_reductions: the rules of the completed items of itemset. */
  method SaveReductions(g: Grammar, itemset: array<int>, itemsetend: nat) returns (redset: seq<int>)
    requires WellFormed(g) && itemsetend <= itemset.Length && ItemSeq(g, itemset[..itemsetend])
    ensures redset == Reductions(g, itemset[..itemsetend])
  {
    ghost var items := itemset[..itemsetend];
    redset := [];
    var isp := 0;
    assert items[..0] == [];
    while isp < itemsetend
      invariant isp <= itemsetend
      invariant redset == Reductions(g, items[..isp])
    {
      assert items[..isp + 1][..isp] == items[..isp];
      var item := g.ritem[itemset[isp]];
      if item < 0 {
        redset := redset + [-item];
      }
      isp := isp + 1;
    }
    assert items[..|items|] == items;
  }

  /** The states below t have their transitions and reductions. */
  ghost predicate Processed(g: Grammar, states: seq<Core>, shifts: seq<seq<int>>, reds: seq<seq<int>>, t: nat)
    requires WellFormed(g) && StatesOk(g, states)
  {
    && |shifts| == |reds| == t <= |states|
    && forall s :: 0 <= s < t ==>
         ShiftsOk(g, states, s, shifts[s]) && reds[s] == Reductions(g, ItemsAt(g, states, s))
  }

  lemma ProcessedKept(g: Grammar, states: seq<Core>, states': seq<Core>, shifts: seq<seq<int>>, reds: seq<seq<int>>, t: nat)
    requires WellFormed(g) && StatesOk(g, states) && StatesOk(g, states') && states <= states'
    requires Processed(g, states, shifts, reds, t)
    ensures Processed(g, states', shifts, reds, t)
  {
    forall s | 0 <= s < t
      ensures ShiftsOk(g, states', s, shifts[s]) && reds[s] == Reductions(g, ItemsAt(g, states', s))
    {
      var syms := Symbols(g, ItemsAt(g, states, s));
      forall k | 0 <= k < |shifts[s]| ensures IsGoto(g, states', s, syms[k], shifts[s][k]) {
        GotoKept(g, states, states', s, syms[k], shifts[s][k]);
      }
    }
  }

  lemma ProcessedNext(g: Grammar, states: seq<Core>, states': seq<Core>, shifts: seq<seq<int>>, reds: seq<seq<int>>, t: nat, shift: seq<int>, redset: seq<int>)
    requires WellFormed(g) && StatesOk(g, states) && StatesOk(g, states') && states <= states'
    requires Processed(g, states, shifts, reds, t) && t < |states|
    requires ShiftsOk(g, states', t, shift) && redset == Reductions(g, ItemsAt(g, states', t))
    ensures Processed(g, states', shifts + [shift], reds + [redset], t + 1)
  {
    ProcessedKept(g, states, states', shifts, reds, t);
  }

  // ----- termination: there are finitely many kernels

  ghost function AllKernels(lo: int, hi: int): set<seq<int>>
    decreases hi - lo
  {
    if lo >= hi then {[]}
    else
      var rest := AllKernels(lo + 1, hi);
      rest + set s | s in rest :: [lo] + s
  }

  lemma {:induction false} KernelListed(s: seq<int>, lo: int, hi: int)
    requires Increasing(s) && forall i :: 0 <= i < |s| ==> lo <= s[i] < hi
    ensures s in AllKernels(lo, hi)
    decreases hi - lo
  {
    if s != [] { assert lo <= s[0] < hi; }
    hide Increasing;
    if lo < hi {
      if s != [] && s[0] == lo {
        TailAbove(s, lo);
        forall i | 0 <= i < |s[1..]| ensures lo + 1 <= s[1..][i] < hi {
          assert s[1..][i] == s[i + 1];
        }
        KernelListed(s[1..], lo + 1, hi);
        assert s == [lo] + s[1..];
      } else {
        AllAbove(s, lo);
        KernelListed(s, lo + 1, hi);
      }
    }
  }

  lemma TailAbove(s: seq<int>, lo: int)
    requires Increasing(s) && s != [] && s[0] == lo
    ensures Increasing(s[1..]) && forall i :: 0 <= i < |s[1..]| ==> lo + 1 <= s[1..][i]
  {
  }

  lemma AllAbove(s: seq<int>, lo: int)
    requires Increasing(s) && (s != [] ==> s[0] > lo)
    ensures forall i :: 0 <= i < |s| ==> lo + 1 <= s[i]
  {
    forall i | 0 <= i < |s| ensures lo + 1 <= s[i] {
      if i > 0 { assert s[0] < s[i]; }
    }
  }

  /** The kernels not met so far. */
  ghost function Unmet(g: Grammar, states: seq<Core>): set<seq<int>> {
    AllKernels(1, |g.ritem|) - set n | 0 <= n < |states| :: states[n].items
  }

  lemma UnmetShrinks(g: Grammar, states: seq<Core>, states': seq<Core>)
    requires WellFormed(g) && StatesOk(g, states) && StatesOk(g, states') && states <= states'
    ensures Unmet(g, states') <= Unmet(g, states)
    ensures |states| < |states'| ==> Unmet(g, states') < Unmet(g, states)
  {
    forall n | 0 <= n < |states| ensures states[n].items in (set m | 0 <= m < |states'| :: states'[m].items) {
      assert states'[n] == states[n];
    }
    if |states| < |states'| {
      var k := states'[|states|].items;
      assert StateOk(g, states'[|states|]);
      KernelListed(k, 1, |g.ritem|);
      forall n | 0 <= n < |states| ensures states[n].items != k {
        assert states'[n] == states[n];
      }
      assert k in Unmet(g, states) && k !in Unmet(g, states');
    }
  }

  lemma StartOk(g: Grammar)
    requires WellFormed(g)
    ensures StatesOk(g, [Core(0, StartKernel)])
  {
  }

  /** The tables and work arrays that allocate_storage and generate_states set
      up once. */
  class Workspace {
    const g: Grammar
    const firstDerives: array2<bv32>
    const ruleset: array<bv32>
    const itemset: array<int>
    const kernelBase: array<int>
    const kernelEnd: array<int>
    const kernelItems: array<int>
    const shiftSymbol: array<int>
    const shiftset: array<int>

    ghost predicate Valid()
      reads this, firstDerives, kernelBase
    {
      && WellFormed(g)
      && FirstDerivesOk(g, firstDerives) && BasesOk(g, kernelBase, kernelItems)
      && ruleset.Length == WordSize(|g.rlhs|) && itemset.Length == |g.ritem|
      && kernelEnd.Length == shiftSymbol.Length == shiftset.Length == g.nsyms
      && itemset !in {kernelBase, kernelEnd, kernelItems, shiftSymbol, shiftset}
      && kernelBase !in {kernelEnd, kernelItems, shiftSymbol, shiftset}
      && kernelEnd !in {kernelItems, shiftSymbol, shiftset}
      && kernelItems !in {shiftSymbol, shiftset}
      && shiftSymbol != shiftset
      && ruleset as object !in {itemset, kernelBase, kernelEnd, kernelItems, shiftSymbol, shiftset}
    }

    ghost function Scratch(): set<object>
      reads this
    {
      {ruleset as object, itemset, kernelEnd, kernelItems, shiftSymbol, shiftset}
    }

    constructor (grammar: Grammar, derives: array<seq<int>>)
      requires WellFormed(grammar) && DerivesOk(grammar, derives)
      ensures Valid() && g == grammar
      ensures fresh(Scratch()) && fresh(firstDerives) && fresh(kernelBase)
    {
      var base, items := AllocateItemsets(grammar);
      var fd := SetFirstDerives(grammar, derives);
      g, kernelBase, kernelItems, firstDerives := grammar, base, items, fd;
      kernelEnd := new int[grammar.nsyms];
      shiftSymbol := new int[grammar.nsyms];
      shiftset := new int[grammar.nsyms];
      itemset := new int[|grammar.ritem|];
      ruleset := new bv32[WordSize(|grammar.rlhs|)];
    }
  }

  /** One turn of the worklist: everything about the state numbered t. */
  method ProcessState(ws: Workspace, table: StateTable, t: nat) returns (shift: seq<int>, redset: seq<int>)
    requires ws.Valid() && ws.g == table.g
    requires table.Indexed() && StatesOk(ws.g, table.states) && t < |table.states|
    requires table.stateSet as object !in ws.Scratch() + {ws.kernelBase as object, ws.firstDerives}
    modifies ws.Scratch(), table`states, table.stateSet
    ensures ws.Valid()
    ensures table.Indexed() && StatesOk(ws.g, table.states) && old(table.states) <= table.states
    ensures ShiftsOk(ws.g, table.states, t, shift)
    ensures redset == Reductions(ws.g, ItemsAt(ws.g, table.states, t))
  {
    hide WellFormed, Distinct, HasParent, RegionsOk, BasesOk, ShiftsOk, FirstDerivesOk;
    assert StateOk(ws.g, table.states[t]);
    var itemsetend := Close(ws.g, ws.firstDerives, table.states[t].items, ws.ruleset, ws.itemset);
    assert ws.itemset[..itemsetend] == ItemsAt(ws.g, table.states, t);
    redset := SaveReductions(ws.g, ws.itemset, itemsetend);
    var nshifts := NewItemsets(ws.g, ws.itemset, itemsetend, ws.kernelBase, ws.kernelEnd, ws.kernelItems, ws.shiftSymbol);
    AppendStates(table, t, ws.kernelBase, ws.kernelEnd, ws.kernelItems, ws.shiftSymbol, ws.shiftset, nshifts);
    shift := ws.shiftset[..nshifts];
  }

  /** The loop of generate_states. */
  method RunWorklist(ws: Workspace, table: StateTable) returns (A: Automaton)
    requires ws.Valid() && ws.g == table.g
    requires table.Indexed() && StatesOk(ws.g, table.states)
    requires table.stateSet as object !in ws.Scratch() + {ws.kernelBase as object, ws.firstDerives}
    modifies ws.Scratch(), table`states, table.stateSet
    ensures Canonical(ws.g, A)
  {
    hide WellFormed, Distinct, HasParent;
    ghost var g := ws.g;
    var shifts: seq<seq<int>>, reds: seq<seq<int>>, t := [], [], 0;
    while t < |table.states|
      invariant t <= |table.states|
      invariant ws.Valid() && table.Indexed() && StatesOk(g, table.states)
      invariant Processed(g, table.states, shifts, reds, t)
      decreases Unmet(g, table.states), |table.states| - t
    {
      ghost var states := table.states;
      var shift, redset := ProcessState(ws, table, t);
      ProcessedNext(g, states, table.states, shifts, reds, t, shift, redset);
      UnmetShrinks(g, states, table.states);
      shifts, reds := shifts + [shift], reds + [redset];
      t := t + 1;
    }
    A := Automaton(table.states, shifts, reds);
  }

  /** generate_states: terminates and builds the canonical collection. */
  method GenerateStates(g: Grammar) returns (A: Automaton)
    requires WellFormed(g)
    ensures Canonical(g, A)
  {
    var derives := SetDerives(g);
    StartOk(g);
    var start := InitializeStates(g, derives);
    var ws := new Workspace(g, derives);
    var table := new StateTable(g, start);
    A := RunWorklist(ws, table);
  }
}
