/** The LR(0) automaton as lr0.c leaves it, and what makes it the canonical one. */
module Automaton {
  import opened Grammar
  import opened ClosurePass

  /** A state: the symbol it is entered by and its kernel. */
  datatype Core = Core(accessing: int, items: seq<int>)

  /** states[n] is the state numbered n; shifts[n] its transitions as target
      states in order of their accessing symbol; reds[n] its reducible rules.
      A missing shift or reduction record is an empty list. */
  datatype Automaton = Automaton(states: seq<Core>, shifts: seq<seq<int>>, reds: seq<seq<int>>)

  /** Advance the dot over X: what new_itemsets collects for X. */
  ghost function GotoSeq(g: Grammar, items: seq<int>, X: int): seq<int>
    requires ItemSeq(g, items)
  {
    if items == [] then []
    else
      var k := |items| - 1;
      GotoSeq(g, items[..k], X) + if g.ritem[items[k]] == X then [items[k] + 1] else []
  }

  /** The symbols after a dot, other than $end, in order of first appearance. */
  ghost function FirstSymbols(g: Grammar, items: seq<int>): seq<int>
    requires ItemSeq(g, items)
  {
    if items == [] then []
    else
      var k := |items| - 1;
      var s := FirstSymbols(g, items[..k]);
      if g.ritem[items[k]] > 0 && g.ritem[items[k]] !in s then s + [g.ritem[items[k]]] else s
  }

  /** Insertion from the right end, as the inner loop of append_states does it. */
  ghost function Insert(s: seq<int>, x: int): seq<int> {
    if s == [] || s[|s| - 1] <= x then s + [x]
    else Insert(s[..|s| - 1], x) + [s[|s| - 1]]
  }

  ghost function Sort(s: seq<int>): seq<int> {
    if s == [] then [] else Insert(Sort(s[..|s| - 1]), s[|s| - 1])
  }

  ghost function Symbols(g: Grammar, items: seq<int>): seq<int>
    requires ItemSeq(g, items)
  {
    Sort(FirstSymbols(g, items))
  }

  /** The rules of the completed items, in order. */
  ghost function Reductions(g: Grammar, items: seq<int>): seq<int>
    requires ItemSeq(g, items)
  {
    if items == [] then []
    else
      var k := |items| - 1;
      Reductions(g, items[..k]) + if g.ritem[items[k]] < 0 then [-g.ritem[items[k]]] else []
  }

  // ----- what these sequences hold

  lemma GotoIncreases(g: Grammar, items: seq<int>, X: int, r: seq<int>)
    requires WellFormed(g) && ItemSeq(g, items) && items != [] && X >= 0 && g.ritem[items[|items| - 1]] == X
    requires ItemSeq(g, r) && forall j :: j in r ==> j >= 2 && j - 1 in items[..|items| - 1]
    ensures ItemSeq(g, r + [items[|items| - 1] + 1])
  {
    var k := |items| - 1;
    ItemSymbol(g, items[k]);
    forall a | 0 <= a < |r| ensures r[a] < items[k] + 1 {
      assert r[a] in r;
    }
  }

  lemma GotoHas(g: Grammar, items: seq<int>, X: int, r: seq<int>, j: int)
    requires ItemSeq(g, items) && items != [] && |items| - 1 == |items[..|items| - 1]|
    requires j in r <==> j - 1 in items[..|items| - 1] && g.ritem[j - 1] == X
    ensures j in r + (if g.ritem[items[|items| - 1]] == X then [items[|items| - 1] + 1] else []) <==> j - 1 in items && g.ritem[j - 1] == X
  {
    var k := |items| - 1;
    assert items == items[..k] + [items[k]];
  }

  lemma {:induction false} GotoElems(g: Grammar, items: seq<int>, X: int)
    requires WellFormed(g) && ItemSeq(g, items) && X >= 0
    ensures forall j :: j in GotoSeq(g, items, X) <==> j - 1 in items && g.ritem[j - 1] == X
    ensures ItemSeq(g, GotoSeq(g, items, X))
    ensures forall j :: j in GotoSeq(g, items, X) ==> j >= 2
  {
    if items != [] {
      var k := |items| - 1;
      GotoElems(g, items[..k], X);
      hide WellFormed;
      var r := GotoSeq(g, items[..k], X);
      forall j ensures j in GotoSeq(g, items, X) <==> j - 1 in items && g.ritem[j - 1] == X {
        GotoHas(g, items, X, r, j);
      }
      if g.ritem[items[k]] == X {
        GotoIncreases(g, items, X, r);
      }
    }
  }

  /** Some item of the list has symbol X after its dot (a rule end, if X < 0). */
  ghost predicate Has(g: Grammar, items: seq<int>, X: int)
    requires ItemSeq(g, items)
  {
    exists k :: 0 <= k < |items| && g.ritem[items[k]] == X
  }

  lemma HasNext(g: Grammar, items: seq<int>, k: nat, X: int)
    requires ItemSeq(g, items) && |items| == k + 1
    ensures Has(g, items, X) <==> Has(g, items[..k], X) || g.ritem[items[k]] == X
  {
    if Has(g, items[..k], X) {
      var l :| 0 <= l < k && g.ritem[items[..k][l]] == X;
      assert g.ritem[items[l]] == X;
    }
    if Has(g, items, X) && g.ritem[items[k]] != X {
      var l :| 0 <= l < |items| && g.ritem[items[l]] == X;
      assert g.ritem[items[..k][l]] == X;
    }
  }

  lemma {:induction false} FirstSymbolElems(g: Grammar, items: seq<int>)
    requires ItemSeq(g, items)
    ensures forall X :: X in FirstSymbols(g, items) <==> X > 0 && Has(g, items, X)
    ensures forall a, b :: 0 <= a < b < |FirstSymbols(g, items)| ==> FirstSymbols(g, items)[a] != FirstSymbols(g, items)[b]
  {
    if items != [] {
      var k := |items| - 1;
      FirstSymbolElems(g, items[..k]);
      forall X ensures X in FirstSymbols(g, items) <==> X > 0 && Has(g, items, X) {
        HasNext(g, items, k, X);
      }
    }
  }

  lemma {:induction false} InsertElems(s: seq<int>, x: int)
    ensures forall y :: y in Insert(s, x) <==> y in s || y == x
    ensures |Insert(s, x)| == |s| + 1
  {
    if s != [] && s[|s| - 1] > x {
      InsertElems(s[..|s| - 1], x);
      assert s == s[..|s| - 1] + [s[|s| - 1]];
    }
  }

  lemma {:induction false} InsertIncreasing(s: seq<int>, x: int)
    requires Increasing(s) && x !in s
    ensures Increasing(Insert(s, x))
  {
    if s != [] && s[|s| - 1] > x {
      var k := |s| - 1;
      InsertIncreasing(s[..k], x);
      InsertElems(s[..k], x);
      var r := Insert(s[..k], x);
      forall a | 0 <= a < |r| ensures r[a] < s[k] {
        assert r[a] in r;
      }
    }
  }

  lemma {:induction false} SortElems(s: seq<int>)
    requires forall a, b :: 0 <= a < b < |s| ==> s[a] != s[b]
    ensures Increasing(Sort(s)) && |Sort(s)| == |s|
    ensures forall y :: y in Sort(s) <==> y in s
  {
    if s != [] {
      var k := |s| - 1;
      SortElems(s[..k]);
      InsertElems(Sort(s[..k]), s[k]);
      assert s == s[..k] + [s[k]];
      InsertIncreasing(Sort(s[..k]), s[k]);
    }
  }

  lemma SymbolElems(g: Grammar, items: seq<int>)
    requires ItemSeq(g, items)
    ensures Increasing(Symbols(g, items))
    ensures forall X :: X in Symbols(g, items) <==> X > 0 && Has(g, items, X)
  {
    FirstSymbolElems(g, items);
    SortElems(FirstSymbols(g, items));
  }

  lemma {:induction false} ReductionElems(g: Grammar, items: seq<int>)
    requires ItemSeq(g, items)
    ensures forall r :: r in Reductions(g, items) <==> r > 0 && Has(g, items, -r)
  {
    if items != [] {
      var k := |items| - 1;
      ReductionElems(g, items[..k]);
      forall r ensures r in Reductions(g, items) <==> r > 0 && Has(g, items, -r) {
        HasNext(g, items, k, -r);
      }
    }
  }

  lemma {:induction false} ReductionsIncrease(g: Grammar, items: seq<int>)
    requires WellFormed(g) && ItemSeq(g, items)
    ensures Increasing(Reductions(g, items))
  {
    if items != [] {
      var k := |items| - 1;
      ReductionsIncrease(g, items[..k]);
      var s := Reductions(g, items[..k]);
      if g.ritem[items[k]] < 0 {
        forall a | 0 <= a < |s| ensures s[a] < -g.ritem[items[k]] {
          ReductionElems(g, items[..k]);
          assert s[a] in s;
          var l :| 0 <= l < k && g.ritem[items[..k][l]] == -s[a];
          CompletedOrder(g, items[l], items[k]);
        }
      }
    }
  }

  /** Completed items stand in the order of their rules. */
  lemma CompletedOrder(g: Grammar, i: int, j: int)
    requires WellFormed(g) && 1 <= i < j < |g.ritem| && g.ritem[i] < 0 && g.ritem[j] < 0
    ensures -g.ritem[i] < -g.ritem[j]
  {
    ItemComplete(g, i);
    ItemComplete(g, j);
    var r, s := -g.ritem[i], -g.ritem[j];
    if s < r { RulesIncrease(g, s + 1, r + 1); }
  }

  // ----- the canonical collection

  /** The kernel of state 0. */
  const StartKernel: seq<int> := [1]

  ghost predicate StateOk(g: Grammar, c: Core) {
    ItemSeq(g, c.items) && c.items != []
  }

  /** The sorted closure of state s. */
  ghost function ItemsAt(g: Grammar, states: seq<Core>, s: int): (items: seq<int>)
    requires WellFormed(g) && 0 <= s < |states| && StateOk(g, states[s])
    ensures ItemSeq(g, items)
  {
    ClosureSeqIsClosure(g, states[s].items);
    ClosureSeq(g, states[s].items)
  }

  /** State t is what state s goes to on X. */
  ghost predicate IsGoto(g: Grammar, states: seq<Core>, s: int, X: int, t: int)
    requires WellFormed(g) && forall n :: 0 <= n < |states| ==> StateOk(g, states[n])
  {
    && 0 <= s < |states| && 0 < t < |states|
    && X in Symbols(g, ItemsAt(g, states, s))
    && states[t] == Core(X, GotoSeq(g, ItemsAt(g, states, s), X))
  }

  /** sh lists the transitions of s, one for every symbol after a dot. */
  ghost predicate ShiftsOk(g: Grammar, states: seq<Core>, s: int, sh: seq<int>)
    requires WellFormed(g) && forall n :: 0 <= n < |states| ==> StateOk(g, states[n])
    requires 0 <= s < |states|
  {
    var syms := Symbols(g, ItemsAt(g, states, s));
    |sh| == |syms| && forall k :: 0 <= k < |sh| ==> IsGoto(g, states, s, syms[k], sh[k])
  }

  /** Some earlier state leads to t. */
  ghost predicate HasParent(g: Grammar, states: seq<Core>, t: int)
    requires WellFormed(g) && forall n :: 0 <= n < |states| ==> StateOk(g, states[n])
  {
    exists s, X :: 0 <= s < t && IsGoto(g, states, s, X, t)
  }

  ghost predicate Distinct(states: seq<Core>) {
    forall m, n :: 0 <= m < n < |states| ==> states[m].items != states[n].items
  }

  /** The states found so far. */
  ghost predicate StatesOk(g: Grammar, states: seq<Core>)
    requires WellFormed(g)
  {
    && states != [] && states[0] == Core(0, StartKernel)
    && (forall n :: 0 <= n < |states| ==> StateOk(g, states[n]))
    && Distinct(states)
    && (forall n :: 0 < n < |states| ==> HasParent(g, states, n))
  }

  /** The canonical collection: distinct kernels, each reached from an earlier
      state, every transition present exactly once, every completed item listed. */
  ghost predicate Canonical(g: Grammar, A: Automaton)
    requires WellFormed(g)
  {
    && StatesOk(g, A.states)
    && |A.shifts| == |A.reds| == |A.states|
    && (forall s :: 0 <= s < |A.states| ==>
         ShiftsOk(g, A.states, s, A.shifts[s]) && A.reds[s] == Reductions(g, ItemsAt(g, A.states, s)))
  }
}
