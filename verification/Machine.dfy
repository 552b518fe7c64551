/** The canonical automaton seen as sets of items and labelled transitions. */
module Machine {
  import opened Grammar
  import opened ClosureTables
  import opened ClosurePass
  import opened Automaton

  ghost predicate IsState(A: Automaton, s: int) {
    0 <= s < |A.states|
  }

  ghost function Kernel(A: Automaton, s: int): set<int>
    requires IsState(A, s)
  {
    Elems(A.states[s].items)
  }

  /** All items of state s. */
  ghost function Items(g: Grammar, A: Automaton, s: int): set<int>
    requires IsState(A, s)
  {
    Closure(g, Kernel(A, s))
  }

  /** State s has a transition on X to t: t is listed and entered by X. */
  ghost predicate Trans(A: Automaton, s: int, X: int, t: int) {
    IsState(A, s) && s < |A.shifts| && t in A.shifts[s] && IsState(A, t) && A.states[t].accessing == X
  }

  /** Advance the dot over X. */
  ghost function Advance(g: Grammar, S: set<int>, X: int): set<int> {
    set i | i in S && 0 <= i < |g.ritem| && g.ritem[i] == X :: i + 1
  }

  lemma ItemsAre(g: Grammar, A: Automaton, s: int)
    requires WellFormed(g) && Canonical(g, A) && IsState(A, s)
    ensures Items(g, A, s) == Elems(ItemsAt(g, A.states, s))
    ensures IsKernel(g, Kernel(A, s))
    ensures Kernel(A, s) <= Items(g, A, s)
    ensures forall i :: i in Items(g, A, s) ==> 1 <= i < |g.ritem|
  {
    assert StateOk(g, A.states[s]);
    ClosureSeqIsClosure(g, A.states[s].items);
    ClosureHasKernel(g, Kernel(A, s));
  }

  lemma TransIsGoto(g: Grammar, A: Automaton, s: int, X: int, t: int)
    requires WellFormed(g) && Canonical(g, A)
    ensures Trans(A, s, X, t) <==> IsGoto(g, A.states, s, X, t)
  {
    if Trans(A, s, X, t) {
      var k :| 0 <= k < |A.shifts[s]| && A.shifts[s][k] == t;
      assert ShiftsOk(g, A.states, s, A.shifts[s]);
      assert IsGoto(g, A.states, s, Symbols(g, ItemsAt(g, A.states, s))[k], t);
    }
    if IsGoto(g, A.states, s, X, t) {
      var syms := Symbols(g, ItemsAt(g, A.states, s));
      var k :| 0 <= k < |syms| && syms[k] == X;
      assert ShiftsOk(g, A.states, s, A.shifts[s]);
      var u := A.shifts[s][k];
      assert IsGoto(g, A.states, s, X, u);
      assert A.states[u].items == A.states[t].items;
      assert u == t;
    }
  }

  /** The target of a transition on X has the items advanced over X as its kernel. */
  lemma TransKernel(g: Grammar, A: Automaton, s: int, X: int, t: int)
    requires WellFormed(g) && Canonical(g, A) && Trans(A, s, X, t)
    ensures 0 < X < g.nsyms && 0 < t
    ensures Kernel(A, t) == Advance(g, Items(g, A, s), X)
    ensures exists i :: i in Items(g, A, s) && 0 <= i < |g.ritem| && g.ritem[i] == X
  {
    TransIsGoto(g, A, s, X, t);
    ItemsAre(g, A, s);
    var items := ItemsAt(g, A.states, s);
    SymbolElems(g, items);
    GotoElems(g, items, X);
    var k :| 0 <= k < |items| && g.ritem[items[k]] == X;
    assert items[k] in Items(g, A, s);
    ItemSymbol(g, items[k]);
    forall j | j in Advance(g, Items(g, A, s), X) ensures j in Kernel(A, t) {
    }
  }

  /** Every symbol after a dot, other than $end, has a transition. */
  lemma TransExists(g: Grammar, A: Automaton, s: int, i: int) returns (t: int)
    requires WellFormed(g) && Canonical(g, A) && IsState(A, s)
    requires i in Items(g, A, s) && 0 <= i < |g.ritem| && g.ritem[i] > 0
    ensures Trans(A, s, g.ritem[i], t)
  {
    ItemsAre(g, A, s);
    var items := ItemsAt(g, A.states, s);
    SymbolElems(g, items);
    var l :| 0 <= l < |items| && items[l] == i;
    assert Has(g, items, g.ritem[i]);
    var syms := Symbols(g, items);
    var k :| 0 <= k < |syms| && syms[k] == g.ritem[i];
    assert ShiftsOk(g, A.states, s, A.shifts[s]);
    t := A.shifts[s][k];
    assert IsGoto(g, A.states, s, g.ritem[i], t);
  }

  lemma TransUnique(g: Grammar, A: Automaton, s: int, X: int, t: int, u: int)
    requires WellFormed(g) && Canonical(g, A) && Trans(A, s, X, t) && Trans(A, s, X, u)
    ensures t == u
  {
    TransIsGoto(g, A, s, X, t);
    TransIsGoto(g, A, s, X, u);
  }

  /** Every state but the first is entered from an earlier one. */
  lemma EnteredFrom(g: Grammar, A: Automaton, t: int) returns (s: int)
    requires WellFormed(g) && Canonical(g, A) && 0 < t < |A.states|
    ensures s < t && Trans(A, s, A.states[t].accessing, t)
  {
    assert HasParent(g, A.states, t);
    var X;
    s, X :| 0 <= s < t && IsGoto(g, A.states, s, X, t);
    TransIsGoto(g, A, s, X, t);
  }

  /** A walk of transitions spelling a string of symbols. */
  ghost predicate Spells(A: Automaton, s: int, w: seq<int>, t: int)
    decreases |w|
  {
    IsState(A, s) && if w == [] then s == t else exists u :: Trans(A, s, w[0], u) && Spells(A, u, w[1..], t)
  }

  /** Every state is reached from state 0. */
  lemma {:induction false} Reachable(g: Grammar, A: Automaton, t: int) returns (w: seq<int>)
    requires WellFormed(g) && Canonical(g, A) && IsState(A, t)
    ensures Spells(A, 0, w, t)
  {
    if t == 0 {
      w := [];
    } else {
      var s := EnteredFrom(g, A, t);
      w := Reachable(g, A, s);
      SpellsOn(A, 0, w, s, A.states[t].accessing, t);
      w := w + [A.states[t].accessing];
    }
  }

  lemma {:induction false} SpellsOn(A: Automaton, s: int, w: seq<int>, t: int, X: int, u: int)
    requires Spells(A, s, w, t) && Trans(A, t, X, u)
    ensures Spells(A, s, w + [X], u)
    decreases |w|
  {
    if w == [] {
      assert Spells(A, u, [], u);
      assert (w + [X])[1..] == [];
    } else {
      var v :| Trans(A, s, w[0], v) && Spells(A, v, w[1..], t);
      SpellsOn(A, v, w[1..], t, X, u);
      assert (w + [X])[1..] == w[1..] + [X];
    }
  }

  // ----- items of the augmented rule

  /** Item 1, `$accept : . goal $end`, is in state 0 only. */
  lemma StartItemOnce(g: Grammar, A: Automaton, s: int)
    requires WellFormed(g) && Canonical(g, A) && IsState(A, s)
    ensures 1 in Items(g, A, s) <==> s == 0
  {
    ItemsAre(g, A, s);
    if s == 0 {
      assert A.states[0].items == [1];
    } else {
      var p := EnteredFrom(g, A, s);
      TransKernel(g, A, p, A.states[s].accessing, s);
      ItemsAre(g, A, p);
      var S := LaterItems(g);
      assert Kernel(A, s) <= S;
      StartOutside(g);
      if 1 in Items(g, A, s) {
        ClosureInduction(g, Kernel(A, s), S, 1);
      }
    }
  }

  predicate Later(g: Grammar, i: int) {
    2 <= i < |g.ritem|
  }

  /** All items but the start item. */
  ghost function LaterItems(g: Grammar): set<int> {
    set i | 0 <= i < |g.ritem| && Later(g, i)
  }

  lemma StartOutside(g: Grammar)
    requires WellFormed(g)
    ensures ItemClosed(g, LaterItems(g))
  {
    var S := LaterItems(g);
    forall i, r | i in S && 0 <= i < |g.ritem| && IsVar(g, g.ritem[i]) && IsRule(g, r, g.ritem[i])
      ensures g.rrhs[r] in S
    {
      ItemSymbol(g, i);
      RuleBounds(g, r);
      assert r != 2;
      RulesIncrease(g, 2, r);
    }
  }
}
