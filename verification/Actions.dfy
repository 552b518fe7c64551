/** mkpar.c, parse_actions: the action rows of the parser. */
module Actions {
  import opened Bits
  import opened Grammar
  import opened ClosurePass
  import opened Automaton
  import opened Machine
  import opened Lookahead
  import opened GotoMap
  import opened LookaheadTable
  import BuildRelations
  import opened Lalr

  datatype Code = Shift | Reduce

  datatype Assoc = Token | Left | Right | Nonassoc

  /** An action on a symbol: shift to state `number`, or reduce by rule `number`. */
  datatype Action = Action(symbol: int, number: int, prec: int, code: Code, assoc: Assoc, suppressed: int)

  /** The precedences the reader has collected. */
  datatype Precedence = Precedence(symbolPrec: seq<int>, symbolAssoc: seq<Assoc>, rulePrec: seq<int>, ruleAssoc: seq<Assoc>)

  ghost predicate PrecedenceOk(g: Grammar, P: Precedence) {
    && |P.symbolPrec| == |P.symbolAssoc| == g.nsyms
    && |P.rulePrec| == |P.ruleAssoc| == |g.rlhs|
  }

  /** By symbol, then shift before reduce, then rule. */
  predicate Less(a: Action, b: Action) {
    || a.symbol < b.symbol
    || (a.symbol == b.symbol && b.code == Reduce && (a.code == Shift || a.number < b.number))
  }

  ghost predicate Sorted(row: seq<Action>) {
    forall i, j :: 0 <= i < j < |row| ==> Less(row[i], row[j])
  }

  function ShiftOn(P: Precedence, symbol: int, k: int): Action
    requires 0 <= symbol < |P.symbolPrec| == |P.symbolAssoc|
  {
    Action(symbol, k, P.symbolPrec[symbol], Shift, P.symbolAssoc[symbol], 0)
  }

  function ReduceOn(P: Precedence, symbol: int, r: int): Action
    requires 0 <= r < |P.rulePrec| == |P.ruleAssoc|
  {
    Action(symbol, r, P.rulePrec[r], Reduce, P.ruleAssoc[r], 0)
  }

  // ----- get_shifts

  /** a is the shift of one of the targets of s from number lo on. */
  ghost predicate IsShift(g: Grammar, A: Automaton, P: Precedence, s: int, lo: int, a: Action)
    requires ShiftsInRange(A) && 0 <= s < |A.shifts| && PrecedenceOk(g, P) && Ordered(g, A) && g.ntokens <= g.nsyms && 0 <= lo
  {
    exists i :: lo <= i < |A.shifts[s]| && Entered(A, s, i) < g.ntokens && a == ShiftOn(P, Entered(A, s, i), A.shifts[s][i])
  }

  ghost predicate ShiftsFrom(g: Grammar, A: Automaton, P: Precedence, s: int, lo: int, row: seq<Action>)
    requires ShiftsInRange(A) && 0 <= s < |A.shifts| && PrecedenceOk(g, P) && Ordered(g, A) && g.ntokens <= g.nsyms && 0 <= lo
  {
    Sorted(row) && forall a :: a in row <==> IsShift(g, A, P, s, lo, a)
  }

  lemma ShiftsNext(g: Grammar, A: Automaton, P: Precedence, s: int, lo: int, row: seq<Action>)
    requires PrecedenceOk(g, P) && Ordered(g, A) && 0 <= s < |A.shifts| && g.ntokens <= g.nsyms
    requires 0 <= lo < |A.shifts[s]| && ShiftsFrom(g, A, P, s, lo + 1, row)
    ensures
      var t := Entered(A, s, lo);
      ShiftsFrom(g, A, P, s, lo, if t < g.ntokens then [ShiftOn(P, t, A.shifts[s][lo])] + row else row)
  {
    var t := Entered(A, s, lo);
    var row' := if t < g.ntokens then [ShiftOn(P, t, A.shifts[s][lo])] + row else row;
    assert InOrder(A, s);
    forall j | 0 <= j < |row| ensures t < row[j].symbol {
      assert row[j] in row;
      var i :| lo + 1 <= i < |A.shifts[s]| && Entered(A, s, i) < g.ntokens && row[j] == ShiftOn(P, Entered(A, s, i), A.shifts[s][i]);
    }
    forall a ensures a in row' <==> IsShift(g, A, P, s, lo, a) {
      assert a in row <==> IsShift(g, A, P, s, lo + 1, a);
      if IsShift(g, A, P, s, lo, a) && !IsShift(g, A, P, s, lo + 1, a) {
        var i :| lo <= i < |A.shifts[s]| && Entered(A, s, i) < g.ntokens && a == ShiftOn(P, Entered(A, s, i), A.shifts[s][i]);
        assert i == lo;
      }
    }
  }

  /** get_shifts: the token shifts of a state, put in front of the list from the
      last to the first. */
  method GetShifts(g: Grammar, A: Automaton, P: Precedence, s: int) returns (actions: seq<Action>)
    requires WellFormed(g) && PrecedenceOk(g, P) && Ordered(g, A) && 0 <= s < |A.shifts|
    ensures ShiftsFrom(g, A, P, s, 0, actions)
  {
    actions := [];
    for i := |A.shifts[s]| downto 0
      invariant ShiftsFrom(g, A, P, s, i, actions)
    {
      ShiftsNext(g, A, P, s, i, actions);
      var k := A.shifts[s][i];
      var symbol := A.states[k].accessing;
      if symbol < g.ntokens {
        actions := [ShiftOn(P, symbol, k)] + actions;
      }
    }
  }

  // ----- add_reduce

  lemma LessTrans(a: Action, b: Action, c: Action)
    requires Less(a, b) && Less(b, c)
    ensures Less(a, c)
  {
  }

  function InsertAt(row: seq<Action>, p: nat, a: Action): (r: seq<Action>)
    requires p <= |row|
    ensures |r| == |row| + 1
    ensures forall q :: 0 <= q < |r| ==> r[q] == if q < p then row[q] else if q == p then a else row[q - 1]
    ensures forall b :: b in r <==> b in row || b == a
  {
    assert row == row[..p] + row[p..];
    row[..p] + [a] + row[p..]
  }

  lemma InsertAction(row: seq<Action>, p: nat, a: Action)
    requires Sorted(row) && p <= |row|
    requires p > 0 ==> Less(row[p - 1], a)
    requires p < |row| ==> Less(a, row[p])
    ensures Sorted(InsertAt(row, p, a))
  {
    forall q | 0 <= q < p ensures Less(row[q], a) {
      if q < p - 1 { LessTrans(row[q], row[p - 1], a); }
    }
    forall q | p <= q < |row| ensures Less(a, row[q]) {
      if q > p { LessTrans(a, row[p], row[q]); }
    }
  }

  /** The three search loops of add_reduce: where a reduction goes. */
  method FindAction(actions: seq<Action>, ruleno: int, symbol: int) returns (p: nat)
    requires Sorted(actions)
    requires forall a :: a in actions ==> !(a.symbol == symbol && a.code == Reduce && a.number == ruleno)
    ensures p <= |actions|
    ensures forall a: Action :: a.symbol == symbol && a.code == Reduce && a.number == ruleno ==>
      (p > 0 ==> Less(actions[p - 1], a)) && (p < |actions| ==> Less(a, actions[p]))
  {
    hide Sorted, Less;
    p := 0;
    while p < |actions| && actions[p].symbol < symbol
      invariant p <= |actions| && (p > 0 ==> actions[p - 1].symbol < symbol)
    {
      p := p + 1;
    }
    while p < |actions| && actions[p].symbol == symbol && actions[p].code == Shift
      invariant p <= |actions| && (p < |actions| ==> actions[p].symbol >= symbol)
      invariant p > 0 ==> GoesBefore(actions[p - 1], symbol, ruleno)
    {
      if p + 1 < |actions| { NextAction(actions, p); }
      p := p + 1;
    }
    while p < |actions| && actions[p].symbol == symbol && actions[p].code == Reduce && actions[p].number < ruleno
      invariant p <= |actions| && (p < |actions| ==> actions[p].symbol > symbol || (actions[p].symbol == symbol && actions[p].code == Reduce))
      invariant p > 0 ==> GoesBefore(actions[p - 1], symbol, ruleno)
    {
      if p + 1 < |actions| { NextAction(actions, p); }
      p := p + 1;
    }
    if p < |actions| { assert actions[p] in actions; }
    PlaceFound(actions, ruleno, symbol, p);
  }

  /** a comes before the reduction by ruleno on symbol. */
  ghost predicate GoesBefore(a: Action, symbol: int, ruleno: int) {
    a.symbol < symbol || (a.symbol == symbol && (a.code == Shift || a.number < ruleno))
  }

  /** What comes after an action in a row. */
  lemma NextAction(actions: seq<Action>, p: nat)
    requires Sorted(actions) && p + 1 < |actions|
    ensures actions[p].symbol <= actions[p + 1].symbol
    ensures actions[p].symbol == actions[p + 1].symbol ==> actions[p + 1].code == Reduce
  {
    assert Less(actions[p], actions[p + 1]);
  }

  lemma PlaceFound(actions: seq<Action>, ruleno: int, symbol: int, p: nat)
    requires p <= |actions| && (p > 0 ==> GoesBefore(actions[p - 1], symbol, ruleno))
    requires p < |actions| ==> actions[p].symbol > symbol || (actions[p].symbol == symbol && actions[p].code == Reduce && actions[p].number > ruleno)
    ensures forall a: Action :: a.symbol == symbol && a.code == Reduce && a.number == ruleno ==>
      (p > 0 ==> Less(actions[p - 1], a)) && (p < |actions| ==> Less(a, actions[p]))
  {
  }

  /** add_reduce */
  method AddReduce(P: Precedence, actions: seq<Action>, ruleno: int, symbol: int) returns (row: seq<Action>)
    requires 0 <= ruleno < |P.rulePrec| == |P.ruleAssoc| && Sorted(actions)
    requires forall a :: a in actions ==> !(a.symbol == symbol && a.code == Reduce && a.number == ruleno)
    ensures Sorted(row) && forall b :: b in row <==> b in actions || b == ReduceOn(P, symbol, ruleno)
  {
    var p := FindAction(actions, ruleno, symbol);
    InsertAction(actions, p, ReduceOn(P, symbol, ruleno));
    row := InsertAt(actions, p, ReduceOn(P, symbol, ruleno));
  }

  // ----- add_reductions

  /** a is a reduction for a token in row y. */
  ghost predicate ReduceIn(P: Precedence, L: Slots, rows: seq<set<int>>, ntokens: int, y: int, a: Action) {
    && 0 <= y < |rows| == |L.ruleno| && 0 <= L.ruleno[y] < |P.rulePrec| == |P.ruleAssoc|
    && 0 <= a.symbol < ntokens && a.symbol in rows[y] && a == ReduceOn(P, a.symbol, L.ruleno[y])
  }

  /** a is a reduction met so far: in a slot from lo to before x, or in slot x on
      a token from j on. */
  ghost predicate IsReduce(P: Precedence, L: Slots, rows: seq<set<int>>, ntokens: int, lo: int, x: int, j: int, a: Action) {
    exists y :: lo <= y <= x && ReduceIn(P, L, rows, ntokens, y, a) && (y < x || j <= a.symbol)
  }

  /** The row holds the shifts given and the reductions met so far. */
  ghost predicate RowTo(P: Precedence, L: Slots, rows: seq<set<int>>, ntokens: int, lo: int, x: int, j: int, shifts: seq<Action>, row: seq<Action>) {
    Sorted(row) && forall a :: a in row <==> a in shifts || IsReduce(P, L, rows, ntokens, lo, x, j, a)
  }

  lemma ReduceNext(P: Precedence, L: Slots, rows: seq<set<int>>, ntokens: int, lo: int, x: int, j: int, a: Action)
    requires 0 <= lo <= x < |rows| == |L.ruleno| && |P.rulePrec| == |P.ruleAssoc|
    requires 0 <= j < ntokens && 0 <= L.ruleno[x] < |P.rulePrec|
    ensures IsReduce(P, L, rows, ntokens, lo, x, j, a) <==>
      IsReduce(P, L, rows, ntokens, lo, x, j + 1, a) || (j in rows[x] && a == ReduceOn(P, j, L.ruleno[x]))
  {
    if j in rows[x] && a == ReduceOn(P, j, L.ruleno[x]) {
      assert ReduceIn(P, L, rows, ntokens, x, a);
    }
  }

  lemma SlotDone(P: Precedence, L: Slots, rows: seq<set<int>>, ntokens: int, lo: int, x: int, a: Action)
    ensures IsReduce(P, L, rows, ntokens, lo, x, ntokens, a) <==> IsReduce(P, L, rows, ntokens, lo, x - 1, 0, a)
  {
  }

  /** The rules of the slots differ, so no reduction is met twice. */
  lemma ReduceNew(P: Precedence, L: Slots, rows: seq<set<int>>, ntokens: int, lo: int, x: int, j: int, shifts: seq<Action>, row: seq<Action>)
    requires 0 <= lo <= x < |L.ruleno| && RowTo(P, L, rows, ntokens, lo, x, j + 1, shifts, row)
    requires forall y :: lo <= y < x ==> L.ruleno[y] != L.ruleno[x]
    requires forall a :: a in shifts ==> a.code == Shift
    ensures forall a :: a in row ==> !(a.symbol == j && a.code == Reduce && a.number == L.ruleno[x])
  {
    forall a | a in row ensures !(a.symbol == j && a.code == Reduce && a.number == L.ruleno[x]) {
      if a !in shifts {
        var y :| lo <= y <= x && ReduceIn(P, L, rows, ntokens, y, a) && (y < x || j + 1 <= a.symbol);
      }
    }
  }

  /** The inner loop: one slot, its tokens from the last to the first. */
  method ReduceSlot(P: Precedence, L: Slots, LA: array2<bv32>, ntokens: nat, lo: nat, x: nat, ghost shifts: seq<Action>, actions: seq<Action>) returns (row: seq<Action>)
    requires lo <= x < LA.Length0 == |L.ruleno| && ntokens <= 32 * LA.Length1 && 0 <= L.ruleno[x] < |P.rulePrec| == |P.ruleAssoc|
    requires forall y :: lo <= y < x ==> L.ruleno[y] != L.ruleno[x]
    requires forall a :: a in shifts ==> a.code == Shift
    requires RowTo(P, L, Rows(LA), ntokens, lo, x - 1, 0, shifts, actions)
    ensures RowTo(P, L, Rows(LA), ntokens, lo, x, 0, shifts, row)
  {
    ghost var rows := Rows(LA);
    row := actions;
    forall a ensures IsReduce(P, L, rows, ntokens, lo, x, ntokens, a) <==> IsReduce(P, L, rows, ntokens, lo, x - 1, 0, a) {
      SlotDone(P, L, rows, ntokens, lo, x, a);
    }
    for j := ntokens downto 0
      invariant RowTo(P, L, rows, ntokens, lo, x, j, shifts, row)
    {
      var bit := TestBit(LA, x, j);
      forall a {
        ReduceNext(P, L, rows, ntokens, lo, x, j, a);
      }
      if bit {
        ReduceNew(P, L, rows, ntokens, lo, x, j, shifts, row);
        row := AddReduce(P, row, L.ruleno[x], j);
      }
    }
  }

  lemma NoReduceYet(P: Precedence, L: Slots, rows: seq<set<int>>, ntokens: int, lo: int, shifts: seq<Action>)
    requires Sorted(shifts)
    ensures RowTo(P, L, rows, ntokens, lo, lo - 1, 0, shifts, shifts)
  {
  }

  /** add_reductions */
  method AddReductions(P: Precedence, L: Slots, LA: array2<bv32>, ntokens: nat, lo: nat, hi: nat, shifts: seq<Action>) returns (row: seq<Action>)
    requires lo <= hi <= LA.Length0 == |L.ruleno| && ntokens <= 32 * LA.Length1 && |P.rulePrec| == |P.ruleAssoc|
    requires forall x :: lo <= x < hi ==> 0 <= L.ruleno[x] < |P.rulePrec|
    requires forall x, y :: lo <= y < x < hi ==> L.ruleno[y] != L.ruleno[x]
    requires Sorted(shifts) && forall a :: a in shifts ==> a.code == Shift
    ensures RowTo(P, L, Rows(LA), ntokens, lo, hi - 1, 0, shifts, row)
  {
    row := shifts;
    NoReduceYet(P, L, Rows(LA), ntokens, lo, shifts);
    for x: int := lo to hi
      invariant RowTo(P, L, Rows(LA), ntokens, lo, x - 1, 0, shifts, row)
    {
      row := ReduceSlot(P, L, LA, ntokens, lo, x, shifts, row);
    }
  }

  // ----- parse_actions

  /** An action the state can take: a shift over one of its transitions, or a
      reduction by a completed item on a token propagated to that item. */
  ghost predicate CanShift(g: Grammar, A: Automaton, P: Precedence, s: int, a: Action)
    requires WellFormed(g) && PrecedenceOk(g, P)
  {
    0 <= a.symbol < g.ntokens && Trans(A, s, a.symbol, a.number) && a == ShiftOn(P, a.symbol, a.number)
  }

  ghost predicate CanReduce(g: Grammar, A: Automaton, P: Precedence, s: int, a: Action)
    requires WellFormed(g) && PrecedenceOk(g, P)
  {
    && 0 <= a.symbol < g.ntokens && 2 <= a.number < |g.rlhs| && IsState(A, s)
    && Propagated(g, A, s, g.rrhs[a.number + 1] - 1, a.symbol) && a == ReduceOn(P, a.symbol, a.number)
  }

  /** Exactly the possible actions, in order. */
  ghost predicate RowOk(g: Grammar, A: Automaton, P: Precedence, s: int, row: seq<Action>)
    requires WellFormed(g) && PrecedenceOk(g, P)
  {
    Sorted(row) && forall a :: a in row <==> CanShift(g, A, P, s, a) || CanReduce(g, A, P, s, a)
  }

  lemma ShiftsAreAll(g: Grammar, A: Automaton, P: Precedence, s: int, a: Action)
    requires WellFormed(g) && PrecedenceOk(g, P) && Ordered(g, A) && 0 <= s < |A.shifts| == |A.states|
    ensures IsShift(g, A, P, s, 0, a) <==> CanShift(g, A, P, s, a)
  {
    if CanShift(g, A, P, s, a) {
      var i :| 0 <= i < |A.shifts[s]| && A.shifts[s][i] == a.number;
      assert Entered(A, s, i) == a.symbol;
    }
    if IsShift(g, A, P, s, 0, a) {
      var i :| 0 <= i < |A.shifts[s]| && Entered(A, s, i) < g.ntokens && a == ShiftOn(P, Entered(A, s, i), A.shifts[s][i]);
      assert Trans(A, s, Entered(A, s, i), A.shifts[s][i]);
    }
  }

  /** What is known of the lookahead rows. */
  ghost predicate RowsOk(g: Grammar, A: Automaton, L: Slots, rows: seq<set<int>>)
    requires WellFormed(g)
  {
    SlotsOk(A.reds, L) && SlotsComplete(g, A, L) && LookaheadsOk(g, A, L, rows)
  }

  lemma PropagatedCompleted(g: Grammar, A: Automaton, s: int, r: int, t: int)
    requires WellFormed(g) && 2 <= r < |g.rlhs| && Propagated(g, A, s, g.rrhs[r + 1] - 1, t)
    ensures IsState(A, s) && BuildRelations.CompletedIn(g, A, s, r)
  {
    var n: nat :| PropN(g, A, n, s, g.rrhs[r + 1] - 1, t);
  }

  lemma ReductionsAreAll(g: Grammar, A: Automaton, P: Precedence, L: Slots, rows: seq<set<int>>, s: int, a: Action)
    requires WellFormed(g) && PrecedenceOk(g, P) && RowsOk(g, A, L, rows) && 0 <= s < |A.reds| == |A.states|
    ensures IsReduce(P, L, rows, g.ntokens, L.starts[s], L.starts[s + 1] - 1, 0, a) <==> CanReduce(g, A, P, s, a)
  {
    hide WellFormed;
    if CanReduce(g, A, P, s, a) {
      PropagatedCompleted(g, A, s, a.number, a.symbol);
      assert HasSlot(L, s, a.number);
      var x :| IsSlot(L, s, a.number, x);
      assert ReduceIn(P, L, rows, g.ntokens, x, a);
    }
    if IsReduce(P, L, rows, g.ntokens, L.starts[s], L.starts[s + 1] - 1, 0, a) {
      var y :| L.starts[s] <= y <= L.starts[s + 1] - 1 && ReduceIn(P, L, rows, g.ntokens, y, a) && (y < L.starts[s + 1] - 1 || 0 <= a.symbol);
      assert IsSlot(L, s, a.number, y);
      assert HasSlot(L, s, a.number);
    }
  }

  lemma SlotRuleOk(g: Grammar, A: Automaton, L: Slots, s: int, x: int)
    requires WellFormed(g) && SlotsOk(A.reds, L) && SlotsComplete(g, A, L) && 0 <= s < |A.reds|
    requires L.starts[s] <= x < L.starts[s + 1]
    ensures 0 <= x < |L.ruleno| && 2 <= L.ruleno[x] < |g.rlhs|
  {
    SlotRule(A.reds, L, s, x);
    assert HasSlot(L, s, L.ruleno[x]) by { assert IsSlot(L, s, L.ruleno[x], x); }
  }

  lemma SlotsDiffer(reds: seq<seq<int>>, L: Slots, s: int, x: int, y: int)
    requires SlotsOk(reds, L) && 0 <= s < |reds| && Increasing(reds[s])
    requires L.starts[s] <= y < x < L.starts[s + 1]
    ensures 0 <= y < x < |L.ruleno| && L.ruleno[y] != L.ruleno[x]
  {
    SlotRule(reds, L, s, x);
    SlotRule(reds, L, s, y);
  }

  lemma SlotRules(g: Grammar, A: Automaton, L: Slots, s: int)
    requires WellFormed(g) && SlotsOk(A.reds, L) && SlotsComplete(g, A, L) && 0 <= s < |A.reds| && Increasing(A.reds[s])
    ensures 0 <= L.starts[s] <= L.starts[s + 1] <= |L.ruleno|
    ensures forall x :: L.starts[s] <= x < L.starts[s + 1] ==> 2 <= L.ruleno[x] < |g.rlhs|
    ensures forall x, y :: L.starts[s] <= y < x < L.starts[s + 1] ==> L.ruleno[y] != L.ruleno[x]
  {
    FlatMono(A.reds, s, s + 1);
    FlatMono(A.reds, s + 1, |A.reds|);
    forall x | L.starts[s] <= x < L.starts[s + 1] ensures 2 <= L.ruleno[x] < |g.rlhs| {
      SlotRuleOk(g, A, L, s, x);
    }
    forall x, y | L.starts[s] <= y < x < L.starts[s + 1] ensures L.ruleno[y] != L.ruleno[x] {
      SlotsDiffer(A.reds, L, s, x, y);
    }
  }

  lemma RowIsOk(g: Grammar, A: Automaton, P: Precedence, L: Slots, rows: seq<set<int>>, s: int, shifts: seq<Action>, row: seq<Action>)
    requires WellFormed(g) && PrecedenceOk(g, P) && RowsOk(g, A, L, rows) && 0 <= s < |A.reds| == |A.states| == |A.shifts|
    requires Ordered(g, A) && ShiftsFrom(g, A, P, s, 0, shifts)
    requires RowTo(P, L, rows, g.ntokens, L.starts[s], L.starts[s + 1] - 1, 0, shifts, row)
    ensures RowOk(g, A, P, s, row)
  {
    forall a ensures a in row <==> CanShift(g, A, P, s, a) || CanReduce(g, A, P, s, a) {
      assert a in shifts <==> IsShift(g, A, P, s, 0, a);
      ShiftsAreAll(g, A, P, s, a);
      ReductionsAreAll(g, A, P, L, rows, s, a);
    }
  }

  /** parse_actions: the row holds exactly the shifts of the state and its
      reductions on their LALR(1) lookaheads. */
  method ParseActions(g: Grammar, A: Automaton, P: Precedence, L: Slots, LA: array2<bv32>, s: int) returns (row: seq<Action>)
    requires WellFormed(g) && Canonical(g, A) && PrecedenceOk(g, P) && 0 <= s < |A.states|
    requires RowsOk(g, A, L, Rows(LA)) && LA.Length1 == WordSize(g.ntokens)
    ensures RowOk(g, A, P, s, row)
  {
    AllOrdered(g, A);
    BuildRelations.ReductionsAre(g, A);
    SlotRules(g, A, L, s);
    WordSizeFits(g.ntokens);
    var shifts := GetShifts(g, A, P, s);
    forall a | a in shifts ensures a.code == Shift {
      assert IsShift(g, A, P, s, 0, a);
    }
    row := AddReductions(P, L, LA, g.ntokens, L.starts[s], L.starts[s + 1], shifts);
    RowIsOk(g, A, P, L, Rows(LA), s, shifts, row);
  }

  /** The action rows of all states. */
  method ParserRows(g: Grammar, A: Automaton, P: Precedence, L: Slots, LA: array2<bv32>) returns (parser: seq<seq<Action>>)
    requires WellFormed(g) && Canonical(g, A) && PrecedenceOk(g, P)
    requires RowsOk(g, A, L, Rows(LA)) && LA.Length1 == WordSize(g.ntokens)
    ensures |parser| == |A.states| && forall s :: 0 <= s < |parser| ==> RowOk(g, A, P, s, parser[s])
  {
    parser := [];
    for s := 0 to |A.states|
      invariant |parser| == s && forall q :: 0 <= q < s ==> RowOk(g, A, P, q, parser[q])
    {
      var row := ParseActions(g, A, P, L, LA, s);
      parser := parser + [row];
    }
  }
}
