/** The generator from end to end: from a packed grammar to the tables that the
    parser reads. */
module Generator {
  import opened Bits
  import opened Grammar
  import opened Automaton
  import opened Machine
  import opened Lookahead
  import opened LookaheadTable
  import opened Includes
  import opened Lalr
  import opened Actions
  import opened Conflicts
  import opened TokenActions
  import opened ConflictRows
  import opened Vectors
  import opened OutputTables

  lemma RowNumbers(g: Grammar, A: Automaton, P: Precedence, s: int, row: seq<Action>)
    requires WellFormed(g) && Canonical(g, A) && PrecedenceOk(g, P) && RowOk(g, A, P, s, row)
    ensures Sorted(row) && NumbersOk(row) && forall i :: 0 <= i < |row| ==> row[i].symbol < g.ntokens
  {
    forall i | 0 <= i < |row|
      ensures row[i].number >= (if row[i].code == Shift then 1 else 2) && 0 <= row[i].symbol < g.ntokens
    {
      assert row[i] in row;
      if CanShift(g, A, P, s, row[i]) {
        TransKernel(g, A, s, row[i].symbol, row[i].number);
      }
    }
  }

  lemma ResolvedInput(row0: seq<Action>, final: bool, row: seq<Action>, sr: nat, rr: nat, ntokens: int)
    requires Sorted(row0) && NumbersOk(row0) && (forall i :: 0 <= i < |row0| ==> row0[i].symbol < ntokens)
    requires ResolvedRow(row0, final, row, sr, rr)
    ensures InputOk(row, ntokens) && RowCounts(row, sr, rr)
  {
    ResolvedOk(row0, final, row, sr, rr);
    ResolvedCounts(row0, final, row, sr, rr);
  }

  /** The rows are exactly the shifts and the reductions on their lookaheads,
      resolved by precedence; default reductions are the sole ones. */
  ghost predicate RowsFor(g: Grammar, P: Precedence, A: Automaton, rows: seq<seq<Action>>, parser: seq<seq<Action>>, defred: seq<int>, finalState: int)
    requires WellFormed(g) && PrecedenceOk(g, P)
  {
    && Trans(A, 0, g.ntokens + 1, finalState)
    && |rows| == |parser| == |defred| == |A.states|
    && (forall s :: 0 <= s < |rows| ==> RowOk(g, A, P, s, rows[s]) && Resolves(rows[s], s == finalState, parser[s]))
    && (forall s :: 0 <= s < |rows| && defred[s] != 0 ==> OnlyReduces(parser[s], defred[s]))
    && (forall s, r :: 0 <= s < |rows| && defred[s] == 0 ==> !OnlyReduces(parser[s], r))
  }

  ghost predicate Resolves(row0: seq<Action>, final: bool, row: seq<Action>) {
    exists sr, rr :: ResolvedRow(row0, final, row, sr, rr)
  }

  /** The completed item of rule q has the lookahead t. */
  ghost predicate ReducesBy(g: Grammar, A: Automaton, s: int, t: int, q: int)
    requires WellFormed(g)
  {
    2 <= q < |g.rlhs| && Propagated(g, A, s, g.rrhs[q + 1] - 1, t)
  }

  /** The state shifts t to k, and r is the only rule it can reduce by on t. */
  ghost predicate OneOnOne(g: Grammar, A: Automaton, s: int, t: int, k: int, r: int)
    requires WellFormed(g)
  {
    && 0 <= t < g.ntokens && Trans(A, s, t, k) && IsState(A, s)
    && ReducesBy(g, A, s, t, r) && forall q :: ReducesBy(g, A, s, t, q) ==> q == r
  }

  lemma OnlyTwo(g: Grammar, P: Precedence, A: Automaton, s: int, row: seq<Action>, t: int, k: int, r: int, x: Action)
    requires WellFormed(g) && PrecedenceOk(g, P) && Canonical(g, A) && RowOk(g, A, P, s, row) && OneOnOne(g, A, s, t, k, r)
    ensures x in row && x.symbol == t <==> x == ShiftOn(P, t, k) || x == ReduceOn(P, t, r)
  {
    IsDeterministic(g, A);
    assert ReducesBy(g, A, s, t, r) && (x.symbol == t ==> (ReducesBy(g, A, s, t, x.number) <==> x.number == r));
    assert x in row <==> CanShift(g, A, P, s, x) || CanReduce(g, A, P, s, x);
  }

  lemma InOrderOnce(row: seq<Action>, i: nat, j: nat)
    requires Sorted(row) && i < |row| && j < |row|
    ensures i != j ==> row[i] != row[j]
    ensures row[i].symbol == row[j].symbol && row[i].code == Shift && row[j].code == Reduce ==> i < j
  {
    assert i < j ==> Less(row[i], row[j]);
    assert j < i ==> Less(row[j], row[i]);
  }

  lemma NoGap(row: seq<Action>, i: nat, j: nat)
    requires Sorted(row) && i + 1 < j < |row| && row[i].symbol == row[j].symbol
    ensures row[i + 1].symbol == row[i].symbol
  {
    assert Less(row[i], row[i + 1]) && Less(row[i + 1], row[j]);
  }

  lemma TheTwo(g: Grammar, P: Precedence, A: Automaton, s: int, row: seq<Action>, t: int, k: int, r: int) returns (i: nat)
    requires WellFormed(g) && PrecedenceOk(g, P) && Canonical(g, A) && RowOk(g, A, P, s, row) && OneOnOne(g, A, s, t, k, r)
    ensures i + 1 < |row| && row[i] == ShiftOn(P, t, k) && row[i + 1] == ReduceOn(P, t, r)
    ensures forall j :: 0 <= j < |row| && row[j].symbol == t ==> j == i || j == i + 1
  {
    var a, b := ShiftOn(P, t, k), ReduceOn(P, t, r);
    forall x ensures x in row && x.symbol == t <==> x == a || x == b {
      OnlyTwo(g, P, A, s, row, t, k, r, x);
    }
    assert Sorted(row);
    hide PrecedenceOk, WellFormed, Canonical, OneOnOne, RowOk;
    assert a in row && b in row;
    i :| 0 <= i < |row| && row[i] == a;
    var j :| 0 <= j < |row| && row[j] == b;
    InOrderOnce(row, i, j);
    forall h | 0 <= h < |row| && row[h].symbol == t ensures h == i || h == j {
      assert row[h] in row;
      InOrderOnce(row, h, i);
      InOrderOnce(row, h, j);
    }
    if i + 1 < j { NoGap(row, i, j); }
  }

  /** The actions i and i + 1 are the only ones on t. The precedence declared for the
      token is compared with that of the rule, and the associativity of the token
      decides between equal ones. */
  ghost predicate ByPrecedence(P: Precedence, row: seq<Action>, t: int, k: int, r: int, i: int)
    requires 0 <= t < |P.symbolPrec| == |P.symbolAssoc| && 0 <= r < |P.rulePrec|
  {
    && 0 <= i && i + 1 < |row| && (forall j :: 0 <= j < |row| ==> (row[j].symbol == t <==> j == i || j == i + 1))
    && row[i].code == Shift && row[i].number == k && row[i + 1].code == Reduce && row[i + 1].number == r
    && var m, n, p, q := row[i].suppressed, row[i + 1].suppressed, P.symbolPrec[t], P.rulePrec[r];
       if p <= 0 || q <= 0 then m == 1 && n == 1
       else if p > q || (p == q && P.symbolAssoc[t] == Right) then m == 0 && n == 2
       else if p < q || (p == q && P.symbolAssoc[t] == Left) then m == 2 && n == 0
       else m == 2 && n == 2
  }

  lemma InTables(g: Grammar, P: Precedence, A: Automaton, s: int, t: int, k: int, r: int)
    requires WellFormed(g) && PrecedenceOk(g, P) && OneOnOne(g, A, s, t, k, r)
    ensures 0 <= t < |P.symbolPrec| == |P.symbolAssoc| && 0 <= r < |P.rulePrec|
  {
    assert ReducesBy(g, A, s, t, r);
  }

  lemma DecidedRow(P: Precedence, row0: seq<Action>, final: bool, row: seq<Action>, t: int, k: int, r: int, i: nat)
    requires 0 <= t < |P.symbolPrec| == |P.symbolAssoc| && 0 <= r < |P.rulePrec| == |P.ruleAssoc|
    requires Sorted(row0) && Resolves(row0, final, row) && !(final && t == 0)
    requires i + 1 < |row0| && row0[i] == ShiftOn(P, t, k) && row0[i + 1] == ReduceOn(P, t, r)
    requires forall j :: 0 <= j < |row0| && row0[j].symbol == t ==> j == i || j == i + 1
    ensures ByPrecedence(P, row, t, k, r, i)
  {
    hide Resolve, Sorted;
    ShiftReduce(row0, final, i);
    assert row == WithMarks(row0, Resolve(row0, final, |row0|).marks);
  }

  /** A shift and a reduction on the same token in a state are resolved so. */
  lemma PrecedenceDecides(g: Grammar, P: Precedence, A: Automaton, rows: seq<seq<Action>>, parser: seq<seq<Action>>, defred: seq<int>, finalState: int, s: int, t: int, k: int, r: int)
    requires WellFormed(g) && PrecedenceOk(g, P) && Canonical(g, A) && RowsFor(g, P, A, rows, parser, defred, finalState)
    requires OneOnOne(g, A, s, t, k, r) && !(s == finalState && t == 0)
    ensures s < |parser| && exists i :: ByPrecedence(P, parser[s], t, k, r, i)
  {
    InTables(g, P, A, s, t, k, r);
    assert 0 <= s < |rows| && RowOk(g, A, P, s, rows[s]) && Sorted(rows[s]) && |P.rulePrec| == |P.ruleAssoc|;
    assert Resolves(rows[s], s == finalState, parser[s]);
    hide Canonical, PrecedenceOk, WellFormed, Resolves, RowsFor, RowOk, Sorted, ByPrecedence;
    var i := TheTwo(g, P, A, s, rows[s], t, k, r);
    DecidedRow(P, rows[s], s == finalState, parser[s], t, k, r, i);
  }

  method MakeRows(g: Grammar, P: Precedence, A: Automaton, L: Slots, LA: array2<bv32>)
    returns (parser: seq<seq<Action>>, defred: seq<int>, finalState: int, sr: seq<nat>, rr: seq<nat>, SRtotal: nat, RRtotal: nat, ghost rows: seq<seq<Action>>)
    requires WellFormed(g) && Canonical(g, A) && PrecedenceOk(g, P)
    requires RowsOk(g, A, L, Rows(LA)) && LA.Length1 == WordSize(g.ntokens)
    ensures RowsFor(g, P, A, rows, parser, defred, finalState)
    ensures ParserOk(parser, defred, sr, rr, g.ntokens) && SRtotal == Sum(sr) && RRtotal == Sum(rr)
  {
    hide Canonical, RowsOk, PrecedenceOk, InputOk, RowCounts, WellFormed, CountedIn, Sorted, ConflictsOk, RowOk, OnlyReduces;
    parser, SRtotal, RRtotal, sr, rr, defred, rows, finalState := MakeParser(g, A, P, L, LA);
    forall s | 0 <= s < |rows| ensures InputOk(parser[s], g.ntokens) && RowCounts(parser[s], sr[s], rr[s]) {
      RowNumbers(g, A, P, s, rows[s]);
      ResolvedInput(rows[s], s == finalState, parser[s], sr[s], rr[s], g.ntokens);
    }
  }

  /** The whole generator: the canonical LR(0) collection, the rows of its
      LALR(1) parser, and tables from which the parser reads back every entry of
      the rows. It gives up only on too many states or on a table beyond its
      limit. */
  method GenerateParser(g: Grammar, P: Precedence, values: seq<int>)
    returns (A: Automaton, parser: seq<seq<Action>>, defred: seq<int>, finalState: int, e: Emitted, fatal: bool, ghost rows: seq<seq<Action>>)
    requires WellFormed(g) && PrecedenceOk(g, P)
    requires |values| == g.ntokens && ValuesOk(values) && DistinctValues(values)
    ensures Canonical(g, A) && RowsFor(g, P, A, rows, parser, defred, finalState)
    ensures !fatal ==> AllRead(g, A, e, parser, defred, values)
    ensures fatal ==> |A.states| > MAXSHORT || OutOfRoom(g, A, e, parser, defred, values)
  {
    var L, LA, T, SRtotal, RRtotal, sr, rr;
    A, L, LA, T := Generate(g);
    parser, defred, finalState, sr, rr, SRtotal, RRtotal, rows := MakeRows(g, P, A, L, LA);
    e := Emitted(0, [], [], [], 0, [], []);
    fatal := |A.states| > MAXSHORT;
    if !fatal {
      IsDeterministic(g, A);
      e, fatal := OutputActions(g, A, T, values, parser, defred, sr, rr, SRtotal, RRtotal);
    }
  }
}
