/** output.c, output_actions: all tables of the parser, and what the skeleton
    reads back from them. */
module OutputTables {
  import opened Grammar
  import opened ClosureTables
  import opened Automaton
  import opened Machine
  import opened Includes
  import opened Relations
  import opened Packing
  import opened PackTable
  import opened Actions
  import opened Conflicts
  import CT = ConflictTable
  import opened TokenActions
  import opened ConflictRows
  import opened Vectors
  import opened GotoTables

  // ----- the vectors

  ghost predicate ValuesOk(values: seq<int>) {
    forall t :: 0 <= t < |values| ==> 0 <= values[t] <= MAXSHORT
  }

  lemma {:induction false} VecToOk(values: seq<int>, entries: seq<int>, off: int, n: nat)
    requires n <= |entries| == |values| && ValuesOk(values)
    ensures VecOk(VecTo(values, entries, off, n))
  {
    if n > 0 { VecToOk(values, entries, off, n - 1); }
  }

  /** Vectors and their widths, kept together. */
  ghost predicate WidthsOk(vectors: seq<Vec>, widths: seq<int>) {
    && |widths| == |vectors|
    && forall i :: 0 <= i < |vectors| ==> VecOk(vectors[i]) && widths[i] == WidthOf(vectors[i].from)
  }

  lemma WidthsAppend(vs: seq<Vec>, ws: seq<int>, us: seq<Vec>, xs: seq<int>)
    requires WidthsOk(vs, ws) && WidthsOk(us, xs)
    ensures WidthsOk(vs + us, ws + xs)
  {
  }

  lemma WidthsAreOk(vectors: seq<Vec>, widths: seq<int>)
    requires WidthsOk(vectors, widths)
    ensures VectorsOk(vectors, widths)
  {
  }

  datatype Part = ShiftPart | ReducePart | ConflictPart

  function EntriesOf(r: ActionRow, part: Part): seq<int> {
    match part
    case ShiftPart => r.shifts
    case ReducePart => r.reduces
    case ConflictPart => r.lists
  }

  function CountOfPart(r: ActionRow, part: Part): int {
    match part
    case ShiftPart => r.shiftcount
    case ReducePart => r.reducecount
    case ConflictPart => r.conflictcount
  }

  function OffsetOf(part: Part): int {
    match part
    case ShiftPart => 0
    case ReducePart => 2
    case ConflictPart => 1
  }

  /** The counts of the scan are the numbers of entries. */
  ghost predicate CountsOk(r: ActionRow, part: Part, ntokens: int) {
    |EntriesOf(r, part)| == ntokens && CountOfPart(r, part) == |Nonzero(EntriesOf(r, part))|
  }

  ghost predicate IsPart(values: seq<int>, r: ActionRow, part: Part, v: Vec) {
    |EntriesOf(r, part)| == |values| && v == VecTo(values, EntriesOf(r, part), OffsetOf(part), |values|)
  }

  /** One part of all rows. */
  method PartVectors(values: seq<int>, rs: seq<ActionRow>, part: Part) returns (vs: seq<Vec>, ws: seq<int>)
    requires ValuesOk(values) && forall s :: 0 <= s < |rs| ==> CountsOk(rs[s], part, |values|)
    ensures WidthsOk(vs, ws) && PartsIn(values, rs, part, vs)
    ensures forall s :: 0 <= s < |rs| ==> |vs[s].from| == CountOfPart(rs[s], part)
  {
    vs, ws := [], [];
    for s := 0 to |rs|
      invariant |vs| == s && WidthsOk(vs, ws)
      invariant forall q :: 0 <= q < s ==> IsPart(values, rs[q], part, vs[q])
      invariant forall q :: 0 <= q < s ==> |vs[q].from| == CountOfPart(rs[q], part)
    {
      assert CountsOk(rs[s], part, |values|);
      var v, w := BuildVec(values, EntriesOf(rs[s], part), OffsetOf(part), CountOfPart(rs[s], part));
      VecToOk(values, EntriesOf(rs[s], part), OffsetOf(part), |values|);
      vs, ws := vs + [v], ws + [w];
    }
  }

  lemma DoneCounts(row: seq<Action>, dr: int, ntokens: int, r: ActionRow, contents: seq<int>, part: Part)
    requires RowDone(row, dr, ntokens, r, contents)
    ensures CountsOk(r, part, ntokens)
  {
    TrialTokens(row, ntokens, |row|);
    var n := |row|;
    forall t | 0 <= t < ntokens ensures r.lists[t] != 0 <==> t in TrialSymbols(row, n) {
      assert ListOk(row, dr, n, -1, t, r.lists[t], contents);
    }
    assert Nonzero(r.lists) == TrialSymbols(row, n) - {-1};
  }

  // ----- columns

  ghost predicate ColumnOk(g: Grammar, A: Automaton, T: Gotos, b: int)
    requires WellFormed(g)
  {
    && 0 <= b && b + 1 < |T.starts| && 0 <= T.starts[b] <= T.starts[b + 1] <= |T.from| == |T.to|
    && Increases(T.from[T.starts[b]..T.starts[b + 1]])
    && (forall k :: T.starts[b] <= k < T.starts[b + 1] ==> 0 <= T.from[k] < |A.states| && 0 <= T.to[k] < |A.states|)
  }

  lemma {:induction false} StartsMono(g: Grammar, T: Gotos, a: nat, b: nat)
    requires WellFormed(g) && ColumnsOk(g, T) && a <= b <= VarCount(g)
    ensures T.starts[a] <= T.starts[b]
  {
    if a < b { StartsMono(g, T, a, b - 1); }
  }

  lemma ColumnIsOk(g: Grammar, A: Automaton, T: Gotos, b: int)
    requires WellFormed(g) && GotosOk(g, A, T) && 0 <= b < VarCount(g)
    ensures ColumnOk(g, A, T, b)
  {
    StartsMono(g, T, 0, b);
    StartsMono(g, T, b + 1, VarCount(g));
    var from := T.from[T.starts[b]..T.starts[b + 1]];
    forall i, j | 0 <= i < j < |from| ensures from[i] < from[j] {
      assert InColumn(T, b, T.starts[b] + i) && InColumn(T, b, T.starts[b] + j);
    }
    forall k | T.starts[b] <= k < T.starts[b + 1] ensures 0 <= T.from[k] < |A.states| && 0 <= T.to[k] < |A.states| {
      assert InColumn(T, b, k);
    }
  }

  /** Column and default of nonterminal b. */
  ghost predicate IsColumn(T: Gotos, b: int, v: Vec, d: int) {
    && 0 <= b && b + 1 < |T.starts| && 0 <= T.starts[b] <= T.starts[b + 1] <= |T.from| == |T.to|
    && v == Exceptions(T.from[T.starts[b]..T.starts[b + 1]], T.to[T.starts[b]..T.starts[b + 1]], d, T.starts[b + 1] - T.starts[b])
    && (T.starts[b] < T.starts[b + 1] ==> MostFrequent(T.to[T.starts[b]..T.starts[b + 1]], d))
  }

  /** Columns are numbered from that of the goal. */
  ghost predicate IsColumnNo(T: Gotos, c: int, v: Vec, d: int) {
    IsColumn(T, c + 1, v, d)
  }

  method Column(g: Grammar, A: Automaton, T: Gotos, b: int) returns (v: Vec, width: int, d: int)
    requires WellFormed(g) && GotosOk(g, A, T) && 0 <= b < VarCount(g) && |A.states| <= MAXSHORT
    ensures IsColumn(T, b, v, d) && VecOk(v) && width == WidthOf(v.from)
  {
    ColumnIsOk(g, A, T, b);
    var m, n := T.starts[b], T.starts[b + 1];
    d := DefaultGoto(T.to[m..n], |A.states|);
    v, width := SaveColumn(T.from[m..n], T.to[m..n], d);
    ExceptionsOk(T.from[m..n], T.to[m..n], d);
  }

  /** goto_actions: columns and defaults of all nonterminals but $accept. */
  method GotoActions(g: Grammar, A: Automaton, T: Gotos) returns (vs: seq<Vec>, ws: seq<int>, dgoto: seq<int>)
    requires WellFormed(g) && GotosOk(g, A, T) && |A.states| <= MAXSHORT
    ensures |vs| == |dgoto| == VarCount(g) - 1 && WidthsOk(vs, ws)
    ensures forall c :: 0 <= c < |vs| ==> IsColumnNo(T, c, vs[c], dgoto[c])
  {
    vs, ws, dgoto := [], [], [];
    for b := 1 to VarCount(g)
      invariant |vs| == |dgoto| == b - 1 && WidthsOk(vs, ws)
      invariant forall c :: 0 <= c < |vs| ==> IsColumnNo(T, c, vs[c], dgoto[c])
    {
      var v, w, d := Column(g, A, T, b);
      vs, ws, dgoto := vs + [v], ws + [w], dgoto + [d];
    }
  }

  // ----- what the skeleton reads

  /** The tables written out. */
  datatype Emitted = Emitted(nstates: int, base: seq<int>, table: seq<int>, check: seq<int>, high: int, ctable: seq<int>, dgoto: seq<int>)

  ghost predicate EmittedOk(e: Emitted, nvars: int) {
    e.nstates >= 0 && |e.base| == 3 * e.nstates + nvars && e.high < |e.table| == |e.check| && |e.dgoto| == nvars - 1
  }

  /** yysindex, yyrindex and yycindex of state s, looked up for a token value. */
  ghost function PartLookup(e: Emitted, part: Part, s: int, c: int): Option<int>
    requires e.high < |e.table| == |e.check| && 0 <= s < e.nstates && 3 * e.nstates <= |e.base|
  {
    Lookup(e.base[(match part case ShiftPart => 0 case ReducePart => e.nstates case ConflictPart => 2 * e.nstates) + s], e.table, e.check, e.high, c)
  }

  /** The row has an unsuppressed action of that code and number on t. */
  ghost predicate Takes(row: seq<Action>, t: int, code: Code, dr: int, k: int) {
    exists i :: 0 <= i < |row| && Taken(row[i], t, code, dr) && row[i].number == k
  }

  ghost predicate ShiftsRead(row: seq<Action>, t: int, r: Option<int>) {
    && (r.Some? ==> Takes(row, t, Shift, 0, r.value))
    && forall k :: Takes(row, t, Shift, 0, k) ==> r == Some(k)
  }

  ghost predicate ReducesRead(row: seq<Action>, dr: int, t: int, r: Option<int>) {
    && (r.Some? ==> Takes(row, t, Reduce, dr, r.value + 2))
    && forall k :: Takes(row, t, Reduce, dr, k) ==> r == Some(k - 2)
  }

  ghost predicate ConflictsRead(row: seq<Action>, dr: int, t: int, ctable: seq<int>, r: Option<int>) {
    && (r == None <==> !HasTrialOn(row, t, |row|))
    && (r.Some? ==> CT.Reads(ctable, r.value, TrialWord(row, dr, t, |row|) + [-1]))
  }

  /** What the parser finds for state s and token t is what the action row says. */
  ghost predicate TokenRead(e: Emitted, row: seq<Action>, dr: int, s: int, t: int, c: int)
    requires e.high < |e.table| == |e.check| && 0 <= s < e.nstates && 3 * e.nstates <= |e.base|
  {
    && ShiftsRead(row, t, PartLookup(e, ShiftPart, s, c))
    && ReducesRead(row, dr, t, PartLookup(e, ReducePart, s, c))
    && ConflictsRead(row, dr, t, e.ctable, PartLookup(e, ConflictPart, s, c))
  }

  lemma EntryIsTaken(row: seq<Action>, dr: int, t: int, code: Code, k: int)
    requires NumbersOk(row) && OneTaken(row)
    ensures k != 0 && EntryOf(row, dr, |row|, t, code) == k <==> Takes(row, t, code, dr, k)
  {
    EntryIs(row, dr, |row|, t, code);
    if Takes(row, t, code, dr, k) {
      var i :| 0 <= i < |row| && Taken(row[i], t, code, dr) && row[i].number == k;
      var j :| 0 <= j < |row| && Taken(row[j], t, code, dr) && row[j].number == EntryOf(row, dr, |row|, t, code);
      assert i == j;
    }
  }

  lemma PartRead(e: Emitted, vectors: seq<Vec>, values: seq<int>, r: ActionRow, part: Part, s: int, t: int, i: int)
    requires Lossless(vectors, e.base, e.table, e.check, e.high) && ValuesOk(values) && DistinctValues(values)
    requires 0 <= s < e.nstates && 3 * e.nstates <= |e.base| && 0 <= t < |values|
    requires i == (match part case ShiftPart => 0 case ReducePart => e.nstates case ConflictPart => 2 * e.nstates) + s
    requires IsPart(values, r, part, vectors[i])
    ensures PartLookup(e, part, s, values[t]) == if EntriesOf(r, part)[t] == 0 then None else Some(EntriesOf(r, part)[t] - OffsetOf(part))
  {
    VecAt(values, EntriesOf(r, part), OffsetOf(part), |values|, t);
    LosslessAt(vectors, e.base, e.table, e.check, e.high, i, values[t]);
  }

  /** Two tokens declared with the value 300, with shifts to states 7 and 9: in
      every packed table only the second is found. */
  lemma DuplicateHidden(pos: int, table: seq<int>, check: seq<int>, high: int)
    requires Packed([VecTo([0, 256, 300, 300], [0, 0, 7, 9], 0, 4)], [pos], table, check, high)
    ensures Lookup(pos, table, check, high, 300) == Some(9)
  {
    var values, entries := [0, 256, 300, 300], [0, 0, 7, 9];
    assert VecTo(values, entries, 0, 2) == Vec([], []);
    assert VecTo(values, entries, 0, 3) == Vec([300], [7]);
    var v := VecTo(values, entries, 0, 4);
    assert v == Vec([300, 300], [7, 9]);
    LookupExact([v], [pos], table, check, high, 0, 300);
    assert At(v, 300) == Some(9);
  }

  /** A value that is not a token's finds nothing. */
  lemma PartMissed(e: Emitted, vectors: seq<Vec>, values: seq<int>, r: ActionRow, part: Part, s: int, c: int, i: int)
    requires Lossless(vectors, e.base, e.table, e.check, e.high) && 0 <= c && c !in values
    requires 0 <= s < e.nstates && 3 * e.nstates <= |e.base|
    requires i == (match part case ShiftPart => 0 case ReducePart => e.nstates case ConflictPart => 2 * e.nstates) + s
    requires IsPart(values, r, part, vectors[i])
    ensures PartLookup(e, part, s, c) == None
  {
    var v := vectors[i];
    VecKeys(values, EntriesOf(r, part), OffsetOf(part), |values|);
    EntryKey(v.from, v.to, |v.from|, c);
    assert v.from[..|v.from|] == v.from;
    LosslessAt(vectors, e.base, e.table, e.check, e.high, i, c);
  }

  /** All three parts of state s stand among the vectors. */
  ghost predicate PartsAt(values: seq<int>, rs: seq<ActionRow>, vectors: seq<Vec>) {
    && 3 * |rs| <= |vectors|
    && (forall s :: 0 <= s < |rs| ==> IsPart(values, rs[s], ShiftPart, vectors[s]))
    && (forall s :: 0 <= s < |rs| ==> IsPart(values, rs[s], ReducePart, vectors[|rs| + s]))
    && (forall s :: 0 <= s < |rs| ==> IsPart(values, rs[s], ConflictPart, vectors[2 * |rs| + s]))
  }

  lemma TokensRead(e: Emitted, vectors: seq<Vec>, values: seq<int>, rs: seq<ActionRow>, row: seq<Action>, dr: int, s: int, t: int)
    requires Lossless(vectors, e.base, e.table, e.check, e.high) && ValuesOk(values) && DistinctValues(values)
    requires PartsAt(values, rs, vectors) && 0 <= s < |rs| == e.nstates && 0 <= t < |values|
    requires RowDone(row, dr, |values|, rs[s], e.ctable)
    ensures TokenRead(e, row, dr, s, t, values[t])
  {
    PartsRead(e, vectors, values, rs, s, t);
    RowRead(row, dr, |values|, rs[s], t, e.ctable, PartLookup(e, ShiftPart, s, values[t]), PartLookup(e, ReducePart, s, values[t]), PartLookup(e, ConflictPart, s, values[t]));
  }

  lemma PartsRead(e: Emitted, vectors: seq<Vec>, values: seq<int>, rs: seq<ActionRow>, s: int, t: int)
    requires Lossless(vectors, e.base, e.table, e.check, e.high) && ValuesOk(values) && DistinctValues(values)
    requires PartsAt(values, rs, vectors) && 0 <= s < |rs| == e.nstates && 0 <= t < |values|
    ensures forall part :: |EntriesOf(rs[s], part)| == |values|
    ensures forall part :: PartLookup(e, part, s, values[t]) == (if EntriesOf(rs[s], part)[t] == 0 then None else Some(EntriesOf(rs[s], part)[t] - OffsetOf(part)))
  {
    PartRead(e, vectors, values, rs[s], ShiftPart, s, t, s);
    PartRead(e, vectors, values, rs[s], ReducePart, s, t, e.nstates + s);
    PartRead(e, vectors, values, rs[s], ConflictPart, s, t, 2 * e.nstates + s);
  }

  lemma OthersMissed(e: Emitted, vectors: seq<Vec>, values: seq<int>, rs: seq<ActionRow>, part: Part, s: int, c: int)
    requires Lossless(vectors, e.base, e.table, e.check, e.high) && 0 <= c && c !in values
    requires PartsAt(values, rs, vectors) && 0 <= s < |rs| == e.nstates
    ensures PartLookup(e, part, s, c) == None
  {
    match part
    case ShiftPart => PartMissed(e, vectors, values, rs[s], part, s, c, s);
    case ReducePart => PartMissed(e, vectors, values, rs[s], part, s, c, e.nstates + s);
    case ConflictPart => PartMissed(e, vectors, values, rs[s], part, s, c, 2 * e.nstates + s);
  }

  lemma RowRead(row: seq<Action>, dr: int, ntokens: int, r: ActionRow, t: int, contents: seq<int>, x: Option<int>, y: Option<int>, z: Option<int>)
    requires RowDone(row, dr, ntokens, r, contents) && 0 <= t < ntokens
    requires x == if r.shifts[t] == 0 then None else Some(r.shifts[t] - 0)
    requires y == if r.reduces[t] == 0 then None else Some(r.reduces[t] - 2)
    requires z == if r.lists[t] == 0 then None else Some(r.lists[t] - 1)
    ensures ShiftsRead(row, t, x) && ReducesRead(row, dr, t, y) && ConflictsRead(row, dr, t, contents, z)
  {
    ShiftEntryRead(row, dr, r, t, x);
    ReduceEntryRead(row, dr, r, t, y);
    ListEntryRead(row, dr, ntokens, r, t, contents, z);
  }

  lemma ShiftEntryRead(row: seq<Action>, dr: int, r: ActionRow, t: int, x: Option<int>)
    requires NumbersOk(row) && OneTaken(row) && 0 <= t < |r.shifts| && EntriesOk(row, dr, |row|, Shift, r.shifts, r.shiftcount)
    requires x == if r.shifts[t] == 0 then None else Some(r.shifts[t])
    ensures ShiftsRead(row, t, x)
  {
    forall k ensures Takes(row, t, Shift, 0, k) <==> k != 0 && r.shifts[t] == k {
      EntryIsTaken(row, dr, t, Shift, k);
      assert forall i :: 0 <= i < |row| ==> (Taken(row[i], t, Shift, 0) <==> Taken(row[i], t, Shift, dr));
    }
  }

  lemma ReduceEntryRead(row: seq<Action>, dr: int, r: ActionRow, t: int, x: Option<int>)
    requires NumbersOk(row) && OneTaken(row) && 0 <= t < |r.reduces| && EntriesOk(row, dr, |row|, Reduce, r.reduces, r.reducecount)
    requires x == if r.reduces[t] == 0 then None else Some(r.reduces[t] - 2)
    ensures ReducesRead(row, dr, t, x)
  {
    forall k ensures Takes(row, t, Reduce, dr, k) <==> k != 0 && r.reduces[t] == k {
      EntryIsTaken(row, dr, t, Reduce, k);
    }
  }

  lemma ListEntryRead(row: seq<Action>, dr: int, ntokens: int, r: ActionRow, t: int, contents: seq<int>, x: Option<int>)
    requires 0 <= t < ntokens && RowDone(row, dr, ntokens, r, contents)
    requires x == if r.lists[t] == 0 then None else Some(r.lists[t] - 1)
    ensures ConflictsRead(row, dr, t, contents, x)
  {
    assert ListOk(row, dr, |row|, -1, t, r.lists[t], contents);
  }

  /** The goto of state s over nonterminal b. */
  ghost function GotoRead(e: Emitted, s: int, b: int): int
    requires e.high < |e.table| == |e.check| && 0 <= e.nstates && 1 <= b && 3 * e.nstates + b - 1 < |e.base| && b - 1 < |e.dgoto|
  {
    GotoLookup(e.base[3 * e.nstates + b - 1], e.dgoto[b - 1], e.table, e.check, e.high, s)
  }

  /** Every goto over a nonterminal is found through its column and default. */
  lemma ColumnRead(g: Grammar, A: Automaton, T: Gotos, s: int, b: int, u: int, v: Vec, d: int, base: int, table: seq<int>, check: seq<int>, high: int)
    requires WellFormed(g) && GotosOk(g, A, T) && 1 <= b < VarCount(g) && Trans(A, s, g.ntokens + b, u) && Deterministic(A)
    requires IsColumn(T, b, v, d) && VecOk(v) && high < |table| == |check| && Lookup(base, table, check, high, s) == At(v, s)
    ensures GotoLookup(base, d, table, check, high, s) == u
  {
    hide Deterministic, Trans, GotoLookup;
    var i := GotoColumn(g, A, T, s, b, u);
    GotoFound(T.from[T.starts[b]..T.starts[b + 1]], T.to[T.starts[b]..T.starts[b + 1]], d, i, base, table, check, high);
  }

  lemma LosslessAt(vectors: seq<Vec>, base: seq<int>, table: seq<int>, check: seq<int>, high: int, v: int, c: int)
    requires Lossless(vectors, base, table, check, high) && 0 <= v < |vectors| && 0 <= c
    ensures VecOk(vectors[v]) && Lookup(base[v], table, check, high, c) == At(vectors[v], c)
  {
    assert Exact(vectors[v], base[v], table, check, high, c);
  }

  lemma GotoIndex(g: Grammar, A: Automaton, T: Gotos, s: int, X: int, u: int) returns (k: int)
    requires WellFormed(g) && GotosOk(g, A, T) && IsVar(g, X) && Trans(A, s, X, u) && Deterministic(A)
    ensures InColumn(T, X - g.ntokens, k) && 0 <= k < |T.from| && k < |T.to| && T.from[k] == s && T.to[k] == u
  {
    assert HasGoto(g, A, T, s, X);
    k :| IsGotoNo(g, A, T, k, s, X);
  }

  lemma GotoColumn(g: Grammar, A: Automaton, T: Gotos, s: int, b: int, u: int) returns (i: int)
    requires WellFormed(g) && GotosOk(g, A, T) && 1 <= b < VarCount(g) && Trans(A, s, g.ntokens + b, u) && Deterministic(A)
    ensures ColumnOk(g, A, T, b)
    ensures 0 <= i < T.starts[b + 1] - T.starts[b]
    ensures T.from[T.starts[b]..T.starts[b + 1]][i] == s && T.to[T.starts[b]..T.starts[b + 1]][i] == u
  {
    ColumnIsOk(g, A, T, b);
    var k := GotoIndex(g, A, T, s, g.ntokens + b, u);
    i := k - T.starts[b];
  }

  // ----- putting it together

  /** Every row and every goto is read back, and nothing is found that was not
      put in. */
  ghost predicate AllRead(g: Grammar, A: Automaton, e: Emitted, parser: seq<seq<Action>>, defred: seq<int>, values: seq<int>)
    requires WellFormed(g)
  {
    && EmittedOk(e, VarCount(g)) && e.nstates == |parser| == |defred| == |A.states|
    && (forall s, t :: 0 <= s < |parser| && 0 <= t < |values| ==> TokenRead(e, parser[s], defred[s], s, t, values[t]))
    && (forall s, part, c :: 0 <= s < |parser| && 0 <= c && c !in values ==> PartLookup(e, part, s, c) == None)
    && (forall s, X, u :: Trans(A, s, X, u) && g.ntokens < X < g.nsyms ==> GotoRead(e, s, X - g.ntokens) == u)
  }

  lemma GotoIsRead(g: Grammar, A: Automaton, T: Gotos, e: Emitted, vectors: seq<Vec>, s: int, X: int, u: int)
    requires WellFormed(g) && GotosOk(g, A, T) && Deterministic(A) && EmittedOk(e, VarCount(g)) && e.nstates == |A.states|
    requires Lossless(vectors, e.base, e.table, e.check, e.high) && Trans(A, s, X, u) && g.ntokens < X < g.nsyms
    requires forall c :: 0 <= c < VarCount(g) - 1 ==> IsColumnNo(T, c, vectors[3 * e.nstates + c], e.dgoto[c])
    ensures GotoRead(e, s, X - g.ntokens) == u
  {
    var b := X - g.ntokens;
    var v := 3 * e.nstates + (b - 1);
    assert IsColumnNo(T, b - 1, vectors[v], e.dgoto[b - 1]);
    LosslessAt(vectors, e.base, e.table, e.check, e.high, v, s);
    ColumnRead(g, A, T, s, b, u, vectors[v], e.dgoto[b - 1], e.base[v], e.table, e.check, e.high);
  }

  lemma AllAreRead(g: Grammar, A: Automaton, T: Gotos, e: Emitted, vectors: seq<Vec>, values: seq<int>, rs: seq<ActionRow>, parser: seq<seq<Action>>, defred: seq<int>)
    requires WellFormed(g) && GotosOk(g, A, T) && Deterministic(A) && ValuesOk(values) && DistinctValues(values)
    requires EmittedOk(e, VarCount(g)) && e.nstates == |parser| == |defred| == |rs| == |A.states|
    requires Lossless(vectors, e.base, e.table, e.check, e.high) && PartsAt(values, rs, vectors)
    requires AllDone(parser, defred, |values|, rs, e.ctable)
    requires forall c :: 0 <= c < VarCount(g) - 1 ==> IsColumnNo(T, c, vectors[3 * e.nstates + c], e.dgoto[c])
    ensures AllRead(g, A, e, parser, defred, values)
  {
    hide GotosOk, WellFormed, TokenRead, RowDone, IsColumnNo;
    forall s, t | 0 <= s < |parser| && 0 <= t < |values| ensures TokenRead(e, parser[s], defred[s], s, t, values[t]) {
      TokensRead(e, vectors, values, rs, parser[s], defred[s], s, t);
    }
    forall s, part, c | 0 <= s < |parser| && 0 <= c && c !in values ensures PartLookup(e, part, s, c) == None {
      OthersMissed(e, vectors, values, rs, part, s, c);
    }
    forall s, X, u | Trans(A, s, X, u) && g.ntokens < X < g.nsyms ensures GotoRead(e, s, X - g.ntokens) == u {
      GotoIsRead(g, A, T, e, vectors, s, X, u);
    }
  }

  /** The vectors of all parts, one after another. */
  method TokenParts(values: seq<int>, rs: seq<ActionRow>) returns (vs: seq<Vec>, ws: seq<int>)
    requires ValuesOk(values) && forall s, part :: 0 <= s < |rs| ==> CountsOk(rs[s], part, |values|)
    ensures |vs| == 3 * |rs| && WidthsOk(vs, ws) && PartsAt(values, rs, vs)
  {
    var v0, w0 := PartVectors(values, rs, ShiftPart);
    var v1, w1 := PartVectors(values, rs, ReducePart);
    var v2, w2 := PartVectors(values, rs, ConflictPart);
    WidthsAppend(v0, w0, v1, w1);
    WidthsAppend(v0 + v1, w0 + w1, v2, w2);
    vs, ws := v0 + v1 + v2, w0 + w1 + w2;
    PartsJoin(values, rs, v0, v1, v2);
  }

  ghost predicate PartsIn(values: seq<int>, rs: seq<ActionRow>, part: Part, vs: seq<Vec>) {
    |vs| == |rs| && forall s :: 0 <= s < |rs| ==> IsPart(values, rs[s], part, vs[s])
  }

  lemma PartsJoin(values: seq<int>, rs: seq<ActionRow>, v0: seq<Vec>, v1: seq<Vec>, v2: seq<Vec>)
    requires PartsIn(values, rs, ShiftPart, v0) && PartsIn(values, rs, ReducePart, v1) && PartsIn(values, rs, ConflictPart, v2)
    ensures PartsAt(values, rs, v0 + v1 + v2)
  {
    var vs := v0 + v1 + v2;
    forall s | 0 <= s < |rs| ensures vs[s] == v0[s] && vs[|rs| + s] == v1[s] && vs[2 * |rs| + s] == v2[s] {
    }
  }

  lemma PartsMore(values: seq<int>, rs: seq<ActionRow>, vs: seq<Vec>, us: seq<Vec>)
    requires PartsAt(values, rs, vs)
    ensures PartsAt(values, rs, vs + us)
  {
  }

  lemma EmptyVector(vs: seq<Vec>, ws: seq<int>)
    requires WidthsOk(vs, ws)
    ensures WidthsOk(vs + [Vec([], [])], ws + [0])
  {
    assert WidthsOk([Vec([], [])], [0]);
    WidthsAppend(vs, ws, [Vec([], [])], [0]);
  }

  /** The vectors hold the rows and columns as the froms and tos arrays do, the
      last one unused. */
  ghost predicate HoldEntries(g: Grammar, A: Automaton, T: Gotos, e: Emitted, parser: seq<seq<Action>>, defred: seq<int>, values: seq<int>, rs: seq<ActionRow>, vectors: seq<Vec>)
    requires WellFormed(g)
  {
    && GotosOk(g, A, T) && |parser| == |defred| == |rs| == |A.states| && AllDone(parser, defred, |values|, rs, e.ctable)
    && PartsAt(values, rs, vectors) && |vectors| == 3 * |rs| + VarCount(g) && |e.dgoto| == VarCount(g) - 1
    && (forall c :: 0 <= c < VarCount(g) - 1 ==> IsColumnNo(T, c, vectors[3 * |rs| + c], e.dgoto[c]))
    && vectors[|vectors| - 1] == Vec([], [])
  }

  /** One of these vectors found no room in the table. */
  ghost predicate OutOfRoom(g: Grammar, A: Automaton, e: Emitted, parser: seq<seq<Action>>, defred: seq<int>, values: seq<int>)
    requires WellFormed(g)
  {
    exists T, rs, vectors, widths ::
      && HoldEntries(g, A, T, e, parser, defred, values, rs, vectors)
      && WidthsOk(vectors, widths) && GaveUp(vectors, widths, e.table, e.check, e.high)
  }

  lemma PartKeys(values: seq<int>, r: ActionRow, part: Part, v: Vec, K: int)
    requires IsPart(values, r, part, v) && forall t :: 0 <= t < |values| ==> values[t] <= K
    ensures forall k :: 0 <= k < |v.from| ==> v.from[k] <= K
  {
    VecKeys(values, EntriesOf(r, part), OffsetOf(part), |values|);
    forall k | 0 <= k < |v.from| ensures v.from[k] <= K {
      assert v.from[k] in v.from;
    }
  }

  lemma ColumnKeys(g: Grammar, A: Automaton, T: Gotos, c: int, v: Vec, d: int)
    requires WellFormed(g) && GotosOk(g, A, T) && 0 <= c < VarCount(g) - 1 && IsColumnNo(T, c, v, d)
    ensures forall k :: 0 <= k < |v.from| ==> v.from[k] < |A.states|
  {
    ColumnIsOk(g, A, T, c + 1);
    var m, n := T.starts[c + 1], T.starts[c + 2];
    ExceptionKeys(T.from[m..n], T.to[m..n], d, n - m);
    forall k | 0 <= k < |v.from| ensures v.from[k] < |A.states| {
      assert v.from[k] in T.from[m..n];
    }
  }

  /** The keys are values of tokens and numbers of states. */
  lemma EntryKeys(g: Grammar, A: Automaton, T: Gotos, e: Emitted, parser: seq<seq<Action>>, defred: seq<int>, values: seq<int>, rs: seq<ActionRow>, vectors: seq<Vec>, i: int, K: int)
    requires WellFormed(g) && HoldEntries(g, A, T, e, parser, defred, values, rs, vectors) && 0 <= i < |vectors|
    requires |A.states| <= K + 1 && forall t :: 0 <= t < |values| ==> values[t] <= K
    ensures forall k :: 0 <= k < |vectors[i].from| ==> vectors[i].from[k] <= K
  {
    hide GotosOk, AllDone, IsPart, IsColumnNo, WellFormed;
    var n := |rs|;
    if i < n {
      PartKeys(values, rs[i], ShiftPart, vectors[i], K);
    } else if i < 2 * n {
      var s := i - n;
      assert IsPart(values, rs[s], ReducePart, vectors[n + s]);
      PartKeys(values, rs[s], ReducePart, vectors[i], K);
    } else if i < 3 * n {
      var s := i - 2 * n;
      assert IsPart(values, rs[s], ConflictPart, vectors[2 * n + s]);
      PartKeys(values, rs[s], ConflictPart, vectors[i], K);
    } else if i < |vectors| - 1 {
      var c := i - 3 * n;
      assert IsColumnNo(T, c, vectors[3 * n + c], e.dgoto[c]);
      ColumnKeys(g, A, T, c, vectors[i], e.dgoto[c]);
    }
  }

  lemma GaveUpNearLimit(vectors: seq<Vec>, widths: seq<int>, table: seq<int>, check: seq<int>, high: int, K: int)
    requires |widths| == |vectors| && GaveUp(vectors, widths, table, check, high) && 0 <= K
    requires forall i, k :: 0 <= i < |vectors| && 0 <= k < |vectors[i].from| ==> 0 <= vectors[i].from[k] <= K
    ensures high + K + |vectors| + 1 >= MAXTABLE
  {
    hide Precedes, NoRoom;
    var order, n: nat, pos :|
      WidestFirst(Tally(vectors), widths, order) && Lists(Tally(vectors), order, |vectors|) && TableFull(vectors, order, n, pos, table, check, high);
    Digraph.Pigeonhole(order, |vectors|);
    forall l | high < l < |check| ensures check[l] == -1 {
      if check[l] != -1 { TakenLow(InOrder(vectors, order, n), pos, table, check, high, l); }
    }
    FullNearLimit(check, high, pos, vectors[order[n]].from, 0, K);
  }

  lemma TakenLow(vs: seq<Vec>, pos: seq<int>, table: seq<int>, check: seq<int>, high: int, l: int)
    requires Packed(vs, pos, table, check, high) && 0 <= l < |check| && check[l] != -1
    ensures l <= high
  {
    var i :| 0 <= i < |vs| && OwnedBy(vs[i], pos[i], check[l], l);
    assert Stands(vs[i], pos[i], table, check, high);
  }

  /** The generator runs out of room only when the slots are used nearly up to the
      limit: all but the largest key and one for every vector. */
  lemma OutOfRoomNearLimit(g: Grammar, A: Automaton, e: Emitted, parser: seq<seq<Action>>, defred: seq<int>, values: seq<int>, K: nat)
    requires WellFormed(g) && OutOfRoom(g, A, e, parser, defred, values)
    requires |A.states| <= K + 1 && forall t :: 0 <= t < |values| ==> values[t] <= K
    ensures e.high + K + 3 * |A.states| + VarCount(g) + 1 >= MAXTABLE
  {
    hide GaveUp, HoldEntries;
    var T: Gotos, rs: seq<ActionRow>, vectors: seq<Vec>, widths: seq<int> :|
      && HoldEntries(g, A, T, e, parser, defred, values, rs, vectors)
      && WidthsOk(vectors, widths) && GaveUp(vectors, widths, e.table, e.check, e.high);
    forall i, k | 0 <= i < |vectors| && 0 <= k < |vectors[i].from| ensures 0 <= vectors[i].from[k] <= K {
      EntryKeys(g, A, T, e, parser, defred, values, rs, vectors, i, K);
      assert VecOk(vectors[i]);
    }
    GaveUpNearLimit(vectors, widths, e.table, e.check, e.high, K);
    EntryCount(g, A, T, e, parser, defred, values, rs, vectors);
  }

  lemma EntryCount(g: Grammar, A: Automaton, T: Gotos, e: Emitted, parser: seq<seq<Action>>, defred: seq<int>, values: seq<int>, rs: seq<ActionRow>, vectors: seq<Vec>)
    requires WellFormed(g) && HoldEntries(g, A, T, e, parser, defred, values, rs, vectors)
    ensures |vectors| == 3 * |A.states| + VarCount(g)
  {
  }

  /** All vectors in the order of the froms and tos arrays. */
  method Emit(g: Grammar, A: Automaton, T: Gotos, values: seq<int>, parser: seq<seq<Action>>, defred: seq<int>, rs: seq<ActionRow>, vs: seq<Vec>, ws: seq<int>, us: seq<Vec>, xs: seq<int>, dgoto: seq<int>, ctable: seq<int>)
    returns (e: Emitted, fatal: bool)
    requires WellFormed(g) && GotosOk(g, A, T) && Deterministic(A) && ValuesOk(values) && DistinctValues(values)
    requires |parser| == |defred| == |rs| == |A.states| && AllDone(parser, defred, |values|, rs, ctable)
    requires |vs| == 3 * |rs| && WidthsOk(vs, ws) && PartsAt(values, rs, vs)
    requires |us| == |dgoto| == VarCount(g) - 1 && WidthsOk(us, xs) && forall c :: 0 <= c < |us| ==> IsColumnNo(T, c, us[c], dgoto[c])
    ensures !fatal ==> AllRead(g, A, e, parser, defred, values)
    ensures fatal ==> OutOfRoom(g, A, e, parser, defred, values)
  {
    hide GaveUp, AllRead, AllDone, IsPart;
    var vectors := vs + us + [Vec([], [])];
    var widths := ws + xs + [0];
    WidthsAppend(vs, ws, us, xs);
    EmptyVector(vs + us, ws + xs);
    WidthsAreOk(vectors, widths);
    var base, t;
    base, t, fatal := PackAll(vectors, widths, 2 * |rs|);
    e := Emitted(|rs|, base[..], t.table, t.check, t.high, ctable, dgoto);
    PartsMore(values, rs, vs, us);
    PartsMore(values, rs, vs + us, [Vec([], [])]);
    forall c | 0 <= c < VarCount(g) - 1 ensures IsColumnNo(T, c, vectors[3 * e.nstates + c], e.dgoto[c]) {
      assert vectors[3 * e.nstates + c] == us[c];
    }
    if fatal {
      assert HoldEntries(g, A, T, e, parser, defred, values, rs, vectors);
    } else {
      AllAreRead(g, A, T, e, vectors, values, rs, parser, defred);
    }
  }

  /** output_actions. If every vector fits, the parser reads back every shift,
      reduction, conflict list and goto; it gives up only if one does not. */
  method OutputActions(g: Grammar, A: Automaton, T: Gotos, values: seq<int>, parser: seq<seq<Action>>, defred: seq<int>, sr: seq<nat>, rr: seq<nat>, SRtotal: nat, RRtotal: nat)
    returns (e: Emitted, fatal: bool)
    requires WellFormed(g) && GotosOk(g, A, T) && Deterministic(A) && |A.states| <= MAXSHORT
    requires |values| == g.ntokens && ValuesOk(values) && DistinctValues(values)
    requires ParserOk(parser, defred, sr, rr, g.ntokens) && |parser| == |A.states|
    requires SRtotal == Sum(sr) && RRtotal == Sum(rr)
    ensures !fatal ==> AllRead(g, A, e, parser, defred, values)
    ensures fatal ==> OutOfRoom(g, A, e, parser, defred, values)
  {
    var lists := new CT.Table(4 * (SRtotal + RRtotal));
    var rs := ScanRows(parser, defred, g.ntokens, lists, sr, rr);
    forall s, part | 0 <= s < |rs| ensures CountsOk(rs[s], part, |values|) {
      DoneCounts(parser[s], defred[s], |values|, rs[s], lists.Contents(), part);
    }
    var ctable := lists.conflicts[..lists.nconflicts];
    assert ctable == lists.Contents();
    var vs, ws := TokenParts(values, rs);
    var us, xs, dgoto := GotoActions(g, A, T);
    e, fatal := Emit(g, A, T, values, parser, defred, rs, vs, ws, us, xs, dgoto, ctable);
  }
}
