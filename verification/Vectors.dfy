/** output.c, token_actions: from scanned rows to vectors, and the room the
    conflict lists take. */
module Vectors {
  import opened Packing
  import opened Actions
  import opened Conflicts
  import opened ConflictTable
  import opened TokenActions
  import opened ConflictRows

  // ----- vectors of a row

  /** The entries of the first n tokens as keys and values. */
  ghost function VecTo(values: seq<int>, entries: seq<int>, off: int, n: nat): (v: Vec)
    requires n <= |entries| == |values|
    ensures |v.from| == |v.to|
  {
    if n == 0 then Vec([], [])
    else
      var v := VecTo(values, entries, off, n - 1);
      if entries[n - 1] == 0 then v else Vec(v.from + [values[n - 1]], v.to + [entries[n - 1] - off])
  }

  ghost predicate DistinctValues(values: seq<int>) {
    forall i, j :: 0 <= i < j < |values| ==> values[i] != values[j]
  }

  /** With distinct symbol values a vector maps every token to its entry. */
  lemma {:induction false} VecAt(values: seq<int>, entries: seq<int>, off: int, n: nat, t: int)
    requires n <= |entries| == |values| && DistinctValues(values) && 0 <= t < n
    ensures
      var v := VecTo(values, entries, off, n);
      Entry(v.from, v.to, |v.from|, values[t]) == if entries[t] == 0 then None else Some(entries[t] - off)
  {
    var v, u := VecTo(values, entries, off, n), VecTo(values, entries, off, n - 1);
    if t < n - 1 {
      VecAt(values, entries, off, n - 1, t);
      EntryPrefix(u, v, values[t]);
    } else {
      VecKeys(values, entries, off, n - 1);
      EntryKey(u.from, u.to, |u.from|, values[t]);
      assert u.from[..|u.from|] == u.from;
    }
  }

  lemma EntryPrefix(u: Vec, v: Vec, c: int)
    requires |u.from| == |u.to| <= |v.from| == |v.to| <= |u.from| + 1 && u.from <= v.from && u.to <= v.to
    requires |v.from| > |u.from| ==> v.from[|u.from|] != c
    ensures Entry(v.from, v.to, |v.from|, c) == Entry(u.from, u.to, |u.from|, c)
  {
    EntrySame(u, v, |u.from|, c);
  }

  lemma {:induction false} EntrySame(u: Vec, v: Vec, n: nat, c: int)
    requires n <= |u.from| == |u.to| <= |v.from| == |v.to| && u.from <= v.from && u.to <= v.to
    ensures Entry(v.from, v.to, n, c) == Entry(u.from, u.to, n, c)
  {
    if n > 0 { EntrySame(u, v, n - 1, c); }
  }

  lemma {:induction false} VecKeys(values: seq<int>, entries: seq<int>, off: int, n: nat)
    requires n <= |entries| == |values|
    ensures forall c :: c in VecTo(values, entries, off, n).from ==> exists t :: 0 <= t < n && values[t] == c
    ensures |VecTo(values, entries, off, n).from| == |NonzeroTo(entries, n)|
  {
    if n > 0 {
      VecKeys(values, entries, off, n - 1);
      if entries[n - 1] != 0 {
        assert NonzeroTo(entries, n) == NonzeroTo(entries, n - 1) + {n - 1};
      } else {
        assert NonzeroTo(entries, n) == NonzeroTo(entries, n - 1);
      }
    } else {
      assert NonzeroTo(entries, 0) == {};
    }
  }

  ghost function NonzeroTo(entries: seq<int>, n: nat): set<int>
    requires n <= |entries|
  {
    set t | 0 <= t < n && entries[t] != 0
  }

  /** max - min + 1 */
  ghost function WidthOf(from: seq<int>): int {
    if from == [] then 0 else MaxOf(from, |from|) - MinOf(from, |from|) + 1
  }

  const MAXSHORT := 0x7FFF_FFFF

  ghost function MaxOf(s: seq<int>, n: nat): int
    requires n <= |s|
  {
    if n == 0 then 0 else if MaxOf(s, n - 1) < s[n - 1] then s[n - 1] else MaxOf(s, n - 1)
  }

  ghost function MinOf(s: seq<int>, n: nat): int
    requires n <= |s|
  {
    if n == 0 then MAXSHORT else if MinOf(s, n - 1) > s[n - 1] then s[n - 1] else MinOf(s, n - 1)
  }

  lemma {:induction false} ExtremaPrefix(s: seq<int>, t: seq<int>, n: nat)
    requires n <= |s| <= |t| && s <= t
    ensures MaxOf(t, n) == MaxOf(s, n) && MinOf(t, n) == MinOf(s, n)
  {
    if n > 0 { ExtremaPrefix(s, t, n - 1); }
  }

  /** The froms and tos of one part of the action row. Their length is the count
      of the scan. */
  method BuildVec(values: seq<int>, entries: seq<int>, off: int, ghost count: int) returns (v: Vec, width: int)
    requires |entries| == |values| && count == |Nonzero(entries)|
    ensures v == VecTo(values, entries, off, |entries|) && width == WidthOf(v.from) && |v.from| == count
  {
    v, width := Vec([], []), 0;
    var min, max := MAXSHORT, 0;
    for j := 0 to |entries|
      invariant v == VecTo(values, entries, off, j)
      invariant min == MinOf(v.from, |v.from|) && max == MaxOf(v.from, |v.from|)
    {
      if entries[j] != 0 {
        ghost var u := v;
        if min > values[j] {
          min := values[j];
        }
        if max < values[j] {
          max := values[j];
        }
        v := Vec(v.from + [values[j]], v.to + [entries[j] - off]);
        ExtremaPrefix(u.from, v.from, |u.from|);
      }
    }
    VecKeys(values, entries, off, |entries|);
    assert NonzeroTo(entries, |entries|) == Nonzero(entries);
    if |v.from| > 0 {
      width := max - min + 1;
    }
  }

  // ----- the room for the lists

  /** What one row asks of the table, for the conflicts counted in it. */
  ghost predicate RowCounts(row: seq<Action>, sr: nat, rr: nat) {
    TrialCount(row, |row|) <= 2 * (sr + rr) && |TrialSymbols(row, |row|)| <= sr + rr
  }

  lemma ResolvedCounts(row0: seq<Action>, final: bool, row: seq<Action>, sr: nat, rr: nat)
    requires Sorted(row0) && ResolvedRow(row0, final, row, sr, rr)
    ensures RowCounts(row, sr, rr)
  {
    ResolvedOk(row0, final, row, sr, rr);
    TrialCountIs(row, |row|);
    ListsPerConflict(row0, final, |row0|);
    assert row0[..|row0|] == row0;
  }

  lemma {:induction false} SumMono(counts: seq<nat>, n: nat)
    requires n <= |counts|
    ensures Sum(counts[..n]) <= Sum(counts)
    decreases |counts| - n
  {
    if n == |counts| {
      assert counts[..n] == counts;
    } else {
      SumMono(counts, n + 1);
      assert counts[..n + 1] == counts[..n] + [counts[n]];
      SumNext(counts[..n], counts[n]);
    }
  }

  lemma SumStep(counts: seq<nat>, n: nat)
    requires n < |counts|
    ensures Sum(counts[..n + 1]) == Sum(counts[..n]) + counts[n] <= Sum(counts)
  {
    assert counts[..n + 1] == counts[..n] + [counts[n]];
    SumNext(counts[..n], counts[n]);
    SumMono(counts, n + 1);
  }

  /** Three entries a conflict are enough, and four are allocated. */
  lemma RowHasRoom(row: seq<Action>, sr: seq<nat>, rr: seq<nat>, s: nat, used: nat)
    requires s < |sr| == |rr| && RowCounts(row, sr[s], rr[s])
    requires used <= 3 * (Sum(sr[..s]) + Sum(rr[..s]))
    ensures Room(row, used, 4 * (Sum(sr) + Sum(rr)))
    ensures used + TrialCount(row, |row|) + |TrialSymbols(row, |row|)| <= 3 * (Sum(sr[..s + 1]) + Sum(rr[..s + 1]))
  {
    SumStep(sr, s);
    SumStep(rr, s);
    var n := |TrialSymbols(row, |row|)|;
    assert TrialSymbols(row, |row|) != {} ==> n > 0;
  }

  // ----- all states

  /** What token_actions records of state s. */
  ghost predicate RowDone(row: seq<Action>, dr: int, ntokens: int, r: ActionRow, contents: seq<int>) {
    InputOk(row, ntokens) && RowOf(row, dr, |row|, -1, ntokens, r, contents)
  }

  lemma DoneStays(row: seq<Action>, dr: int, ntokens: int, r: ActionRow, c: seq<int>, d: seq<int>)
    requires RowDone(row, dr, ntokens, r, c) && c <= d
    ensures RowDone(row, dr, ntokens, r, d)
  {
    forall t | 0 <= t < |r.lists| ensures ListOk(row, dr, |row|, -1, t, r.lists[t], d) {
      assert ListOk(row, dr, |row|, -1, t, r.lists[t], c);
      if t in TrialSymbols(row, |row|) && t != -1 {
        ReadsOn(c, d, r.lists[t] - 1, TrialWord(row, dr, t, |row|) + [-1]);
      }
    }
  }

  ghost predicate ParserOk(parser: seq<seq<Action>>, defred: seq<int>, sr: seq<nat>, rr: seq<nat>, ntokens: int) {
    && |parser| == |defred| == |sr| == |rr|
    && forall s :: 0 <= s < |parser| ==> InputOk(parser[s], ntokens) && RowCounts(parser[s], sr[s], rr[s])
  }

  ghost predicate AllDone(parser: seq<seq<Action>>, defred: seq<int>, ntokens: int, rs: seq<ActionRow>, contents: seq<int>) {
    |rs| <= |parser| == |defred| && forall q :: 0 <= q < |rs| ==> RowDone(parser[q], defred[q], ntokens, rs[q], contents)
  }

  lemma AllStay(parser: seq<seq<Action>>, defred: seq<int>, ntokens: int, rs: seq<ActionRow>, c: seq<int>, d: seq<int>)
    requires AllDone(parser, defred, ntokens, rs, c) && c <= d
    ensures AllDone(parser, defred, ntokens, rs, d)
  {
    forall q | 0 <= q < |rs| ensures RowDone(parser[q], defred[q], ntokens, rs[q], d) {
      DoneStays(parser[q], defred[q], ntokens, rs[q], c, d);
    }
  }

  /** The room used before state s. */
  ghost predicate UsedTo(sr: seq<nat>, rr: seq<nat>, s: nat, used: nat) {
    s <= |sr| == |rr| && used <= 3 * (Sum(sr[..s]) + Sum(rr[..s]))
  }

  /** The room that state s may use. */
  lemma RowReady(parser: seq<seq<Action>>, defred: seq<int>, ntokens: nat, sr: seq<nat>, rr: seq<nat>, s: nat, used: nat) returns (next: nat)
    requires ParserOk(parser, defred, sr, rr, ntokens) && s < |parser| && UsedTo(sr, rr, s, used)
    ensures s < |defred| && InputOk(parser[s], ntokens) && Room(parser[s], used, 4 * (Sum(sr) + Sum(rr)))
    ensures next == used + Used(parser[s], |parser[s]|, -1) && UsedTo(sr, rr, s + 1, next)
  {
    RowHasRoom(parser[s], sr, rr, s, used);
    UsedAll(parser[s], ntokens);
    next := used + Used(parser[s], |parser[s]|, -1);
  }

  lemma DoneNext(parser: seq<seq<Action>>, defred: seq<int>, ntokens: int, rs: seq<ActionRow>, r: ActionRow, c: seq<int>, d: seq<int>)
    requires AllDone(parser, defred, ntokens, rs, c) && c <= d && |rs| < |parser|
    requires RowDone(parser[|rs|], defred[|rs|], ntokens, r, d)
    ensures AllDone(parser, defred, ntokens, rs + [r], d)
  {
    hide RowDone;
    AllStay(parser, defred, ntokens, rs, c, d);
  }

  method ScanNext(parser: seq<seq<Action>>, defred: seq<int>, ntokens: nat, T: Table, ghost sr: seq<nat>, ghost rr: seq<nat>, ghost used: nat, rs: seq<ActionRow>)
    returns (rs': seq<ActionRow>, ghost used': nat)
    requires ParserOk(parser, defred, sr, rr, ntokens) && |rs| < |parser| && UsedTo(sr, rr, |rs|, used)
    requires T.Building([]) && T.nconflicts <= used + 1 && T.conflicts.Length == 4 * (Sum(sr) + Sum(rr))
    requires AllDone(parser, defred, ntokens, rs, T.Contents())
    modifies T, T.conflicts
    ensures T.Building([]) && T.nconflicts <= used' + 1 && UsedTo(sr, rr, |rs| + 1, used')
    ensures |rs'| == |rs| + 1 && AllDone(parser, defred, ntokens, rs', T.Contents())
  {
    hide ParserOk, UsedTo, AllDone, InputOk, RowOf, Room, Used, Sum;
    var s := |rs|;
    ghost var c := T.Contents();
    used' := RowReady(parser, defred, ntokens, sr, rr, s, used);
    var r := ScanRow(parser[s], defred[s], ntokens, T, used);
    assert RowDone(parser[s], defred[s], ntokens, r, T.Contents());
    DoneNext(parser, defred, ntokens, rs, r, c, T.Contents());
    rs' := rs + [r];
  }

  /** The scan of all rows. The table of conflict lists, with four entries for
      every conflict counted, never overflows. */
  method ScanRows(parser: seq<seq<Action>>, defred: seq<int>, ntokens: nat, T: Table, ghost sr: seq<nat>, ghost rr: seq<nat>) returns (rs: seq<ActionRow>)
    requires ParserOk(parser, defred, sr, rr, ntokens) && T.Building([]) && T.nconflicts == 0
    requires T.conflicts.Length == 4 * (Sum(sr) + Sum(rr))
    modifies T, T.conflicts
    ensures T.Building([]) && |rs| == |parser| && AllDone(parser, defred, ntokens, rs, T.Contents())
  {
    rs := [];
    ghost var used: nat := 0;
    for s := 0 to |parser|
      invariant T.Building([]) && T.nconflicts <= used + 1 && UsedTo(sr, rr, s, used)
      invariant |rs| == s && AllDone(parser, defred, ntokens, rs, T.Contents())
    {
      rs, used := ScanNext(parser, defred, ntokens, T, sr, rr, used, rs);
    }
  }

  lemma UsedAll(row: seq<Action>, ntokens: int)
    requires InputOk(row, ntokens)
    ensures Used(row, |row|, -1) == TrialCount(row, |row|) + |TrialSymbols(row, |row|)|
  {
    TrialTokens(row, ntokens, |row|);
    assert TrialSymbols(row, |row|) - {-1} == TrialSymbols(row, |row|);
  }
}
