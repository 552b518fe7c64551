/** output.c, token_actions: the scan of one action row. */
module ConflictRows {
  import opened Actions
  import opened ConflictTable
  import opened TokenActions

  // ----- the room used

  /** Every action kept for trial, and every list closed, takes at most one entry. */
  ghost function Used(row: seq<Action>, n: nat, csym: int): nat
    requires n <= |row|
  {
    TrialCount(row, n) + |TrialSymbols(row, n) - {csym}|
  }

  ghost predicate Room(row: seq<Action>, used: nat, capacity: int) {
    TrialSymbols(row, |row|) != {} ==> used + TrialCount(row, |row|) + |TrialSymbols(row, |row|)| < capacity
  }

  lemma OpenSize(row: seq<Action>, n: nat, csym: int)
    requires n <= |row| && csym in TrialSymbols(row, n)
    ensures |TrialSymbols(row, n) - {csym}| + 1 == |TrialSymbols(row, n)| <= |TrialSymbols(row, |row|)|
    ensures TrialSymbols(row, |row|) != {}
  {
    var s := TrialSymbols(row, n);
    assert s == (s - {csym}) + {csym};
    TrialCountMono(row, n, |row|);
    SubsetSize(s, TrialSymbols(row, |row|));
  }

  lemma CloseRoom(row: seq<Action>, n: nat, csym: int, used: nat, capacity: int)
    requires n <= |row| && csym in TrialSymbols(row, n) && Room(row, used, capacity)
    ensures used + Used(row, n, csym) + 1 < capacity
    ensures forall c :: c !in TrialSymbols(row, n) ==> Used(row, n, c) == Used(row, n, csym) + 1
  {
    OpenSize(row, n, csym);
    TrialCountMono(row, n, |row|);
    forall c | c !in TrialSymbols(row, n) ensures Used(row, n, c) == Used(row, n, csym) + 1 {
      assert TrialSymbols(row, n) - {c} == TrialSymbols(row, n);
    }
  }

  lemma PushRoom(row: seq<Action>, n: nat, used: nat, capacity: int, csym: int)
    requires n < |row| && row[n].suppressed == 1 && Room(row, used, capacity)
    requires csym == row[n].symbol || (csym !in TrialSymbols(row, n) && row[n].symbol !in TrialSymbols(row, n))
    ensures used + Used(row, n, csym) + 1 < capacity && used + 2 < capacity
    ensures Used(row, n + 1, row[n].symbol) == Used(row, n, csym) + 1
  {
    var t := row[n].symbol;
    assert IsTrial(row[n], t);
    assert HasTrialOn(row, t, n + 1);
    OpenSize(row, n + 1, t);
    TrialCountMono(row, n + 1, |row|);
    assert TrialSymbols(row, n + 1) - {t} == TrialSymbols(row, n) - {csym};
  }

  // ----- what the scan keeps

  /** The closed lists can be read at their recorded places. */
  ghost predicate ListsOk(row: seq<Action>, dr: int, n: nat, csym: int, lists: seq<int>, contents: seq<int>)
    requires n <= |row|
  {
    forall t :: 0 <= t < |lists| ==> ListOk(row, dr, n, csym, t, lists[t], contents)
  }

  ghost predicate ListOk(row: seq<Action>, dr: int, n: nat, csym: int, t: int, entry: int, contents: seq<int>)
    requires n <= |row|
  {
    if t in TrialSymbols(row, n) && t != csym then entry >= 1 && Reads(contents, entry - 1, TrialWord(row, dr, t, n) + [-1])
    else entry == 0
  }

  /** csym is the symbol whose list is being built, -1 if none is. */
  ghost predicate CsymOk(row: seq<Action>, n: nat, csym: int)
    requires n <= |row|
  {
    && (csym != -1 ==> n > 0 && csym == row[n - 1].symbol && csym in TrialSymbols(row, n))
    && (n > 0 && row[n - 1].symbol in TrialSymbols(row, n) ==> csym == row[n - 1].symbol)
  }

  ghost function WordOf(row: seq<Action>, dr: int, n: nat, csym: int): seq<int>
    requires n <= |row|
  {
    if csym == -1 then [] else TrialWord(row, dr, csym, n)
  }

  lemma ListsClosed(row: seq<Action>, dr: int, n: nat, csym: int, lists: seq<int>, c: seq<int>, d: seq<int>, j: int)
    requires n <= |row| && 0 <= csym < |lists| && csym in TrialSymbols(row, n) && c <= d
    requires ListsOk(row, dr, n, csym, lists, c) && Reads(d, j, TrialWord(row, dr, csym, n) + [-1])
    ensures ListsOk(row, dr, n, -1, lists[csym := j + 1], d)
  {
    var l := lists[csym := j + 1];
    forall t | 0 <= t < |l| ensures ListOk(row, dr, n, -1, t, l[t], d) {
      assert ListOk(row, dr, n, csym, t, lists[t], c);
      if t in TrialSymbols(row, n) && t != csym {
        ReadsOn(c, d, lists[t] - 1, TrialWord(row, dr, t, n) + [-1]);
      }
    }
  }

  lemma ListPass(row: seq<Action>, dr: int, n: nat, csym: int, csym': int, t: int, entry: int, c: seq<int>)
    requires n < |row| && t >= 0 && ListOk(row, dr, n, csym, t, entry, c)
    requires csym == -1 || csym == row[n].symbol
    requires csym' == (if row[n].suppressed == 1 then row[n].symbol else csym)
    requires csym == -1 ==> row[n].symbol !in TrialSymbols(row, n)
    ensures ListOk(row, dr, n + 1, csym', t, entry, c)
  {
    hide TrialWord, Reads;
    if t != row[n].symbol {
      WordStays(row, dr, t, n, n + 1);
      assert t in TrialSymbols(row, n + 1) <==> t in TrialSymbols(row, n);
    }
  }

  /** An action leaves the lists of the other symbols alone. */
  lemma ListsPass(row: seq<Action>, dr: int, n: nat, csym: int, csym': int, lists: seq<int>, c: seq<int>)
    requires n < |row| && ListsOk(row, dr, n, csym, lists, c)
    requires csym == -1 || csym == row[n].symbol
    requires csym' == (if row[n].suppressed == 1 then row[n].symbol else csym)
    requires csym == -1 ==> row[n].symbol !in TrialSymbols(row, n)
    ensures ListsOk(row, dr, n + 1, csym', lists, c)
  {
    hide ListOk, TrialSymbols;
    forall t | 0 <= t < |lists| ensures ListOk(row, dr, n + 1, csym', t, lists[t], c) {
      ListPass(row, dr, n, csym, csym', t, lists[t], c);
    }
  }

  /** A symbol not seen right before has not been seen at all. */
  lemma NewTrialSymbol(row: seq<Action>, n: nat)
    requires n < |row| && Sorted(row) && (n > 0 ==> row[n - 1].symbol != row[n].symbol)
    ensures row[n].symbol !in TrialSymbols(row, n)
  {
    if i :| 0 <= i < n && IsTrial(row[i], row[n].symbol) {
      assert Less(row[n - 1], row[n]);
      assert i < n - 1 ==> Less(row[i], row[n - 1]);
    }
  }

  ghost predicate Scanning(row: seq<Action>, dr: int, n: nat, csym: int, lists: seq<int>, T: Table, used: nat)
    requires n <= |row|
    reads T, T.conflicts
  {
    && CsymOk(row, n, csym) && T.Building(WordOf(row, dr, n, csym)) && ListsOk(row, dr, n, csym, lists, T.Contents())
    && T.nconflicts <= used + Used(row, n, csym) + 1
  }

  /** Closing the list of csym. */
  method CloseList(row: seq<Action>, ghost dr: int, ghost n: nat, csym: int, lists: seq<int>, T: Table, ghost used: nat) returns (lists': seq<int>)
    requires n <= |row| && Scanning(row, dr, n, csym, lists, T, used) && 0 <= csym < |lists|
    requires Room(row, used, T.conflicts.Length) && -1 !in TrialSymbols(row, n)
    modifies T, T.conflicts
    ensures T.Building([]) && ListsOk(row, dr, n, -1, lists', T.Contents()) && |lists'| == |lists|
    ensures T.nconflicts <= used + Used(row, n, -1) + 1 && old(T.Contents()) <= T.Contents()
  {
    CloseRoom(row, n, csym, used, T.conflicts.Length);
    ghost var c := T.Contents();
    var j := T.Close(TrialWord(row, dr, csym, n));
    ListsClosed(row, dr, n, csym, lists, c, T.Contents(), j);
    lists' := lists[csym := j + 1];
  }

  /** What the action itself puts into the list. */
  method PushTrial(row: seq<Action>, dr: int, n: nat, ghost csym: int, T: Table, ghost used: nat)
    requires n < |row| && Sorted(row) && NumbersOk(row) && row[n].suppressed == 1
    requires csym == row[n].symbol || (csym == -1 && -1 !in TrialSymbols(row, n) && row[n].symbol !in TrialSymbols(row, n))
    requires T.Building(TrialWord(row, dr, row[n].symbol, n)) && T.nconflicts <= used + Used(row, n, csym) + 1
    requires Room(row, used, T.conflicts.Length)
    modifies T, T.conflicts
    ensures T.Building(TrialWord(row, dr, row[n].symbol, n + 1)) && T.Contents() == old(T.Contents())
    ensures T.nconflicts <= used + Used(row, n + 1, row[n].symbol) + 1
  {
    var p := row[n];
    ghost var w := TrialWord(row, dr, p.symbol, n);
    PushRoom(row, n, used, T.conflicts.Length, csym);
    PushWord(row, dr, n);
    if p.code == Shift {
      T.AddShift(p.number, w);
    } else if p.number != dr {
      T.AddReduce(p.number, w);
    }
  }

  lemma PushWord(row: seq<Action>, dr: int, n: nat)
    requires n < |row| && Sorted(row) && NumbersOk(row) && row[n].suppressed == 1
    ensures
      var p, w, v := row[n], TrialWord(row, dr, row[n].symbol, n), TrialWord(row, dr, row[n].symbol, n + 1);
      if p.code == Shift then w == [] && v == [p.number]
      else if p.number != dr then v == (if w == [] then [-1] else w) + [p.number - 2]
      else v == w
  {
    if row[n].code == Shift {
      WordBeforeShift(row, dr, row[n].symbol, n, n);
    }
  }

  // ----- the shift and reduce entries

  ghost predicate Taken(a: Action, t: int, code: Code, dr: int) {
    a.symbol == t && a.suppressed == 0 && a.code == code && (code == Reduce ==> a.number != dr)
  }

  /** The last unsuppressed action of that code on t among the first n, or 0. */
  ghost function EntryOf(row: seq<Action>, dr: int, n: nat, t: int, code: Code): int
    requires n <= |row|
  {
    if n == 0 then 0
    else if Taken(row[n - 1], t, code, dr) then row[n - 1].number
    else EntryOf(row, dr, n - 1, t, code)
  }

  ghost predicate EntriesOk(row: seq<Action>, dr: int, n: nat, code: Code, entries: seq<int>, count: int)
    requires n <= |row|
  {
    && (forall t :: 0 <= t < |entries| ==> entries[t] == EntryOf(row, dr, n, t, code))
    && count == |Nonzero(entries)|
  }

  /** The symbols with an entry. */
  ghost function Nonzero(entries: seq<int>): set<int> {
    set t | 0 <= t < |entries| && entries[t] != 0
  }

  /** At most one action on a symbol is unsuppressed. */
  ghost predicate OneTaken(row: seq<Action>) {
    forall i, j :: 0 <= i < j < |row| && row[i].symbol == row[j].symbol ==> row[i].suppressed != 0 || row[j].suppressed != 0
  }

  lemma {:induction false} EntryIs(row: seq<Action>, dr: int, n: nat, t: int, code: Code)
    requires n <= |row| && NumbersOk(row)
    ensures EntryOf(row, dr, n, t, code) == 0 <==> forall i :: 0 <= i < n ==> !Taken(row[i], t, code, dr)
    ensures EntryOf(row, dr, n, t, code) != 0 ==> exists i :: 0 <= i < n && Taken(row[i], t, code, dr) && row[i].number == EntryOf(row, dr, n, t, code)
  {
    if n > 0 { EntryIs(row, dr, n - 1, t, code); }
  }

  lemma EntryNext(row: seq<Action>, dr: int, n: nat, code: Code, entries: seq<int>, count: int)
    requires n < |row| && NumbersOk(row) && OneTaken(row) && EntriesOk(row, dr, n, code, entries, count) && row[n].symbol < |entries|
    ensures
      var t := row[n].symbol;
      if Taken(row[n], t, code, dr) then EntriesOk(row, dr, n + 1, code, entries[t := row[n].number], count + 1)
      else EntriesOk(row, dr, n + 1, code, entries, count)
  {
    var t := row[n].symbol;
    if Taken(row[n], t, code, dr) {
      EntryIs(row, dr, n, t, code);
      assert entries[t] == 0;
      assert Nonzero(entries[t := row[n].number]) == Nonzero(entries) + {t};
    }
  }

  lemma NoEntries(row: seq<Action>, dr: int, ntokens: nat, code: Code)
    ensures EntriesOk(row, dr, 0, code, seq(ntokens, _ => 0), 0)
  {
    assert Nonzero(seq(ntokens, _ => 0)) == {};
  }

  // ----- the scan

  /** What the action row holds after a scan. */
  datatype ActionRow = ActionRow(shifts: seq<int>, reduces: seq<int>, lists: seq<int>, shiftcount: int, reducecount: int, conflictcount: int)

  ghost predicate Counts(row: seq<Action>, n: nat, csym: int, count: int)
    requires n <= |row|
  {
    count == |TrialSymbols(row, n) - {csym}|
  }

  ghost predicate RowOf(row: seq<Action>, dr: int, n: nat, csym: int, ntokens: int, r: ActionRow, contents: seq<int>)
    requires n <= |row|
  {
    && |r.shifts| == |r.reduces| == |r.lists| == ntokens
    && EntriesOk(row, dr, n, Shift, r.shifts, r.shiftcount) && EntriesOk(row, dr, n, Reduce, r.reduces, r.reducecount)
    && ListsOk(row, dr, n, csym, r.lists, contents) && Counts(row, n, csym, r.conflictcount)
  }

  ghost predicate InputOk(row: seq<Action>, ntokens: int) {
    Sorted(row) && NumbersOk(row) && OneTaken(row) && forall i :: 0 <= i < |row| ==> row[i].symbol < ntokens
  }

  ghost predicate ScanOk(row: seq<Action>, dr: int, n: nat, csym: int, ntokens: int, r: ActionRow, T: Table, used: nat)
    requires n <= |row|
    reads T, T.conflicts
  {
    && InputOk(row, ntokens) && Room(row, used, T.conflicts.Length)
    && Scanning(row, dr, n, csym, r.lists, T, used) && RowOf(row, dr, n, csym, ntokens, r, T.Contents())
  }

  lemma TrialTokens(row: seq<Action>, ntokens: int, n: nat)
    requires n <= |row| && InputOk(row, ntokens)
    ensures forall t :: t in TrialSymbols(row, n) ==> 0 <= t < ntokens
  {
    forall t | t in TrialSymbols(row, n) ensures 0 <= t < ntokens {
      var i :| 0 <= i < n && IsTrial(row[i], t);
    }
  }

  /** The first part of the loop body: an open list of another symbol is closed. */
  method EndList(row: seq<Action>, ghost dr: int, ghost n: nat, csym: int, ghost ntokens: int, r: ActionRow, T: Table, ghost used: nat) returns (r': ActionRow)
    requires n <= |row| && ScanOk(row, dr, n, csym, ntokens, r, T, used) && csym != -1
    modifies T, T.conflicts
    ensures T.Building([]) && RowOf(row, dr, n, -1, ntokens, r', T.Contents()) && old(T.Contents()) <= T.Contents()
    ensures T.nconflicts <= used + Used(row, n, -1) + 1
  {
    TrialTokens(row, ntokens, n);
    CloseRoom(row, n, csym, used, T.conflicts.Length);
    assert TrialSymbols(row, n) - {-1} == (TrialSymbols(row, n) - {csym}) + {csym};
    var lists := CloseList(row, dr, n, csym, r.lists, T, used);
    r' := r.(lists := lists, conflictcount := r.conflictcount + 1);
  }

  /** An unsuppressed action is recorded. */
  method Record(row: seq<Action>, dr: int, n: nat, ghost ntokens: int, r: ActionRow) returns (r': ActionRow)
    requires n < |row| && InputOk(row, ntokens) && |r.shifts| == |r.reduces| == ntokens
    requires EntriesOk(row, dr, n, Shift, r.shifts, r.shiftcount) && EntriesOk(row, dr, n, Reduce, r.reduces, r.reducecount)
    ensures |r'.shifts| == |r'.reduces| == ntokens && r'.lists == r.lists && r'.conflictcount == r.conflictcount
    ensures EntriesOk(row, dr, n + 1, Shift, r'.shifts, r'.shiftcount) && EntriesOk(row, dr, n + 1, Reduce, r'.reduces, r'.reducecount)
  {
    var p := row[n];
    EntryNext(row, dr, n, Shift, r.shifts, r.shiftcount);
    EntryNext(row, dr, n, Reduce, r.reduces, r.reducecount);
    r' := r;
    if p.suppressed == 0 {
      if p.code == Shift {
        r' := r.(shiftcount := r.shiftcount + 1, shifts := r.shifts[p.symbol := p.number]);
      } else if p.number != dr {
        r' := r.(reducecount := r.reducecount + 1, reduces := r.reduces[p.symbol := p.number]);
      }
    }
  }

  /** The second part: the action is recorded, or goes into the list. */
  method TakeAction(row: seq<Action>, dr: int, n: nat, csym: int, ghost ntokens: int, r: ActionRow, T: Table, ghost used: nat) returns (r': ActionRow, csym': int)
    requires n < |row| && InputOk(row, ntokens) && Room(row, used, T.conflicts.Length)
    requires T.Building(WordOf(row, dr, n, csym)) && T.nconflicts <= used + Used(row, n, csym) + 1
    requires RowOf(row, dr, n, csym, ntokens, r, T.Contents())
    requires csym == -1 || (csym == row[n].symbol && csym in TrialSymbols(row, n))
    requires csym == -1 ==> row[n].symbol !in TrialSymbols(row, n)
    modifies T, T.conflicts
    ensures ScanOk(row, dr, n + 1, csym', ntokens, r', T, used) && T.Contents() == old(T.Contents())
  {
    TrialTokens(row, ntokens, n);
    r' := Record(row, dr, n, ntokens, r);
    csym' := csym;
    if row[n].suppressed == 1 {
      NoWordYet(row, dr, n);
      PushTrial(row, dr, n, csym, T, used);
      csym' := row[n].symbol;
    }
    ListsPass(row, dr, n, csym, csym', r.lists, T.Contents());
    StillOpen(row, dr, n, csym, csym');
  }

  lemma NoWordYet(row: seq<Action>, dr: int, n: nat)
    requires n < |row|
    ensures row[n].symbol !in TrialSymbols(row, n) ==> TrialWord(row, dr, row[n].symbol, n) == []
  {
    if row[n].symbol !in TrialSymbols(row, n) { LeadNone(row, dr, row[n].symbol, n); }
  }

  lemma {:induction false} LeadNone(row: seq<Action>, dr: int, sym: int, n: nat)
    requires n <= |row| && !HasTrialOn(row, sym, n)
    ensures Lead(row, sym, n) == -1 && Reds(row, dr, sym, n) == []
  {
    if n > 0 { LeadNone(row, dr, sym, n - 1); }
  }

  lemma StillOpen(row: seq<Action>, dr: int, n: nat, csym: int, csym': int)
    requires n < |row| && csym' == (if row[n].suppressed == 1 then row[n].symbol else csym)
    requires csym == -1 || (csym == row[n].symbol && csym in TrialSymbols(row, n))
    requires csym == -1 ==> row[n].symbol !in TrialSymbols(row, n)
    requires -1 !in TrialSymbols(row, n)
    ensures CsymOk(row, n + 1, csym')
    ensures row[n].suppressed != 1 ==> WordOf(row, dr, n + 1, csym') == WordOf(row, dr, n, csym) && Used(row, n + 1, csym') == Used(row, n, csym)
    ensures TrialSymbols(row, n + 1) - {csym'} == TrialSymbols(row, n) - {csym}
  {
    assert row[n].suppressed == 1 ==> IsTrial(row[n], row[n].symbol);
  }

  lemma StartScan(row: seq<Action>, dr: int, ntokens: nat, contents: seq<int>)
    ensures RowOf(row, dr, 0, -1, ntokens, ActionRow(seq(ntokens, _ => 0), seq(ntokens, _ => 0), seq(ntokens, _ => 0), 0, 0, 0), contents)
    ensures Used(row, 0, -1) == 0
  {
    NoEntries(row, dr, ntokens, Shift);
    NoEntries(row, dr, ntokens, Reduce);
    assert TrialSymbols(row, 0) - {-1} == {};
  }

  /** Before an action on another symbol nothing is left open for it. */
  lemma ReadyFor(row: seq<Action>, n: nat, csym: int, ntokens: int)
    requires n < |row| && InputOk(row, ntokens) && CsymOk(row, n, csym)
    ensures csym != row[n].symbol ==> row[n].symbol !in TrialSymbols(row, n)
  {
    if csym != row[n].symbol && n > 0 && row[n - 1].symbol != row[n].symbol { NewTrialSymbol(row, n); }
  }

  /** The body of token_actions for one row. */
  method ScanRow(row: seq<Action>, dr: int, ntokens: nat, T: Table, ghost used: nat) returns (r: ActionRow)
    requires InputOk(row, ntokens) && Room(row, used, T.conflicts.Length) && T.Building([]) && T.nconflicts <= used + 1
    modifies T, T.conflicts
    ensures T.Building([]) && old(T.Contents()) <= T.Contents()
    ensures RowOf(row, dr, |row|, -1, ntokens, r, T.Contents())
    ensures T.nconflicts <= used + Used(row, |row|, -1) + 1
  {
    var zeros := seq(ntokens, _ => 0);
    r := ActionRow(zeros, zeros, zeros, 0, 0, 0);
    StartScan(row, dr, ntokens, T.Contents());
    var csym := -1;
    for n := 0 to |row|
      invariant ScanOk(row, dr, n, csym, ntokens, r, T, used) && old(T.Contents()) <= T.Contents()
    {
      TrialTokens(row, ntokens, n);
      ReadyFor(row, n, csym, ntokens);
      if csym != -1 && csym != row[n].symbol {
        r := EndList(row, dr, n, csym, ntokens, r, T, used);
        csym := -1;
      }
      r, csym := TakeAction(row, dr, n, csym, ntokens, r, T, used);
    }
    if csym != -1 {
      r := EndList(row, dr, |row|, csym, ntokens, r, T, used);
    }
  }
}
