/** mkpar.c, remove_conflicts and sole_reduction: precedence, conflicts and
    default reductions. `suppressed` is 0 for the action taken, 1 for one kept
    for a trial parse, 2 for one ruled out by precedence. */
module Conflicts {
  import opened Bits
  import opened Grammar
  import opened Automaton
  import opened Machine
  import opened GotoMap
  import opened LookaheadTable
  import opened Actions

  /** Where the scan of a row stands: the marks so far, the preferred action of
      the current symbol, and the conflicts counted. */
  datatype Scan = Scan(marks: seq<int>, pref: int, sr: nat, rr: nat)

  ghost function Mark(marks: seq<int>, i: int, m: int): (r: seq<int>)
    requires 0 <= i < |marks|
    ensures |r| == |marks|
  {
    marks[i := m]
  }

  /** Both actions are kept for trial. */
  ghost function Clash(marks: seq<int>, pref: int): (r: seq<int>)
    requires 0 <= pref < |marks|
    ensures |r| == |marks| + 1
  {
    (if marks[pref] == 0 then Mark(marks, pref, 1) else marks) + [1]
  }

  /** One action more. */
  ghost function Step(row: seq<Action>, final: bool, s: Scan): (t: Scan)
    requires |s.marks| < |row| && -1 <= s.pref < |s.marks|
    ensures |t.marks| == |s.marks| + 1 && 0 <= t.pref < |t.marks|
  {
    var n, p := |s.marks|, row[|s.marks|];
    if s.pref < 0 || row[s.pref].symbol != p.symbol then s.(marks := s.marks + [0], pref := n)
    else
      var pref := row[s.pref];
      if final && p.symbol == 0 then s.(marks := Clash(s.marks, s.pref), sr := s.sr + 1)
      else if pref.code == Shift then
        if pref.prec > 0 && p.prec > 0 then
          if pref.prec < p.prec then s.(marks := Mark(s.marks, s.pref, 2) + [0], pref := n)
          else if pref.prec > p.prec then s.(marks := s.marks + [2])
          else if pref.assoc == Left then s.(marks := Mark(s.marks, s.pref, 2) + [0], pref := n)
          else if pref.assoc == Right then s.(marks := s.marks + [2])
          else s.(marks := Mark(s.marks, s.pref, 2) + [2])
        else s.(marks := Clash(s.marks, s.pref), sr := s.sr + 1)
      else s.(marks := Clash(s.marks, s.pref), rr := s.rr + 1)
  }

  ghost function Resolve(row: seq<Action>, final: bool, n: nat): (s: Scan)
    requires n <= |row|
    ensures |s.marks| == n && -1 <= s.pref < n && (n > 0 ==> 0 <= s.pref)
  {
    if n == 0 then Scan([], -1, 0, 0) else Step(row, final, Resolve(row, final, n - 1))
  }

  // ----- at most one action is left

  lemma ResolveStep(row: seq<Action>, final: bool, n: nat)
    requires 0 < n <= |row|
    ensures Resolve(row, final, n) == Step(row, final, Resolve(row, final, n - 1))
  {
  }

  /** Only the preferred action of the current symbol can be unmarked. */
  ghost predicate OnePreferred(row: seq<Action>, s: Scan)
    requires |s.marks| <= |row|
  {
    && (forall i :: 0 <= i < |s.marks| ==> 0 <= s.marks[i] <= 2)
    && (|s.marks| > 0 ==> 0 <= s.pref < |s.marks| && row[s.pref].symbol == row[|s.marks| - 1].symbol)
    && (forall i :: 0 <= i < |s.marks| && s.pref >= 0 && s.pref < |s.marks| && row[i].symbol == row[s.pref].symbol && i != s.pref ==> s.marks[i] != 0)
    && (forall i, j :: 0 <= i < j < |s.marks| && row[i].symbol == row[j].symbol ==> s.marks[i] != 0 || s.marks[j] != 0)
  }

  /** A new symbol has not occurred before. */
  lemma NewSymbol(row: seq<Action>, n: nat)
    requires 0 < n < |row| && Sorted(row) && row[n - 1].symbol != row[n].symbol
    ensures forall i :: 0 <= i < n ==> row[i].symbol != row[n].symbol
  {
    forall i | 0 <= i < n ensures row[i].symbol != row[n].symbol {
      assert Less(row[i], row[n]);
      assert i < n - 1 ==> Less(row[i], row[n - 1]);
      assert Less(row[n - 1], row[n]);
    }
  }

  lemma StepNewSymbol(row: seq<Action>, final: bool, s: Scan)
    requires |s.marks| < |row| && -1 <= s.pref < |s.marks| && Sorted(row) && OnePreferred(row, s)
    requires s.pref < 0 || row[s.pref].symbol != row[|s.marks|].symbol
    ensures OnePreferred(row, Step(row, final, s))
  {
    if s.pref >= 0 { NewSymbol(row, |s.marks|); }
  }

  lemma StepSameSymbol(row: seq<Action>, final: bool, s: Scan)
    requires |s.marks| < |row| && -1 <= s.pref < |s.marks| && OnePreferred(row, s)
    requires s.pref >= 0 && row[s.pref].symbol == row[|s.marks|].symbol
    ensures OnePreferred(row, Step(row, final, s))
  {
  }

  lemma StepOnePreferred(row: seq<Action>, final: bool, s: Scan)
    requires |s.marks| < |row| && -1 <= s.pref < |s.marks| && Sorted(row) && OnePreferred(row, s)
    ensures OnePreferred(row, Step(row, final, s))
  {
    if s.pref < 0 || row[s.pref].symbol != row[|s.marks|].symbol {
      StepNewSymbol(row, final, s);
    } else {
      StepSameSymbol(row, final, s);
    }
  }

  lemma {:induction false} AtMostOne(row: seq<Action>, final: bool, n: nat)
    requires n <= |row| && Sorted(row)
    ensures OnePreferred(row, Resolve(row, final, n))
  {
    if n > 0 {
      AtMostOne(row, final, n - 1);
      StepOnePreferred(row, final, Resolve(row, final, n - 1));
    }
  }

  // ----- conflicts counted

  ghost function Trials(marks: seq<int>): nat {
    multiset(marks)[1]
  }

  lemma TrialsMark(marks: seq<int>, i: int, m: int)
    requires 0 <= i < |marks|
    ensures Trials(Mark(marks, i, m)) == Trials(marks) + (if m == 1 then 1 else 0) - (if marks[i] == 1 then 1 else 0)
  {
  }

  lemma TrialsAppend(marks: seq<int>, m: int)
    ensures Trials(marks + [m]) == Trials(marks) + if m == 1 then 1 else 0
  {
  }

  /** Every conflict marks at most two actions, and one of the two is not the
      preferred action: no later step rules it out. */
  ghost predicate Counted(s: Scan) {
    && Trials(s.marks) <= 2 * (s.sr + s.rr)
    && (s.sr + s.rr > 0 ==> HasTrial(s.marks, s.pref))
    && (s.sr + s.rr == 0 ==> Trials(s.marks) == 0)
  }

  ghost predicate HasTrial(marks: seq<int>, pref: int) {
    exists i :: 0 <= i < |marks| && marks[i] == 1 && i != pref
  }

  lemma ClashCounts(marks: seq<int>, pref: int)
    requires 0 <= pref < |marks|
    ensures Trials(Clash(marks, pref)) <= Trials(marks) + 2
    ensures HasTrial(Clash(marks, pref), pref)
  {
    TrialsMark(marks, pref, 1);
    TrialsAppend(if marks[pref] == 0 then Mark(marks, pref, 1) else marks, 1);
    assert Clash(marks, pref)[|marks|] == 1;
  }

  lemma RuleOutCounts(marks: seq<int>, pref: int, m: int)
    requires 0 <= pref < |marks| && m != 1
    ensures Trials(Mark(marks, pref, 2) + [m]) <= Trials(marks)
    ensures HasTrial(marks, pref) ==> HasTrial(Mark(marks, pref, 2) + [m], pref) && HasTrial(Mark(marks, pref, 2) + [m], |marks|)
  {
    TrialsMark(marks, pref, 2);
    TrialsAppend(Mark(marks, pref, 2), m);
    if HasTrial(marks, pref) {
      var i :| 0 <= i < |marks| && marks[i] == 1 && i != pref;
      assert (Mark(marks, pref, 2) + [m])[i] == 1;
    }
  }

  lemma PassCounts(marks: seq<int>, pref: int, m: int)
    requires m != 1
    ensures Trials(marks + [m]) == Trials(marks)
    ensures HasTrial(marks, pref) ==> HasTrial(marks + [m], pref) && HasTrial(marks + [m], |marks|)
  {
    TrialsAppend(marks, m);
    if HasTrial(marks, pref) {
      var i :| 0 <= i < |marks| && marks[i] == 1 && i != pref;
      assert (marks + [m])[i] == 1;
    }
  }

  lemma StepCounted(row: seq<Action>, final: bool, s: Scan)
    requires |s.marks| < |row| && -1 <= s.pref < |s.marks| && Counted(s)
    ensures Counted(Step(row, final, s))
  {
    if s.pref < 0 || row[s.pref].symbol != row[|s.marks|].symbol {
      PassCounts(s.marks, s.pref, 0);
    } else if (final && row[|s.marks|].symbol == 0) || row[s.pref].code != Shift || row[s.pref].prec <= 0 || row[|s.marks|].prec <= 0 {
      ClashCounts(s.marks, s.pref);
    } else {
      DecidedCounts(row, s, Step(row, final, s));
    }
  }

  lemma DecidedCounts(row: seq<Action>, s: Scan, t: Scan)
    requires 0 <= s.pref < |s.marks| && Counted(s) && t.sr == s.sr && t.rr == s.rr
    requires
      || (t.marks == Mark(s.marks, s.pref, 2) + [0] && t.pref == |s.marks|)
      || (t.marks == s.marks + [2] && t.pref == s.pref)
      || (t.marks == Mark(s.marks, s.pref, 2) + [2] && t.pref == s.pref)
    ensures Counted(t)
  {
    if t.marks == s.marks + [2] {
      PassCounts(s.marks, s.pref, 2);
    } else {
      RuleOutCounts(s.marks, s.pref, 0);
      RuleOutCounts(s.marks, s.pref, 2);
    }
  }

  lemma {:induction false} ConflictsCounted(row: seq<Action>, final: bool, n: nat)
    requires n <= |row|
    ensures Counted(Resolve(row, final, n))
  {
    if n > 0 {
      ConflictsCounted(row, final, n - 1);
      StepCounted(row, final, Resolve(row, final, n - 1));
    }
  }

  lemma TrialIff(marks: seq<int>)
    ensures Trials(marks) > 0 <==> exists i :: 0 <= i < |marks| && marks[i] == 1
  {
    assert Trials(marks) > 0 <==> 1 in multiset(marks);
  }

  // ----- what precedence decides

  datatype Outcome = Keeps | Yields | Neither | Undecided

  /** How a shift fares against one reduction on its symbol: the higher
      precedence wins; at equal precedence left associativity reduces, right
      associativity shifts, and otherwise the symbol is an error. */
  function Against(shift: Action, reduce: Action): Outcome {
    if shift.prec <= 0 || reduce.prec <= 0 then Undecided
    else if shift.prec > reduce.prec then Keeps
    else if shift.prec < reduce.prec then Yields
    else match shift.assoc
      case Left => Yields
      case Right => Keeps
      case _ => Neither
  }

  /** i begins the actions on its symbol. */
  ghost predicate Begins(row: seq<Action>, i: int) {
    0 <= i < |row| && (i > 0 ==> row[i - 1].symbol != row[i].symbol)
  }

  lemma PrefSymbol(row: seq<Action>, final: bool, n: nat)
    requires 0 < n <= |row| && Sorted(row)
    ensures row[Resolve(row, final, n).pref].symbol == row[n - 1].symbol
  {
    AtMostOne(row, final, n);
  }

  /** At the first action on a symbol. */
  lemma AtBegin(row: seq<Action>, final: bool, i: nat)
    requires Sorted(row) && Begins(row, i)
    ensures
      var s := Resolve(row, final, i + 1);
      s.pref == i && s.marks == Resolve(row, final, i).marks + [0]
  {
    if i > 0 { PrefSymbol(row, final, i); }
  }

  /** A step changes no mark but that of the preferred action, and that one only
      on its own symbol. */
  lemma StepKeeps(row: seq<Action>, final: bool, s: Scan, i: nat)
    requires i < |s.marks| < |row| && -1 <= s.pref < |s.marks|
    requires i != s.pref || row[s.pref].symbol != row[|s.marks|].symbol
    ensures Step(row, final, s).marks[i] == s.marks[i]
  {
  }

  /** Past a symbol, one action more changes no mark on it. */
  lemma OneMore(row: seq<Action>, final: bool, e: nat, n: nat, i: nat)
    requires Sorted(row) && i < e < n <= |row| && row[e - 1].symbol != row[e].symbol
    ensures Resolve(row, final, n).marks[i] == Resolve(row, final, n - 1).marks[i]
  {
    var s := Resolve(row, final, n - 1);
    if e == n - 1 {
      PrefSymbol(row, final, e);
    } else {
      PrefPast(row, final, e, n - 1);
    }
    StepKeeps(row, final, s, i);
  }

  /** Once the scan is past a symbol its marks stay. */
  lemma {:induction false} MarksStay(row: seq<Action>, final: bool, e: nat, n: nat, i: nat)
    requires Sorted(row) && i < e <= n <= |row| && (e < |row| ==> row[e - 1].symbol != row[e].symbol)
    ensures Resolve(row, final, n).marks[i] == Resolve(row, final, e).marks[i]
  {
    hide Step, Sorted;
    if e < n {
      MarksStay(row, final, e, n - 1, i);
      OneMore(row, final, e, n, i);
    }
  }

  lemma PrefGrows(row: seq<Action>, final: bool, s: Scan)
    requires |s.marks| < |row| && -1 <= s.pref < |s.marks|
    ensures Step(row, final, s).pref >= s.pref
  {
  }

  lemma {:induction false} PrefPast(row: seq<Action>, final: bool, e: nat, n: nat)
    requires Sorted(row) && 0 < e < n <= |row| && row[e - 1].symbol != row[e].symbol
    ensures Resolve(row, final, n).pref >= e
  {
    hide Step, Sorted;
    if n == e + 1 {
      AtBegin(row, final, e);
    } else {
      PrefPast(row, final, e, n - 1);
      PrefGrows(row, final, Resolve(row, final, n - 1));
    }
  }

  /** A lone action is taken. */
  lemma LoneAction(row: seq<Action>, final: bool, i: nat)
    requires Sorted(row) && Begins(row, i) && (i + 1 < |row| ==> row[i].symbol != row[i + 1].symbol)
    ensures Resolve(row, final, |row|).marks[i] == 0
  {
    AtBegin(row, final, i);
    MarksStay(row, final, i + 1, |row|, i);
  }

  /** A shift and one reduction on the same symbol: precedence decides as the
      documentation of yacc has it, or both are kept for trial. */
  lemma ShiftReduce(row: seq<Action>, final: bool, i: nat)
    requires Sorted(row) && Begins(row, i) && i + 1 < |row| && row[i].symbol == row[i + 1].symbol
    requires i + 2 < |row| ==> row[i + 1].symbol != row[i + 2].symbol
    requires row[i].code == Shift && !(final && row[i].symbol == 0)
    ensures
      var m, a, b := Resolve(row, final, |row|).marks, row[i].prec, row[i + 1].prec;
      if a <= 0 || b <= 0 then m[i] == 1 && m[i + 1] == 1
      else if a > b || (a == b && row[i].assoc == Right) then m[i] == 0 && m[i + 1] == 2
      else if a < b || (a == b && row[i].assoc == Left) then m[i] == 2 && m[i + 1] == 0
      else m[i] == 2 && m[i + 1] == 2
  {
    hide Step, Resolve, Against, Sorted;
    AtBegin(row, final, i);
    MarksStay(row, final, i + 2, |row|, i);
    MarksStay(row, final, i + 2, |row|, i + 1);
    StepPair(row, final, Resolve(row, final, i + 1), i);
    ResolveStep(row, final, i + 2);
  }

  lemma StepPair(row: seq<Action>, final: bool, s: Scan, i: nat)
    requires i + 1 == |s.marks| < |row| && s.pref == i && s.marks[i] == 0 && row[i].symbol == row[i + 1].symbol
    requires row[i].code == Shift && !(final && row[i].symbol == 0)
    ensures
      var m, a, b := Step(row, final, s).marks, row[i].prec, row[i + 1].prec;
      if a <= 0 || b <= 0 then m[i] == 1 && m[i + 1] == 1
      else if a > b || (a == b && row[i].assoc == Right) then m[i] == 0 && m[i + 1] == 2
      else if a < b || (a == b && row[i].assoc == Left) then m[i] == 2 && m[i + 1] == 0
      else m[i] == 2 && m[i + 1] == 2
  {
  }

  ghost predicate AllTrials(marks: seq<int>, i: nat) {
    forall k :: i <= k < |marks| ==> marks[k] == 1
  }

  /** One reduction more joins those kept for trial. */
  lemma StepReduction(row: seq<Action>, final: bool, s: Scan, i: nat)
    requires i < |s.marks| < |row| && s.pref == i && row[i].code == Reduce && row[|s.marks|].symbol == row[i].symbol
    requires AllTrials(s.marks, i) || (|s.marks| == i + 1 && s.marks[i] == 0)
    ensures Step(row, final, s).pref == i && AllTrials(Step(row, final, s).marks, i)
  {
  }

  /** Reductions without a shift are all kept for trial, if there are two. */
  lemma {:induction false} ReduceReduce(row: seq<Action>, final: bool, i: nat, n: nat)
    requires Sorted(row) && Begins(row, i) && row[i].code == Reduce && i + 2 <= n <= |row|
    requires forall k :: i <= k < n ==> row[k].symbol == row[i].symbol
    ensures Resolve(row, final, n).pref == i && AllTrials(Resolve(row, final, n).marks, i)
  {
    hide Step, AllTrials, Sorted;
    if n == i + 2 {
      AtBegin(row, final, i);
    } else {
      ReduceReduce(row, final, i, n - 1);
    }
    StepReduction(row, final, Resolve(row, final, n - 1), i);
  }

  // ----- a shift and any number of reductions

  /** The actions i to j - 1 are a shift and the reductions on its symbol. */
  ghost predicate ShiftGroup(row: seq<Action>, final: bool, i: nat, j: nat) {
    && Begins(row, i) && i < j <= |row| && row[i].code == Shift && !(final && row[i].symbol == 0)
    && forall k :: i < k < j ==> row[k].symbol == row[i].symbol && row[k].code == Reduce
  }

  /** The first of the reductions before n that the shift yields to, or n. */
  ghost function FirstYields(row: seq<Action>, i: nat, n: nat): (y: nat)
    requires i < n <= |row|
    ensures i < y <= n && (y < n ==> Against(row[i], row[y]) == Yields)
    ensures forall k :: i < k < y ==> Against(row[i], row[k]) != Yields
  {
    if n == i + 1 then n
    else if FirstYields(row, i, n - 1) < n - 1 then FirstYields(row, i, n - 1)
    else if Against(row[i], row[n - 1]) == Yields then n - 1 else n
  }

  /** Some reduction before n fares so against the shift. */
  ghost predicate Meets(row: seq<Action>, i: nat, n: nat, o: Outcome)
    requires n <= |row|
  {
    exists k :: i < k < n && Against(row[i], row[k]) == o
  }

  /** The mark of action k when the scan has come to n. */
  ghost function GroupMark(row: seq<Action>, i: nat, n: nat, k: nat): int
    requires i <= k < n <= |row|
  {
    var y := FirstYields(row, i, n);
    if k == i then (if y < n || Meets(row, i, n, Neither) then 2 else if Meets(row, i, n, Undecided) then 1 else 0)
    else if k < y then (if Against(row[i], row[k]) == Undecided then 1 else 2)
    else if k == y && y == n - 1 then 0 else 1
  }

  ghost predicate GroupMarked(row: seq<Action>, i: nat, n: nat, s: Scan) {
    && i < n <= |row| && |s.marks| == n && s.pref == (if FirstYields(row, i, n) < n then FirstYields(row, i, n) else i)
    && forall k :: i <= k < n ==> s.marks[k] == GroupMark(row, i, n, k)
  }

  lemma MeetsMore(row: seq<Action>, i: nat, n: nat, o: Outcome)
    requires i < n < |row|
    ensures Meets(row, i, n + 1, o) <==> Meets(row, i, n, o) || Against(row[i], row[n]) == o
  {
  }

  /** What one step does with reduction n. */
  ghost predicate GroupStep(row: seq<Action>, i: nat, n: nat, s: Scan, t: Scan)
    requires i < n < |row| && |s.marks| == n && 0 <= s.pref < n
  {
    if s.pref != i then t.pref == s.pref && t.marks == Clash(s.marks, s.pref)
    else match Against(row[i], row[n])
      case Keeps => t.pref == i && t.marks == s.marks + [2]
      case Yields => t.pref == n && t.marks == Mark(s.marks, i, 2) + [0]
      case Neither => t.pref == i && t.marks == Mark(s.marks, i, 2) + [2]
      case Undecided => t.pref == i && t.marks == Clash(s.marks, i)
  }

  lemma StepInGroup(row: seq<Action>, final: bool, i: nat, n: nat, s: Scan)
    requires ShiftGroup(row, final, i, n + 1) && i < n && |s.marks| == n
    requires s.pref == i || (i < s.pref < n && row[s.pref].code == Reduce && row[s.pref].symbol == row[n].symbol)
    ensures GroupStep(row, i, n, s, Step(row, final, s))
  {
  }

  lemma GroupNextAt(row: seq<Action>, i: nat, n: nat, s: Scan, t: Scan, k: nat)
    requires i < n < |row| && GroupMarked(row, i, n, s) && GroupStep(row, i, n, s, t) && i <= k <= n
    ensures |t.marks| == n + 1 && t.marks[k] == GroupMark(row, i, n + 1, k)
  {
    MeetsMore(row, i, n, Neither);
    MeetsMore(row, i, n, Undecided);
    hide Meets, Against;
    assert k < n ==> s.marks[k] == GroupMark(row, i, n, k);
    assert s.marks[i] == GroupMark(row, i, n, i);
  }

  lemma GroupNext(row: seq<Action>, final: bool, i: nat, n: nat, s: Scan)
    requires ShiftGroup(row, final, i, n + 1) && i < n && GroupMarked(row, i, n, s)
    ensures GroupMarked(row, i, n + 1, Step(row, final, s))
  {
    hide Step, Against, GroupMark, Mark, Clash, ShiftGroup, GroupStep, FirstYields, GroupMarked;
    GroupCan(row, final, i, n, s);
    var t, m := Step(row, final, s), n + 1;
    GroupPref(row, i, n, s, t);
    forall k: nat | i <= k < m ensures t.marks[k] == GroupMark(row, i, m, k) {
      GroupNextAt(row, i, n, s, t, k);
    }
    GroupIs(row, i, m, t);
  }

  lemma GroupCan(row: seq<Action>, final: bool, i: nat, n: nat, s: Scan)
    requires ShiftGroup(row, final, i, n + 1) && i < n && GroupMarked(row, i, n, s)
    ensures n < |row| && |s.marks| == n && 0 <= s.pref < n && GroupStep(row, i, n, s, Step(row, final, s))
  {
    StepInGroup(row, final, i, n, s);
  }

  lemma GroupIs(row: seq<Action>, i: nat, n: nat, s: Scan)
    requires i < n <= |row| && |s.marks| == n && s.pref == (if FirstYields(row, i, n) < n then FirstYields(row, i, n) else i)
    requires forall k: nat :: i <= k < n ==> s.marks[k] == GroupMark(row, i, n, k)
    ensures GroupMarked(row, i, n, s)
  {
    hide GroupMark, FirstYields;
  }

  lemma GroupPref(row: seq<Action>, i: nat, n: nat, s: Scan, t: Scan)
    requires i < n < |row| && GroupMarked(row, i, n, s) && GroupStep(row, i, n, s, t)
    ensures t.pref == if FirstYields(row, i, n + 1) < n + 1 then FirstYields(row, i, n + 1) else i
  {
    hide GroupMark, Against;
  }

  lemma GroupStart(row: seq<Action>, final: bool, i: nat, j: nat)
    requires Sorted(row) && ShiftGroup(row, final, i, j)
    ensures GroupMarked(row, i, i + 1, Resolve(row, final, i + 1))
  {
    AtBegin(row, final, i);
  }

  lemma GroupPart(row: seq<Action>, final: bool, i: nat, n: nat, j: nat)
    requires ShiftGroup(row, final, i, j) && i < n <= j
    ensures ShiftGroup(row, final, i, n) && n <= |row|
  {
  }

  lemma {:induction false} GroupScanned(row: seq<Action>, final: bool, i: nat, n: nat, j: nat)
    requires Sorted(row) && ShiftGroup(row, final, i, j) && i < n <= j
    ensures GroupMarked(row, i, n, Resolve(row, final, n))
  {
    hide Step, Sorted, ShiftGroup, GroupMarked, Resolve;
    GroupPart(row, final, i, n, j);
    if n == i + 1 {
      GroupStart(row, final, i, j);
    } else {
      GroupScanned(row, final, i, n - 1, j);
      GroupNext(row, final, i, n - 1, Resolve(row, final, n - 1));
      ResolveStep(row, final, n);
    }
  }

  /** A shift and any number of reductions on its symbol. Up to the first reduction
      that wins over the shift, those without precedence are kept for trial and the
      others ruled out; that one is taken if it is the last and kept for trial if
      not, like all behind it. The shift is ruled out if some reduction wins or
      draws against it, and else kept for trial if some has no precedence. */
  lemma ShiftReductions(row: seq<Action>, final: bool, i: nat, j: nat, k: nat)
    requires Sorted(row) && ShiftGroup(row, final, i, j) && (j < |row| ==> row[j].symbol != row[i].symbol) && i <= k < j
    ensures Resolve(row, final, |row|).marks[k] == GroupMark(row, i, j, k)
  {
    hide GroupMark, FirstYields;
    GroupScanned(row, final, i, j, j);
    MarksStay(row, final, j, |row|, k);
  }

  /** An action is left unsuppressed while others on its symbol are kept for trial:
      the parser reads the trial list first, and never comes to it. */
  ghost predicate Shadowed(row: seq<Action>, i: nat, j: nat, marks: seq<int>)
    requires j <= |row| == |marks|
  {
    (exists a :: i <= a < j && marks[a] == 0) && exists b :: i <= b < j && marks[b] == 1
  }

  lemma NoneShadowed(row: seq<Action>, i: nat, j: nat, a: nat, b: nat)
    requires i <= a < j <= |row| && i <= b < j && GroupMark(row, i, j, a) == 0
    requires !(FirstYields(row, i, j) == j - 1 && Meets(row, i, j - 1, Undecided))
    ensures GroupMark(row, i, j, b) != 1
  {
    if a == i && a != b {
      assert Against(row[i], row[b]) != Undecided;
    }
  }

  /** This happens exactly when the last reduction is the first that wins over the
      shift, and one before it has no precedence. */
  lemma ShadowedIff(row: seq<Action>, final: bool, i: nat, j: nat)
    requires Sorted(row) && ShiftGroup(row, final, i, j) && (j < |row| ==> row[j].symbol != row[i].symbol)
    ensures Shadowed(row, i, j, Resolve(row, final, |row|).marks) <==> FirstYields(row, i, j) == j - 1 && Meets(row, i, j - 1, Undecided)
  {
    var marks, y := Resolve(row, final, |row|).marks, FirstYields(row, i, j);
    forall k | i <= k < j ensures marks[k] == GroupMark(row, i, j, k) {
      ShiftReductions(row, final, i, j, k);
    }
    if y == j - 1 && Meets(row, i, j - 1, Undecided) {
      assert marks[y] == 0;
      var b :| i < b < j - 1 && Against(row[i], row[b]) == Undecided;
      assert marks[b] == 1;
    } else {
      forall a, b | i <= a < j && i <= b < j && marks[a] == 0 ensures marks[b] != 1 {
        NoneShadowed(row, i, j, a, b);
      }
    }
  }

  /** Without a shift nothing is shadowed. */
  lemma ReductionsNotShadowed(row: seq<Action>, final: bool, i: nat, j: nat)
    requires Sorted(row) && Begins(row, i) && row[i].code == Reduce && i + 2 <= j <= |row|
    requires (forall k :: i <= k < j ==> row[k].symbol == row[i].symbol) && (j < |row| ==> row[j].symbol != row[i].symbol)
    ensures !Shadowed(row, i, j, Resolve(row, final, |row|).marks)
  {
    ReduceReduce(row, final, i, j);
    forall k | i <= k < j ensures Resolve(row, final, |row|).marks[k] == 1 {
      MarksStay(row, final, j, |row|, k);
    }
  }

  /** For example: a shift of precedence 1, a rule without precedence, and a rule of
      precedence 2, which is shadowed. */
  lemma ShadowExample()
    ensures
      var row := [Action(1, 7, 1, Shift, Left, 0), Action(1, 3, 0, Reduce, Token, 0), Action(1, 4, 2, Reduce, Token, 0)];
      Resolve(row, false, 3).marks == [2, 1, 0] && Shadowed(row, 0, 3, Resolve(row, false, 3).marks)
  {
    var row := [Action(1, 7, 1, Shift, Left, 0), Action(1, 3, 0, Reduce, Token, 0), Action(1, 4, 2, Reduce, Token, 0)];
    assert Resolve(row, false, 1) == Scan([0], 0, 0, 0);
    assert Resolve(row, false, 2) == Scan([1, 1], 0, 1, 0);
    assert Resolve(row, false, 3) == Scan([2, 1, 0], 2, 1, 0);
    var marks := Resolve(row, false, 3).marks;
    assert marks[2] == 0 && marks[1] == 1;
  }

  // ----- which conflicts are counted

  /** The first action on the symbol of action p. */
  ghost function FirstOn(row: seq<Action>, p: nat): (i: nat)
    requires p < |row|
    ensures i <= p && Begins(row, i) && forall k :: i <= k <= p ==> row[k].symbol == row[p].symbol
  {
    if p > 0 && row[p - 1].symbol == row[p].symbol then FirstOn(row, p - 1) else p
  }

  /** Reduction k wins over the shift i. */
  ghost predicate Wins(row: seq<Action>, i: nat, k: nat)
    requires i < |row| && k < |row|
  {
    row[i].prec > 0 && row[k].prec > 0 && (row[i].prec < row[k].prec || (row[i].prec == row[k].prec && row[i].assoc == Left))
  }

  /** A reduction before p wins over the shift i. */
  ghost predicate WonBefore(row: seq<Action>, i: nat, p: nat)
    requires i < |row| && p <= |row|
  {
    exists k :: i < k < p && Wins(row, i, k)
  }

  /** Action p is a shift/reduce conflict: it has no precedence to compare with that
      of the shift on its symbol, or the shift has none, and no reduction before it
      has won. In the final state every further action on the end of the input is. */
  ghost predicate IsSR(row: seq<Action>, final: bool, p: nat)
    requires p < |row|
  {
    var i := FirstOn(row, p);
    i < p && if final && row[p].symbol == 0 then true
      else row[i].code == Shift && (row[i].prec <= 0 || row[p].prec <= 0) && !WonBefore(row, i, p)
  }

  /** Action p is a reduce/reduce conflict: a reduction is first on its symbol, or one
      before it has won over the shift. */
  ghost predicate IsRR(row: seq<Action>, final: bool, p: nat)
    requires p < |row|
  {
    var i := FirstOn(row, p);
    i < p && !(final && row[p].symbol == 0) && (row[i].code == Reduce || WonBefore(row, i, p))
  }

  ghost function SRPlaces(row: seq<Action>, final: bool, n: nat): set<nat>
    requires n <= |row|
  {
    set p: nat | p < n && IsSR(row, final, p)
  }

  ghost function RRPlaces(row: seq<Action>, final: bool, n: nat): set<nat>
    requires n <= |row|
  {
    set p: nat | p < n && IsRR(row, final, p)
  }

  lemma OneMorePlace(a: set<nat>, b: set<nat>, n: nat, more: bool)
    requires n !in a && forall p: nat :: p in b <==> p in a || (more && p == n)
    ensures |b| == |a| + if more then 1 else 0
  {
    assert b == if more then a + {n} else a;
  }

  lemma PlacesNext(row: seq<Action>, final: bool, n: nat)
    requires n < |row|
    ensures |SRPlaces(row, final, n + 1)| == |SRPlaces(row, final, n)| + if IsSR(row, final, n) then 1 else 0
    ensures |RRPlaces(row, final, n + 1)| == |RRPlaces(row, final, n)| + if IsRR(row, final, n) then 1 else 0
  {
    hide IsSR, IsRR;
    OneMorePlace(SRPlaces(row, final, n), SRPlaces(row, final, n + 1), n, IsSR(row, final, n));
    OneMorePlace(RRPlaces(row, final, n), RRPlaces(row, final, n + 1), n, IsRR(row, final, n));
  }

  lemma WonIs(row: seq<Action>, i: nat, n: nat)
    requires i < n <= |row|
    ensures WonBefore(row, i, n) <==> FirstYields(row, i, n) < n
  {
    assert forall k :: i < k < n ==> (Against(row[i], row[k]) == Yields <==> Wins(row, i, k));
  }

  lemma GroupOf(row: seq<Action>, final: bool, p: nat)
    requires Sorted(row) && p < |row| && !(final && row[p].symbol == 0)
    ensures forall k :: FirstOn(row, p) < k <= p ==> row[k].code == Reduce
    ensures row[FirstOn(row, p)].code == Shift ==> ShiftGroup(row, final, FirstOn(row, p), p + 1)
  {
    var i := FirstOn(row, p);
    forall k | i < k <= p ensures row[k].code == Reduce {
      assert Less(row[i], row[k]);
    }
  }

  /** The preferred action when action p comes. */
  lemma PrefAt(row: seq<Action>, final: bool, p: nat)
    requires Sorted(row) && p < |row| && FirstOn(row, p) < p && !(final && row[p].symbol == 0)
    ensures
      var i, pref := FirstOn(row, p), Resolve(row, final, p).pref;
      if row[i].code == Shift then (if WonBefore(row, i, p) then i < pref && row[pref].code == Reduce else pref == i) else pref == i
  {
    hide Resolve, Sorted, GroupMark, WonBefore;
    var i := FirstOn(row, p);
    GroupOf(row, final, p);
    if row[i].code == Shift {
      GroupScanned(row, final, i, p, p + 1);
      WonIs(row, i, p);
    } else if p == i + 1 {
      AtBegin(row, final, i);
    } else {
      ReduceReduce(row, final, i, p);
    }
  }

  lemma SameFirst(row: seq<Action>, final: bool, p: nat)
    requires Sorted(row) && p < |row|
    ensures
      var pref := Resolve(row, final, p).pref;
      FirstOn(row, p) < p <==> pref >= 0 && row[pref].symbol == row[p].symbol
  {
    if p > 0 { PrefSymbol(row, final, p); }
  }

  lemma StepCounts(row: seq<Action>, final: bool, s: Scan)
    requires |s.marks| < |row| && -1 <= s.pref < |s.marks|
    ensures
      var t, p := Step(row, final, s), |s.marks|;
      var same := s.pref >= 0 && row[s.pref].symbol == row[p].symbol;
      && t.sr == s.sr + (if same && ((final && row[p].symbol == 0) || (row[s.pref].code == Shift && (row[s.pref].prec <= 0 || row[p].prec <= 0))) then 1 else 0)
      && t.rr == s.rr + (if same && !(final && row[p].symbol == 0) && row[s.pref].code != Shift then 1 else 0)
  {
  }

  lemma CountsNext(row: seq<Action>, final: bool, p: nat)
    requires Sorted(row) && p < |row|
    ensures
      var s, t := Resolve(row, final, p), Resolve(row, final, p + 1);
      && t.sr == s.sr + (if IsSR(row, final, p) then 1 else 0)
      && t.rr == s.rr + if IsRR(row, final, p) then 1 else 0
  {
    hide Step, WonBefore;
    ResolveStep(row, final, p + 1);
    StepCounts(row, final, Resolve(row, final, p));
    SameFirst(row, final, p);
    if FirstOn(row, p) < p && !(final && row[p].symbol == 0) {
      PrefAt(row, final, p);
      assert WonBefore(row, FirstOn(row, p), p) ==> row[FirstOn(row, p)].code == Shift || row[FirstOn(row, p)].code == Reduce;
    }
  }

  /** What the scan counts are exactly the conflicts so defined. */
  lemma {:induction false} CountsAre(row: seq<Action>, final: bool, n: nat)
    requires Sorted(row) && n <= |row|
    ensures Resolve(row, final, n).sr == |SRPlaces(row, final, n)| && Resolve(row, final, n).rr == |RRPlaces(row, final, n)|
  {
    hide Step, IsSR, IsRR, Sorted;
    if n > 0 {
      CountsAre(row, final, n - 1);
      CountsNext(row, final, n - 1);
      PlacesNext(row, final, n - 1);
    } else {
      assert SRPlaces(row, final, 0) == {} && RRPlaces(row, final, 0) == {};
    }
  }

  /** The reductions before n without a precedence to compare with that of the shift i. */
  ghost function Unranked(row: seq<Action>, i: nat, n: nat): set<nat>
    requires i < n <= |row|
  {
    set k: nat | i < k < n && (row[i].prec <= 0 || row[k].prec <= 0)
  }

  /** For the actions i to j - 1 on a symbol, of which y is the first reduction that
      wins over the shift, or j if there is none: the reductions before y without
      precedence are shift/reduce conflicts, and all behind y are reduce/reduce
      conflicts. Without a shift, all but the first are reduce/reduce conflicts, and
      in the final state on the end of the input, shift/reduce conflicts. */
  lemma {:induction false} GroupCounts(row: seq<Action>, final: bool, i: nat, y: nat, n: nat)
    requires Sorted(row) && GroupUpTo(row, i, n) && FirstWin(row, i, y, n)
    ensures
      var sr, rr := Resolve(row, final, n).sr - Resolve(row, final, i).sr, Resolve(row, final, n).rr - Resolve(row, final, i).rr;
      if final && row[i].symbol == 0 then sr == n - i - 1 && rr == 0
      else if row[i].code == Reduce then sr == 0 && rr == n - i - 1
      else sr == |Unranked(row, i, y)| && rr == if y < n then n - 1 - y else 0
  {
    hide Sorted, Resolve, Wins, IsSR, IsRR;
    if n == i + 1 {
      assert FirstOn(row, i) == i;
      CountsNext(row, final, i);
      FirstIsNone(row, final, i);
      assert Unranked(row, i, y) == {};
    } else {
      GroupCounts(row, final, i, if y == n then n - 1 else y, n - 1);
      CountsNext(row, final, n - 1);
      GroupCountsNext(row, final, i, y, n);
    }
  }

  ghost predicate GroupUpTo(row: seq<Action>, i: nat, n: nat) {
    Begins(row, i) && i < n <= |row| && forall k :: i <= k < n ==> row[k].symbol == row[i].symbol
  }

  ghost predicate FirstWin(row: seq<Action>, i: nat, y: nat, n: nat) {
    i < y <= n <= |row| && (forall k :: i < k < y ==> !Wins(row, i, k)) && (y < n ==> Wins(row, i, y))
  }

  lemma GroupCountsNext(row: seq<Action>, final: bool, i: nat, y: nat, n: nat)
    requires GroupUpTo(row, i, n) && FirstWin(row, i, y, n) && i + 1 < n
    ensures
      var sr, rr := IsSR(row, final, n - 1), IsRR(row, final, n - 1);
      if final && row[i].symbol == 0 then sr && !rr
      else if row[i].code == Reduce then !sr && rr
      else (rr <==> y < n - 1) && if y == n then |Unranked(row, i, n)| == |Unranked(row, i, n - 1)| + if sr then 1 else 0 else !sr
  {
    hide Wins;
    FirstIs(row, i, n - 1);
    assert WonBefore(row, i, n - 1) <==> y < n - 1;
    if y == n {
      OneMorePlace(Unranked(row, i, n - 1), Unranked(row, i, n), n - 1, row[i].prec <= 0 || row[n - 1].prec <= 0);
    } else {
      WinnerRanks(row, i, y);
    }
  }

  lemma FirstIsNone(row: seq<Action>, final: bool, i: nat)
    requires i < |row| && FirstOn(row, i) == i
    ensures !IsSR(row, final, i) && !IsRR(row, final, i)
  {
  }

  lemma WinnerRanks(row: seq<Action>, i: nat, y: nat)
    requires i < |row| && y < |row| && Wins(row, i, y)
    ensures row[i].prec > 0 && row[y].prec > 0
  {
  }

  lemma {:induction false} FirstIs(row: seq<Action>, i: nat, p: nat)
    requires Begins(row, i) && i <= p < |row| && forall k :: i <= k <= p ==> row[k].symbol == row[i].symbol
    ensures FirstOn(row, p) == i
  {
    if i < p { FirstIs(row, i, p - 1); }
  }

  // ----- the loop

  /** The row with the marks of a scan put into its first actions. */
  ghost function WithMarks(row: seq<Action>, marks: seq<int>): (r: seq<Action>)
    requires |marks| <= |row|
    ensures |r| == |row|
    ensures forall i :: 0 <= i < |row| ==> r[i] == if i < |marks| then row[i].(suppressed := marks[i]) else row[i]
  {
    seq(|row|, i requires 0 <= i < |row| => if i < |marks| then row[i].(suppressed := marks[i]) else row[i])
  }

  ghost predicate Fresh(row: seq<Action>) {
    forall i :: 0 <= i < |row| ==> row[i].suppressed == 0 && row[i].symbol >= 0
  }

  method Suppress(row: seq<Action>, i: int, m: int, ghost row0: seq<Action>, ghost marks: seq<int>) returns (r: seq<Action>)
    requires 0 <= i < |marks| <= |row0| && row == WithMarks(row0, marks)
    ensures r == WithMarks(row0, Mark(marks, i, m))
  {
    r := row[i := row[i].(suppressed := m)];
  }

  /** Both actions are kept for trial, unless the preferred one is suppressed for
      good already. */
  method KeepBoth(row: seq<Action>, p: int, pref: int, ghost row0: seq<Action>, ghost marks: seq<int>) returns (r: seq<Action>)
    requires 0 <= pref < |marks| == p < |row0| && row == WithMarks(row0, marks + [0])
    ensures r == WithMarks(row0, Clash(marks, pref))
  {
    r := row[p := row[p].(suppressed := 1)];
    if r[pref].suppressed == 0 {
      r := r[pref := r[pref].(suppressed := 1)];
    }
  }

  /** The three outcomes of a comparison of precedences. */
  method Decide(row: seq<Action>, p: int, pref: int, final: bool, ghost row0: seq<Action>, ghost s: Scan) returns (r: seq<Action>, pref': int)
    requires |s.marks| == p < |row0| && 0 <= pref == s.pref < p && row == WithMarks(row0, s.marks + [0])
    requires row0[pref].symbol == row0[p].symbol && !(final && row0[p].symbol == 0)
    requires row0[pref].code == Shift && row0[pref].prec > 0 && row0[p].prec > 0
    ensures r == WithMarks(row0, Step(row0, final, s).marks) && pref' == Step(row0, final, s).pref
  {
    r, pref' := row, pref;
    if row[pref].prec < row[p].prec || (row[pref].prec == row[p].prec && row[pref].assoc == Left) {
      r := Suppress(r, pref, 2, row0, s.marks + [0]);
      pref' := p;
      assert Mark(s.marks + [0], pref, 2) == Mark(s.marks, pref, 2) + [0];
    } else if row[pref].prec > row[p].prec || row[pref].assoc == Right {
      r := Suppress(r, p, 2, row0, s.marks + [0]);
      assert Mark(s.marks + [0], p, 2) == s.marks + [2];
    } else {
      r := Suppress(r, pref, 2, row0, s.marks + [0]);
      r := Suppress(r, p, 2, row0, Mark(s.marks + [0], pref, 2));
      assert Mark(Mark(s.marks + [0], pref, 2), p, 2) == Mark(s.marks, pref, 2) + [2];
    }
  }

  /** The body of the loop over a row. */
  method ResolveOne(row: seq<Action>, p: int, pref: int, symbol: int, sr: nat, rr: nat, final: bool, ghost row0: seq<Action>, ghost s: Scan)
    returns (r: seq<Action>, pref': int, sr': nat, rr': nat)
    requires |s.marks| == p < |row0| && -1 <= pref < p && s == Scan(s.marks, pref, sr, rr) && Fresh(row0)
    requires row == WithMarks(row0, s.marks) && symbol == (if pref < 0 then -1 else row0[pref].symbol)
    ensures
      var t := Step(row0, final, s);
      r == WithMarks(row0, t.marks) && pref' == t.pref && sr' == t.sr && rr' == t.rr
  {
    r, pref', sr', rr' := row, pref, sr, rr;
    assert row == WithMarks(row0, s.marks + [0]);
    if row[p].symbol != symbol {
      pref' := p;
    } else if final && symbol == 0 {
      sr' := sr + 1;
      r := KeepBoth(row, p, pref, row0, s.marks);
    } else if row[pref].code == Shift {
      if row[pref].prec > 0 && row[p].prec > 0 {
        r, pref' := Decide(row, p, pref, final, row0, s);
      } else {
        sr' := sr + 1;
        r := KeepBoth(row, p, pref, row0, s.marks);
      }
    } else {
      rr' := rr + 1;
      r := KeepBoth(row, p, pref, row0, s.marks);
    }
  }

  /** What remove_conflicts leaves of a row, and what it counts. */
  ghost predicate ResolvedRow(row0: seq<Action>, final: bool, row: seq<Action>, sr: nat, rr: nat) {
    var s := Resolve(row0, final, |row0|);
    row == WithMarks(row0, s.marks) && sr == s.sr && rr == s.rr
  }

  /** sr and rr are the numbers of conflicts in a row. */
  ghost predicate CountedIn(row: seq<Action>, final: bool, sr: nat, rr: nat) {
    sr == |SRPlaces(row, final, |row|)| && rr == |RRPlaces(row, final, |row|)|
  }

  lemma RowCounted(row0: seq<Action>, final: bool, row: seq<Action>, sr: nat, rr: nat)
    requires Sorted(row0) && ResolvedRow(row0, final, row, sr, rr)
    ensures CountedIn(row0, final, sr, rr)
  {
    hide Sorted, WithMarks, SRPlaces, RRPlaces;
    CountsAre(row0, final, |row0|);
  }

  method ResolveRow(row0: seq<Action>, final: bool) returns (row: seq<Action>, sr: nat, rr: nat)
    requires Fresh(row0)
    ensures ResolvedRow(row0, final, row, sr, rr)
  {
    row, sr, rr := row0, 0, 0;
    var symbol, pref := -1, -1;
    for p := 0 to |row0|
      invariant -1 <= pref < p && Resolve(row0, final, p) == Scan(Resolve(row0, final, p).marks, pref, sr, rr)
      invariant row == WithMarks(row0, Resolve(row0, final, p).marks)
      invariant symbol == (if pref < 0 then -1 else row0[pref].symbol)
    {
      row, pref, sr, rr := ResolveOne(row, p, pref, symbol, sr, rr, final, row0, Resolve(row0, final, p));
      symbol := row0[pref].symbol;
    }
  }

  /** At most one action on a symbol is left, conflicts are counted exactly when
      an action is kept for trial, and at most two actions are kept for each. */
  ghost predicate ConflictsOk(row: seq<Action>, sr: nat, rr: nat) {
    && (forall i, j :: 0 <= i < j < |row| && row[i].symbol == row[j].symbol ==> row[i].suppressed != 0 || row[j].suppressed != 0)
    && (forall i :: 0 <= i < |row| ==> 0 <= row[i].suppressed <= 2)
    && (sr + rr > 0 <==> exists i :: 0 <= i < |row| && row[i].suppressed == 1)
    && TrialsIn(row) <= 2 * (sr + rr)
  }

  ghost function TrialsIn(row: seq<Action>): nat {
    Trials(seq(|row|, i requires 0 <= i < |row| => row[i].suppressed))
  }

  lemma CountedTrials(s: Scan)
    requires Counted(s)
    ensures s.sr + s.rr > 0 <==> exists i :: 0 <= i < |s.marks| && s.marks[i] == 1
  {
    hide Trials;
    TrialIff(s.marks);
    if s.sr + s.rr > 0 { assert HasTrial(s.marks, s.pref); }
  }

  lemma MarkedOk(row0: seq<Action>, s: Scan, row: seq<Action>)
    requires |s.marks| == |row0| && row == WithMarks(row0, s.marks) && OnePreferred(row0, s) && Counted(s)
    ensures ConflictsOk(row, s.sr, s.rr)
  {
    hide WithMarks;
    CountedTrials(s);
    assert seq(|row|, i requires 0 <= i < |row| => row[i].suppressed) == s.marks;
    assert (exists i :: 0 <= i < |row| && row[i].suppressed == 1) <==> exists i :: 0 <= i < |s.marks| && s.marks[i] == 1;
  }

  lemma MarkedSorted(row0: seq<Action>, marks: seq<int>)
    requires Sorted(row0) && |marks| == |row0|
    ensures Sorted(WithMarks(row0, marks))
  {
    var row := WithMarks(row0, marks);
    forall i, j | 0 <= i < j < |row| ensures Less(row[i], row[j]) {
      assert Less(row0[i], row0[j]);
    }
  }

  lemma ResolvedOk(row0: seq<Action>, final: bool, row: seq<Action>, sr: nat, rr: nat)
    requires Sorted(row0) && ResolvedRow(row0, final, row, sr, rr)
    ensures ConflictsOk(row, sr, rr) && Sorted(row)
  {
    var n := |row0|;
    AtMostOne(row0, final, n);
    ConflictsCounted(row0, final, n);
    MarkedOk(row0, Resolve(row0, final, n), row);
    MarkedSorted(row0, Resolve(row0, final, n).marks);
  }

  // ----- sole_reduction

  /** The action was not ruled out. */
  ghost predicate Live(a: Action) {
    a.suppressed <= 1
  }

  /** Every action not ruled out reduces by r, and not only on the error token. */
  ghost predicate OnlyReduces(row: seq<Action>, r: int) {
    && (forall i :: 0 <= i < |row| && Live(row[i]) ==> row[i].code == Reduce && row[i].number == r)
    && (exists i :: 0 <= i < |row| && Live(row[i]) && row[i].symbol != 1)
  }

  /** sole_reduction: the default reduction is the one rule the state can reduce
      by, if there is just one and no shift. */
  method SoleReduction(row: seq<Action>) returns (ruleno: int)
    requires forall i :: 0 <= i < |row| ==> row[i].number > 0 || row[i].code == Shift
    ensures ruleno >= 0
    ensures ruleno != 0 ==> OnlyReduces(row, ruleno)
    ensures ruleno == 0 ==> forall r :: !OnlyReduces(row, r)
  {
    var count := 0;
    ruleno := 0;
    for p := 0 to |row|
      invariant ruleno >= 0 && count >= 0
      invariant forall i :: 0 <= i < p && Live(row[i]) ==> row[i].code == Reduce && row[i].number == ruleno
      invariant count > 0 <==> exists i :: 0 <= i < p && Live(row[i]) && row[i].symbol != 1
      invariant ruleno > 0 ==> exists i :: 0 <= i < p && Live(row[i]) && row[i].number == ruleno
    {
      if row[p].code == Shift && row[p].suppressed <= 1 {
        assert Live(row[p]);
        return 0;
      } else if row[p].code == Reduce && row[p].suppressed <= 1 {
        assert Live(row[p]);
        if ruleno > 0 && row[p].number != ruleno {
          ghost var i :| 0 <= i < p && Live(row[i]) && row[i].number == ruleno;
          return 0;
        }
        if row[p].symbol != 1 {
          count := count + 1;
        }
        ruleno := row[p].number;
      }
    }
    if count == 0 {
      return 0;
    }
  }

  // ----- all states

  /** find_final_state: where state 0 goes on the goal symbol. */
  method FindFinalState(g: Grammar, A: Automaton) returns (finalState: int)
    requires WellFormed(g) && Canonical(g, A)
    ensures Trans(A, 0, g.ntokens + 1, finalState)
  {
    StartItemOnce(g, A, 0);
    InRange(g, A);
    ghost var u := TransExists(g, A, 0, 1);
    ghost var x :| 0 <= x < |A.shifts[0]| && A.shifts[0][x] == u;
    var goal := g.ritem[1];
    finalState := 0;
    var i := |A.shifts[0]| - 1;
    while i >= 0
      invariant x <= i < |A.shifts[0]|
      decreases i
    {
      finalState := A.shifts[0][i];
      if A.states[finalState].accessing == goal {
        return;
      }
      i := i - 1;
    }
  }

  ghost function Sum(counts: seq<nat>): nat {
    if counts == [] then 0 else Sum(counts[..|counts| - 1]) + counts[|counts| - 1]
  }

  lemma SumNext(counts: seq<nat>, c: nat)
    ensures Sum(counts + [c]) == Sum(counts) + c
  {
    assert (counts + [c])[..|counts|] == counts;
  }

  /** remove_conflicts */
  method RemoveConflicts(rows: seq<seq<Action>>, finalState: int) returns (parser: seq<seq<Action>>, SRconflicts: seq<nat>, RRconflicts: seq<nat>, SRtotal: nat, RRtotal: nat)
    requires forall s :: 0 <= s < |rows| ==> Fresh(rows[s]) && Sorted(rows[s])
    ensures |parser| == |SRconflicts| == |RRconflicts| == |rows|
    ensures forall s :: 0 <= s < |rows| ==> ResolvedRow(rows[s], s == finalState, parser[s], SRconflicts[s], RRconflicts[s])
    ensures forall s :: 0 <= s < |rows| ==> CountedIn(rows[s], s == finalState, SRconflicts[s], RRconflicts[s])
    ensures SRtotal == Sum(SRconflicts) && RRtotal == Sum(RRconflicts)
  {
    hide ResolvedRow, CountedIn, Sorted, Fresh;
    parser, SRconflicts, RRconflicts, SRtotal, RRtotal := [], [], [], 0, 0;
    for i := 0 to |rows|
      invariant |parser| == |SRconflicts| == |RRconflicts| == i
      invariant forall s :: 0 <= s < i ==> ResolvedRow(rows[s], s == finalState, parser[s], SRconflicts[s], RRconflicts[s])
      invariant forall s :: 0 <= s < i ==> CountedIn(rows[s], s == finalState, SRconflicts[s], RRconflicts[s])
      invariant SRtotal == Sum(SRconflicts) && RRtotal == Sum(RRconflicts)
    {
      var row, sr, rr := ResolveRow(rows[i], i == finalState);
      RowCounted(rows[i], i == finalState, row, sr, rr);
      SumNext(SRconflicts, sr);
      SumNext(RRconflicts, rr);
      parser, SRconflicts, RRconflicts := parser + [row], SRconflicts + [sr], RRconflicts + [rr];
      SRtotal, RRtotal := SRtotal + sr, RRtotal + rr;
    }
  }

  /** defreds */
  method Defreds(parser: seq<seq<Action>>) returns (defred: seq<int>)
    requires forall s, i :: 0 <= s < |parser| && 0 <= i < |parser[s]| ==> parser[s][i].number > 0 || parser[s][i].code == Shift
    ensures |defred| == |parser|
    ensures forall s :: 0 <= s < |parser| && defred[s] != 0 ==> defred[s] > 0 && OnlyReduces(parser[s], defred[s])
    ensures forall s, r :: 0 <= s < |parser| && defred[s] == 0 ==> !OnlyReduces(parser[s], r)
  {
    defred := [];
    for s := 0 to |parser|
      invariant |defred| == s
      invariant forall q :: 0 <= q < s && defred[q] != 0 ==> defred[q] > 0 && OnlyReduces(parser[q], defred[q])
      invariant forall q, r :: 0 <= q < s && defred[q] == 0 ==> !OnlyReduces(parser[q], r)
    {
      var ruleno := SoleReduction(parser[s]);
      defred := defred + [ruleno];
    }
  }

  /** make_parser, from the rows of ParserRows: the final action rows. */
  method MakeParser(g: Grammar, A: Automaton, P: Precedence, L: Slots, LA: array2<bv32>)
    returns (parser: seq<seq<Action>>, SRtotal: nat, RRtotal: nat, SRconflicts: seq<nat>, RRconflicts: seq<nat>, defred: seq<int>, ghost rows: seq<seq<Action>>, finalState: int)
    requires WellFormed(g) && Canonical(g, A) && PrecedenceOk(g, P)
    requires RowsOk(g, A, L, Rows(LA)) && LA.Length1 == WordSize(g.ntokens)
    ensures |parser| == |rows| == |SRconflicts| == |RRconflicts| == |defred| == |A.states|
    ensures Trans(A, 0, g.ntokens + 1, finalState)
    ensures forall s :: 0 <= s < |rows| ==> RowOk(g, A, P, s, rows[s])
    ensures forall s :: 0 <= s < |rows| ==> ResolvedRow(rows[s], s == finalState, parser[s], SRconflicts[s], RRconflicts[s])
    ensures forall s :: 0 <= s < |rows| ==> ConflictsOk(parser[s], SRconflicts[s], RRconflicts[s]) && Sorted(parser[s])
    ensures forall s :: 0 <= s < |rows| ==> CountedIn(rows[s], s == finalState, SRconflicts[s], RRconflicts[s])
    ensures SRtotal == Sum(SRconflicts) && RRtotal == Sum(RRconflicts)
    ensures forall s :: 0 <= s < |parser| && defred[s] != 0 ==> OnlyReduces(parser[s], defred[s])
    ensures forall s, r :: 0 <= s < |parser| && defred[s] == 0 ==> !OnlyReduces(parser[s], r)
  {
    var unresolved := ParserRows(g, A, P, L, LA);
    rows := unresolved;
    finalState := FindFinalState(g, A);
    forall s | 0 <= s < |rows| ensures Fresh(rows[s]) && Numbered(rows[s]) {
      RowFresh(g, A, P, s, rows[s]);
    }
    parser, SRconflicts, RRconflicts, SRtotal, RRtotal := RemoveConflicts(unresolved, finalState);
    forall s | 0 <= s < |rows|
      ensures ConflictsOk(parser[s], SRconflicts[s], RRconflicts[s]) && Sorted(parser[s]) && Numbered(parser[s])
    {
      assert RowOk(g, A, P, s, rows[s]);
      ResolvedOk(rows[s], s == finalState, parser[s], SRconflicts[s], RRconflicts[s]);
    }
    forall s, i | 0 <= s < |parser| && 0 <= i < |parser[s]| ensures parser[s][i].number > 0 || parser[s][i].code == Shift {
      assert Numbered(parser[s]);
    }
    defred := Defreds(parser);
  }

  ghost predicate Numbered(row: seq<Action>) {
    forall i :: 0 <= i < |row| ==> row[i].number > 0 || row[i].code == Shift
  }

  lemma RowFresh(g: Grammar, A: Automaton, P: Precedence, s: int, row: seq<Action>)
    requires WellFormed(g) && PrecedenceOk(g, P) && RowOk(g, A, P, s, row)
    ensures Fresh(row) && Numbered(row)
  {
    forall i | 0 <= i < |row|
      ensures row[i].suppressed == 0 && row[i].symbol >= 0 && (row[i].number > 0 || row[i].code == Shift)
    {
      assert row[i] in row;
    }
  }
}
