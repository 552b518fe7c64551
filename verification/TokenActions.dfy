/** output.c, token_actions: every action row becomes a vector of shifts, one of
    reductions and one of conflict lists. */
module TokenActions {
  import opened Actions
  import opened Conflicts
  import opened ConflictTable

  // ----- the list of a symbol

  ghost predicate IsTrial(a: Action, sym: int) {
    a.symbol == sym && a.suppressed == 1
  }

  /** The shift kept for trial among the first n actions, or -1. */
  ghost function Lead(row: seq<Action>, sym: int, n: nat): int
    requires n <= |row|
  {
    if n == 0 then -1
    else if IsTrial(row[n - 1], sym) && row[n - 1].code == Shift then row[n - 1].number
    else Lead(row, sym, n - 1)
  }

  /** The reductions kept for trial among the first n actions, but for the
      default one, numbered as the parser numbers rules. */
  ghost function Reds(row: seq<Action>, dr: int, sym: int, n: nat): seq<int>
    requires n <= |row|
  {
    if n == 0 then []
    else
      var rest := Reds(row, dr, sym, n - 1);
      if IsTrial(row[n - 1], sym) && row[n - 1].code == Reduce && row[n - 1].number != dr then rest + [row[n - 1].number - 2] else rest
  }

  /** The list of a symbol, but for its end: a shift or -1, then reductions. */
  ghost function TrialWord(row: seq<Action>, dr: int, sym: int, n: nat): (w: seq<int>)
    requires n <= |row|
  {
    if Lead(row, sym, n) == -1 && Reds(row, dr, sym, n) == [] then []
    else [Lead(row, sym, n)] + Reds(row, dr, sym, n)
  }

  ghost predicate HasTrialOn(row: seq<Action>, sym: int, n: nat)
    requires n <= |row|
  {
    exists i :: 0 <= i < n && IsTrial(row[i], sym)
  }

  ghost predicate TrialShift(row: seq<Action>, sym: int, n: nat, k: int)
    requires n <= |row|
  {
    exists i :: 0 <= i < n && IsTrial(row[i], sym) && row[i].code == Shift && row[i].number == k
  }

  ghost predicate TrialRule(row: seq<Action>, dr: int, sym: int, n: nat, r: int)
    requires n <= |row|
  {
    exists i :: 0 <= i < n && IsTrial(row[i], sym) && row[i].code == Reduce && row[i].number == r && r != dr
  }

  /** States and rules are numbered from 1 and 2 on. */
  ghost predicate NumbersOk(row: seq<Action>) {
    forall i :: 0 <= i < |row| ==> row[i].number >= (if row[i].code == Shift then 1 else 2) && row[i].symbol >= 0
  }

  // ----- what a list says

  lemma {:induction false} LeadIs(row: seq<Action>, sym: int, n: nat)
    requires n <= |row| && Sorted(row) && NumbersOk(row)
    ensures Lead(row, sym, n) == -1 || (Lead(row, sym, n) >= 1 && TrialShift(row, sym, n, Lead(row, sym, n)))
    ensures forall k :: TrialShift(row, sym, n, k) ==> k == Lead(row, sym, n)
  {
    if n > 0 {
      LeadIs(row, sym, n - 1);
      forall k | TrialShift(row, sym, n, k) ensures k == Lead(row, sym, n) {
        var i :| 0 <= i < n && IsTrial(row[i], sym) && row[i].code == Shift && row[i].number == k;
        if i < n - 1 {
          assert Less(row[i], row[n - 1]);
          assert TrialShift(row, sym, n - 1, k);
        }
      }
    }
  }

  lemma {:induction false} RedsAre(row: seq<Action>, dr: int, sym: int, n: nat)
    requires n <= |row|
    ensures forall k :: k in Reds(row, dr, sym, n) <==> TrialRule(row, dr, sym, n, k + 2)
  {
    if n > 0 {
      RedsAre(row, dr, sym, n - 1);
      forall k ensures k in Reds(row, dr, sym, n) <==> TrialRule(row, dr, sym, n, k + 2) {
        assert k in Reds(row, dr, sym, n - 1) <==> TrialRule(row, dr, sym, n - 1, k + 2);
      }
    }
  }

  lemma {:induction false} RedsIncrease(row: seq<Action>, dr: int, sym: int, n: nat)
    requires n <= |row| && Sorted(row)
    ensures forall a, b :: 0 <= a < b < |Reds(row, dr, sym, n)| ==> Reds(row, dr, sym, n)[a] < Reds(row, dr, sym, n)[b]
  {
    if n > 0 {
      RedsIncrease(row, dr, sym, n - 1);
      var w := Reds(row, dr, sym, n - 1);
      if IsTrial(row[n - 1], sym) && row[n - 1].code == Reduce {
        forall a | 0 <= a < |w| ensures w[a] < row[n - 1].number - 2 {
          RedsAre(row, dr, sym, n - 1);
          assert w[a] in w;
          var i :| 0 <= i < n - 1 && IsTrial(row[i], sym) && row[i].code == Reduce && row[i].number == w[a] + 2;
          assert Less(row[i], row[n - 1]);
        }
      }
    }
  }

  /** The list of a symbol: the shift kept for trial or -1, then the reductions
      kept for trial, each once and in the order of their rules. */
  lemma WordTells(row: seq<Action>, dr: int, sym: int)
    requires Sorted(row) && NumbersOk(row)
    ensures
      var w := TrialWord(row, dr, sym, |row|);
      && IsOpen(w)
      && (w == [] <==> forall k :: !TrialShift(row, sym, |row|, k) && !TrialRule(row, dr, sym, |row|, k))
      && (w != [] ==>
           && (if exists k :: TrialShift(row, sym, |row|, k) then TrialShift(row, sym, |row|, w[0]) else w[0] == -1)
           && (forall k :: k in w[1..] <==> TrialRule(row, dr, sym, |row|, k + 2))
           && (forall a, b :: 1 <= a < b < |w| ==> w[a] < w[b]))
  {
    var n := |row|;
    var w, l, r := TrialWord(row, dr, sym, n), Lead(row, sym, n), Reds(row, dr, sym, n);
    LeadIs(row, sym, n);
    RedsAre(row, dr, sym, n);
    RedsIncrease(row, dr, sym, n);
    RedsNonnegative(row, dr, sym, n);
    if w == [] {
      forall k ensures !TrialShift(row, sym, n, k) && !TrialRule(row, dr, sym, n, k) {
        assert k - 2 !in r;
      }
    } else {
      assert w[1..] == r;
      if r != [] { assert r[0] in r; }
    }
  }

  lemma RedsNonnegative(row: seq<Action>, dr: int, sym: int, n: nat)
    requires n <= |row| && NumbersOk(row)
    ensures forall a :: 0 <= a < |Reds(row, dr, sym, n)| ==> Reds(row, dr, sym, n)[a] >= 0
  {
    var r := Reds(row, dr, sym, n);
    RedsAre(row, dr, sym, n);
    forall a | 0 <= a < |r| ensures r[a] >= 0 {
      assert r[a] in r;
    }
  }

  lemma {:induction false} WordStays(row: seq<Action>, dr: int, sym: int, n: nat, m: nat)
    requires n <= m <= |row| && forall i :: n <= i < m ==> row[i].symbol != sym
    ensures TrialWord(row, dr, sym, m) == TrialWord(row, dr, sym, n)
    ensures HasTrialOn(row, sym, m) <==> HasTrialOn(row, sym, n)
  {
    if n < m { WordStays(row, dr, sym, n, m - 1); }
  }

  /** Before the shift on a symbol its list is empty. */
  lemma {:induction false} WordBeforeShift(row: seq<Action>, dr: int, sym: int, n: nat, m: nat)
    requires n <= m < |row| && Sorted(row) && row[m].symbol == sym && row[m].code == Shift
    ensures TrialWord(row, dr, sym, n) == []
  {
    if n > 0 {
      assert Less(row[n - 1], row[m]);
      WordBeforeShift(row, dr, sym, n - 1, m);
    }
  }

  // ----- the room the lists take

  ghost function TrialCount(row: seq<Action>, n: nat): nat
    requires n <= |row|
  {
    if n == 0 then 0 else TrialCount(row, n - 1) + if row[n - 1].suppressed == 1 then 1 else 0
  }

  /** The symbols of the first n actions that have a list. */
  ghost function TrialSymbols(row: seq<Action>, n: nat): (s: set<int>)
    requires n <= |row|
    ensures forall t :: t in s <==> HasTrialOn(row, t, n)
  {
    if n == 0 then {}
    else
      var rest := TrialSymbols(row, n - 1);
      if row[n - 1].suppressed == 1 then
        assert IsTrial(row[n - 1], row[n - 1].symbol);
        rest + {row[n - 1].symbol}
      else rest
  }

  lemma {:induction false} TrialCountMono(row: seq<Action>, n: nat, m: nat)
    requires n <= m <= |row|
    ensures TrialCount(row, n) <= TrialCount(row, m)
    ensures TrialSymbols(row, n) <= TrialSymbols(row, m)
  {
    if n < m { TrialCountMono(row, n, m - 1); }
  }

  lemma {:induction false} TrialCountIs(row: seq<Action>, n: nat)
    requires n <= |row|
    ensures TrialCount(row, n) == multiset(seq(n, i requires 0 <= i < n => row[i].suppressed))[1]
  {
    if n > 0 {
      TrialCountIs(row, n - 1);
      var a, b := seq(n, i requires 0 <= i < n => row[i].suppressed), seq(n - 1, i requires 0 <= i < n - 1 => row[i].suppressed);
      assert a == b + [row[n - 1].suppressed];
    }
  }

  lemma SubsetSize(a: set<int>, b: set<int>)
    requires a <= b
    ensures |a| <= |b|
  {
    assert b == a + (b - a);
  }

  /** Every symbol with a list has a conflict of its own. */
  lemma {:induction false} ListsPerConflict(row0: seq<Action>, final: bool, n: nat)
    requires n <= |row0| && Sorted(row0)
    ensures
      var s := Resolve(row0, final, n);
      |TrialSymbols(WithMarks(row0[..n], s.marks), n)| <= s.sr + s.rr
  {
    var s := Resolve(row0, final, n);
    var row := WithMarks(row0[..n], s.marks);
    if n == 0 {
      assert TrialSymbols(row, 0) == {};
    } else {
      hide Resolve, TrialSymbols, WithMarks;
      ListsPerConflict(row0, final, n - 1);
      var r := Resolve(row0, final, n - 1);
      NoNewSymbols(row0, final, n);
      OneMoreSymbol(TrialSymbols(row, n), TrialSymbols(WithMarks(row0[..n - 1], r.marks), n - 1), row0[n - 1].symbol, s.sr + s.rr, r.sr + r.rr);
    }
  }

  lemma OneMoreSymbol(now: set<int>, before: set<int>, x: int, c: nat, d: nat)
    requires |before| <= d <= c && now <= before + {x} && (c == d ==> now <= before)
    ensures |now| <= c
  {
    if c > d {
      SubsetSize(now, before + {x});
    } else {
      SubsetSize(now, before);
    }
  }

  /** A step marks actions for trial only when it counts a conflict, and then on
      its own symbol. */
  lemma StepTrials(row: seq<Action>, final: bool, s: Scan, i: nat)
    requires |s.marks| < |row| && -1 <= s.pref < |s.marks| && i <= |s.marks|
    ensures
      var t := Step(row, final, s);
      && s.sr + s.rr <= t.sr + t.rr <= s.sr + s.rr + 1
      && (t.marks[i] == 1 ==> (i < |s.marks| && s.marks[i] == 1) || (row[i].symbol == row[|s.marks|].symbol && t.sr + t.rr > s.sr + s.rr))
  {
  }

  /** A symbol with a list had one before, unless its last action is new. */
  lemma NewTrial(row0: seq<Action>, final: bool, n: nat, s: Scan, r: Scan, t: int)
    requires 0 < n <= |row0| && |r.marks| == n - 1 && -1 <= r.pref < n - 1 && s == Step(row0, final, r)
    requires HasTrialOn(WithMarks(row0[..n], s.marks), t, n)
    ensures HasTrialOn(WithMarks(row0[..n - 1], r.marks), t, n - 1) || (t == row0[n - 1].symbol && s.sr + s.rr > r.sr + r.rr)
  {
    hide Step;
    var a, b := WithMarks(row0[..n], s.marks), WithMarks(row0[..n - 1], r.marks);
    var i :| 0 <= i < n && IsTrial(a[i], t);
    StepTrials(row0, final, r, i);
    if i < n - 1 && r.marks[i] == 1 { assert IsTrial(b[i], t); }
  }

  lemma NoNewSymbols(row0: seq<Action>, final: bool, n: nat)
    requires 0 < n <= |row0| && Sorted(row0)
    ensures
      var s, r := Resolve(row0, final, n), Resolve(row0, final, n - 1);
      var now, before := TrialSymbols(WithMarks(row0[..n], s.marks), n), TrialSymbols(WithMarks(row0[..n - 1], r.marks), n - 1);
      && now <= before + {row0[n - 1].symbol}
      && (s.sr + s.rr == r.sr + r.rr ==> now <= before)
      && r.sr + r.rr <= s.sr + s.rr <= r.sr + r.rr + 1
  {
    hide Step, WithMarks, TrialSymbols, HasTrialOn;
    var s, r := Resolve(row0, final, n), Resolve(row0, final, n - 1);
    var a, b := WithMarks(row0[..n], s.marks), WithMarks(row0[..n - 1], r.marks);
    assert s == Step(row0, final, r);
    StepTrials(row0, final, r, 0);
    forall t | t in TrialSymbols(a, n)
      ensures t in TrialSymbols(b, n - 1) || (t == row0[n - 1].symbol && s.sr + s.rr > r.sr + r.rr)
    {
      NewTrial(row0, final, n, s, r, t);
    }
  }
}
