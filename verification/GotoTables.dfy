/** output.c, default_goto and save_column: every nonterminal has a default
    target, and a column for the transitions that go elsewhere. */
module GotoTables {
  import opened Packing
  import opened Vectors

  /** How often x occurs among the first n. */
  ghost function CountOf(s: seq<int>, x: int, n: nat): nat
    requires n <= |s|
  {
    if n == 0 then 0 else CountOf(s, x, n - 1) + if s[n - 1] == x then 1 else 0
  }

  lemma {:induction false} CountIn(s: seq<int>, x: int, n: nat)
    requires n <= |s|
    ensures CountOf(s, x, n) > 0 <==> x in s[..n]
  {
    if n > 0 {
      CountIn(s, x, n - 1);
      assert s[..n] == s[..n - 1] + [s[n - 1]];
    }
  }

  /** No state is a target more often, and no lower one as often. */
  ghost predicate MostFrequent(targets: seq<int>, d: int) {
    && (forall i :: i >= 0 ==> CountOf(targets, i, |targets|) <= CountOf(targets, d, |targets|))
    && (forall i :: 0 <= i < d ==> CountOf(targets, i, |targets|) < CountOf(targets, d, |targets|))
  }

  method CountTargets(targets: seq<int>, nstates: nat) returns (stateCount: array<int>)
    requires forall i :: 0 <= i < |targets| ==> 0 <= targets[i] < nstates
    ensures stateCount.Length == nstates
    ensures forall i :: 0 <= i < nstates ==> stateCount[i] == CountOf(targets, i, |targets|)
  {
    stateCount := new int[nstates](_ => 0);
    for i := 0 to |targets|
      invariant forall s :: 0 <= s < nstates ==> stateCount[s] == CountOf(targets, s, i)
    {
      stateCount[targets[i]] := stateCount[targets[i]] + 1;
    }
  }

  /** default_goto: the most frequent target of a column. */
  method DefaultGoto(targets: seq<int>, nstates: nat) returns (defaultState: int)
    requires forall i :: 0 <= i < |targets| ==> 0 <= targets[i] < nstates
    ensures targets == [] ==> defaultState == 0
    ensures targets != [] ==> 0 <= defaultState < nstates && MostFrequent(targets, defaultState) && defaultState in targets
  {
    if |targets| == 0 {
      return 0;
    }
    var stateCount := CountTargets(targets, nstates);
    var max := 0;
    defaultState := 0;
    for i := 0 to nstates
      invariant 0 <= defaultState && (i > 0 ==> defaultState < nstates) && max >= 0
      invariant max == 0 ==> defaultState == 0
      invariant max > 0 ==> defaultState < i && max == CountOf(targets, defaultState, |targets|)
      invariant forall s :: 0 <= s < i ==> CountOf(targets, s, |targets|) <= max
      invariant forall s :: 0 <= s < defaultState ==> CountOf(targets, s, |targets|) < max
    {
      if stateCount[i] > max {
        max := stateCount[i];
        defaultState := i;
      }
    }
    CountIn(targets, targets[0], |targets|);
    CountIn(targets, defaultState, |targets|);
    assert targets[..|targets|] == targets;
    forall s | s >= nstates ensures CountOf(targets, s, |targets|) == 0 {
      CountIn(targets, s, |targets|);
    }
    assert CountOf(targets, targets[0], |targets|) <= max;
  }

  // ----- save_column

  ghost predicate Increases(s: seq<int>) {
    forall i, j :: 0 <= i < j < |s| ==> s[i] < s[j]
  }

  /** The transitions of the first n that do not go to the default. */
  ghost function Exceptions(from: seq<int>, to: seq<int>, d: int, n: nat): (v: Vec)
    requires n <= |from| == |to|
    ensures |v.from| == |v.to|
  {
    if n == 0 then Vec([], [])
    else
      var v := Exceptions(from, to, d, n - 1);
      if to[n - 1] == d then v else Vec(v.from + [from[n - 1]], v.to + [to[n - 1]])
  }

  lemma {:induction false} ExceptionKeys(from: seq<int>, to: seq<int>, d: int, n: nat)
    requires n <= |from| == |to| && Increases(from)
    ensures
      var v := Exceptions(from, to, d, n);
      && Increases(v.from)
      && (forall j :: 0 <= j < |v.from| ==> v.from[j] in from[..n])
      && (|v.from| > 0 ==> n > 0 && v.from[|v.from| - 1] <= from[n - 1])
  {
    if n > 0 {
      ExceptionKeys(from, to, d, n - 1);
      assert from[..n] == from[..n - 1] + [from[n - 1]];
    }
  }

  lemma ExceptionsOk(from: seq<int>, to: seq<int>, d: int)
    requires |from| == |to| && Increases(from) && forall i :: 0 <= i < |from| ==> 0 <= from[i]
    ensures VecOk(Exceptions(from, to, d, |from|))
  {
    ExceptionKeys(from, to, d, |from|);
    assert from[..|from|] == from;
    var v := Exceptions(from, to, d, |from|);
    forall k | 0 <= k < |v.from| ensures 0 <= v.from[k] {
      assert v.from[k] in from;
    }
  }

  /** The column finds the target of every transition that is an exception, and
      nothing for the others. */
  lemma {:induction false} ExceptionAt(from: seq<int>, to: seq<int>, d: int, n: nat, i: int)
    requires n <= |from| == |to| && Increases(from) && 0 <= i < n
    ensures
      var v := Exceptions(from, to, d, n);
      Entry(v.from, v.to, |v.from|, from[i]) == if to[i] == d then None else Some(to[i])
  {
    var u, v := Exceptions(from, to, d, n - 1), Exceptions(from, to, d, n);
    if i < n - 1 {
      ExceptionAt(from, to, d, n - 1, i);
      EntryPrefix(u, v, from[i]);
    } else {
      NoLaterKey(from, to, d, n - 1, n - 1);
    }
  }

  lemma NoLaterKey(from: seq<int>, to: seq<int>, d: int, n: nat, i: nat)
    requires n <= i < |from| == |to| && Increases(from)
    ensures
      var v := Exceptions(from, to, d, n);
      Entry(v.from, v.to, |v.from|, from[i]) == None
  {
    var v := Exceptions(from, to, d, n);
    ExceptionKeys(from, to, d, n);
    EntryKey(v.from, v.to, |v.from|, from[i]);
    forall j | 0 <= j < |v.from| ensures v.from[j] != from[i] {
      assert v.from[j] in from[..n];
    }
  }

  lemma {:induction false} IncreasingExtrema(s: seq<int>, n: nat)
    requires 0 < n <= |s| && Increases(s) && forall i :: 0 <= i < |s| ==> 0 <= s[i] <= MAXSHORT
    ensures MaxOf(s, n) == s[n - 1] && MinOf(s, n) == s[0]
  {
    if n > 1 { IncreasingExtrema(s, n - 1); }
  }

  /** save_column */
  method SaveColumn(from: seq<int>, to: seq<int>, d: int) returns (v: Vec, width: int)
    requires |from| == |to| && Increases(from) && forall i :: 0 <= i < |from| ==> 0 <= from[i] <= MAXSHORT
    ensures v == Exceptions(from, to, d, |from|) && width == WidthOf(v.from)
  {
    var count := 0;
    for i := 0 to |from|
      invariant count == |Exceptions(from, to, d, i).from|
    {
      if to[i] != d {
        count := count + 1;
      }
    }
    v, width := Vec([], []), 0;
    if count == 0 {
      return;
    }
    for i := 0 to |from|
      invariant v == Exceptions(from, to, d, i)
    {
      if to[i] != d {
        v := Vec(v.from + [from[i]], v.to + [to[i]]);
      }
    }
    ExceptionKeys(from, to, d, |from|);
    assert from[..|from|] == from;
    forall k | 0 <= k < |v.from| ensures 0 <= v.from[k] <= MAXSHORT {
      assert v.from[k] in from;
    }
    IncreasingExtrema(v.from, |v.from|);
    width := v.from[|v.from| - 1] - v.from[0] + 1;
  }

  /** The goto of the skeleton: the column, else the default. */
  function GotoLookup(b: int, d: int, table: seq<int>, check: seq<int>, high: int, s: int): int
    requires high < |table| == |check|
  {
    if Lookup(b, table, check, high, s).Some? then Lookup(b, table, check, high, s).value else d
  }

  /** Default and column together give every transition its target. */
  lemma GotoFound(from: seq<int>, to: seq<int>, d: int, i: int, b: int, table: seq<int>, check: seq<int>, high: int)
    requires |from| == |to| && Increases(from) && 0 <= i < |from| && 0 <= from[i]
    requires VecOk(Exceptions(from, to, d, |from|)) && high < |table| == |check|
    requires Lookup(b, table, check, high, from[i]) == At(Exceptions(from, to, d, |from|), from[i])
    ensures GotoLookup(b, d, table, check, high, from[i]) == to[i]
  {
    ExceptionAt(from, to, d, |from|, i);
  }
}
