/** lalr.c, transpose: turning adjacency lists round. */
module Transpose {
  import opened Digraph

  /** The rows met so far that have j as an entry, once for every occurrence:
      the rows before i, and the first e entries of row i. */
  ghost function Into(R: seq<seq<int>>, i: nat, e: nat, j: int): seq<int>
    requires i <= |R| && (if i < |R| then e <= |R[i]| else e == 0)
    decreases i, e
  {
    if e > 0 then Into(R, i, e - 1, j) + (if R[i][e - 1] == j then [i] else [])
    else if i > 0 then Into(R, i - 1, |R[i - 1]|, j)
    else []
  }

  /** List j of the transposed relation. */
  ghost function Transposed(R: seq<seq<int>>, j: int): seq<int> {
    Into(R, |R|, 0, j)
  }

  // ----- what the transposed relation is

  ghost function Occurrences(s: seq<int>, x: int): nat {
    multiset(s)[x]
  }

  lemma OccurrencesAppend(s: seq<int>, t: seq<int>, x: int)
    ensures Occurrences(s + t, x) == Occurrences(s, x) + Occurrences(t, x)
  {
  }

  lemma OccurrencesFew(i: int, x: int)
    ensures Occurrences([i], x) == (if x == i then 1 else 0) && Occurrences([], x) == 0
  {
  }

  lemma OccurrencesPrefix(s: seq<int>, e: nat, x: int)
    requires e < |s|
    ensures Occurrences(s[..e + 1], x) == Occurrences(s[..e], x) + if s[e] == x then 1 else 0
  {
    assert s[..e + 1] == s[..e] + [s[e]];
    OccurrencesAppend(s[..e], [s[e]], x);
  }

  /** One more entry of row i. */
  lemma IntoNext(R: seq<seq<int>>, i: nat, e: nat, j: int, x: int)
    requires i < |R| && e < |R[i]|
    ensures Occurrences(Into(R, i, e + 1, j), x) == Occurrences(Into(R, i, e, j), x) + if x == i && R[i][e] == j then 1 else 0
    ensures Occurrences(R[i][..e + 1], j) == Occurrences(R[i][..e], j) + if R[i][e] == j then 1 else 0
    ensures Occurrences(R[i][..0], j) == 0
  {
    hide Occurrences;
    OccurrencesPrefix(R[i], e, j);
    var last := if R[i][e] == j then [i] else [];
    assert Into(R, i, e + 1, j) == Into(R, i, e, j) + last;
    OccurrencesAppend(Into(R, i, e, j), last, x);
    OccurrencesFew(i, x);
    OccurrencesFew(i, j);
    assert R[i][..0] == [];
  }

  lemma {:induction false} IntoOccurrences(R: seq<seq<int>>, i: nat, e: nat, j: int, x: int)
    requires i <= |R| && (if i < |R| then e <= |R[i]| else e == 0)
    ensures Occurrences(Into(R, i, e, j), x) ==
      if 0 <= x < i then Occurrences(R[x], j) else if x == i && e > 0 then Occurrences(R[i][..e], j) else 0
    decreases i, e
  {
    hide Occurrences;
    if e > 0 {
      IntoOccurrences(R, i, e - 1, j, x);
      IntoNext(R, i, e - 1, j, x);
    } else if i > 0 {
      IntoOccurrences(R, i - 1, |R[i - 1]|, j, x);
      assert R[i - 1][..|R[i - 1]|] == R[i - 1];
      if R[i - 1] == [] { OccurrencesFew(i, j); }
    } else {
      OccurrencesFew(i, x);
    }
  }

  /** Every edge is turned round, as often as it occurs. */
  lemma TransposedOccurrences(R: seq<seq<int>>, x: int, j: int)
    requires 0 <= x < |R|
    ensures Occurrences(Transposed(R, j), x) == Occurrences(R[x], j)
  {
    IntoOccurrences(R, |R|, 0, j, x);
  }

  lemma TransposedElems(R: seq<seq<int>>, x: int, j: int)
    ensures x in Transposed(R, j) <==> 0 <= x < |R| && j in R[x]
  {
    IntoOccurrences(R, |R|, 0, j, x);
    assert x in Transposed(R, j) <==> x in multiset(Transposed(R, j));
    assert 0 <= x < |R| ==> (j in R[x] <==> j in multiset(R[x]));
  }

  /** Turned round twice, a relation has its edges back, with their multiplicity. */
  lemma TransposedTwice(R: seq<seq<int>>, S: seq<seq<int>>, x: int, j: int)
    requires IsRelation(R) && |S| == |R| && forall y :: 0 <= y < |S| ==> S[y] == Transposed(R, y)
    requires 0 <= x < |R| && 0 <= j < |R|
    ensures Occurrences(Transposed(S, x), j) == Occurrences(R[x], j)
  {
    TransposedOccurrences(S, j, x);
    TransposedOccurrences(R, x, j);
  }

  lemma {:induction false} IntoBound(R: seq<seq<int>>, i: nat, e: nat, j: int)
    requires i <= |R| && (if i < |R| then e <= |R[i]| else e == 0)
    ensures |Into(R, i, e, j)| <= |Transposed(R, j)|
    decreases |R| - i, if i < |R| then |R[i]| - e else 0
  {
    if i < |R| {
      if e < |R[i]| { IntoBound(R, i, e + 1, j); } else { IntoBound(R, i + 1, 0, j); }
    }
  }

  // ----- counting

  ghost predicate Counts(R: seq<seq<int>>, i: nat, e: nat, nedges: seq<int>)
    requires i <= |R| && (if i < |R| then e <= |R[i]| else e == 0)
  {
    |nedges| == |R| && forall j :: 0 <= j < |R| ==> nedges[j] == |Into(R, i, e, j)|
  }

  lemma CountNone(R: seq<seq<int>>, nedges: seq<int>)
    requires |nedges| == |R| && forall j :: 0 <= j < |R| ==> nedges[j] == 0
    ensures Counts(R, 0, 0, nedges)
  {
  }

  lemma CountsAre(R: seq<seq<int>>, nedges: seq<int>)
    requires Counts(R, |R|, 0, nedges)
    ensures |nedges| == |R| && forall j :: 0 <= j < |R| ==> nedges[j] >= 0
  {
  }

  lemma CountNext(R: seq<seq<int>>, i: nat, e: nat, nedges: seq<int>)
    requires IsRelation(R) && i < |R| && e < |R[i]| && Counts(R, i, e, nedges)
    ensures Counts(R, i, e + 1, nedges[R[i][e] := nedges[R[i][e]] + 1])
  {
  }

  lemma CountRow(R: seq<seq<int>>, i: nat, nedges: seq<int>)
    requires i < |R| && Counts(R, i, |R[i]|, nedges)
    ensures Counts(R, i + 1, 0, nedges)
  {
  }

  /** The first pass: how often every vertex is entered. */
  method CountEdges(R: seq<seq<int>>) returns (nedges: array<int>)
    requires IsRelation(R)
    ensures fresh(nedges) && nedges.Length == |R| && Counts(R, |R|, 0, nedges[..])
  {
    hide Into;
    nedges := new int[|R|](_ => 0);
    CountNone(R, nedges[..]);
    for i := 0 to |R|
      invariant nedges.Length == |R|
      invariant Counts(R, i, 0, nedges[..])
    {
      for e := 0 to |R[i]|
        invariant nedges.Length == |R|
        invariant Counts(R, i, e, nedges[..])
      {
        CountNext(R, i, e, nedges[..]);
        ghost var next := nedges[..][R[i][e] := nedges[R[i][e]] + 1];
        nedges[R[i][e]] := nedges[R[i][e]] + 1;
        assert nedges[..] == next;
      }
      CountRow(R, i, nedges[..]);
    }
  }

  // ----- filling

  /** Every list starts with the rows met, and is as long as it will get. */
  ghost predicate FilledTo(R: seq<seq<int>>, i: nat, e: nat, lists: seq<seq<int>>, next: seq<int>)
    requires i <= |R| && (if i < |R| then e <= |R[i]| else e == 0)
  {
    && |lists| == |next| == |R|
    && (forall j :: 0 <= j < |R| ==> |lists[j]| == |Transposed(R, j)|)
    && (forall j :: 0 <= j < |R| ==> next[j] == |Into(R, i, e, j)| && Into(R, i, e, j) <= lists[j])
  }

  lemma FillNone(R: seq<seq<int>>, nedges: seq<int>, lists: seq<seq<int>>, next: seq<int>)
    requires Counts(R, |R|, 0, nedges) && |lists| == |next| == |R|
    requires forall j :: 0 <= j < |R| ==> |lists[j]| == nedges[j] && next[j] == 0
    ensures FilledTo(R, 0, 0, lists, next)
  {
  }

  lemma FillRow(R: seq<seq<int>>, i: nat, lists: seq<seq<int>>, next: seq<int>)
    requires i < |R| && FilledTo(R, i, |R[i]|, lists, next)
    ensures FilledTo(R, i + 1, 0, lists, next)
  {
  }

  lemma FillDone(R: seq<seq<int>>, lists: seq<seq<int>>, next: seq<int>)
    requires FilledTo(R, |R|, 0, lists, next)
    ensures |lists| == |R| && forall j :: 0 <= j < |R| ==> lists[j] == Transposed(R, j)
  {
  }

  lemma FillNext(R: seq<seq<int>>, i: nat, e: nat, lists: seq<seq<int>>, next: seq<int>)
    requires IsRelation(R) && i < |R| && e < |R[i]| && FilledTo(R, i, e, lists, next)
    ensures
      var j := R[i][e];
      && 0 <= next[j] < |lists[j]|
      && FilledTo(R, i, e + 1, lists[j := lists[j][next[j] := i]], next[j := next[j] + 1])
  {
    IntoBound(R, i, e + 1, R[i][e]);
  }

  method FillEdge(R: seq<seq<int>>, i: nat, e: nat, lists: array<seq<int>>, next: array<int>)
    requires IsRelation(R) && i < |R| && e < |R[i]| && FilledTo(R, i, e, lists[..], next[..])
    modifies lists, next
    ensures FilledTo(R, i, e + 1, lists[..], next[..])
  {
    FillNext(R, i, e, lists[..], next[..]);
    var j := R[i][e];
    ghost var lists1 := lists[..][j := lists[j][next[j] := i]];
    ghost var next1 := next[..][j := next[j] + 1];
    lists[j] := lists[j][next[j] := i];
    next[j] := next[j] + 1;
    assert lists[..] == lists1 && next[..] == next1;
  }

  /** transpose. Each list is allocated with the length counted for it, and
      filled from the front. */
  method Transpose(R: seq<seq<int>>) returns (S: seq<seq<int>>)
    requires IsRelation(R)
    ensures |S| == |R| && IsRelation(S)
    ensures forall j :: 0 <= j < |R| ==> S[j] == Transposed(R, j)
  {
    hide Into, FilledTo, Counts, Transposed;
    var nedges := CountEdges(R);
    CountsAre(R, nedges[..]);
    var lists := new seq<int>[|R|](j requires 0 <= j < nedges.Length reads nedges => if nedges[j] > 0 then seq(nedges[j], _ => -1) else []);
    var next := new int[|R|](_ => 0);
    FillNone(R, nedges[..], lists[..], next[..]);
    for i := 0 to |R|
      invariant FilledTo(R, i, 0, lists[..], next[..])
    {
      for e := 0 to |R[i]|
        invariant FilledTo(R, i, e, lists[..], next[..])
      {
        FillEdge(R, i, e, lists, next);
      }
      FillRow(R, i, lists[..], next[..]);
    }
    S := lists[..];
    FillDone(R, S, next[..]);
    TransposeIsRelation(R, S);
  }

  lemma TransposeIsRelation(R: seq<seq<int>>, S: seq<seq<int>>)
    requires |S| == |R| && forall j :: 0 <= j < |R| ==> S[j] == Transposed(R, j)
    ensures IsRelation(S)
  {
    forall j, e | 0 <= j < |S| && 0 <= e < |S[j]| ensures 0 <= S[j][e] < |S| {
      TransposedElems(R, S[j][e], j);
      assert S[j][e] in S[j];
    }
  }
}
