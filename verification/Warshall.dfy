/** warshall.c: transitive closure of a relation held in packed bit rows. */
module Warshall {
  import opened Bits
  import opened Graph

  /** The recurrence behind the algorithm: y is reachable from x in one or more
      steps whose inner vertices are all below k. */
  ghost predicate Via(G: Graph, k: nat, x: int, y: int)
    requires k <= |G|
  {
    0 <= x < |G| &&
    if k == 0 then y in G[x]
    else Via(G, k - 1, x, y) || (Via(G, k - 1, x, k - 1) && Via(G, k - 1, k - 1, y))
  }

  /** Two such walks meeting below k make one. */
  lemma {:induction false} ViaTrans(G: Graph, k: nat, x: int, z: int, y: int)
    requires k <= |G| && 0 <= z < k
    requires Via(G, k, x, z) && Via(G, k, z, y)
    ensures Via(G, k, x, y)
  {
    var j := k - 1;
    if z < j {
      if Via(G, j, x, z) && Via(G, j, z, y) { ViaTrans(G, j, x, z, y); }
      if Via(G, j, x, z) && Via(G, j, z, j) { ViaTrans(G, j, x, z, j); }
      if Via(G, j, j, z) && Via(G, j, z, y) { ViaTrans(G, j, j, z, y); }
    }
  }

  lemma {:induction false} EdgeIsVia(G: Graph, k: nat, x: int, y: int)
    requires k <= |G| && 0 <= x < |G| && y in G[x]
    ensures Via(G, k, x, y)
  {
    if k > 0 { EdgeIsVia(G, k - 1, x, y); }
  }

  lemma {:induction false} ViaIsReach(G: Graph, k: nat, x: int, y: int)
    requires IsGraph(G) && k <= |G| && Via(G, k, x, y)
    ensures ReachPlus(G, x, y)
  {
    if k == 0 {
      assert Walk(G, 0, y, y);
      assert Walk(G, 1, x, y);
    } else if Via(G, k - 1, x, y) {
      ViaIsReach(G, k - 1, x, y);
    } else {
      ViaIsReach(G, k - 1, x, k - 1);
      ViaIsReach(G, k - 1, k - 1, y);
      var m: nat :| m > 0 && Walk(G, m, x, k - 1);
      var n: nat :| n > 0 && Walk(G, n, k - 1, y);
      WalkTrans(G, m, n, x, k - 1, y);
    }
  }

  lemma {:induction false} WalkIsVia(G: Graph, n: nat, x: int, y: int)
    requires IsGraph(G) && n > 0 && Walk(G, n, x, y)
    ensures Via(G, |G|, x, y)
  {
    var z :| z in G[x] && Walk(G, n - 1, z, y);
    EdgeIsVia(G, |G|, x, z);
    if n > 1 {
      WalkIsVia(G, n - 1, z, y);
      ViaTrans(G, |G|, x, z, y);
    }
  }

  /** With every vertex allowed inside, the recurrence is reachability. */
  lemma ViaAll(G: Graph, x: int, y: int)
    requires IsGraph(G)
    ensures Via(G, |G|, x, y) <==> ReachPlus(G, x, y)
  {
    if Via(G, |G|, x, y) {
      ViaIsReach(G, |G|, x, y);
    }
    if ReachPlus(G, x, y) {
      var n: nat :| n > 0 && Walk(G, n, x, y);
      WalkIsVia(G, n, x, y);
    }
  }

  /** The relation on 0..n-1 that the rows hold; columns from n on are padding. */
  ghost function RelationOf(rows: seq<set<int>>): (G: Graph)
    ensures |G| == |rows| && IsGraph(G)
    ensures forall x, y :: 0 <= x < |rows| ==> (y in G[x] <==> 0 <= y < |rows| && y in rows[x])
  {
    seq(|rows|, x requires 0 <= x < |rows| => set y | y in rows[x] && 0 <= y < |rows|)
  }

  /** The rows hold the walks through vertices below i. */
  ghost predicate Pivoted(G: Graph, rows: seq<set<int>>, i: nat) {
    i <= |G| == |rows| &&
    forall x, y :: 0 <= x < |G| && 0 <= y < |G| ==> (y in rows[x] <==> Via(G, i, x, y))
  }

  /** The rows after the inner loop for pivot i has passed rows 0..j-1. */
  ghost function PivotRows(rows: seq<set<int>>, i: nat, j: nat): (p: seq<set<int>>)
    requires i < |rows|
    ensures |p| == |rows|
    ensures forall x :: 0 <= x < |rows| ==>
      p[x] == if x < j && i in rows[x] then rows[x] + rows[i] else rows[x]
  {
    seq(|rows|, x requires 0 <= x < |rows| => if x < j && i in rows[x] then rows[x] + rows[i] else rows[x])
  }

  lemma PivotNext(rows: seq<set<int>>, i: nat, j: nat)
    requires i < |rows| && j < |rows|
    ensures var p := PivotRows(rows, i, j);
      PivotRows(rows, i, j + 1) == if i in p[j] then p[j := p[j] + p[i]] else p
  {
    var p, q := PivotRows(rows, i, j), PivotRows(rows, i, j + 1);
    assert p[i] == rows[i];
    assert q == if i in p[j] then p[j := p[j] + p[i]] else p;
  }

  lemma PivotNone(rows: seq<set<int>>, i: nat)
    requires i < |rows|
    ensures PivotRows(rows, i, 0) == rows
  {
  }

  lemma PivotStep(G: Graph, rows: seq<set<int>>, i: nat)
    requires i < |G| && Pivoted(G, rows, i)
    ensures Pivoted(G, PivotRows(rows, i, |G|), i + 1)
  {
  }

  /** The inner loop: every row that holds i takes in row i. */
  method PivotLoop(R: array2<bv32>, i: nat, cword: nat, mask: bv32)
    requires i < R.Length0 <= 32 * R.Length1
    requires At(mask, cword, i)
    modifies R
    ensures Rows(R) == PivotRows(old(Rows(R)), i, R.Length0)
  {
    hide Rows, At, PivotRows;
    ghost var rows := Rows(R);
    var j := 0;
    PivotNone(rows, i);
    while j < R.Length0
      invariant j <= R.Length0
      invariant Rows(R) == PivotRows(rows, i, j)
    {
      PivotNext(rows, i, j);
      var found := TestMask(R, j, cword, mask, i);
      if found {
        OrRow(R, j, R, i);
      }
      j := j + 1;
    }
  }

  /** The rows after the pivots 0..k-1. */
  ghost function AfterPivots(rows: seq<set<int>>, k: nat): (p: seq<set<int>>)
    requires k <= |rows|
    ensures |p| == |rows|
  {
    if k == 0 then rows else PivotRows(AfterPivots(rows, k - 1), k - 1, |rows|)
  }

  lemma {:induction false} AfterPivotsIsVia(rows: seq<set<int>>, k: nat)
    requires k <= |rows|
    ensures Pivoted(RelationOf(rows), AfterPivots(rows, k), k)
  {
    if k > 0 {
      AfterPivotsIsVia(rows, k - 1);
      PivotStep(RelationOf(rows), AfterPivots(rows, k - 1), k - 1);
    }
  }

  method PivotAll(R: array2<bv32>)
    requires R.Length0 <= 32 * R.Length1
    modifies R
    ensures Rows(R) == AfterPivots(old(Rows(R)), R.Length0)
  {
    ghost var rows := Rows(R);
    var cword, mask: bv32, i := 0, 1, 0;
    while i < R.Length0
      invariant i <= R.Length0
      invariant At(mask, cword, i)
      invariant Rows(R) == AfterPivots(rows, i)
    {
      PivotLoop(R, i, cword, mask);
      mask, cword := NextColumn(mask, cword, i);
      i := i + 1;
    }
  }

  method TransitiveClosure(R: array2<bv32>)
    requires R.Length1 == WordSize(R.Length0)
    modifies R
    ensures forall x, y :: 0 <= x < R.Length0 && 0 <= y < R.Length0 ==>
      (y in Rows(R)[x] <==> ReachPlus(RelationOf(old(Rows(R))), x, y))
  {
    ghost var rows := Rows(R);
    WordSizeFits(R.Length0);
    PivotAll(R);
    forall x, y | 0 <= x < R.Length0 && 0 <= y < R.Length0
      ensures y in AfterPivots(rows, R.Length0)[x] <==> ReachPlus(RelationOf(rows), x, y)
    {
      AfterPivotsIsVia(rows, R.Length0);
      ViaAll(RelationOf(rows), x, y);
    }
  }

  /** The rows with the first i diagonal elements added. */
  ghost function Diagonal(rows: seq<set<int>>, i: nat): (d: seq<set<int>>)
    ensures |d| == |rows|
    ensures forall x :: 0 <= x < |rows| ==> d[x] == if x < i then rows[x] + {x} else rows[x]
  {
    seq(|rows|, x requires 0 <= x < |rows| => if x < i then rows[x] + {x} else rows[x])
  }

  lemma DiagonalNext(rows: seq<set<int>>, i: nat)
    requires i < |rows|
    ensures Diagonal(rows, 0) == rows
    ensures Diagonal(rows, i)[i := Diagonal(rows, i)[i] + {i}] == Diagonal(rows, i + 1)
  {
  }

  method DiagonalLoop(R: array2<bv32>)
    requires R.Length0 <= 32 * R.Length1
    modifies R
    ensures Rows(R) == Diagonal(old(Rows(R)), R.Length0)
  {
    hide Rows, Diagonal, At;
    ghost var rows := Rows(R);
    if R.Length0 > 0 { DiagonalNext(rows, 0); }
    assert At(1, 0, 0) by { AtStart(); }
    var rp, mask: bv32, i := 0, 1, 0;
    while i < R.Length0
      invariant i <= R.Length0
      invariant At(mask, rp, i)
      invariant Rows(R) == Diagonal(rows, i)
    {
      OrMask(R, i, rp, mask, i);
      DiagonalNext(rows, i);
      mask, rp := NextColumn(mask, rp, i);
      i := i + 1;
    }
  }

  method ReflexiveTransitiveClosure(R: array2<bv32>)
    requires R.Length1 == WordSize(R.Length0)
    modifies R
    ensures forall x, y :: 0 <= x < R.Length0 && 0 <= y < R.Length0 ==>
      (y in Rows(R)[x] <==> Reach(RelationOf(old(Rows(R))), x, y))
  {
    ghost var G := RelationOf(Rows(R));
    TransitiveClosure(R);
    ghost var rows := Rows(R);
    WordSizeFits(R.Length0);
    DiagonalLoop(R);
    forall x, y | 0 <= x < R.Length0 && 0 <= y < R.Length0
      ensures y in Rows(R)[x] <==> Reach(G, x, y)
    {
      ReachCases(G, x, y);
    }
  }
}
