/** Finite directed graphs over 0..|G|-1, each vertex with its set of
    successors, and reachability in them. */
module Graph {
  type Graph = seq<set<int>>

  ghost predicate IsGraph(G: Graph) {
    forall x, y :: 0 <= x < |G| && y in G[x] ==> 0 <= y < |G|
  }

  /** There is a walk of exactly n edges from x to y. */
  ghost predicate Walk(G: Graph, n: nat, x: int, y: int) {
    0 <= x < |G| &&
    if n == 0 then x == y else exists z :: z in G[x] && Walk(G, n - 1, z, y)
  }

  /** Reachable in zero or more steps. */
  ghost predicate Reach(G: Graph, x: int, y: int) {
    exists n :: Walk(G, n, x, y)
  }

  /** Reachable in one or more steps. */
  ghost predicate ReachPlus(G: Graph, x: int, y: int) {
    exists n :: n > 0 && Walk(G, n, x, y)
  }

  ghost predicate Closed(G: Graph, S: set<int>) {
    forall x, y :: x in S && 0 <= x < |G| && y in G[x] ==> y in S
  }

  lemma ReachSelf(G: Graph, x: int)
    requires 0 <= x < |G|
    ensures Reach(G, x, x)
  {
    assert Walk(G, 0, x, x);
  }

  lemma {:induction false} WalkTrans(G: Graph, m: nat, n: nat, x: int, y: int, z: int)
    requires Walk(G, m, x, y) && Walk(G, n, y, z)
    ensures Walk(G, m + n, x, z)
  {
    if m > 0 {
      var w :| w in G[x] && Walk(G, m - 1, w, y);
      WalkTrans(G, m - 1, n, w, y, z);
    }
  }

  lemma ReachTrans(G: Graph, x: int, y: int, z: int)
    requires Reach(G, x, y) && Reach(G, y, z)
    ensures Reach(G, x, z)
  {
    var m: nat :| Walk(G, m, x, y);
    var n: nat :| Walk(G, n, y, z);
    WalkTrans(G, m, n, x, y, z);
  }

  lemma ReachStep(G: Graph, x: int, y: int, z: int)
    requires 0 <= x < |G| && y in G[x] && Reach(G, y, z)
    ensures Reach(G, x, z)
  {
    var n: nat :| Walk(G, n, y, z);
    assert Walk(G, n + 1, x, z);
  }

  /** Nothing outside a closed set is reachable from inside it. */
  lemma {:induction false} WalkStays(G: Graph, S: set<int>, n: nat, x: int, y: int)
    requires Closed(G, S) && x in S && Walk(G, n, x, y)
    ensures y in S
  {
    if n > 0 {
      var z :| z in G[x] && Walk(G, n - 1, z, y);
      WalkStays(G, S, n - 1, z, y);
    }
  }

  lemma ReachStays(G: Graph, S: set<int>, x: int, y: int)
    requires Closed(G, S) && x in S && Reach(G, x, y)
    ensures y in S
  {
    var n: nat :| Walk(G, n, x, y);
    WalkStays(G, S, n, x, y);
  }

  lemma {:induction false} WalkInGraph(G: Graph, n: nat, x: int, y: int)
    requires Walk(G, n, x, y)
    ensures 0 <= x < |G| && 0 <= y < |G|
  {
    if n > 0 {
      var z :| z in G[x] && Walk(G, n - 1, z, y);
      WalkInGraph(G, n - 1, z, y);
    }
  }

  /** Zero or more steps is nothing, or one or more. */
  lemma ReachCases(G: Graph, x: int, y: int)
    requires 0 <= x < |G|
    ensures Reach(G, x, y) <==> x == y || ReachPlus(G, x, y)
  {
    if x == y {
      ReachSelf(G, x);
    } else if Reach(G, x, y) {
      var n: nat :| Walk(G, n, x, y);
      assert n > 0;
    }
  }
}
