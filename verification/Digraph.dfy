/** lalr.c, digraph and traverse: one depth-first pass that leaves in every row
    the union of the original rows of everything reachable from it. The state
    (INDEX, VERTICES, F) is first described by functions on values; the methods
    over the arrays at the end compute exactly those functions. */
module Digraph {
  import opened Bits
  import opened Graph

  /** INDEX, the live part of VERTICES (bottom first), and the rows F. */
  datatype Snap = Snap(index: seq<int>, stack: seq<int>, rows: seq<set<int>>)

  /** Adjacency lists whose entries are vertices. A null list is an empty one. */
  ghost predicate IsRelation(R: seq<seq<int>>) {
    forall x, e :: 0 <= x < |R| && 0 <= e < |R[x]| ==> 0 <= R[x][e] < |R|
  }

  ghost function GraphOf(R: seq<seq<int>>): (G: Graph)
    ensures |G| == |R|
    ensures forall x :: 0 <= x < |R| ==> G[x] == set y | y in R[x]
  {
    seq(|R|, x requires 0 <= x < |R| => set y | y in R[x])
  }

  /** The mark of a finished vertex, larger than any stack height. */
  function Infinity(n: nat): int {
    n + 2
  }

  ghost function White(st: Snap): set<int> {
    set x | 0 <= x < |st.index| && st.index[x] == 0
  }

  ghost predicate Shape(R: seq<seq<int>>, st: Snap) {
    && |st.index| == |R| && |st.rows| == |R|
    && (forall k :: 0 <= k < |st.stack| ==> 0 <= st.stack[k] < |R| && st.index[st.stack[k]] != 0)
    && (forall k, l :: 0 <= k < l < |st.stack| ==> st.stack[k] != st.stack[l])
  }

  /** Vertex i goes on top of the stack and is indexed by its height there. */
  ghost function Push(st: Snap, i: int): Snap
    requires 0 <= i < |st.index|
  {
    Snap(st.index[i := |st.stack| + 1], st.stack + [i], st.rows)
  }

  /** The low point and the row of j flow into i. */
  ghost function Absorb(st: Snap, i: int, j: int): Snap
    requires 0 <= i < |st.index| == |st.rows| && 0 <= j < |st.index|
  {
    Snap(if st.index[i] > st.index[j] then st.index[i := st.index[j]] else st.index,
         st.stack, st.rows[i := st.rows[i] + st.rows[j]])
  }

  ghost function PopOne(R: seq<seq<int>>, st: Snap): (r: Snap)
    requires Shape(R, st) && st.stack != []
    ensures Shape(R, r) && White(r) == White(st)
  {
    var top := |st.stack| - 1;
    Snap(st.index[st.stack[top] := Infinity(|R|)], st.stack[..top], st.rows)
  }

  /** Pop down to i, finishing every popped vertex with the row of i. */
  ghost function Pop(R: seq<seq<int>>, st: Snap, i: int): (r: Snap)
    requires Shape(R, st) && i in st.stack
    ensures Shape(R, r) && White(r) == White(st)
    decreases |st.stack|
  {
    var j, st1 := st.stack[|st.stack| - 1], PopOne(R, st);
    if i == j then st1
    else
      assert i in st1.stack;
      Pop(R, st1.(rows := st.rows[j := st.rows[i]]), i)
  }

  /** The end of traverse: pop the component if i is its root. */
  ghost function Finish(R: seq<seq<int>>, st: Snap, i: int, h: nat): (r: Snap)
    requires Shape(R, st) && h < |st.stack| && st.stack[h] == i
    ensures Shape(R, r) && White(r) == White(st)
    ensures st.stack[..h] <= r.stack
  {
    if st.index[i] == h + 1 then
      PopShortens(R, st, i, h);
      Pop(R, st, i)
    else st
  }

  /** traverse(i) */
  ghost function Visit(R: seq<seq<int>>, st: Snap, i: int): (r: Snap)
    requires IsRelation(R) && Shape(R, st) && 0 <= i < |R| && st.index[i] == 0
    ensures Shape(R, r) && White(r) <= White(st) - {i}
    ensures st.stack <= r.stack
    decreases White(st), 0
  {
    var st1 := Push(st, i);
    assert White(st1) == White(st) - {i};
    var st2 := Edges(R, st1, i, 0, |st.stack|);
    assert st2.stack[..|st.stack|] == st2.stack[..|st.stack| + 1][..|st.stack|];
    Finish(R, st2, i, |st.stack|)
  }

  /** One turn of the edge loop: visit j if it is new, then absorb it. */
  ghost function Edge(R: seq<seq<int>>, st: Snap, i: int, j: int, h: nat): (r: Snap)
    requires IsRelation(R) && Shape(R, st) && h < |st.stack| && st.stack[h] == i && 0 <= j < |R|
    ensures Shape(R, r) && White(r) <= White(st)
    ensures |r.stack| > h && r.stack[..h + 1] == st.stack[..h + 1] && r.stack[h] == i
    decreases White(st), 1
  {
    var st1 := if st.index[j] == 0 then Visit(R, st, j) else st;
    assert st1.stack[h] == i by { assert st1.stack[..|st.stack|][h] == i; }
    assert st1.stack[..h + 1] == st1.stack[..|st.stack|][..h + 1];
    assert st1.index[i] != 0;
    assert st1.index[j] != 0 by { assert j !in White(st1); }
    var st2 := Absorb(st1, i, j);
    assert White(st2) == White(st1);
    st2
  }

  /** The loop over the edges of i from number e on; i stands at stack[h]. */
  ghost function Edges(R: seq<seq<int>>, st: Snap, i: int, e: nat, h: nat): (r: Snap)
    requires IsRelation(R) && Shape(R, st) && h < |st.stack| && st.stack[h] == i && e <= |R[i]|
    ensures Shape(R, r) && White(r) <= White(st)
    ensures |r.stack| > h && r.stack[..h + 1] == st.stack[..h + 1] && r.stack[h] == i
    decreases White(st), 2, |R[i]| - e
  {
    if e == |R[i]| then st
    else Edges(R, Edge(R, st, i, R[i][e], h), i, e + 1, h)
  }

  lemma EdgesUnfold(R: seq<seq<int>>, st: Snap, i: int, e: nat, h: nat)
    requires IsRelation(R) && Shape(R, st) && h < |st.stack| && st.stack[h] == i && e <= |R[i]|
    ensures e == |R[i]| ==> Edges(R, st, i, e, h) == st
    ensures e < |R[i]| ==> 0 <= R[i][e] < |R| && Edges(R, st, i, e, h) == Edges(R, Edge(R, st, i, R[i][e], h), i, e + 1, h)
  {
  }

  lemma PopUnfold(R: seq<seq<int>>, st: Snap, i: int)
    requires Shape(R, st) && i in st.stack
    ensures var j, st1 := st.stack[|st.stack| - 1], PopOne(R, st);
      var st2 := st1.(rows := st1.rows[j := st1.rows[i]]);
      if i == j then Pop(R, st, i) == st1
      else Shape(R, st2) && i in st2.stack && Pop(R, st, i) == Pop(R, st2, i)
  {
  }

  lemma {:induction false} PopShortens(R: seq<seq<int>>, st: Snap, i: int, h: nat)
    requires Shape(R, st) && h < |st.stack| && st.stack[h] == i
    ensures Pop(R, st, i).stack == st.stack[..h]
    decreases |st.stack|
  {
    hide Pop, PopOne, White;
    PopUnfold(R, st, i);
    PopOneIs(R, st);
    var j, st1 := st.stack[|st.stack| - 1], PopOne(R, st);
    if i != j {
      var st2 := st1.(rows := st1.rows[j := st1.rows[i]]);
      assert st2.stack[h] == i;
      PopShortens(R, st2, i, h);
      assert st2.stack[..h] == st.stack[..h];
    } else {
      OnlyOnce(R, st, h, |st.stack| - 1);
    }
  }

  lemma OnlyOnce(R: seq<seq<int>>, st: Snap, k: nat, l: nat)
    requires Shape(R, st) && k < |st.stack| && l < |st.stack| && st.stack[k] == st.stack[l]
    ensures k == l
  {
  }

  lemma PopOneIs(R: seq<seq<int>>, st: Snap)
    requires Shape(R, st) && st.stack != []
    ensures var r, top := PopOne(R, st), |st.stack| - 1;
      r.stack == st.stack[..top] && r.rows == st.rows && r.index == st.index[st.stack[top] := Infinity(|R|)]
  {
  }

  // ----- what the rows mean

  /** The union of the original rows over everything reachable from x. */
  ghost function Union(G: Graph, F0: seq<set<int>>, x: int): (u: set<int>)
    requires |F0| == |G|
    ensures forall t :: t in u <==> exists y :: 0 <= y < |G| && Reach(G, x, y) && t in F0[y]
  {
    set y, t | 0 <= y < |G| && Reach(G, x, y) && t in F0[y] :: t
  }

  lemma UnionStep(G: Graph, F0: seq<set<int>>, x: int, y: int)
    requires |F0| == |G| && Reach(G, x, y)
    ensures Union(G, F0, y) <= Union(G, F0, x)
  {
    forall t | t in Union(G, F0, y)
      ensures t in Union(G, F0, x)
    {
      var z :| 0 <= z < |G| && Reach(G, y, z) && t in F0[z];
      ReachTrans(G, x, y, z);
    }
  }

  lemma UnionSelf(G: Graph, F0: seq<set<int>>, x: int)
    requires |F0| == |G| && 0 <= x < |G|
    ensures F0[x] <= Union(G, F0, x)
  {
    ReachSelf(G, x);
  }

  // ----- the invariant of the traversal

  ghost predicate Done(st: Snap, x: int)
    requires 0 <= x < |st.index|
  {
    st.index[x] == Infinity(|st.index|)
  }

  /** The vertex at height k reaches the one at the stack height it records. */
  ghost predicate StackAt(G: Graph, F0: seq<set<int>>, st: Snap, k: nat)
    requires |st.index| == |st.rows| == |F0| == |G|
    requires k < |st.stack| && 0 <= st.stack[k] < |G|
  {
    var x := st.stack[k];
    && 1 <= st.index[x] <= k + 1
    && Reach(G, x, st.stack[st.index[x] - 1])
    && F0[x] <= st.rows[x] <= Union(G, F0, x)
  }

  ghost predicate StackOk(G: Graph, F0: seq<set<int>>, st: Snap)
    requires |st.index| == |st.rows| == |F0| == |G|
    requires forall k :: 0 <= k < |st.stack| ==> 0 <= st.stack[k] < |G|
  {
    forall k :: 0 <= k < |st.stack| ==> StackAt(G, F0, st, k)
  }

  /** A finished vertex has only finished successors and its final row. */
  ghost predicate DoneOk(G: Graph, F0: seq<set<int>>, st: Snap)
    requires |st.index| == |st.rows| == |F0| == |G| && IsGraph(G)
  {
    forall x :: 0 <= x < |G| && Done(st, x) ==>
      st.rows[x] == Union(G, F0, x) && forall y :: y in G[x] ==> Done(st, y)
  }

  ghost predicate Inv(R: seq<seq<int>>, F0: seq<set<int>>, st: Snap) {
    && IsRelation(R) && Shape(R, st) && |F0| == |R|
    && StackOk(GraphOf(R), F0, st)
    && DoneOk(GraphOf(R), F0, st)
    && (forall x :: 0 <= x < |R| ==> st.index[x] == 0 || Done(st, x) || x in st.stack)
    && (forall x :: 0 <= x < |R| && st.index[x] == 0 ==> st.rows[x] == F0[x])
  }

  /** What was visited before is left alone. */
  ghost predicate Frame(st: Snap, st': Snap)
    requires |st.index| == |st.rows| == |st'.index| == |st'.rows|
  {
    && st.stack <= st'.stack
    && forall x :: 0 <= x < |st.index| && st.index[x] != 0 ==>
         st'.index[x] == st.index[x] && st'.rows[x] == st.rows[x]
  }

  /** The edge to y has been accounted for in the row and low point of i, the
      vertex at height h. */
  ghost predicate EdgeOk(G: Graph, F0: seq<set<int>>, st: Snap, h: nat, i: int, y: int)
    requires |st.index| == |st.rows| == |F0| == |G| && h <= |st.stack|
  {
    && 0 <= i < |G| && 0 <= y < |G|
    && st.index[y] != 0
    && (Done(st, y) ==> Union(G, F0, y) <= st.rows[i])
    && (y in st.stack[..h] ==> st.index[i] <= st.index[y])
  }

  /** The vertex at height k, above i, is completely accounted for in i. */
  ghost predicate SettledAt(G: Graph, F0: seq<set<int>>, st: Snap, h: nat, i: int, k: nat)
    requires |st.index| == |st.rows| == |F0| == |G| && h <= |st.stack| && k < |st.stack|
    requires 0 <= st.stack[k] < |G| && 0 <= i < |G|
  {
    var x := st.stack[k];
    && st.index[x] <= k
    && F0[x] <= st.rows[i]
    && forall y :: y in G[x] ==> EdgeOk(G, F0, st, h, i, y)
  }

  ghost predicate Settled(R: seq<seq<int>>, F0: seq<set<int>>, st: Snap, h: nat, i: int)
    requires Shape(R, st) && |F0| == |R| && h <= |st.stack| && 0 <= i < |R|
  {
    forall k :: h < k < |st.stack| ==> SettledAt(GraphOf(R), F0, st, h, i, k)
  }

  /** Vertex i stands at height h and its first e edges are accounted for. */
  ghost predicate Working(R: seq<seq<int>>, F0: seq<set<int>>, st0: Snap, st: Snap, i: int, h: nat, e: nat) {
    && Inv(R, F0, st) && Shape(R, st0) && Frame(st0, st)
    && h == |st0.stack| < |st.stack| && st.stack[h] == i && e <= |R[i]|
    && Settled(R, F0, st, h, i)
    && forall d :: 0 <= d < e ==> EdgeOk(GraphOf(R), F0, st, h, i, R[i][d])
  }

  lemma StackFits(R: seq<seq<int>>, st: Snap)
    requires Shape(R, st)
    ensures |st.stack| <= |R|
  {
    Pigeonhole(st.stack, |R|);
  }

  lemma {:induction false} Pigeonhole(s: seq<int>, n: nat)
    requires forall k :: 0 <= k < |s| ==> 0 <= s[k] < n
    requires forall k, l :: 0 <= k < l < |s| ==> s[k] != s[l]
    ensures |s| <= n
  {
    if s != [] { assert s[0] < n; }
    if n == 0 {
    } else if n - 1 in s {
      var k :| 0 <= k < |s| && s[k] == n - 1;
      Pigeonhole(s[..k] + s[k + 1..], n - 1);
    } else {
      Pigeonhole(s, n - 1);
    }
  }

  lemma StackAtKept(G: Graph, F0: seq<set<int>>, st: Snap, st': Snap, k: nat)
    requires |st.index| == |st.rows| == |F0| == |G| == |st'.index| == |st'.rows|
    requires k < |st.stack| && 0 <= st.stack[k] < |G| && StackAt(G, F0, st, k)
    requires k < |st'.stack| && st'.stack[..k + 1] == st.stack[..k + 1]
    requires st'.index[st.stack[k]] == st.index[st.stack[k]] && st'.rows[st.stack[k]] == st.rows[st.stack[k]]
    ensures st'.stack[k] == st.stack[k]
    ensures StackAt(G, F0, st', k)
  {
    var l := st.index[st.stack[k]] - 1;
    assert st'.stack[..k + 1][l] == st.stack[..k + 1][l];
    assert st'.stack[..k + 1][k] == st.stack[..k + 1][k];
  }

  lemma PushOk(R: seq<seq<int>>, F0: seq<set<int>>, st: Snap, i: int)
    requires Inv(R, F0, st) && 0 <= i < |R| && st.index[i] == 0
    ensures Working(R, F0, st, Push(st, i), i, |st.stack|, 0)
  {
    var G, st1 := GraphOf(R), Push(st, i);
    StackFits(R, st1);
    forall k | 0 <= k < |st1.stack|
      ensures StackAt(G, F0, st1, k)
    {
      if k < |st.stack| {
        StackAtKept(G, F0, st, st1, k);
      } else {
        ReachSelf(G, i);
        UnionSelf(G, F0, i);
      }
    }
    assert DoneOk(G, F0, st1);
    assert st1.stack[..|st.stack|] == st.stack;
  }

  /** After traverse(i): i is finished and the stack is as before, or i and
      everything above it wait on the stack for a vertex below. */
  ghost predicate Visited(R: seq<seq<int>>, F0: seq<set<int>>, st0: Snap, st: Snap, i: int) {
    && Inv(R, F0, st) && Shape(R, st0) && Frame(st0, st) && 0 <= i < |R|
    && var h := |st0.stack|;
       || (Done(st, i) && st.stack == st0.stack)
       || (h < |st.stack| && st.stack[h] == i &&
           forall k :: h <= k < |st.stack| ==> SettledAt(GraphOf(R), F0, st, h, i, k))
  }

  lemma NotDone(R: seq<seq<int>>, F0: seq<set<int>>, st: Snap, i: int)
    requires Inv(R, F0, st) && i in st.stack
    ensures 0 <= i < |R| && 1 <= st.index[i] <= |st.stack| <= |R|
  {
    StackFits(R, st);
    var k :| 0 <= k < |st.stack| && st.stack[k] == i;
    assert StackAt(GraphOf(R), F0, st, k);
  }

  lemma RowWithin(R: seq<seq<int>>, F0: seq<set<int>>, st: Snap, j: int)
    requires Inv(R, F0, st) && 0 <= j < |R| && st.index[j] != 0
    ensures st.rows[j] <= Union(GraphOf(R), F0, j)
    ensures !Done(st, j) ==> 1 <= st.index[j] <= |st.stack| && Reach(GraphOf(R), j, st.stack[st.index[j] - 1])
  {
    if !Done(st, j) {
      var l :| 0 <= l < |st.stack| && st.stack[l] == j;
      assert StackAt(GraphOf(R), F0, st, l);
    }
  }

  lemma EdgeUnion(R: seq<seq<int>>, F0: seq<set<int>>, i: int, j: int)
    requires |F0| == |R| && 0 <= i < |R| && 0 <= j < |R| && j in R[i]
    ensures Union(GraphOf(R), F0, j) <= Union(GraphOf(R), F0, i)
  {
    var G := GraphOf(R);
    ReachSelf(G, j);
    ReachStep(G, i, j, j);
    UnionStep(G, F0, i, j);
  }

  lemma AbsorbStack(R: seq<seq<int>>, F0: seq<set<int>>, st: Snap, i: int, j: int, k: nat)
    requires Inv(R, F0, st) && 0 <= i < |R| && j in R[i] && 0 <= j < |R| && st.index[j] != 0
    requires k < |st.stack|
    ensures StackAt(GraphOf(R), F0, Absorb(st, i, j), k)
  {
    hide DoneOk, Union, GraphOf, Reach;
    var G := GraphOf(R);
    assert StackAt(G, F0, st, k);
    if st.stack[k] == i {
      EdgeUnion(R, F0, i, j);
      RowWithin(R, F0, st, j);
      StackFits(R, st);
      if st.index[i] > st.index[j] {
        ReachStep(G, i, j, st.stack[st.index[j] - 1]);
      }
    }
  }

  lemma AbsorbInv(R: seq<seq<int>>, F0: seq<set<int>>, st: Snap, i: int, j: int)
    requires Inv(R, F0, st) && i in st.stack && 0 <= i < |R| && j in R[i] && 0 <= j < |R| && st.index[j] != 0
    ensures Inv(R, F0, Absorb(st, i, j))
  {
    var G, st1 := GraphOf(R), Absorb(st, i, j);
    forall k | 0 <= k < |st.stack|
      ensures StackAt(G, F0, st1, k)
    {
      AbsorbStack(R, F0, st, i, j, k);
    }
    NotDone(R, F0, st, i);
    RowWithin(R, F0, st, j);
    assert DoneOk(G, F0, st1);
  }

  /** An edge accounted for stays so while the search goes on above i. */
  lemma EdgeKept(R: seq<seq<int>>, F0: seq<set<int>>, st: Snap, st1: Snap, h: nat, i: int, j: int, y: int)
    requires Inv(R, F0, st) && Inv(R, F0, st1) && Frame(st, st1)
    requires h < |st.stack| && st.stack[h] == i && 0 <= j < |R| && st1.index[j] != 0
    requires EdgeOk(GraphOf(R), F0, st, h, i, y)
    ensures EdgeOk(GraphOf(R), F0, Absorb(st1, i, j), h, i, y)
  {
    assert st1.stack[..h] == st.stack[..h];
    NotDone(R, F0, st, i);
  }

  /** What is accounted for in j is accounted for in i once i absorbs j. */
  lemma EdgeInherited(R: seq<seq<int>>, F0: seq<set<int>>, st1: Snap, h: nat, i: int, h1: nat, j: int, y: int)
    requires Inv(R, F0, st1) && h < h1 < |st1.stack| && st1.stack[h] == i && 0 <= j < |R| && st1.index[j] != 0
    requires EdgeOk(GraphOf(R), F0, st1, h1, j, y)
    ensures EdgeOk(GraphOf(R), F0, Absorb(st1, i, j), h, i, y)
  {
    if y in st1.stack[..h] {
      var k :| 0 <= k < h && st1.stack[k] == y;
      assert st1.stack[..h1][k] == y;
    }
    NotDone(R, F0, st1, i);
  }

  /** The new edge itself. */
  lemma EdgeNew(R: seq<seq<int>>, F0: seq<set<int>>, st1: Snap, h: nat, i: int, j: int)
    requires Inv(R, F0, st1) && h < |st1.stack| && st1.stack[h] == i && 0 <= j < |R| && st1.index[j] != 0
    ensures EdgeOk(GraphOf(R), F0, Absorb(st1, i, j), h, i, j)
  {
    NotDone(R, F0, st1, i);
    if i == j {
      assert i !in st1.stack[..h];
    }
  }

  lemma AbsorbSettled(R: seq<seq<int>>, F0: seq<set<int>>, st: Snap, st1: Snap, i: int, h: nat, j: int, k: nat)
    requires Inv(R, F0, st) && h < |st.stack| && st.stack[h] == i && 0 <= j < |R|
    requires Settled(R, F0, st, h, i)
    requires if st.index[j] == 0 then Visited(R, F0, st, st1, j) else st1 == st
    requires h < k < |st1.stack|
    ensures st1.index[j] != 0
    ensures SettledAt(GraphOf(R), F0, Absorb(st1, i, j), h, i, k)
  {
    var G, st2 := GraphOf(R), Absorb(st1, i, j);
    var x := st1.stack[k];
    assert st1.stack[..|st.stack|] == st.stack;
    assert x != i;
    if k < |st.stack| {
      assert x == st.stack[k];
      assert SettledAt(G, F0, st, h, i, k);
      forall y | y in G[x] ensures EdgeOk(G, F0, st2, h, i, y) {
        EdgeKept(R, F0, st, st1, h, i, j, y);
      }
    } else {
      assert SettledAt(G, F0, st1, |st.stack|, j, k);
      forall y | y in G[x] ensures EdgeOk(G, F0, st2, h, i, y) {
        EdgeInherited(R, F0, st1, h, i, |st.stack|, j, y);
      }
    }
  }

  /** A visit from the edge loop leaves i where it is, and j with a mark. */
  lemma AfterVisit(R: seq<seq<int>>, F0: seq<set<int>>, st: Snap, st1: Snap, i: int, h: nat, j: int)
    requires Inv(R, F0, st) && 0 <= j < |R| && h < |st.stack| && st.stack[h] == i
    requires if st.index[j] == 0 then Visited(R, F0, st, st1, j) else st1 == st
    ensures Inv(R, F0, st1) && Frame(st, st1) && st1.index[j] != 0
    ensures IsRelation(R) && Shape(R, st) && Shape(R, st1) && |F0| == |R|
    ensures h < |st.stack| <= |st1.stack| && st1.stack[h] == i && i in st1.stack && 0 <= i < |R|
  {
    hide StackOk, DoneOk;
    VisitedIndex(R, F0, st, st1, j);
    assert st1.stack[..|st.stack|] == st.stack;
    assert st1.stack[h] == i;
  }

  lemma AbsorbFrame(R: seq<seq<int>>, F0: seq<set<int>>, st0: Snap, st: Snap, st1: Snap, i: int, j: int)
    requires Shape(R, st0) && Shape(R, st) && Shape(R, st1) && Frame(st0, st) && Frame(st, st1)
    requires 0 <= i < |R| && 0 <= j < |R| && st0.index[i] == 0 && st1.index[j] != 0
    ensures Frame(st0, Absorb(st1, i, j)) && Shape(R, Absorb(st1, i, j))
  {
  }

  lemma AbsorbOk(R: seq<seq<int>>, F0: seq<set<int>>, st0: Snap, st: Snap, st1: Snap, i: int, h: nat, e: nat)
    requires Working(R, F0, st0, st, i, h, e) && e < |R[i]|
    requires if st.index[R[i][e]] == 0 then Visited(R, F0, st, st1, R[i][e]) else st1 == st
    requires st0.index[i] == 0
    ensures Working(R, F0, st0, Absorb(st1, i, R[i][e]), i, h, e + 1)
  {
    hide StackOk, DoneOk, EdgeOk, SettledAt, GraphOf, Frame, Visited, StackAt;
    var j := R[i][e];
    AfterVisit(R, F0, st, st1, i, h, j);
    var G, st2 := GraphOf(R), Absorb(st1, i, j);
    AbsorbInv(R, F0, st1, i, j);
    AbsorbFrame(R, F0, st0, st, st1, i, j);
    forall k | h < k < |st2.stack|
      ensures SettledAt(G, F0, st2, h, i, k)
    {
      AbsorbSettled(R, F0, st, st1, i, h, j, k);
    }
    forall d | 0 <= d < e + 1
      ensures EdgeOk(G, F0, st2, h, i, R[i][d])
    {
      if d < e {
        EdgeKept(R, F0, st, st1, h, i, j, R[i][d]);
      } else {
        EdgeNew(R, F0, st1, h, i, j);
      }
    }
  }

  lemma VisitedIndex(R: seq<seq<int>>, F0: seq<set<int>>, st: Snap, st1: Snap, j: int)
    requires Inv(R, F0, st) && 0 <= j < |R|
    requires if st.index[j] == 0 then Visited(R, F0, st, st1, j) else st1 == st
    ensures st1.index[j] != 0
  {
  }

  // ----- closing a component

  /** Vertex i, at height h, has seen all its edges and is the lowest vertex
      reachable from its part of the stack. */
  ghost predicate Root(R: seq<seq<int>>, F0: seq<set<int>>, st0: Snap, st: Snap, i: int, h: nat) {
    0 <= i < |R| && Working(R, F0, st0, st, i, h, |R[i]|) && st.index[i] == h + 1
  }

  /** x stands on the stack at height h or above. */
  ghost predicate Above(st: Snap, h: nat, x: int) {
    exists k :: h <= k < |st.stack| && st.stack[k] == x
  }

  /** The vertices from height h up, and everything finished. */
  ghost function Component(R: seq<seq<int>>, st: Snap, h: nat): set<int>
    requires |st.index| == |R|
  {
    set x | 0 <= x < |R| && (Above(st, h, x) || Done(st, x))
  }

  lemma InPrefix(s: seq<int>, h: nat, l: nat)
    requires h <= |s| && l < |s|
    ensures l < h ==> s[l] in s[..h]
  {
    if l < h { assert s[..h][l] == s[l]; }
  }

  lemma EdgeStays(R: seq<seq<int>>, F0: seq<set<int>>, st0: Snap, st: Snap, i: int, h: nat, x: int, y: int)
    requires Root(R, F0, st0, st, i, h) && Above(st, h, x) && y in R[x]
    ensures 0 <= y < |R|
    ensures if Done(st, y) then Union(GraphOf(R), F0, y) <= st.rows[i] else Above(st, h, y)
  {
    var G := GraphOf(R);
    var k :| h <= k < |st.stack| && st.stack[k] == x;
    if k > h {
      assert SettledAt(G, F0, st, h, i, k);
    } else {
      var d :| 0 <= d < |R[i]| && R[i][d] == y;
    }
    assert EdgeOk(G, F0, st, h, i, y);
    if !Done(st, y) {
      var l :| 0 <= l < |st.stack| && st.stack[l] == y;
      assert StackAt(G, F0, st, l);
      InPrefix(st.stack, h, l);
    }
  }

  lemma ComponentClosed(R: seq<seq<int>>, F0: seq<set<int>>, st0: Snap, st: Snap, i: int, h: nat)
    requires Root(R, F0, st0, st, i, h)
    ensures Closed(GraphOf(R), Component(R, st, h))
  {
    var G := GraphOf(R);
    forall x, y | x in Component(R, st, h) && y in G[x]
      ensures y in Component(R, st, h)
    {
      if Above(st, h, x) {
        EdgeStays(R, F0, st0, st, i, h, x, y);
      }
    }
  }

  /** Every vertex from height h up reaches i. */
  lemma {:induction false} ReachesRoot(R: seq<seq<int>>, F0: seq<set<int>>, st0: Snap, st: Snap, i: int, h: nat, k: nat)
    requires Root(R, F0, st0, st, i, h) && h <= k < |st.stack|
    ensures Reach(GraphOf(R), st.stack[k], i)
    decreases k
  {
    var G, x := GraphOf(R), st.stack[k];
    if k == h {
      ReachSelf(G, i);
    } else {
      assert StackAt(G, F0, st, k);
      assert SettledAt(G, F0, st, h, i, k);
      var l := st.index[x] - 1;
      var y := st.stack[l];
      ComponentClosed(R, F0, st0, st, i, h);
      ReachStays(G, Component(R, st, h), x, y);
      NotDone(R, F0, st, y);
      assert l >= h;
      ReachesRoot(R, F0, st0, st, i, h, l);
      ReachTrans(G, x, y, i);
    }
  }

  /** The vertices whose original row is already in the row of the root. */
  ghost function Gathered(R: seq<seq<int>>, F0: seq<set<int>>, st: Snap, i: int, h: nat): set<int>
    requires |st.index| == |st.rows| == |F0| == |R| && 0 <= i < |R|
  {
    set x | x in Component(R, st, h) && F0[x] <= st.rows[i] &&
      (Done(st, x) ==> Union(GraphOf(R), F0, x) <= st.rows[i])
  }

  lemma AboveGathered(R: seq<seq<int>>, F0: seq<set<int>>, st0: Snap, st: Snap, i: int, h: nat, k: nat)
    requires Root(R, F0, st0, st, i, h) && h <= k < |st.stack|
    ensures st.stack[k] in Gathered(R, F0, st, i, h)
  {
    var G := GraphOf(R);
    NotDone(R, F0, st, st.stack[k]);
    if k > h {
      assert SettledAt(G, F0, st, h, i, k);
    } else {
      assert StackAt(G, F0, st, h);
    }
  }

  lemma GatheredClosed(R: seq<seq<int>>, F0: seq<set<int>>, st0: Snap, st: Snap, i: int, h: nat)
    requires Root(R, F0, st0, st, i, h)
    ensures Closed(GraphOf(R), Gathered(R, F0, st, i, h))
  {
    var G := GraphOf(R);
    forall x, y | x in Gathered(R, F0, st, i, h) && y in G[x]
      ensures y in Gathered(R, F0, st, i, h)
    {
      if Done(st, x) {
        EdgeUnion(R, F0, x, y);
        UnionSelf(G, F0, y);
      } else {
        EdgeStays(R, F0, st0, st, i, h, x, y);
        if Done(st, y) {
          UnionSelf(G, F0, y);
        } else {
          var k :| h <= k < |st.stack| && st.stack[k] == y;
          AboveGathered(R, F0, st0, st, i, h, k);
        }
      }
    }
  }

  /** When i is a root, its row is complete, and right for all its component. */
  lemma RootRow(R: seq<seq<int>>, F0: seq<set<int>>, st0: Snap, st: Snap, i: int, h: nat, k: nat)
    requires Root(R, F0, st0, st, i, h) && h <= k < |st.stack|
    ensures st.rows[i] == Union(GraphOf(R), F0, st.stack[k])
  {
    var G, x := GraphOf(R), st.stack[k];
    assert StackAt(G, F0, st, h);
    ReachesRoot(R, F0, st0, st, i, h, k);
    UnionStep(G, F0, x, i);
    forall t | t in Union(G, F0, x)
      ensures t in st.rows[i]
    {
      var y: int :| 0 <= y < |G| && Reach(G, x, y) && t in F0[y];
      AboveGathered(R, F0, st0, st, i, h, k);
      GatheredClosed(R, F0, st0, st, i, h);
      ReachStays(G, Gathered(R, F0, st, i, h), x, y);
    }
  }

  lemma AboveStack(st: Snap, st1: Snap, h: nat, x: int)
    requires st.stack == st1.stack
    ensures Above(st, h, x) == Above(st1, h, x)
  {
  }

  /** Popping down to the top itself. */
  lemma OnlyAt(R: seq<seq<int>>, st: Snap, h: nat, x: int)
    requires Shape(R, st) && h < |st.stack| && st.stack[h] == st.stack[|st.stack| - 1]
    ensures !Above(PopOne(R, st), h, x)
  {
  }

  lemma AboveShrinks(st: Snap, st1: Snap, h: nat, x: int)
    requires h < |st.stack| && st1.stack == st.stack[..|st.stack| - 1]
    ensures Above(st, h, x) <==> x == st.stack[|st.stack| - 1] || Above(st1, h, x)
  {
    if Above(st, h, x) && x != st.stack[|st.stack| - 1] {
      var k :| h <= k < |st.stack| && st.stack[k] == x;
      assert st1.stack[k] == x;
    }
    if Above(st1, h, x) {
      var k :| h <= k < |st1.stack| && st1.stack[k] == x;
      assert st.stack[k] == x;
    }
  }

  /** What popping down to height h does to vertex x. */
  lemma {:induction false} PopEffect(R: seq<seq<int>>, st: Snap, i: int, h: nat, x: int)
    requires Shape(R, st) && h < |st.stack| && st.stack[h] == i && 0 <= x < |R|
    ensures var r := Pop(R, st, i);
      if Above(st, h, x) then r.index[x] == Infinity(|R|) && r.rows[x] == st.rows[i]
      else r.index[x] == st.index[x] && r.rows[x] == st.rows[x]
    decreases |st.stack|
  {
    hide White, Pop, PopOne, Above;
    PopUnfold(R, st, i);
    PopOneIs(R, st);
    var j := st.stack[|st.stack| - 1];
    var st1 := PopOne(R, st);
    AboveShrinks(st, st1, h, x);
    if i != j {
      assert st1.stack[h] == i;
      var st2 := st1.(rows := st.rows[j := st.rows[i]]);
      PopEffect(R, st2, i, h, x);
      AboveStack(st2, st1, h, x);
    } else {
      OnlyAt(R, st, h, x);
    }
  }

  lemma PopVertex(R: seq<seq<int>>, F0: seq<set<int>>, st0: Snap, st: Snap, i: int, h: nat, x: int)
    requires Root(R, F0, st0, st, i, h) && 0 <= x < |R|
    ensures var r := Pop(R, st, i);
      if Above(st, h, x) then Done(r, x) && r.rows[x] == Union(GraphOf(R), F0, x)
      else r.index[x] == st.index[x] && r.rows[x] == st.rows[x]
  {
    PopEffect(R, st, i, h, x);
    if Above(st, h, x) {
      var k :| h <= k < |st.stack| && st.stack[k] == x;
      RootRow(R, F0, st0, st, i, h, k);
    }
  }

  lemma PopDone(R: seq<seq<int>>, F0: seq<set<int>>, st0: Snap, st: Snap, i: int, h: nat)
    requires Root(R, F0, st0, st, i, h)
    ensures DoneOk(GraphOf(R), F0, Pop(R, st, i))
  {
    var G, r := GraphOf(R), Pop(R, st, i);
    forall x | 0 <= x < |R| && Done(r, x)
      ensures r.rows[x] == Union(G, F0, x)
      ensures forall y :: y in G[x] ==> Done(r, y)
    {
      PopVertex(R, F0, st0, st, i, h, x);
      forall y | y in G[x] ensures Done(r, y) {
        PopVertex(R, F0, st0, st, i, h, y);
        if Above(st, h, x) {
          EdgeStays(R, F0, st0, st, i, h, x, y);
        }
      }
    }
  }

  /** What becomes of vertex x when the component of i is popped. */
  lemma PopAt(R: seq<seq<int>>, F0: seq<set<int>>, st0: Snap, st: Snap, i: int, h: nat, x: int)
    requires Root(R, F0, st0, st, i, h) && Inv(R, F0, st0) && 0 <= x < |R| && Pop(R, st, i).stack == st.stack[..h]
    ensures var r := Pop(R, st, i);
      && (Above(st, h, x) ==> Done(r, x) && st0.index[x] == 0)
      && (!Above(st, h, x) ==> r.index[x] == st.index[x] && r.rows[x] == st.rows[x] && (x in st.stack ==> x in r.stack))
  {
    hide Pop, GraphOf, Union;
    PopVertex(R, F0, st0, st, i, h, x);
    if Above(st, h, x) {
      AboveIsNew(R, F0, st0, st, i, h, x);
    } else if x in st.stack {
      var k :| 0 <= k < |st.stack| && st.stack[k] == x;
      assert Pop(R, st, i).stack[k] == x;
    }
  }

  lemma PopStackAt(R: seq<seq<int>>, F0: seq<set<int>>, st0: Snap, st: Snap, i: int, h: nat, r: Snap, k: nat)
    requires Root(R, F0, st0, st, i, h) && Inv(R, F0, st0) && r == Pop(R, st, i) && r.stack == st.stack[..h] && k < h <= |st.stack|
    ensures 0 <= r.stack[k] < |R| && StackAt(GraphOf(R), F0, r, k)
  {
    assert st.stack[k] == r.stack[k];
    assert StackAt(GraphOf(R), F0, st, k);
    hide Pop, StackAt;
    assert !Above(st, h, st.stack[k]);
    assert r.stack[..k + 1] == st.stack[..k + 1];
    PopAt(R, F0, st0, st, i, h, st.stack[k]);
    StackAtKept(GraphOf(R), F0, st, r, k);
  }

  lemma PopOk(R: seq<seq<int>>, F0: seq<set<int>>, st0: Snap, st: Snap, i: int, h: nat)
    requires Root(R, F0, st0, st, i, h) && Inv(R, F0, st0)
    ensures Visited(R, F0, st0, Pop(R, st, i), i)
  {
    hide Pop, StackAt, DoneOk, GraphOf;
    var r := Pop(R, st, i);
    PopShortens(R, st, i, h);
    assert r.stack == st0.stack;
    PopDone(R, F0, st0, st, i, h);
    forall x | 0 <= x < |R|
      ensures Above(st, h, x) ==> Done(r, x) && st0.index[x] == 0
      ensures !Above(st, h, x) ==> r.index[x] == st.index[x] && r.rows[x] == st.rows[x] && (x in st.stack ==> x in r.stack)
    {
      PopAt(R, F0, st0, st, i, h, x);
    }
    forall k | 0 <= k < |r.stack|
      ensures StackAt(GraphOf(R), F0, r, k)
    {
      PopStackAt(R, F0, st0, st, i, h, r, k);
    }
    assert Above(st, h, i);
  }

  /** What stands at height h or above was white before. */
  lemma AboveIsNew(R: seq<seq<int>>, F0: seq<set<int>>, st0: Snap, st: Snap, i: int, h: nat, x: int)
    requires Root(R, F0, st0, st, i, h) && Above(st, h, x) && Inv(R, F0, st0)
    ensures st0.index[x] == 0
  {
    var k :| h <= k < |st.stack| && st.stack[k] == x;
    NotDone(R, F0, st, x);
    forall l | 0 <= l < |st0.stack|
      ensures st0.stack[l] != x
    {
      assert st.stack[l] == st0.stack[l];
    }
  }

  // ----- the traversal as a whole

  lemma FinishOk(R: seq<seq<int>>, F0: seq<set<int>>, st0: Snap, st: Snap, i: int, h: nat)
    requires 0 <= i < |R| && Inv(R, F0, st0) && st0.index[i] == 0
    requires Working(R, F0, st0, st, i, h, |R[i]|)
    ensures Visited(R, F0, st0, Finish(R, st, i, h), i)
  {
    var G := GraphOf(R);
    assert StackAt(G, F0, st, h);
    if st.index[i] == h + 1 {
      PopOk(R, F0, st0, st, i, h);
    } else {
      forall y | y in G[i] ensures EdgeOk(G, F0, st, h, i, y) {
        var d :| 0 <= d < |R[i]| && R[i][d] == y;
      }
      assert SettledAt(G, F0, st, h, i, h);
    }
  }

  lemma {:induction false} VisitOk(R: seq<seq<int>>, F0: seq<set<int>>, st: Snap, i: int)
    requires Inv(R, F0, st) && 0 <= i < |R| && st.index[i] == 0
    ensures Visited(R, F0, st, Visit(R, st, i), i)
    decreases White(st), 0
  {
    var h, st1 := |st.stack|, Push(st, i);
    PushOk(R, F0, st, i);
    assert White(st1) == White(st) - {i};
    EdgesOk(R, F0, st, st1, i, h, 0);
    FinishOk(R, F0, st, Edges(R, st1, i, 0, h), i, h);
  }

  lemma {:induction false} TurnOk(R: seq<seq<int>>, F0: seq<set<int>>, st0: Snap, st: Snap, i: int, h: nat, e: nat)
    requires 0 <= i < |R| && Inv(R, F0, st0) && st0.index[i] == 0
    requires Working(R, F0, st0, st, i, h, e) && e < |R[i]|
    ensures Working(R, F0, st0, Edge(R, st, i, R[i][e], h), i, h, e + 1)
    decreases White(st), 1
  {
    var j := R[i][e];
    var st1 := if st.index[j] == 0 then Visit(R, st, j) else st;
    if st.index[j] == 0 {
      VisitOk(R, F0, st, j);
    }
    AbsorbOk(R, F0, st0, st, st1, i, h, e);
  }

  lemma WorkingShape(R: seq<seq<int>>, F0: seq<set<int>>, st0: Snap, st: Snap, i: int, h: nat, e: nat)
    requires 0 <= i < |R| && Working(R, F0, st0, st, i, h, e)
    ensures IsRelation(R) && Shape(R, st) && h < |st.stack| && st.stack[h] == i && e <= |R[i]|
  {
  }

  lemma {:induction false} EdgesOk(R: seq<seq<int>>, F0: seq<set<int>>, st0: Snap, st: Snap, i: int, h: nat, e: nat)
    requires 0 <= i < |R| && Inv(R, F0, st0) && st0.index[i] == 0
    requires Working(R, F0, st0, st, i, h, e)
    ensures Working(R, F0, st0, Edges(R, st, i, e, h), i, h, |R[i]|)
    decreases White(st), 2, |R[i]| - e
  {
    hide Working, Inv, Edge, Visit, White;
    WorkingShape(R, F0, st0, st, i, h, e);
    EdgesUnfold(R, st, i, e, h);
    if e < |R[i]| {
      TurnOk(R, F0, st0, st, i, h, e);
      WorkingShape(R, F0, st0, Edge(R, st, i, R[i][e], h), i, h, e + 1);
      EdgesOk(R, F0, st0, Edge(R, st, i, R[i][e], h), i, h, e + 1);
    }
  }

  /** The loop of digraph from vertex i on: traverse whatever is unvisited and
      has a successor list. */
  ghost function VisitAll(R: seq<seq<int>>, st: Snap, i: nat): (r: Snap)
    requires IsRelation(R) && Shape(R, st) && i <= |R|
    ensures Shape(R, r)
    decreases |R| - i
  {
    if i == |R| then st
    else if st.index[i] == 0 && R[i] != [] then VisitAll(R, Visit(R, st, i), i + 1)
    else VisitAll(R, st, i + 1)
  }

  lemma {:induction false} VisitAllOk(R: seq<seq<int>>, F0: seq<set<int>>, st: Snap, i: nat)
    requires Inv(R, F0, st) && st.stack == [] && i <= |R|
    requires forall x :: 0 <= x < i ==> Done(st, x) || R[x] == []
    ensures var r := VisitAll(R, st, i);
      Inv(R, F0, r) && r.stack == [] && forall x :: 0 <= x < |R| ==> Done(r, x) || R[x] == []
    decreases |R| - i
  {
    if i < |R| {
      if st.index[i] == 0 && R[i] != [] {
        VisitOk(R, F0, st, i);
        var st1 := Visit(R, st, i);
        EmptyBelow(R, F0, st, st1, i);
        VisitAllOk(R, F0, st1, i + 1);
      } else {
        VisitAllOk(R, F0, st, i + 1);
      }
    }
  }

  /** A visit from an empty stack finishes: there is nothing below to wait for. */
  lemma EmptyBelow(R: seq<seq<int>>, F0: seq<set<int>>, st: Snap, st1: Snap, i: int)
    requires Visited(R, F0, st, st1, i) && st.stack == []
    ensures Done(st1, i) && st1.stack == []
    ensures forall x :: 0 <= x < |R| && Done(st, x) ==> Done(st1, x)
  {
    var G := GraphOf(R);
    assert !Done(st1, i) ==> |st1.stack| > 0 && SettledAt(G, F0, st1, 0, i, 0);
    assert |st1.stack| > 0 ==> StackAt(G, F0, st1, 0);
  }

  ghost function Start(F0: seq<set<int>>): Snap {
    Snap(seq(|F0|, x => 0), [], F0)
  }

  /** The meaning of digraph: every row ends as the union of the original rows
      of all vertices reachable from it, cycles included. */
  lemma DigraphCorrect(R: seq<seq<int>>, F0: seq<set<int>>, x: int)
    requires IsRelation(R) && |F0| == |R| && 0 <= x < |R|
    ensures VisitAll(R, Start(F0), 0).rows[x] == Union(GraphOf(R), F0, x)
  {
    var G, r := GraphOf(R), VisitAll(R, Start(F0), 0);
    VisitAllOk(R, F0, Start(F0), 0);
    if !Done(r, x) {
      forall y | 0 <= y < |R| && Reach(G, x, y)
        ensures y == x
      {
        assert Closed(G, {x});
        ReachStays(G, {x}, x, y);
      }
      UnionSelf(G, F0, x);
    }
  }

  /** Vertices of one strongly connected component end with equal rows. */
  lemma ComponentRowsEqual(R: seq<seq<int>>, F0: seq<set<int>>, x: int, y: int)
    requires IsRelation(R) && |F0| == |R| && 0 <= x < |R| && 0 <= y < |R|
    requires Reach(GraphOf(R), x, y) && Reach(GraphOf(R), y, x)
    ensures VisitAll(R, Start(F0), 0).rows[x] == VisitAll(R, Start(F0), 0).rows[y]
  {
    DigraphCorrect(R, F0, x);
    DigraphCorrect(R, F0, y);
    UnionStep(GraphOf(R), F0, x, y);
    UnionStep(GraphOf(R), F0, y, x);
  }

  // ----- the code over the arrays

  /** The globals of the traversal. INDEX and VERTICES belong to one run of
      digraph; F outlives it. */
  class Traversal {
    const R: seq<seq<int>>
    const F: array2<bv32>
    const INDEX: array<int>
    const VERTICES: array<int>
    var top: nat

    ghost predicate Valid()
      reads this, F, INDEX, VERTICES
    {
      && IsRelation(R) && F.Length0 == INDEX.Length == |R| && VERTICES.Length == |R| + 1
      && INDEX != VERTICES
      && top <= |R|
      && Shape(R, State())
    }

    ghost function State(): Snap
      requires top + 1 <= VERTICES.Length
      reads this, F, INDEX, VERTICES
    {
      Snap(INDEX[..], VERTICES[1..top + 1], Rows(F))
    }

    constructor (relation: seq<seq<int>>, rows: array2<bv32>)
      requires IsRelation(relation) && rows.Length0 == |relation|
      ensures R == relation && F == rows && fresh(INDEX) && fresh(VERTICES)
      ensures Valid() && State() == Start(old(Rows(rows)))
    {
      R, F, top := relation, rows, 0;
      INDEX := new int[|relation|](x => 0);
      VERTICES := new int[|relation| + 1];
      new;
      assert VERTICES[1..1] == [];
      assert INDEX[..] == Start(Rows(rows)).index;
    }

    /** Vertex i goes on top of the stack and is indexed by its height there. */
    method PushVertex(i: nat)
      requires Valid() && i < |R| && INDEX[i] == 0
      modifies this`top, INDEX, VERTICES
      ensures Valid() && State() == Push(old(State()), i)
    {
      ghost var st := State();
      PushShape(R, st, i);
      StackFits(R, Push(st, i));
      top := top + 1;
      VERTICES[top] := i;
      INDEX[i] := top;
      assert VERTICES[1..top + 1] == st.stack + [i];
    }

    /** The low point and the row of j flow into i. */
    method AbsorbVertex(i: nat, j: nat)
      requires Valid() && i < |R| && j < |R| && INDEX[i] != 0 && INDEX[j] != 0
      modifies INDEX, F
      ensures Valid() && State() == Absorb(old(State()), i, j)
    {
      if INDEX[i] > INDEX[j] {
        INDEX[i] := INDEX[j];
      }
      OrRow(F, i, F, j);
    }

    /** The vertex on top of the stack is taken off and marked finished. */
    method PopVertex() returns (j: nat)
      requires Valid() && top > 0
      modifies this`top, INDEX
      ensures Valid() && State() == PopOne(R, old(State()))
      ensures top == old(top) - 1 && j == old(State().stack[top - 1])
    {
      ghost var st := State();
      assert st.stack[|st.stack| - 1] == VERTICES[top];
      j := VERTICES[top];
      top := top - 1;
      INDEX[j] := Infinity(|R|);
      assert VERTICES[1..top + 1] == st.stack[..|st.stack| - 1];
    }

    /** The popping loop. */
    method PopComponent(i: nat)
      requires Valid() && i < |R| && i in State().stack
      modifies this`top, INDEX, F
      ensures Valid() && State() == Pop(R, old(State()), i)
    {
      hide Rows, White, Pop, PopOne;
      ghost var st := State();
      while true
        invariant Valid() && i in State().stack
        invariant Pop(R, State(), i) == Pop(R, st, i)
        decreases top
      {
        ghost var st1 := State();
        PopUnfold(R, st1, i);
        var j := PopVertex();
        if i == j { break; }
        CopyRow(F, j, i);
        assert State() == PopOne(R, st1).(rows := st1.rows[j := st1.rows[i]]);
      }
    }

    /** One turn of the edge loop of i, which stands at stack height h. */
    method Turn(i: nat, j: nat, ghost h: nat)
      requires Valid() && i < |R| && j < |R| && h < top && VERTICES[h + 1] == i
      modifies this`top, INDEX, VERTICES, F
      ensures Valid() && State() == Edge(R, old(State()), i, j, h)
      ensures h < top && VERTICES[h + 1] == i
      decreases White(State()), 1
    {
      ghost var st := State();
      assert st.stack[h] == i;
      if INDEX[j] == 0 {
        Traverse(j);
      }
      EdgeAfterVisit(R, st, i, j, h);
      AbsorbVertex(i, j);
      assert State().stack[h] == VERTICES[h + 1];
    }

    /** The loop over the edges of i. */
    method EdgeLoop(i: nat, ghost h: nat)
      requires Valid() && i < |R| && h < top && VERTICES[h + 1] == i
      modifies this`top, INDEX, VERTICES, F
      ensures Valid() && h < top && VERTICES[h + 1] == State().stack[h] == i
      ensures State() == Edges(R, old(State()), i, 0, h)
      decreases White(State()), 2
    {
      hide Visit, Edge, Edges, Push, Pop, Absorb, Rows, White;
      ghost var st := State();
      assert st.stack[h] == i;
      var e := 0;
      while e < |R[i]|
        invariant Valid() && e <= |R[i]| && h < top
        invariant VERTICES[h + 1] == State().stack[h] == i
        invariant White(State()) <= White(st)
        invariant Edges(R, State(), i, e, h) == Edges(R, st, i, 0, h)
      {
        EdgesUnfold(R, State(), i, e, h);
        Turn(i, R[i][e], h);
        e := e + 1;
      }
      EdgesUnfold(R, State(), i, e, h);
    }

    method Traverse(i: nat)
      requires Valid() && i < |R| && INDEX[i] == 0
      modifies this`top, INDEX, VERTICES, F
      ensures Valid() && State() == Visit(R, old(State()), i)
      decreases White(State()), 0
    {
      ghost var st := State();
      PushVertex(i);
      var height := top;
      assert State().stack[height - 1] == i;
      assert White(State()) == White(st) - {i};
      EdgeLoop(i, height - 1);
      if INDEX[i] == height {
        PopComponent(i);
      }
    }
  }

  lemma EdgeAfterVisit(R: seq<seq<int>>, st: Snap, i: int, j: int, h: nat)
    requires IsRelation(R) && Shape(R, st) && h < |st.stack| && st.stack[h] == i && 0 <= j < |R|
    ensures var st1 := if st.index[j] == 0 then Visit(R, st, j) else st;
      st1.index[i] != 0 && st1.index[j] != 0 && Edge(R, st, i, j, h) == Absorb(st1, i, j)
  {
    var st1 := if st.index[j] == 0 then Visit(R, st, j) else st;
    assert st1.stack[..|st.stack|][h] == i;
    assert j !in White(st1);
  }

  lemma PushShape(R: seq<seq<int>>, st: Snap, i: int)
    requires Shape(R, st) && 0 <= i < |R| && st.index[i] == 0
    ensures Shape(R, Push(st, i))
  {
  }

  /** digraph(relation) on the rows of F. */
  method Digraph(relation: seq<seq<int>>, F: array2<bv32>)
    requires IsRelation(relation) && F.Length0 == |relation|
    modifies F
    ensures forall x :: 0 <= x < |relation| ==>
      Rows(F)[x] == Union(GraphOf(relation), old(Rows(F)), x)
  {
    hide Visit, Union, Rows, GraphOf;
    ghost var F0 := Rows(F);
    var t := new Traversal(relation, F);
    var i := 0;
    while i < |relation|
      invariant t.Valid() && i <= |relation|
      invariant t.R == relation && t.F == F && fresh(t.INDEX) && fresh(t.VERTICES)
      invariant VisitAll(relation, t.State(), i) == VisitAll(relation, Start(F0), 0)
    {
      if t.INDEX[i] == 0 && relation[i] != [] {
        t.Traverse(i);
      }
      i := i + 1;
    }
    forall x | 0 <= x < |relation|
      ensures Rows(F)[x] == Union(GraphOf(relation), F0, x)
    {
      DigraphCorrect(relation, F0, x);
    }
  }
}
