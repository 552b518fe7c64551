/** lalr.c, initialize_LA, add_lookback_edge and compute_lookaheads: one row of
    tokens for every reduction of every state. */
module LookaheadTable {
  import opened Bits
  import opened Grammar
  import opened ClosurePass
  import opened Automaton
  import opened Machine

  /** lookaheads and LAruleno: the rows of state s have the numbers
      starts[s] .. starts[s+1]-1, in the order of its reductions. */
  datatype Slots = Slots(starts: seq<int>, ruleno: seq<int>)

  /** The reductions of the first n states, one after another. */
  ghost function Flat(reds: seq<seq<int>>, n: nat): seq<int>
    requires n <= |reds|
  {
    if n == 0 then [] else Flat(reds, n - 1) + reds[n - 1]
  }

  lemma {:induction false} FlatMono(reds: seq<seq<int>>, m: nat, n: nat)
    requires m <= n <= |reds|
    ensures Flat(reds, m) <= Flat(reds, n)
  {
    if m < n { FlatMono(reds, m, n - 1); }
  }

  lemma FlatAt(reds: seq<seq<int>>, s: nat, j: nat)
    requires s < |reds| && j < |reds[s]|
    ensures |Flat(reds, s)| + |reds[s]| == |Flat(reds, s + 1)| <= |Flat(reds, |reds|)|
    ensures Flat(reds, |reds|)[|Flat(reds, s)| + j] == reds[s][j]
  {
    FlatMono(reds, s + 1, |reds|);
    assert Flat(reds, s + 1)[|Flat(reds, s)| + j] == reds[s][j];
  }

  ghost predicate SlotsOk(reds: seq<seq<int>>, L: Slots) {
    && |L.starts| == |reds| + 1 && L.ruleno == Flat(reds, |reds|)
    && (forall s :: 0 <= s <= |reds| ==> L.starts[s] == |Flat(reds, s)|)
  }

  /** Slot x belongs to the reduction of state q by rule r. */
  ghost predicate IsSlot(L: Slots, q: int, r: int, x: int) {
    && 0 <= q && q + 1 < |L.starts| && 0 <= L.starts[q] <= x < L.starts[q + 1] && 0 <= x < |L.ruleno| && L.ruleno[x] == r
  }

  lemma SlotRule(reds: seq<seq<int>>, L: Slots, q: int, x: int)
    requires SlotsOk(reds, L) && 0 <= q < |reds| && L.starts[q] <= x < L.starts[q + 1]
    ensures 0 <= x < |L.ruleno| && 0 <= x - L.starts[q] < |reds[q]| && L.ruleno[x] == reds[q][x - L.starts[q]]
  {
    FlatAt(reds, q, x - L.starts[q]);
  }

  lemma SlotExists(reds: seq<seq<int>>, L: Slots, q: int, r: int) returns (x: int)
    requires SlotsOk(reds, L) && 0 <= q < |reds| && r in reds[q]
    ensures IsSlot(L, q, r, x)
  {
    var j :| 0 <= j < |reds[q]| && reds[q][j] == r;
    FlatAt(reds, q, j);
    x := L.starts[q] + j;
  }

  lemma StartsMono(reds: seq<seq<int>>, L: Slots, p: int, q: int)
    requires SlotsOk(reds, L) && 0 <= p <= q < |L.starts|
    ensures L.starts[p] <= L.starts[q]
  {
    FlatMono(reds, p, q);
  }

  /** One slot belongs to one reduction. */
  lemma SlotUnique(reds: seq<seq<int>>, L: Slots, p: int, q: int, r: int, s: int, x: int)
    requires SlotsOk(reds, L) && IsSlot(L, p, r, x) && IsSlot(L, q, s, x)
    ensures p == q && r == s
  {
    hide SlotsOk;
    if p < q { StartsMono(reds, L, p + 1, q); }
    if q < p { StartsMono(reds, L, q + 1, p); }
  }

  /** One reduction has one slot. */
  lemma SlotOnce(reds: seq<seq<int>>, L: Slots, q: int, r: int, x: int, y: int)
    requires SlotsOk(reds, L) && IsSlot(L, q, r, x) && IsSlot(L, q, r, y) && 0 <= q < |reds| && Increasing(reds[q])
    ensures x == y
  {
    SlotRule(reds, L, q, x);
    SlotRule(reds, L, q, y);
  }

  /** The slots of the automaton: every reduction listed has a completed item. */
  lemma SlotItem(g: Grammar, A: Automaton, q: int, r: int)
    requires WellFormed(g) && Canonical(g, A) && IsState(A, q)
    ensures Increasing(A.reds[q])
    ensures r in A.reds[q] <==> 2 <= r < |g.rlhs| && g.rrhs[r + 1] - 1 in Items(g, A, q)
  {
    var items := ItemsAt(g, A.states, q);
    ReductionElems(g, items);
    ReductionsIncrease(g, items);
    ItemsAre(g, A, q);
    assert A.reds[q] == Reductions(g, items);
    if r in A.reds[q] {
      var k :| 0 <= k < |items| && g.ritem[items[k]] == -r;
      ItemComplete(g, items[k]);
    }
    if 2 <= r < |g.rlhs| && g.rrhs[r + 1] - 1 in Items(g, A, q) {
      RuleBounds(g, r);
      var k :| 0 <= k < |items| && items[k] == g.rrhs[r + 1] - 1;
      assert Has(g, items, -r);
    }
  }

  lemma FlatNone(reds: seq<seq<int>>)
    ensures Flat(reds, 0) == []
  {
  }

  lemma FlatRow(reds: seq<seq<int>>, i: nat)
    requires i < |reds|
    ensures Flat(reds, i + 1) == Flat(reds, i) + reds[i]
  {
  }

  /** initialize_LA */
  method InitializeLA(reds: seq<seq<int>>) returns (L: Slots)
    ensures SlotsOk(reds, L)
  {
    hide Flat;
    var starts, ruleno: seq<int> := [], [];
    FlatNone(reds);
    for i := 0 to |reds|
      invariant |starts| == i && ruleno == Flat(reds, i)
      invariant forall s :: 0 <= s < i ==> starts[s] == |Flat(reds, s)|
    {
      starts := starts + [|ruleno|];
      for j := 0 to |reds[i]|
        invariant ruleno == Flat(reds, i) + reds[i][..j]
      {
        ruleno := ruleno + [reds[i][j]];
      }
      FlatRow(reds, i);
      assert reds[i][..|reds[i]|] == reds[i];
    }
    L := Slots(starts + [|ruleno|], ruleno);
  }

  /** The search of add_lookback_edge always finds the slot. */
  method FindSlot(L: Slots, q: int, r: int) returns (x: int)
    requires exists y :: IsSlot(L, q, r, y)
    ensures IsSlot(L, q, r, x)
  {
    ghost var target :| IsSlot(L, q, r, target);
    x := L.starts[q];
    var k := L.starts[q + 1];
    while x < k && L.ruleno[x] != r
      invariant L.starts[q] <= x <= target
    {
      x := x + 1;
    }
  }

  /** add_lookback_edge: the goto is put in front of the slot's list. */
  method AddLookbackEdge(reds: seq<seq<int>>, L: Slots, lookback: array<seq<int>>, q: int, r: int, gotono: int) returns (x: int)
    requires SlotsOk(reds, L) && 0 <= q < |reds| && r in reds[q] && lookback.Length == |L.ruleno|
    modifies lookback
    ensures IsSlot(L, q, r, x) && lookback[..] == old(lookback[..])[x := [gotono] + old(lookback[..])[x]]
  {
    ghost var y := SlotExists(reds, L, q, r);
    x := FindSlot(L, q, r);
    lookback[x] := [gotono] + lookback[x];
  }

  /** The tokens of the first n rows listed. */
  ghost function Gathered(rows: seq<set<int>>, list: seq<int>, n: nat): set<int>
    requires n <= |list| && forall j :: 0 <= j < |list| ==> 0 <= list[j] < |rows|
  {
    if n == 0 then {} else Gathered(rows, list, n - 1) + rows[list[n - 1]]
  }

  lemma {:induction false} GatheredAre(rows: seq<set<int>>, list: seq<int>, n: nat, t: int)
    requires n <= |list| && forall j :: 0 <= j < |list| ==> 0 <= list[j] < |rows|
    ensures t in Gathered(rows, list, n) <==> exists j :: 0 <= j < n && t in rows[list[j]]
  {
    if n > 0 { GatheredAre(rows, list, n - 1, t); }
  }

  ghost predicate ListsOk(lookback: seq<seq<int>>, n: int) {
    forall x, j :: 0 <= x < |lookback| && 0 <= j < |lookback[x]| ==> 0 <= lookback[x][j] < n
  }

  method GatherRow(list: seq<int>, F: array2<bv32>, LA: array2<bv32>, x: nat)
    requires LA != F && LA.Length1 == F.Length1 && x < LA.Length0 && Rows(LA)[x] == {}
    requires forall j :: 0 <= j < |list| ==> 0 <= list[j] < F.Length0
    modifies LA
    ensures Rows(LA) == old(Rows(LA))[x := Gathered(Rows(F), list, |list|)]
  {
    ghost var rows, from := Rows(LA), Rows(F);
    UpdateTwice(rows, x, {}, {});
    for j := 0 to |list|
      invariant Rows(F) == from && Rows(LA) == rows[x := Gathered(from, list, j)]
    {
      OrRow(LA, x, F, list[j]);
      UpdateTwice(rows, x, Gathered(from, list, j), Gathered(from, list, j + 1));
    }
  }

  /** compute_lookaheads: every slot takes in the rows of its lookback gotos. */
  method ComputeLookaheads(lookback: seq<seq<int>>, F: array2<bv32>) returns (LA: array2<bv32>)
    requires ListsOk(lookback, F.Length0)
    ensures fresh(LA) && LA.Length0 == |lookback| && LA.Length1 == F.Length1
    ensures forall x, t :: 0 <= x < |lookback| ==>
      (t in Rows(LA)[x] <==> exists j :: 0 <= j < |lookback[x]| && t in Rows(F)[lookback[x][j]])
  {
    LA := NewRows(|lookback|, F.Length1);
    ghost var from := Rows(F);
    for x := 0 to |lookback|
      invariant Rows(F) == from
      invariant forall y :: 0 <= y < x ==> Rows(LA)[y] == Gathered(from, lookback[y], |lookback[y]|)
      invariant forall y :: x <= y < |lookback| ==> Rows(LA)[y] == {}
    {
      GatherRow(lookback[x], F, LA, x);
    }
    forall x, t | 0 <= x < |lookback|
      ensures t in Rows(LA)[x] <==> exists j :: 0 <= j < |lookback[x]| && t in from[lookback[x][j]]
    {
      GatheredAre(from, lookback[x], |lookback[x]|, t);
    }
  }
}
