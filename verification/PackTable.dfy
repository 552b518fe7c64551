/** output.c, sort_actions, matching_vector, pack_vector and pack_table. */
module PackTable {
  import opened Packing

  // ----- sort_actions

  /** Wider vectors come first, among equally wide ones the fuller. */
  ghost predicate Precedes(tally: seq<int>, width: seq<int>, a: int, b: int) {
    && 0 <= a < |tally| && 0 <= b < |tally| && |tally| == |width|
    && (width[a] > width[b] || (width[a] == width[b] && tally[a] >= tally[b]))
  }

  ghost predicate WidestFirst(tally: seq<int>, width: seq<int>, o: seq<int>) {
    forall p, q :: 0 <= p < q < |o| ==> o[p] != o[q] && Precedes(tally, width, o[p], o[q])
  }

  /** o lists the vectors below n that have entries. */
  ghost predicate Lists(tally: seq<int>, o: seq<int>, n: int) {
    && n <= |tally| && (forall p :: 0 <= p < |o| ==> 0 <= o[p] < n && tally[o[p]] > 0)
    && (forall i :: 0 <= i < n && tally[i] > 0 ==> i in o)
  }

  ghost function Inserted(o: seq<int>, p: nat, i: int): (r: seq<int>)
    requires p <= |o|
    ensures |r| == |o| + 1
    ensures forall q :: 0 <= q < |r| ==> r[q] == if q < p then o[q] else if q == p then i else o[q - 1]
  {
    o[..p] + [i] + o[p..]
  }

  lemma InsertLists(tally: seq<int>, o: seq<int>, i: int, p: nat)
    requires Lists(tally, o, i) && p <= |o| && 0 <= i < |tally| && tally[i] > 0
    ensures Lists(tally, Inserted(o, p, i), i + 1)
  {
    var r := Inserted(o, p, i);
    forall k | 0 <= k < i + 1 && tally[k] > 0 ensures k in r {
      if k < i {
        var q :| 0 <= q < |o| && o[q] == k;
        assert r[if q < p then q else q + 1] == k;
      } else {
        assert r[p] == i;
      }
    }
  }

  lemma BeforePlace(tally: seq<int>, width: seq<int>, o: seq<int>, i: int, p: nat, q: nat)
    requires WidestFirst(tally, width, o) && q < p <= |o|
    requires Precedes(tally, width, o[p - 1], i)
    ensures Precedes(tally, width, o[q], i)
  {
    assert q < p - 1 ==> Precedes(tally, width, o[q], o[p - 1]);
  }

  lemma InsertSorted(tally: seq<int>, width: seq<int>, o: seq<int>, i: int, p: nat)
    requires WidestFirst(tally, width, o) && Lists(tally, o, i) && p <= |o|
    requires p > 0 ==> Precedes(tally, width, o[p - 1], i)
    requires forall q :: p <= q < |o| ==> Precedes(tally, width, i, o[q])
    ensures WidestFirst(tally, width, Inserted(o, p, i))
  {
    var r := Inserted(o, p, i);
    forall a, b | 0 <= a < b < |r| ensures r[a] != r[b] && Precedes(tally, width, r[a], r[b]) {
      if b == p {
        BeforePlace(tally, width, o, i, p, a);
      } else if a != p {
        var x, y := if a < p then a else a - 1, if b < p then b else b - 1;
        assert o[x] != o[y] && Precedes(tally, width, o[x], o[y]);
      }
    }
  }

  /** The first search loop: past the narrower vectors. */
  method SkipNarrower(width: seq<int>, o: seq<int>, w: int) returns (j: int)
    requires forall q :: 0 <= q < |o| ==> 0 <= o[q] < |width|
    ensures -1 <= j < |o| && (j >= 0 ==> width[o[j]] >= w)
    ensures forall q :: j < q < |o| ==> width[o[q]] < w
  {
    j := |o| - 1;
    while j >= 0 && width[o[j]] < w
      invariant -1 <= j < |o|
      invariant forall q :: j < q < |o| ==> width[o[q]] < w
    {
      j := j - 1;
    }
  }

  /** The two search loops: the place of vector i among those listed. */
  method FindPlace(tally: seq<int>, width: seq<int>, o: seq<int>, i: int) returns (p: nat)
    requires 0 <= i < |tally| == |width| && WidestFirst(tally, width, o) && Lists(tally, o, i)
    ensures p <= |o|
    ensures p > 0 ==> Precedes(tally, width, o[p - 1], i)
    ensures forall q :: p <= q < |o| ==> Precedes(tally, width, i, o[q])
  {
    var t, w := tally[i], width[i];
    var j := SkipNarrower(width, o, w);
    while j >= 0 && width[o[j]] == w && tally[o[j]] < t
      invariant -1 <= j < |o| && (j >= 0 ==> width[o[j]] >= w)
      invariant forall q :: j < q < |o| ==> Precedes(tally, width, i, o[q])
    {
      assert j > 0 ==> Precedes(tally, width, o[j - 1], o[j]);
      j := j - 1;
    }
    p := j + 1;
  }

  method InsertVector(order: array<int>, nentries: nat, p: nat, i: int)
    requires p <= nentries < order.Length
    modifies order
    ensures order[..nentries + 1] == Inserted(old(order[..nentries]), p, i)
  {
    var k := nentries;
    while k > p
      invariant p <= k <= nentries
      invariant order[..k] == old(order[..k])
      invariant order[k + 1..nentries + 1] == old(order[k..nentries])
    {
      order[k] := order[k - 1];
      k := k - 1;
    }
    order[p] := i;
  }

  /** sort_actions: the nonempty vectors, widest and then fullest first. */
  method SortActions(tally: seq<int>, width: seq<int>) returns (o: seq<int>)
    requires |tally| == |width|
    ensures WidestFirst(tally, width, o) && Lists(tally, o, |tally|)
  {
    var order := new int[|tally|];
    var nentries := 0;
    for i := 0 to |tally|
      invariant 0 <= nentries <= i
      invariant WidestFirst(tally, width, order[..nentries]) && Lists(tally, order[..nentries], i)
    {
      if tally[i] > 0 {
        var p := FindPlace(tally, width, order[..nentries], i);
        InsertSorted(tally, width, order[..nentries], i, p);
        InsertLists(tally, order[..nentries], i, p);
        InsertVector(order, nentries, p, i);
        nentries := nentries + 1;
      }
    }
    o := order[..nentries];
  }

  // ----- placing one vector

  const MAXTABLE := 200000

  /** The tables have grown, if at all, by free slots. */
  ghost predicate Grown(table0: seq<int>, check0: seq<int>, table: seq<int>, check: seq<int>) {
    && |table0| == |check0| && |table| == |check| && table0 <= table && check0 <= check
    && forall l :: |check0| <= l < |check| ==> check[l] == -1
  }

  lemma GrownFree(table0: seq<int>, check0: seq<int>, table: seq<int>, check: seq<int>)
    requires Grown(table0, check0, table, check)
    ensures forall l :: SlotFree(check, l) <==> SlotFree(check0, l)
    ensures forall from, j :: Free(check, from, j) <==> Free(check0, from, j)
    ensures forall lowzero :: LowzeroOk(check0, lowzero) ==> LowzeroOk(check, lowzero)
  {
    forall l ensures SlotFree(check, l) <==> SlotFree(check0, l) {
    }
  }

  lemma GrownPacked(vs: seq<Vec>, pos: seq<int>, table0: seq<int>, check0: seq<int>, high: int, table: seq<int>, check: seq<int>)
    requires Grown(table0, check0, table, check) && Packed(vs, pos, table0, check0, high)
    ensures Packed(vs, pos, table, check, high)
  {
    GrowTables(vs, pos, table0, check0, high, table[|table0|..], check[|check0|..]);
    assert table == table0 + table[|table0|..] && check == check0 + check[|check0|..];
  }

  /** All keys of v, moved by j, are below the limit on the table. */
  ghost predicate Within(from: seq<int>, j: int) {
    forall k :: 0 <= k < |from| ==> j + from[k] < MAXTABLE
  }

  ghost predicate Least(check: seq<int>, pos: seq<int>, from: seq<int>, j: int) {
    Feasible(check, pos, from, j) && Within(from, j) && forall i :: i < j ==> !Feasible(check, pos, from, i)
  }

  /** No offset that keeps v below the limit is open to it. */
  ghost predicate NoRoom(check: seq<int>, pos: seq<int>, from: seq<int>) {
    forall j :: Within(from, j) ==> !Feasible(check, pos, from, j)
  }

  lemma GrownNoRoom(table0: seq<int>, check0: seq<int>, table: seq<int>, check: seq<int>, pos: seq<int>, from: seq<int>)
    requires Grown(table0, check0, table, check) && NoRoom(check0, pos, from)
    ensures NoRoom(check, pos, from)
  {
    GrownFree(table0, check0, table, check);
    forall j | Within(from, j) ensures !Feasible(check, pos, from, j) {
      assert !Feasible(check0, pos, from, j);
    }
  }

  /** When there is no room the slots are used up to nearly the limit: all but the
      width of the vector and as many as there are offsets in use. */
  lemma FullNearLimit(check: seq<int>, high: int, pos: seq<int>, from: seq<int>, lo: int, hi: int)
    requires NoRoom(check, pos, from) && 0 <= high && forall l :: high < l < |check| ==> check[l] == -1
    requires 0 <= lo <= hi && forall k :: 0 <= k < |from| ==> lo <= from[k] <= hi
    ensures high + hi - lo + |pos| + 2 >= MAXTABLE
  {
    if high + hi - lo + |pos| + 2 < MAXTABLE {
      var offsets := Interval(high + 1 - lo, high + 1 - lo + |pos| + 2);
      forall j | j in offsets ensures j in pos + [0] {
        assert Within(from, j);
        forall k | 0 <= k < |from| ensures SlotFree(check, j + from[k]) {
        }
        assert !Feasible(check, pos, from, j) && Free(check, from, j);
      }
      ElementsBound(pos + [0], offsets);
      assert false;
    }
  }

  method LowestOffset(from: seq<int>, lowzero: int) returns (j: int)
    requires |from| > 0
    ensures forall k :: 0 <= k < |from| ==> lowzero <= j + from[k]
    ensures exists k :: 0 <= k < |from| && j == lowzero - from[k]
  {
    j := lowzero - from[0];
    for k := 1 to |from|
      invariant forall i :: 0 <= i < k ==> lowzero <= j + from[i]
      invariant exists i :: 0 <= i < k && j == lowzero - from[i]
    {
      if lowzero - from[k] > j {
        j := lowzero - from[k];
      }
    }
  }

  class Tables {
    var table: seq<int>
    var check: seq<int>
    var lowzero: int
    var high: int

    ghost predicate Valid()
      reads this
    {
      |table| == |check| && 0 <= high < |check| && LowzeroOk(check, lowzero) && SizeOk()
    }

    /** The size grows from 1000 in steps of 200, so it never passes the limit. */
    ghost predicate SizeOk()
      reads this
    {
      |check| % 200 == 0 && 1000 <= |check| <= MAXTABLE
    }

    constructor ()
      ensures Valid() && Packed([], [], table, check, high)
      ensures lowzero == high == 0 && forall l :: 0 <= l < |check| ==> check[l] == -1
    {
      table := seq(1000, _ => 0);
      check := seq(1000, _ => -1);
      lowzero := 0;
      high := 0;
    }

    /** REALLOC of both tables, in steps of 200, until slot loc exists. */
    method Enlarge(loc: int)
      requires Valid() && |check| <= loc < MAXTABLE
      modifies this`table, this`check
      ensures Valid() && loc < |check| && Grown(old(table), old(check), table, check)
    {
      var newmax := |check| + 200;
      while newmax <= loc
        invariant |check| < newmax <= MAXTABLE && newmax % 200 == 0
      {
        newmax := newmax + 200;
      }
      table := table + seq(newmax - |check|, _ => 0);
      check := check + seq(newmax - |check|, _ => -1);
    }

    /** The loop over the keys for one offset: are all slots free? */
    method TryOffset(from: seq<int>, j: int) returns (ok: bool, fatal: bool)
      requires Valid() && |from| > 0 && forall k :: 0 <= k < |from| ==> 0 <= j + from[k]
      modifies this`table, this`check
      ensures Valid() && Grown(old(table), old(check), table, check)
      ensures fatal ==> !Within(from, j)
      ensures !fatal ==> (ok <==> Free(check, from, j)) && j + from[0] < MAXTABLE
      ensures !fatal && ok ==> Within(from, j) && forall k :: 0 <= k < |from| ==> j + from[k] < |check|
    {
      ok, fatal := true, false;
      var k := 0;
      while ok && k < |from|
        invariant Valid() && Grown(old(table), old(check), table, check) && 0 <= k <= |from|
        invariant k > 0 || ok
        invariant k > 0 ==> j + from[0] < MAXTABLE
        invariant ok ==> forall i :: 0 <= i < k ==> SlotFree(check, j + from[i]) && j + from[i] < |check| && j + from[i] < MAXTABLE
        invariant !ok ==> !Free(check, from, j)
        decreases |from| - k
      {
        var loc := j + from[k];
        if loc >= |check| {
          if loc >= MAXTABLE {
            fatal := true;
            return;
          }
          Enlarge(loc);
        }
        if check[loc] != -1 {
          assert !SlotFree(check, j + from[k]);
          ok := false;
        }
        k := k + 1;
      }
    }

    /** Storing a vector at an offset found open. */
    method Store(v: Vec, j: int)
      requires Valid() && VecOk(v) && forall k :: 0 <= k < |v.from| ==> 0 <= j + v.from[k] < |check|
      modifies this`table, this`check, this`high
      ensures table == Written(old(table), v.from, v.to, j, |v.from|)
      ensures check == Written(old(check), v.from, v.from, j, |v.from|)
      ensures SizeOk() && |table| == |check| && old(high) <= high < |check| && forall k :: 0 <= k < |v.from| ==> j + v.from[k] <= high
    {
      for k := 0 to |v.from|
        invariant table == Written(old(table), v.from, v.to, j, k)
        invariant check == Written(old(check), v.from, v.from, j, k)
        invariant old(high) <= high < |check| && forall i :: 0 <= i < k ==> j + v.from[i] <= high
      {
        var loc := j + v.from[k];
        table := table[loc := v.to[k]];
        check := check[loc := v.from[k]];
        if loc > high {
          high := loc;
        }
      }
    }

    method RaiseLowzero()
      requires |table| == |check| && 0 <= high < |check| && LowzeroOk(check, lowzero) && SizeOk()
      modifies this`lowzero
      ensures Valid()
    {
      while lowzero < |check| && check[lowzero] != -1
        invariant LowzeroOk(check, lowzero)
        decreases |check| - lowzero
      {
        lowzero := lowzero + 1;
      }
    }
 
    /** Is offset j open to a vector? The answer is about the tables before they
        were enlarged to find it. */
    method IsOpen(from: seq<int>, pos: array<int>, n: nat, j: int, ghost table0: seq<int>, ghost check0: seq<int>) returns (ok: bool, fatal: bool)
      requires Valid() && |from| > 0 && forall k :: 0 <= k < |from| ==> 0 <= j + from[k]
      requires n <= pos.Length && j != 0 && Grown(table0, check0, table, check)
      modifies this`table, this`check
      ensures Valid() && Grown(table0, check0, table, check)
      ensures fatal ==> !Within(from, j)
      ensures !fatal ==> (ok <==> Feasible(check0, pos[..n], from, j)) && j + from[0] < MAXTABLE
      ensures !fatal && ok ==> Within(from, j) && forall k :: 0 <= k < |from| ==> j + from[k] < |check|
    {
      ok, fatal := TryOffset(from, j);
      GrownFree(table0, check0, table, check);
      if !fatal && ok {
        ok := Unused(pos, n, j);
      }
    }

    /** pack_vector: the least offset that is open to v. It fails only if no
        offset below the limit is. */
    method PackVector(v: Vec, pos: array<int>, n: nat, ghost vs: seq<Vec>) returns (place: int, fatal: bool)
      requires Valid() && n <= pos.Length && VecOk(v) && |v.from| > 0
      requires Packed(vs, pos[..n], table, check, high)
      modifies this
      ensures fatal ==> NoRoom(check, pos[..n], v.from) && Packed(vs, pos[..n], table, check, high)
      ensures !fatal ==> Valid() && Least(old(check), pos[..n], v.from, place)
      ensures !fatal ==> Packed(vs + [v], pos[..n] + [place], table, check, high)
    {
      hide Packed, NoRoom;
      var j := LowestOffset(v.from, lowzero);
      ghost var used := pos[..n];
      AllBelow(check, used, v.from, lowzero, j);
      var ok := false;
      while !ok
        invariant Valid() && Grown(old(table), old(check), table, check)
        invariant high == old(high) && lowzero == old(lowzero)
        invariant forall k :: 0 <= k < |v.from| ==> lowzero <= j + v.from[k]
        invariant forall i :: i < j ==> !Feasible(old(check), used, v.from, i)
        invariant ok ==> Feasible(old(check), used, v.from, j) && Within(v.from, j) && forall k :: 0 <= k < |v.from| ==> j + v.from[k] < |check|
        decreases !ok, if j <= 0 then 1 - j else 0, MAXTABLE - (j + v.from[0])
      {
        if j == 0 {
          j := j + 1;
          continue;
        }
        ok, fatal := IsOpen(v.from, pos, n, j, old(table), old(check));
        if fatal {
          NoRoomFrom(old(check), used, v.from, j);
          GrownNoRoom(old(table), old(check), table, check, used, v.from);
          GrownPacked(vs, used, old(table), old(check), high, table, check);
          return 0, true;
        }
        if !ok {
          j := j + 1;
        }
      }
      GrownPacked(vs, used, old(table), old(check), high, table, check);
      GrownFree(old(table), old(check), table, check);
      place, fatal := j, false;
      Place(v, used, vs, j);
    }

    method Place(v: Vec, ghost pos: seq<int>, ghost vs: seq<Vec>, j: int)
      requires Valid() && VecOk(v) && |v.from| > 0 && Packed(vs, pos, table, check, high) && Feasible(check, pos, v.from, j)
      requires forall k :: 0 <= k < |v.from| ==> j + v.from[k] < |check|
      modifies this
      ensures Valid() && Packed(vs + [v], pos + [j], table, check, high)
    {
      ghost var table0, check0, high0 := table, check, high;
      forall k | 0 <= k < |v.from| ensures 0 <= j + v.from[k] < |check| {
        assert SlotFree(check, j + v.from[k]);
      }
      Store(v, j);
      WriteVector(vs, pos, table0, check0, high0, v, j, high);
      StillTaken(check0, v, j, lowzero);
      RaiseLowzero();
    }
  }

  lemma StillTaken(check: seq<int>, v: Vec, j: int, lowzero: int)
    requires VecOk(v) && LowzeroOk(check, lowzero) && forall k :: 0 <= k < |v.from| ==> 0 <= j + v.from[k] < |check|
    ensures LowzeroOk(Written(check, v.from, v.from, j, |v.from|), lowzero)
  {
    forall l | 0 <= l < lowzero ensures Written(check, v.from, v.from, j, |v.from|)[l] != -1 {
      WrittenAt(check, v.from, v.from, j, |v.from|, l);
      EntryKey(v.from, v.to, |v.from|, l - j);
    }
  }

  lemma AllBelow(check: seq<int>, pos: seq<int>, from: seq<int>, lowzero: int, j: int)
    requires LowzeroOk(check, lowzero) && exists k :: 0 <= k < |from| && j == lowzero - from[k]
    ensures forall i :: i < j ==> !Feasible(check, pos, from, i)
  {
    var k :| 0 <= k < |from| && j == lowzero - from[k];
    forall i | i < j ensures !Feasible(check, pos, from, i) {
      BelowLowzero(check, pos, from, lowzero, k, i);
    }
  }

  lemma NoRoomFrom(check: seq<int>, pos: seq<int>, from: seq<int>, j: int)
    requires !Within(from, j) && forall i :: i < j ==> !Feasible(check, pos, from, i)
    ensures NoRoom(check, pos, from)
  {
    var k :| 0 <= k < |from| && j + from[k] >= MAXTABLE;
    forall i | Within(from, i) ensures !Feasible(check, pos, from, i) {
      assert i + from[k] < MAXTABLE;
    }
  }

  /** The loop over the offsets in use. */
  method Unused(pos: array<int>, n: nat, j: int) returns (ok: bool)
    requires n <= pos.Length
    ensures ok <==> j !in pos[..n]
  {
    ok := true;
    var k := 0;
    while ok && k < n
      invariant 0 <= k <= n && (ok <==> j !in pos[..k])
      decreases n - k
    {
      if pos[k] == j {
        ok := false;
      }
      k := k + 1;
    }
    if !ok { assert j in pos[..k] && pos[..k] <= pos[..n]; }
  }

  // ----- matching_vector

  /** The vectors, and widths that depend on their keys only. */
  ghost predicate VectorsOk(vectors: seq<Vec>, width: seq<int>) {
    && |width| == |vectors| && (forall i :: 0 <= i < |vectors| ==> VecOk(vectors[i]))
    && forall i, j :: 0 <= i < |vectors| && 0 <= j < |vectors| && vectors[i].from == vectors[j].from ==> width[i] == width[j]
  }

  function Tally(vectors: seq<Vec>): (tally: seq<int>)
    ensures |tally| == |vectors| && forall i :: 0 <= i < |vectors| ==> tally[i] == |vectors[i].from|
  {
    seq(|vectors|, i requires 0 <= i < |vectors| => |vectors[i].from|)
  }

  method SameEntries(u: Vec, v: Vec) returns (match': bool)
    requires VecOk(u) && VecOk(v) && |u.from| == |v.from|
    ensures match' <==> u == v
  {
    match' := true;
    var k := 0;
    while match' && k < |v.from|
      invariant 0 <= k <= |v.from|
      invariant match' <==> u.from[..k] == v.from[..k] && u.to[..k] == v.to[..k]
      decreases |v.from| - k
    {
      if u.to[k] != v.to[k] || u.from[k] != v.from[k] {
        match' := false;
        assert u.from[..k + 1][k] == u.from[k] && v.from[..k + 1][k] == v.from[k];
        assert u.to[..k + 1][k] == u.to[k] && v.to[..k + 1][k] == v.to[k];
      }
      k := k + 1;
    }
    if match' {
      assert u.from == u.from[..k] && v.from == v.from[..k] && u.to == u.to[..k] && v.to == v.to[..k];
    }
  }

  /** Equal vectors stand next to each other: past a vector of another size
      there is none that equals vector n. */
  lemma NoMatchBelow(vectors: seq<Vec>, width: seq<int>, order: seq<int>, n: nat, prev: nat, p: nat)
    requires VectorsOk(vectors, width) && WidestFirst(Tally(vectors), width, order)
    requires p <= prev < n < |order| && 0 <= order[n] < |vectors| && 0 <= order[prev] < |vectors| && 0 <= order[p] < |vectors|
    requires width[order[prev]] != width[order[n]] || |vectors[order[prev]].from| != |vectors[order[n]].from|
    ensures vectors[order[p]] != vectors[order[n]]
  {
    var tally := Tally(vectors);
    assert Precedes(tally, width, order[prev], order[n]);
    assert p < prev ==> Precedes(tally, width, order[p], order[prev]);
  }

  /** matching_vector: an earlier vector with the same entries is found if
      there is one, for a row of shifts or reductions. */
  method MatchingVector(vectors: seq<Vec>, width: seq<int>, order: seq<int>, matchable: int, n: nat) returns (prev: int)
    requires VectorsOk(vectors, width) && WidestFirst(Tally(vectors), width, order) && n < |order|
    requires forall p :: 0 <= p < |order| ==> 0 <= order[p] < |vectors|
    ensures prev == -1 || (0 <= prev < n && vectors[order[prev]] == vectors[order[n]])
    ensures prev == -1 && order[n] < matchable ==> forall p :: 0 <= p < n ==> vectors[order[p]] != vectors[order[n]]
  {
    var i := order[n];
    if i >= matchable {
      return -1;
    }
    var t, w := |vectors[i].from|, width[i];
    prev := n - 1;
    while prev >= 0
      invariant -1 <= prev < n
      invariant forall p :: prev < p < n ==> vectors[order[p]] != vectors[i]
    {
      var j := order[prev];
      if width[j] != w || |vectors[j].from| != t {
        forall p | 0 <= p <= prev ensures vectors[order[p]] != vectors[i] {
          NoMatchBelow(vectors, width, order, n, prev, p);
        }
        return -1;
      }
      var same := SameEntries(vectors[j], vectors[i]);
      if same {
        return;
      }
      prev := prev - 1;
    }
  }

  // ----- pack_table

  /** The first n vectors of the order, in that order. */
  ghost function InOrder(vectors: seq<Vec>, order: seq<int>, n: nat): (vs: seq<Vec>)
    requires n <= |order| && forall p :: 0 <= p < |order| ==> 0 <= order[p] < |vectors|
    ensures |vs| == n && forall p :: 0 <= p < n ==> vs[p] == vectors[order[p]]
  {
    seq(n, p requires 0 <= p < n => vectors[order[p]])
  }

  lemma InOrderNext(vectors: seq<Vec>, order: seq<int>, n: nat)
    requires n < |order| && forall p :: 0 <= p < |order| ==> 0 <= order[p] < |vectors|
    ensures InOrder(vectors, order, n + 1) == InOrder(vectors, order, n) + [vectors[order[n]]]
  {
  }

  ghost predicate BaseOk(base: seq<int>, order: seq<int>, pos: seq<int>, nvectors: int) {
    && |base| == nvectors && |pos| <= |order|
    && (forall p :: 0 <= p < |pos| ==> 0 <= order[p] < nvectors && base[order[p]] == pos[p])
    && (forall v :: 0 <= v < nvectors && v !in order[..|pos|] ==> base[v] == 0)
  }

  lemma BaseNext(base: seq<int>, order: seq<int>, pos: seq<int>, nvectors: int, place: int)
    requires BaseOk(base, order, pos, nvectors) && |pos| < |order| && 0 <= order[|pos|] < nvectors
    requires forall p, q :: 0 <= p < q < |order| ==> order[p] != order[q]
    ensures BaseOk(base[order[|pos|] := place], order, pos + [place], nvectors)
  {
    assert order[..|pos| + 1] == order[..|pos|] + [order[|pos|]];
  }

  /** Every vector is found again by the lookup, entry for entry, and nothing else. */
  ghost predicate Lossless(vectors: seq<Vec>, base: seq<int>, table: seq<int>, check: seq<int>, high: int) {
    && |base| == |vectors| && |table| == |check| && high < |table|
    && forall v, c :: 0 <= v < |vectors| && 0 <= c ==> Exact(vectors[v], base[v], table, check, high, c)
  }

  /** The lookup at offset b finds what v has for c. */
  ghost predicate Exact(v: Vec, b: int, table: seq<int>, check: seq<int>, high: int, c: int) {
    high < |table| == |check| && VecOk(v) && Lookup(b, table, check, high, c) == At(v, c)
  }

  lemma PackedLossless(vectors: seq<Vec>, width: seq<int>, order: seq<int>, base: seq<int>, pos: seq<int>, table: seq<int>, check: seq<int>, high: int)
    requires VectorsOk(vectors, width) && Lists(Tally(vectors), order, |vectors|)
    requires |pos| == |order| && BaseOk(base, order, pos, |vectors|)
    requires Packed(InOrder(vectors, order, |order|), pos, table, check, high)
    ensures Lossless(vectors, base, table, check, high)
  {
    var vs := InOrder(vectors, order, |order|);
    forall v, c | 0 <= v < |vectors| && 0 <= c
      ensures Exact(vectors[v], base[v], table, check, high, c)
    {
      assert order[..|pos|] == order;
      if |vectors[v].from| > 0 {
        assert v in order;
        var p :| 0 <= p < |order| && order[p] == v;
        LookupExact(vs, pos, table, check, high, p, c);
      } else {
        assert v !in order;
      }
    }
  }

  ghost predicate InRange(order: seq<int>, n: int) {
    forall p :: 0 <= p < |order| ==> 0 <= order[p] < n
  }

  /** The first n vectors of the order are packed. */
  ghost predicate PackedTo(vectors: seq<Vec>, order: seq<int>, n: nat, pos: seq<int>, table: seq<int>, check: seq<int>, high: int) {
    InRange(order, |vectors|) && n <= |order| && Packed(InOrder(vectors, order, n), pos, table, check, high)
  }

  lemma SharePlace(vectors: seq<Vec>, order: seq<int>, n: nat, prev: nat, pos: seq<int>, table: seq<int>, check: seq<int>, high: int)
    requires PackedTo(vectors, order, n, pos, table, check, high) && prev < n < |order| && |pos| == n
    requires vectors[order[prev]] == vectors[order[n]]
    ensures PackedTo(vectors, order, n + 1, pos + [pos[prev]], table, check, high)
  {
    InOrderNext(vectors, order, n);
    ShareOffset(InOrder(vectors, order, n), pos, table, check, high, prev);
  }

  /** The first n vectors of the order are packed, and there is no room for the next. */
  ghost predicate TableFull(vectors: seq<Vec>, order: seq<int>, n: nat, pos: seq<int>, table: seq<int>, check: seq<int>, high: int) {
    && n < |order| && PackedTo(vectors, order, n, pos, table, check, high)
    && 0 <= order[n] < |vectors| && NoRoom(check, pos, vectors[order[n]].from)
  }

  /** The order of sort_actions ends in a table that is full. */
  ghost predicate GaveUp(vectors: seq<Vec>, width: seq<int>, table: seq<int>, check: seq<int>, high: int)
    requires |width| == |vectors|
  {
    exists order, n: nat, pos ::
      WidestFirst(Tally(vectors), width, order) && Lists(Tally(vectors), order, |vectors|) && TableFull(vectors, order, n, pos, table, check, high)
  }

  method PackNew(vectors: seq<Vec>, order: seq<int>, n: nat, pos: array<int>, t: Tables) returns (place: int, fatal: bool)
    requires n < |order| <= pos.Length && t.Valid() && PackedTo(vectors, order, n, pos[..n], t.table, t.check, t.high)
    requires VecOk(vectors[order[n]]) && |vectors[order[n]].from| > 0
    modifies t
    ensures fatal ==> TableFull(vectors, order, n, pos[..n], t.table, t.check, t.high)
    ensures !fatal ==> t.Valid() && PackedTo(vectors, order, n + 1, pos[..n] + [place], t.table, t.check, t.high)
  {
    InOrderNext(vectors, order, n);
    place, fatal := t.PackVector(vectors[order[n]], pos, n, InOrder(vectors, order, n));
  }

  /** The body of the loop: share an offset or find a new one. */
  method PackOne(vectors: seq<Vec>, width: seq<int>, order: seq<int>, matchable: int, n: nat, pos: array<int>, t: Tables) returns (place: int, fatal: bool)
    requires VectorsOk(vectors, width) && WidestFirst(Tally(vectors), width, order) && Lists(Tally(vectors), order, |vectors|)
    requires n < |order| <= pos.Length && t.Valid() && PackedTo(vectors, order, n, pos[..n], t.table, t.check, t.high)
    modifies t
    ensures fatal ==> TableFull(vectors, order, n, pos[..n], t.table, t.check, t.high)
    ensures !fatal ==> t.Valid() && PackedTo(vectors, order, n + 1, pos[..n] + [place], t.table, t.check, t.high)
  {
    var prev := MatchingVector(vectors, width, order, matchable, n);
    if prev >= 0 {
      place, fatal := pos[prev], false;
      SharePlace(vectors, order, n, prev, pos[..n], t.table, t.check, t.high);
    } else {
      place, fatal := PackNew(vectors, order, n, pos, t);
    }
  }

  method SetPlace(base: array<int>, pos: array<int>, order: seq<int>, n: nat, place: int)
    requires base != pos && n < |order| == pos.Length && InRange(order, base.Length)
    requires forall p, q :: 0 <= p < q < |order| ==> order[p] != order[q]
    requires BaseOk(base[..], order, pos[..n], base.Length)
    modifies base, pos
    ensures pos[..n + 1] == old(pos[..n]) + [place]
    ensures BaseOk(base[..], order, pos[..n + 1], base.Length)
  {
    BaseNext(base[..], order, pos[..n], base.Length, place);
    ghost var base1 := base[..][order[n] := place];
    pos[n] := place;
    base[order[n]] := place;
    assert pos[..n + 1] == old(pos[..n]) + [place] && base[..] == base1;
  }

  /** The loop of pack_table. */
  method PackLoop(vectors: seq<Vec>, width: seq<int>, order: seq<int>, matchable: int, base: array<int>, pos: array<int>, t: Tables) returns (fatal: bool)
    requires VectorsOk(vectors, width) && WidestFirst(Tally(vectors), width, order) && Lists(Tally(vectors), order, |vectors|)
    requires base != pos && base.Length == |vectors| && pos.Length == |order| && forall v :: 0 <= v < base.Length ==> base[v] == 0
    requires t.Valid() && Packed([], [], t.table, t.check, t.high)
    modifies base, pos, t
    ensures !fatal ==> BaseOk(base[..], order, pos[..], |vectors|) && PackedTo(vectors, order, |order|, pos[..], t.table, t.check, t.high)
    ensures fatal ==> exists n: nat, used :: TableFull(vectors, order, n, used, t.table, t.check, t.high)
  {
    hide NoRoom, Precedes, TableFull;
    fatal := false;
    var n := 0;
    assert InOrder(vectors, order, 0) == [] && pos[..0] == [];
    while n < |order|
      invariant 0 <= n <= |order| && t.Valid() && PackedTo(vectors, order, n, pos[..n], t.table, t.check, t.high)
      invariant BaseOk(base[..], order, pos[..n], |vectors|)
    {
      var place;
      place, fatal := PackOne(vectors, width, order, matchable, n, pos, t);
      if fatal {
        return;
      }
      SetPlace(base, pos, order, n, place);
      n := n + 1;
    }
    assert pos[..n] == pos[..];
  }

  /** pack_table. It gives up only when a vector fits nowhere below the limit. */
  method PackAll(vectors: seq<Vec>, width: seq<int>, matchable: int) returns (base: array<int>, t: Tables, fatal: bool)
    requires VectorsOk(vectors, width)
    ensures !fatal ==> Lossless(vectors, base[..], t.table, t.check, t.high)
    ensures fatal ==> GaveUp(vectors, width, t.table, t.check, t.high)
  {
    var order := SortActions(Tally(vectors), width);
    base := new int[|vectors|](_ => 0);
    var pos := new int[|order|];
    t := new Tables();
    fatal := PackLoop(vectors, width, order, matchable, base, pos, t);
    if !fatal {
      PackedLossless(vectors, width, order, base[..], pos[..], t.table, t.check, t.high);
    }
  }
}
