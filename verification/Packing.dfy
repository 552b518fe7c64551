/** output.c, pack_table: all action rows and goto columns are laid over each
    other in one table. Entry c of a vector with offset b stands at b + c, and
    `check` repeats c there, so that a lookup can tell its own entries from
    those of others. */
module Packing {

  datatype Option<T> = None | Some(value: T)

  /** A row or column: keys and what they map to. */
  datatype Vec = Vec(from: seq<int>, to: seq<int>)

  ghost predicate VecOk(v: Vec) {
    |v.from| == |v.to| && forall k :: 0 <= k < |v.from| ==> 0 <= v.from[k]
  }

  /** What the first n entries of a vector map c to; a later entry for the same
      key counts. */
  ghost function Entry(from: seq<int>, to: seq<int>, n: nat, c: int): Option<int>
    requires n <= |from| == |to|
  {
    if n == 0 then None
    else if from[n - 1] == c then Some(to[n - 1])
    else Entry(from, to, n - 1, c)
  }

  ghost function At(v: Vec, c: int): Option<int>
    requires VecOk(v)
  {
    Entry(v.from, v.to, |v.from|, c)
  }

  lemma {:induction false} EntryKey(from: seq<int>, to: seq<int>, n: nat, c: int)
    requires n <= |from| == |to|
    ensures Entry(from, to, n, c).Some? <==> c in from[..n]
    ensures Entry(from, from, n, c).Some? <==> c in from[..n]
    ensures Entry(from, from, n, c).Some? ==> Entry(from, from, n, c).value == c
  {
    if n > 0 {
      EntryKey(from, to, n - 1, c);
      assert from[..n] == from[..n - 1] + [from[n - 1]];
    }
  }

  /** The lookup of the skeleton, against the emitted tables. */
  function Lookup(b: int, table: seq<int>, check: seq<int>, high: int, c: int): Option<int>
    requires high < |table| == |check|
  {
    if b != 0 && 0 <= b + c <= high && check[b + c] == c then Some(table[b + c]) else None
  }

  // ----- writing a vector

  /** s after storing the first n of vals at the keys, moved by j. */
  ghost function Written(s: seq<int>, from: seq<int>, vals: seq<int>, j: int, n: nat): (r: seq<int>)
    requires n <= |from| == |vals| && forall k :: 0 <= k < |from| ==> 0 <= j + from[k] < |s|
    ensures |r| == |s|
  {
    if n == 0 then s else Written(s, from, vals, j, n - 1)[j + from[n - 1] := vals[n - 1]]
  }

  lemma {:induction false} WrittenAt(s: seq<int>, from: seq<int>, vals: seq<int>, j: int, n: nat, l: int)
    requires n <= |from| == |vals| && forall k :: 0 <= k < |from| ==> 0 <= j + from[k] < |s|
    requires 0 <= l < |s|
    ensures Written(s, from, vals, j, n)[l] ==
      if Entry(from, vals, n, l - j).Some? then Entry(from, vals, n, l - j).value else s[l]
  {
    if n > 0 { WrittenAt(s, from, vals, j, n - 1, l); }
  }

  // ----- where a vector can go

  /** Every key falls on a free slot. */
  ghost predicate Free(check: seq<int>, from: seq<int>, j: int) {
    forall k :: 0 <= k < |from| ==> SlotFree(check, j + from[k])
  }

  ghost predicate SlotFree(check: seq<int>, l: int) {
    0 <= l && (l < |check| ==> check[l] == -1)
  }

  /** The offsets open to a vector: not 0, which marks an empty vector, every
      key on a free slot, and used by no earlier vector. */
  ghost predicate Feasible(check: seq<int>, pos: seq<int>, from: seq<int>, j: int) {
    j != 0 && Free(check, from, j) && j !in pos
  }

  /** All slots below lowzero are taken. */
  ghost predicate LowzeroOk(check: seq<int>, lowzero: int) {
    0 <= lowzero <= |check| && forall l :: 0 <= l < lowzero ==> check[l] != -1
  }

  /** Starting from lowzero skips no feasible offset. */
  lemma BelowLowzero(check: seq<int>, pos: seq<int>, from: seq<int>, lowzero: int, k: int, j: int)
    requires LowzeroOk(check, lowzero) && 0 <= k < |from| && j < lowzero - from[k]
    ensures !Feasible(check, pos, from, j)
  {
    assert !SlotFree(check, j + from[k]);
  }

  // ----- the packed table

  /** The vectors vs stand in the table, vector i with offset pos[i]. */
  ghost predicate Packed(vs: seq<Vec>, pos: seq<int>, table: seq<int>, check: seq<int>, high: int) {
    && |pos| == |vs| && |table| == |check| && 0 <= high < |check|
    && (forall i :: 0 <= i < |vs| ==> VecOk(vs[i]) && pos[i] != 0 && Stands(vs[i], pos[i], table, check, high))
    && (forall l :: 0 <= l < |check| && check[l] != -1 ==> Owned(vs, pos, check[l], l))
    && (forall i, j :: 0 <= i < |vs| && 0 <= j < |vs| && pos[i] == pos[j] ==> vs[i] == vs[j])
  }

  ghost predicate Stands(v: Vec, b: int, table: seq<int>, check: seq<int>, high: int)
    requires VecOk(v) && |table| == |check| && high < |check|
  {
    forall c :: At(v, c).Some? ==> 0 <= c && 0 <= b + c <= high && check[b + c] == c && table[b + c] == At(v, c).value
  }

  /** Slot l holds the entry of some vector for key c. */
  ghost predicate Owned(vs: seq<Vec>, pos: seq<int>, c: int, l: int)
    requires |pos| == |vs|
  {
    exists i :: 0 <= i < |vs| && OwnedBy(vs[i], pos[i], c, l)
  }

  ghost predicate OwnedBy(v: Vec, b: int, c: int, l: int) {
    VecOk(v) && b == l - c && At(v, c).Some?
  }

  /** Packing is lossless: the lookup finds exactly the entries of the vector,
      although slots between them hold entries of others. */
  lemma LookupExact(vs: seq<Vec>, pos: seq<int>, table: seq<int>, check: seq<int>, high: int, i: int, c: int)
    requires Packed(vs, pos, table, check, high) && 0 <= i < |vs| && 0 <= c
    ensures Lookup(pos[i], table, check, high, c) == At(vs[i], c)
  {
    var l := pos[i] + c;
    assert Stands(vs[i], pos[i], table, check, high);
    if 0 <= l <= high && check[l] == c {
      assert Owned(vs, pos, c, l);
      var j :| 0 <= j < |vs| && OwnedBy(vs[j], pos[j], c, l);
      assert vs[i] == vs[j];
    }
  }

  /** Two entries for one key disagree: the earlier one is lost. */
  ghost predicate Clashes(v: Vec) {
    exists k, l :: Clash(v, k, l)
  }

  ghost predicate Clash(v: Vec, k: int, l: int) {
    0 <= k < l < |v.from| == |v.to| && v.from[k] == v.from[l] && v.to[k] != v.to[l]
  }

  lemma {:induction false} EntryLast(from: seq<int>, to: seq<int>, n: nat, k: nat)
    requires k < n <= |from| == |to|
    ensures exists l :: k <= l < n && from[l] == from[k] && Entry(from, to, n, from[k]) == Some(to[l])
  {
    if from[n - 1] == from[k] {
      assert Entry(from, to, n, from[k]) == Some(to[n - 1]);
    } else {
      EntryLast(from, to, n - 1, k);
    }
  }

  lemma EntriesKept(v: Vec)
    requires VecOk(v)
    ensures !Clashes(v) <==> forall k :: 0 <= k < |v.from| ==> At(v, v.from[k]) == Some(v.to[k])
  {
    if !Clashes(v) {
      forall k | 0 <= k < |v.from| ensures At(v, v.from[k]) == Some(v.to[k]) {
        EntryLast(v.from, v.to, |v.from|, k);
        var l :| k <= l < |v.from| && v.from[l] == v.from[k] && At(v, v.from[k]) == Some(v.to[l]);
        assert k < l && v.to[k] != v.to[l] ==> Clash(v, k, l);
      }
    } else {
      var k, l :| Clash(v, k, l);
      assert At(v, v.from[k]) == At(v, v.from[l]);
    }
  }

  /** Every entry of a packed vector is found exactly if no two entries for one
      key disagree. */
  lemma AllEntriesFound(vs: seq<Vec>, pos: seq<int>, table: seq<int>, check: seq<int>, high: int, i: int)
    requires Packed(vs, pos, table, check, high) && 0 <= i < |vs|
    ensures VecOk(vs[i])
    ensures !Clashes(vs[i]) <==>
      forall k :: 0 <= k < |vs[i].from| ==> Lookup(pos[i], table, check, high, vs[i].from[k]) == Some(vs[i].to[k])
  {
    var v := vs[i];
    forall k | 0 <= k < |v.from|
      ensures Lookup(pos[i], table, check, high, v.from[k]) == At(v, v.from[k])
    {
      LookupExact(vs, pos, table, check, high, i, v.from[k]);
    }
    EntriesKept(v);
  }

  // ----- one more vector

  lemma OwnedStays(vs: seq<Vec>, pos: seq<int>, v: Vec, j: int, c: int, l: int)
    requires |vs| == |pos| && Owned(vs, pos, c, l)
    ensures Owned(vs + [v], pos + [j], c, l)
  {
    var i :| 0 <= i < |vs| && OwnedBy(vs[i], pos[i], c, l);
    assert OwnedBy((vs + [v])[i], (pos + [j])[i], c, l);
  }

  lemma OwnedNew(vs: seq<Vec>, pos: seq<int>, v: Vec, j: int, c: int, l: int)
    requires |vs| == |pos| && OwnedBy(v, j, c, l)
    ensures Owned(vs + [v], pos + [j], c, l)
  {
    assert OwnedBy((vs + [v])[|vs|], (pos + [j])[|vs|], c, l);
  }

  /** A vector that matches an earlier one shares its offset. */
  lemma ShareOffset(vs: seq<Vec>, pos: seq<int>, table: seq<int>, check: seq<int>, high: int, i: int)
    requires Packed(vs, pos, table, check, high) && 0 <= i < |vs|
    ensures Packed(vs + [vs[i]], pos + [pos[i]], table, check, high)
  {
    forall l | 0 <= l < |check| && check[l] != -1 ensures Owned(vs + [vs[i]], pos + [pos[i]], check[l], l) {
      OwnedStays(vs, pos, vs[i], pos[i], check[l], l);
    }
  }

  /** Every taken slot is owned, after writing v at j too. */
  lemma WrittenOwned(vs: seq<Vec>, pos: seq<int>, check: seq<int>, v: Vec, j: int, l: int)
    requires |vs| == |pos| && VecOk(v) && 0 <= l < |check| && (check[l] != -1 ==> Owned(vs, pos, check[l], l))
    requires forall k :: 0 <= k < |v.from| ==> 0 <= j + v.from[k] < |check|
    ensures
      var c := Written(check, v.from, v.from, j, |v.from|)[l];
      c != -1 ==> Owned(vs + [v], pos + [j], c, l)
  {
    var n := |v.from|;
    WrittenAt(check, v.from, v.from, j, n, l);
    EntryKey(v.from, v.to, n, l - j);
    if Entry(v.from, v.from, n, l - j).Some? {
      OwnedNew(vs, pos, v, j, l - j, l);
    } else if check[l] != -1 {
      OwnedStays(vs, pos, v, j, check[l], l);
    }
  }

  /** Writing a vector at a feasible offset. */
  lemma WriteVector(vs: seq<Vec>, pos: seq<int>, table: seq<int>, check: seq<int>, high: int, v: Vec, j: int, high': int)
    requires Packed(vs, pos, table, check, high) && VecOk(v)
    requires Feasible(check, pos, v.from, j) && high <= high' < |check|
    requires forall k :: 0 <= k < |v.from| ==> j + v.from[k] <= high'
    ensures forall k :: 0 <= k < |v.from| ==> 0 <= j + v.from[k] < |check|
    ensures Packed(vs + [v], pos + [j], Written(table, v.from, v.to, j, |v.from|), Written(check, v.from, v.from, j, |v.from|), high')
  {
    var n := |v.from|;
    forall k | 0 <= k < n ensures 0 <= j + v.from[k] < |check| {
      assert SlotFree(check, j + v.from[k]);
    }
    var table', check' := Written(table, v.from, v.to, j, n), Written(check, v.from, v.from, j, n);
    forall i | 0 <= i < |vs| ensures Stands(vs[i], pos[i], table', check', high') {
      OldStands(vs[i], pos[i], table, check, high, v, j, high');
    }
    NewStands(table, check, v, j, high');
    forall l | 0 <= l < |check'| && check'[l] != -1 ensures Owned(vs + [v], pos + [j], check'[l], l) {
      WrittenOwned(vs, pos, check, v, j, l);
    }
    AllPacked(vs, pos, v, j, table', check', high');
  }

  lemma AllPacked(vs: seq<Vec>, pos: seq<int>, v: Vec, j: int, table: seq<int>, check: seq<int>, high: int)
    requires |vs| == |pos| && |table| == |check| && 0 <= high < |check| && VecOk(v) && j != 0 && j !in pos
    requires forall i :: 0 <= i < |vs| ==> VecOk(vs[i]) && pos[i] != 0 && Stands(vs[i], pos[i], table, check, high)
    requires Stands(v, j, table, check, high)
    requires forall l :: 0 <= l < |check| && check[l] != -1 ==> Owned(vs + [v], pos + [j], check[l], l)
    requires forall a, b :: 0 <= a < |vs| && 0 <= b < |vs| && pos[a] == pos[b] ==> vs[a] == vs[b]
    ensures Packed(vs + [v], pos + [j], table, check, high)
  {
  }

  /** A slot already taken gets no entry of v. */
  lemma TakenIsNoKey(check: seq<int>, v: Vec, j: int, l: int)
    requires VecOk(v) && Free(check, v.from, j) && 0 <= l < |check| && check[l] != -1
    ensures Entry(v.from, v.from, |v.from|, l - j) == None
    ensures At(v, l - j) == None
  {
    forall k | 0 <= k < |v.from| ensures j + v.from[k] != l {
      assert SlotFree(check, j + v.from[k]);
    }
    EntryKey(v.from, v.to, |v.from|, l - j);
  }

  lemma OldStands(u: Vec, b: int, table: seq<int>, check: seq<int>, high: int, v: Vec, j: int, high': int)
    requires VecOk(u) && VecOk(v) && |table| == |check| && high <= high' < |check| && Stands(u, b, table, check, high)
    requires Free(check, v.from, j) && forall k :: 0 <= k < |v.from| ==> 0 <= j + v.from[k] < |check|
    ensures Stands(u, b, Written(table, v.from, v.to, j, |v.from|), Written(check, v.from, v.from, j, |v.from|), high')
  {
    hide Written;
    var n := |v.from|;
    forall c | At(u, c).Some?
      ensures 0 <= c && 0 <= b + c <= high'
      ensures Written(check, v.from, v.from, j, n)[b + c] == c && Written(table, v.from, v.to, j, n)[b + c] == At(u, c).value
    {
      WrittenAt(check, v.from, v.from, j, n, b + c);
      WrittenAt(table, v.from, v.to, j, n, b + c);
      TakenIsNoKey(check, v, j, b + c);
    }
  }

  lemma NewStands(table: seq<int>, check: seq<int>, v: Vec, j: int, high': int)
    requires VecOk(v) && |table| == |check| && high' < |check|
    requires forall k :: 0 <= k < |v.from| ==> 0 <= j + v.from[k] <= high'
    ensures Stands(v, j, Written(table, v.from, v.to, j, |v.from|), Written(check, v.from, v.from, j, |v.from|), high')
  {
    hide Written;
    var n := |v.from|;
    forall c | At(v, c).Some?
      ensures 0 <= c && 0 <= j + c <= high'
      ensures Written(check, v.from, v.from, j, n)[j + c] == c && Written(table, v.from, v.to, j, n)[j + c] == At(v, c).value
    {
      EntryKey(v.from, v.to, n, c);
      var k :| 0 <= k < n && v.from[k] == c;
      WrittenAt(check, v.from, v.from, j, n, j + c);
      WrittenAt(table, v.from, v.to, j, n, j + c);
    }
  }

  /** Enlarging the tables, new slots free. */
  lemma GrowTables(vs: seq<Vec>, pos: seq<int>, table: seq<int>, check: seq<int>, high: int, more: seq<int>, free: seq<int>)
    requires Packed(vs, pos, table, check, high) && |more| == |free|
    requires forall l :: 0 <= l < |free| ==> free[l] == -1
    ensures Packed(vs, pos, table + more, check + free, high)
  {
    forall i | 0 <= i < |vs| ensures Stands(vs[i], pos[i], table + more, check + free, high) {
      assert Stands(vs[i], pos[i], table, check, high);
    }
    forall l | 0 <= l < |check + free| && (check + free)[l] != -1 ensures Owned(vs, pos, (check + free)[l], l) {
      assert (check + free)[l] == check[l];
    }
  }

  // ----- counting

  /** The numbers from lo to hi - 1. */
  ghost function Interval(lo: int, hi: int): (s: set<int>)
    requires lo <= hi
    ensures |s| == hi - lo && forall x :: x in s <==> lo <= x < hi
    decreases hi - lo
  {
    if lo == hi then {} else Interval(lo, hi - 1) + {hi - 1}
  }

  /** No more elements than the list is long. */
  lemma {:induction false} ElementsBound(s: seq<int>, elements: set<int>)
    requires forall x :: x in elements ==> x in s
    ensures |elements| <= |s|
  {
    if s == [] {
      forall x ensures x !in elements {
        assert x in elements ==> x in s;
      }
      assert elements == {};
    } else {
      var rest := elements - {s[0]};
      forall x | x in rest ensures x in s[1..] {
        assert x in s && x != s[0];
      }
      ElementsBound(s[1..], rest);
      assert elements == if s[0] in elements then rest + {s[0]} else rest;
    }
  }
}
