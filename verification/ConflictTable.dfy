/** output.c, find_conflict_base and the lists token_actions keeps with it: the
    actions to try at a conflict, the shift (or -1) first, then the reductions,
    then -1. A list equal to the end of what is there already is not stored
    again, and a leading -1 is shared with the end of the list before. */
module ConflictTable {

  /** The list w stands in c from j on. */
  ghost predicate Reads(c: seq<int>, j: int, w: seq<int>) {
    0 <= j && j + |w| <= |c| && c[j..j + |w|] == w
  }

  lemma ReadsOn(c: seq<int>, d: seq<int>, j: int, w: seq<int>)
    requires Reads(c, j, w) && c <= d
    ensures Reads(d, j, w)
  {
    assert c[j..j + |w|] == d[j..j + |w|];
  }

  /** A list in the making: a shift or -1, then reductions. */
  ghost predicate IsOpen(w: seq<int>) {
    && (forall k :: 1 <= k < |w| ==> w[k] >= 0)
    && (|w| > 0 ==> w[0] >= -1) && (|w| == 1 ==> w[0] >= 0)
  }

  ghost predicate Ends(c: seq<int>) {
    |c| > 0 ==> c[|c| - 1] == -1
  }

  /** The n entries from k on are those from b on. */
  ghost predicate Same(c: seq<int>, k: int, b: int, n: int)
  {
    0 <= k && 0 <= b && 0 <= n && k + n <= |c| && b + n <= |c| && c[k..k + n] == c[b..b + n]
  }

  lemma SameNext(c: seq<int>, k: int, b: int, n: int)
    requires Same(c, k, b, n) && k + n < |c| && b + n < |c|
    ensures Same(c, k, b, n + 1) <==> c[k + n] == c[b + n]
  {
    assert c[k..k + n + 1] == c[k..k + n] + [c[k + n]];
    assert c[b..b + n + 1] == c[b..b + n] + [c[b + n]];
  }

  lemma SameNone(c: seq<int>, k: int, b: int)
    requires 0 <= k <= |c| && 0 <= b <= |c|
    ensures Same(c, k, b, 0)
  {
  }

  lemma SameSelf(c: seq<int>, b: int, n: int)
    requires 0 <= b && 0 <= n && b + n <= |c|
    ensures Same(c, b, b, n)
  {
  }

  lemma SamePrefix(c: seq<int>, k: int, b: int, n: int, m: int)
    requires Same(c, k, b, m) && 0 <= n <= m
    ensures Same(c, k, b, n)
  {
    assert c[k..k + n] == c[k..k + m][..n];
    assert c[b..b + n] == c[b..b + m][..n];
  }

  /** What stands from b to e stands from k on too. */
  ghost predicate Again(c: seq<int>, k: int, b: int, e: int) {
    Same(c, k, b, e - b)
  }

  /** The first place, up to cbase, where what follows cbase stands. */
  method FindConflictBase(conflicts: array<int>, nconflicts: int, cbase: int) returns (i: int)
    requires 0 <= cbase <= nconflicts <= conflicts.Length
    ensures 0 <= i <= cbase && Again(conflicts[..], i, cbase, nconflicts)
    ensures forall k :: 0 <= k < i ==> !Again(conflicts[..], k, cbase, nconflicts)
  {
    i := 0;
    var n := nconflicts - cbase;
    ghost var c := conflicts[..];
    SameNone(c, 0, cbase);
    hide Same;
    while i < cbase
      invariant 0 <= i <= cbase && c == conflicts[..]
      invariant forall k :: 0 <= k < i ==> !Again(c, k, cbase, nconflicts)
    {
      var j := 0;
      SameNone(c, i, cbase);
      while j < n && conflicts[i + j] == conflicts[cbase + j]
        invariant 0 <= j <= n && c == conflicts[..] && Same(c, i, cbase, j)
      {
        SameNext(c, i, cbase, j);
        j := j + 1;
      }
      if j >= n {
        return;
      }
      SameNext(c, i, cbase, j);
      if Same(c, i, cbase, n) { SamePrefix(c, i, cbase, j + 1, n); }
      i := i + 1;
    }
    SameSelf(c, cbase, n);
  }

  lemma EndInList(w: seq<int>, k: int)
    requires IsOpen(w)
    ensures 0 <= k <= |w| && (w + [-1])[k] == -1 ==> k == 0 || k == |w|
  {
  }

  lemma LastStored(c: seq<int>, frozen: int, i: int, v: seq<int>)
    requires 0 <= frozen <= |c| && Ends(c[..frozen]) && Reads(c, i, v)
    ensures i <= frozen - 1 < i + |v| ==> v[frozen - 1 - i] == -1
  {
    var n := |v|;
    assert i <= frozen - 1 < i + n ==> c[i..i + n][frozen - 1 - i] == c[frozen - 1];
    assert frozen > 0 ==> c[frozen - 1] == c[..frozen][frozen - 1];
  }

  /** A closed list that starts at b, the end of what is frozen or the -1 there,
      can only be found inside what is frozen: a match never runs on into the
      list itself. */
  lemma MatchIsFrozen(c: seq<int>, frozen: int, b: int, w: seq<int>, i: int)
    requires 0 <= frozen <= |c| && Ends(c[..frozen]) && IsOpen(w)
    requires b == (if |w| > 0 && w[0] == -1 && frozen > 0 then frozen - 1 else frozen)
    requires 0 <= i < b && Reads(c, i, w + [-1])
    ensures Reads(c[..frozen], i, w + [-1])
  {
    LastStored(c, frozen, i, w + [-1]);
    EndInList(w, frozen - 1 - i);
    var n := |w + [-1]|;
    assert i + n <= frozen;
    assert c[i..i + n] == c[..frozen][i..i + n];
  }

  class Table {
    const conflicts: array<int>
    var nconflicts: int
    var cbase: int
    ghost var frozen: int

    /** The lists stored so far. */
    ghost function Contents(): seq<int>
      reads this, conflicts
      requires 0 <= frozen <= conflicts.Length
    {
      conflicts[..frozen]
    }

    ghost predicate Valid()
      reads this, conflicts
    {
      0 <= frozen <= conflicts.Length && Ends(Contents())
    }

    /** The list being built is w. */
    ghost predicate Building(w: seq<int>)
      reads this, conflicts
    {
      && Valid() && IsOpen(w)
      && cbase == (if |w| > 0 && w[0] == -1 && frozen > 0 then frozen - 1 else frozen)
      && nconflicts == cbase + |w| && frozen <= nconflicts <= conflicts.Length
      && conflicts[cbase..nconflicts] == w
    }

    constructor (capacity: nat)
      ensures Building([]) && frozen == 0 && conflicts.Length == capacity && fresh(conflicts)
    {
      conflicts := new int[capacity](_ => 0);
      nconflicts := 0;
      cbase := 0;
      frozen := 0;
    }

    method Append(x: int, ghost w: seq<int>)
      requires 0 <= frozen <= nconflicts < conflicts.Length && 0 <= cbase <= nconflicts && conflicts[cbase..nconflicts] == w
      modifies this`nconflicts, conflicts
      ensures nconflicts == old(nconflicts) + 1 && Contents() == old(Contents())
      ensures conflicts[cbase..nconflicts] == w + [x]
    {
      conflicts[nconflicts] := x;
      nconflicts := nconflicts + 1;
    }

    method AddShift(k: int, ghost w: seq<int>)
      requires Building(w) && w == [] && k >= 0 && nconflicts < conflicts.Length
      modifies this`nconflicts, conflicts
      ensures Building([k]) && Contents() == old(Contents())
    {
      Append(k, w);
    }

    method AddReduce(r: int, ghost w: seq<int>)
      requires Building(w) && r >= 2 && nconflicts < conflicts.Length && (nconflicts == 0 ==> conflicts.Length >= 2)
      modifies this`nconflicts, this`cbase, conflicts
      ensures Contents() == old(Contents())
      ensures Building((if w == [] then [-1] else w) + [r - 2])
    {
      if cbase == nconflicts {
        if cbase > 0 {
          cbase := cbase - 1;
          assert conflicts[cbase] == Contents()[cbase];
          assert conflicts[cbase..nconflicts] == [-1];
        } else {
          Append(-1, []);
        }
        Append(r - 2, [-1]);
      } else {
        Append(r - 2, w);
      }
    }

    /** Closing a list: it is found again where it was before, or it stays. */
    method Close(ghost w: seq<int>) returns (j: int)
      requires Building(w) && nconflicts < conflicts.Length
      modifies this, conflicts
      ensures Building([]) && old(Contents()) <= Contents()
      ensures Reads(Contents(), j, w + [-1])
      ensures nconflicts <= old(nconflicts) + 1
    {
      Append(-1, w);
      j := FindConflictBase(conflicts, nconflicts, cbase);
      if j == cbase {
        Keep(w);
      } else {
        assert Reads(conflicts[..nconflicts], j, w + [-1]) by { FoundReads(conflicts[..], j, cbase, nconflicts, w + [-1]); }
        Share(w, j);
      }
    }

    /** A new list stays. */
    method Keep(ghost w: seq<int>)
      requires Valid() && IsOpen(w) && frozen <= nconflicts <= conflicts.Length && 0 <= cbase < nconflicts
      requires cbase == (if |w| > 0 && w[0] == -1 && frozen > 0 then frozen - 1 else frozen)
      requires conflicts[cbase..nconflicts] == w + [-1]
      modifies this
      ensures Building([]) && old(Contents()) <= Contents() && Reads(Contents(), old(cbase), w + [-1])
      ensures nconflicts == old(nconflicts)
    {
      ghost var stored := Contents();
      assert conflicts[nconflicts - 1] == conflicts[cbase..nconflicts][nconflicts - 1 - cbase];
      frozen := nconflicts;
      assert Contents()[cbase..nconflicts] == conflicts[cbase..nconflicts];
      assert stored <= Contents();
      cbase := nconflicts;
    }

    /** A list found again is cut off. */
    method Share(ghost w: seq<int>, j: int)
      requires Valid() && IsOpen(w) && frozen <= nconflicts <= conflicts.Length && 0 <= j < cbase < nconflicts
      requires cbase == (if |w| > 0 && w[0] == -1 && frozen > 0 then frozen - 1 else frozen)
      requires conflicts[cbase..nconflicts] == w + [-1] && Reads(conflicts[..nconflicts], j, w + [-1])
      modifies this
      ensures Building([]) && old(Contents()) <= Contents() && Reads(Contents(), j, w + [-1])
      ensures nconflicts <= old(nconflicts)
    {
      hide Reads;
      ghost var c, stored := conflicts[..nconflicts], Contents();
      assert c[..frozen] == stored;
      MatchIsFrozen(c, frozen, cbase, w, j);
      assert c[cbase..cbase + |w + [-1]|] == w + [-1];
      assert conflicts[cbase] == (w + [-1])[0];
      if conflicts[cbase] == -1 {
        cbase := cbase + 1;
      }
      nconflicts := cbase;
      Truncated(c, frozen, cbase, w, stored);
      frozen := cbase;
      assert Contents() == c[..cbase];
      ReadsOn(stored, Contents(), j, w + [-1]);
    }
  }

  lemma FoundReads(c: seq<int>, j: int, b: int, e: int, v: seq<int>)
    requires 0 <= b <= e <= |c| && 0 <= j <= b && Same(c, j, b, e - b) && c[b..e] == v
    ensures Reads(c[..e], j, v)
  {
    assert c[..e][j..j + |v|] == c[j..j + (e - b)];
  }

  /** Cutting a shared list off leaves what was stored, and at most one -1 more. */
  lemma Truncated(c: seq<int>, frozen: int, cbase: int, w: seq<int>, stored: seq<int>)
    requires 0 <= frozen <= |c| && c[..frozen] == stored && IsOpen(w) && Ends(stored)
    requires
      var b := if |w| > 0 && w[0] == -1 && frozen > 0 then frozen - 1 else frozen;
      Reads(c, b, w + [-1]) && b >= 0 && (b > 0 || frozen > 0) && cbase == if (w + [-1])[0] == -1 then b + 1 else b
    ensures frozen <= cbase <= frozen + 1 <= |c| + 1 && cbase <= |c| && Ends(c[..cbase]) && stored <= c[..cbase]
  {
    var b := if |w| > 0 && w[0] == -1 && frozen > 0 then frozen - 1 else frozen;
    assert c[b] == c[b..b + |w + [-1]|][0];
  }
}
