/** Packed bit rows: 32-bit words, as used for every set of symbols or rules
    in the generator. A row of `size` words holds the numbers 0..32*size-1. */
module Bits {

  /** Number of words needed to store n bits. */
  function WordSize(n: nat): nat {
    (n + 31) / 32
  }

  lemma WordSizeFits(n: nat)
    ensures n <= 32 * WordSize(n)
  {
  }

  /** The word whose only bit is number k. */
  function Mask(k: nat): bv32 {
    if k == 0 then 1 else Mask(k - 1) << 1
  }

  /** Some bit of the mask m is set in x. */
  predicate Bit(x: bv32, m: bv32) {
    x & m != 0
  }

  predicate IsPowerOfTwo(m: bv32) {
    m != 0 && m & (m - 1) == 0
  }

  lemma DoublePower(m: bv32)
    requires IsPowerOfTwo(m) && m < 0x8000_0000
    ensures IsPowerOfTwo(m << 1) && m < m << 1
  {
  }

  lemma MaskBounds(k: nat)
    requires k < 32
    ensures IsPowerOfTwo(Mask(k))
    ensures k == 31 <==> Mask(k) >= 0x8000_0000
  {
    assert Mask(0) == 1;
    assert Mask(8) == 0x100 by { assert Mask(4) == 0x10; }
    assert Mask(16) == 0x1_0000 by { assert Mask(12) == 0x1000; }
    assert Mask(24) == 0x100_0000 by { assert Mask(20) == 0x10_0000; }
    assert Mask(31) == 0x8000_0000 by { assert Mask(28) == 0x1000_0000; }
  }

  /** Shifting the highest mask empties the word: the sign to move on to the
      next word. */
  lemma MaskWraps(k: nat)
    requires k < 32
    ensures Mask(k) << 1 == 0 <==> k == 31
    ensures Mask(k + 1) == Mask(k) << 1
  {
    MaskBounds(k);
    if k < 31 {
      DoublePower(Mask(k));
    } else {
      PowerAtTop(Mask(k));
    }
  }

  lemma PowerAtTop(m: bv32)
    requires IsPowerOfTwo(m) && m >= 0x8000_0000
    ensures m == 0x8000_0000
  {
  }

  lemma {:induction false} MaskIncreases(j: nat, k: nat)
    requires j < k < 32
    ensures Mask(j) < Mask(k)
    decreases k
  {
    MaskBounds(k - 1);
    DoublePower(Mask(k - 1));
    if j < k - 1 {
      MaskIncreases(j, k - 1);
    }
  }

  lemma PowersAreDisjoint(m: bv32, n: bv32)
    requires IsPowerOfTwo(m) && IsPowerOfTwo(n)
    ensures Bit(m, n) <==> m == n
  {
  }

  lemma MaskDisjoint(j: nat, k: nat)
    requires j < 32 && k < 32
    ensures Bit(Mask(j), Mask(k)) <==> j == k
  {
    MaskBounds(j);
    MaskBounds(k);
    PowersAreDisjoint(Mask(j), Mask(k));
    if j < k {
      MaskIncreases(j, k);
    } else if k < j {
      MaskIncreases(k, j);
    }
  }

  lemma OrBit(x: bv32, y: bv32, m: bv32)
    ensures Bit(x | y, m) <==> Bit(x, m) || Bit(y, m)
  {
    AndOverOr(x, y, m);
    OrIsZero(x & m, y & m);
  }

  lemma AndOverOr(x: bv32, y: bv32, m: bv32)
    ensures (x | y) & m == (x & m) | (y & m)
  {
  }

  lemma OrIsZero(x: bv32, y: bv32)
    ensures x | y == 0 <==> x == 0 && y == 0
  {
  }

  function Or(x: bv32, y: bv32): bv32 {
    x | y
  }

  /** The bit numbers set in a word. */
  ghost function BitsOf(x: bv32): set<int> {
    set k | 0 <= k < 32 && Bit(x, Mask(k))
  }

  lemma OrBits(x: bv32, y: bv32)
    ensures BitsOf(x | y) == BitsOf(x) + BitsOf(y)
  {
    forall k | 0 <= k < 32
      ensures k in BitsOf(x | y) <==> k in BitsOf(x) || k in BitsOf(y)
    {
      OrBit(x, y, Mask(k));
    }
  }

  lemma MaskBits(k: nat)
    requires k < 32
    ensures BitsOf(Mask(k)) == {k}
  {
    forall j | 0 <= j < 32
      ensures j in BitsOf(Mask(k)) <==> j == k
    {
      MaskDisjoint(k, j);
    }
  }

  lemma ZeroBits()
    ensures BitsOf(0) == {}
  {
  }

  /** The numbers held by a row of words: bit b of word w stands for 32*w + b. */
  ghost function RowSet(ws: seq<bv32>): (s: set<int>)
    ensures forall c :: c in s <==> 0 <= c < 32 * |ws| && c % 32 in BitsOf(ws[c / 32])
  {
    set c | 0 <= c < 32 * |ws| && c % 32 in BitsOf(ws[c / 32])
  }

  lemma RowUnion(x: seq<bv32>, y: seq<bv32>, z: seq<bv32>)
    requires |x| == |y| == |z|
    requires forall w :: 0 <= w < |x| ==> z[w] == x[w] | y[w]
    ensures RowSet(z) == RowSet(x) + RowSet(y)
  {
    forall w | 0 <= w < |x|
      ensures BitsOf(z[w]) == BitsOf(x[w]) + BitsOf(y[w])
    {
      OrBits(x[w], y[w]);
    }
    forall c | 0 <= c < 32 * |x|
      ensures c in RowSet(z) <==> c in RowSet(x) || c in RowSet(y)
    {
      var w := c / 32;
      assert BitsOf(z[w]) == BitsOf(x[w]) + BitsOf(y[w]);
    }
  }

  lemma WithMask(x: bv32, k: nat, m: bv32, word: bv32)
    requires k < 32 && m == Mask(k) && word == x | m
    ensures BitsOf(word) == BitsOf(x) + {k}
  {
    hide Mask, BitsOf;
    MaskBits(k);
    OrBits(x, m);
  }

  lemma RowSetBit(x: seq<bv32>, c: nat, w: nat, m: bv32, word: bv32)
    requires At(m, w, c) && w < |x| && word == Or(x[w], m)
    ensures RowSet(x[w := word]) == RowSet(x) + {c}
  {
    hide Mask, BitsOf, RowSet;
    WithMask(x[w], c % 32, m, word);
    RowSetAdd(x, c, w, c % 32, word);
  }

  /** The word and the bit of column c. */
  lemma ColumnPlace(c: nat, n: nat) returns (w: nat, k: nat)
    requires c < 32 * n
    ensures w == c / 32 < n && k == c % 32 < 32 && c == 32 * w + k
  {
    w, k := c / 32, c % 32;
  }

  lemma RowSetAdd(x: seq<bv32>, c: nat, w: nat, k: nat, word: bv32)
    requires c == 32 * w + k && k < 32 && w < |x| && BitsOf(word) == BitsOf(x[w]) + {k}
    ensures RowSet(x[w := word]) == RowSet(x) + {c}
  {
    hide BitsOf;
    var z := x[w := word];
    forall d | 0 <= d < 32 * |x|
      ensures d in RowSet(z) <==> d in RowSet(x) || d == c
    {
      var v, l := ColumnPlace(d, |x|);
      assert z[v] == if v == w then word else x[v];
    }
  }

  lemma RowZero(x: seq<bv32>)
    requires forall w :: 0 <= w < |x| ==> x[w] == 0
    ensures RowSet(x) == {}
  {
    ZeroBits();
  }

  lemma RowTest(x: seq<bv32>, c: nat, m: bv32)
    requires c < 32 * |x| && m == Mask(c % 32)
    ensures Bit(x[c / 32], m) <==> c in RowSet(x)
  {
  }

  ghost function RowSets(m: seq<seq<bv32>>): (rows: seq<set<int>>)
    ensures |rows| == |m|
    ensures forall r :: 0 <= r < |m| ==> rows[r] == RowSet(m[r])
  {
    seq(|m|, r requires 0 <= r < |m| => RowSet(m[r]))
  }

  /** The words of a matrix, row by row. */
  ghost function Matrix(a: array2<bv32>): (m: seq<seq<bv32>>)
    reads a
    ensures |m| == a.Length0
    ensures forall r :: 0 <= r < a.Length0 ==> |m[r]| == a.Length1
    ensures forall r, w :: 0 <= r < a.Length0 && 0 <= w < a.Length1 ==> m[r][w] == a[r, w]
  {
    seq(a.Length0, r requires 0 <= r < a.Length0 reads a =>
      seq(a.Length1, w requires 0 <= w < a.Length1 reads a => a[r, w]))
  }

  lemma MatrixIs(a: array2<bv32>, m: seq<seq<bv32>>)
    requires |m| == a.Length0
    requires forall r :: 0 <= r < |m| ==> |m[r]| == a.Length1
    requires forall r, w :: 0 <= r < |m| && 0 <= w < a.Length1 ==> a[r, w] == m[r][w]
    ensures Matrix(a) == m
  {
    forall r | 0 <= r < |m|
      ensures Matrix(a)[r] == m[r]
    {
    }
  }

  /** A matrix of words as a sequence of sets. */
  ghost function Rows(a: array2<bv32>): (rows: seq<set<int>>)
    reads a
    ensures |rows| == a.Length0
  {
    RowSets(Matrix(a))
  }

  lemma UpdateTwice(rows: seq<set<int>>, r: nat, s: set<int>, t: set<int>)
    requires r < |rows|
    ensures rows[r := s][r := t] == rows[r := t]
    ensures rows[r := rows[r]] == rows
  {
  }

  lemma RowSetsUpdate(m: seq<seq<bv32>>, r: nat, ws: seq<bv32>)
    requires r < |m|
    ensures RowSets(m[r := ws]) == RowSets(m)[r := RowSet(ws)]
  {
  }

  /** The cursor (mask, word) of a scan along a row stands at column c. */
  predicate At(mask: bv32, word: nat, c: nat) {
    word == c / 32 && mask == Mask(c % 32)
  }

  lemma AtStart()
    ensures At(1, 0, 0)
  {
  }

  lemma AtBound(mask: bv32, word: nat, c: nat, n: nat)
    requires At(mask, word, c) && c < 32 * n
    ensures word < n
  {
  }

  function Shift(m: bv32): bv32 {
    m << 1
  }

  lemma NextMask(m: bv32, k: nat)
    requires k < 32 && m == Mask(k)
    ensures Shift(m) == 0 <==> k == 31
    ensures k < 31 ==> Shift(m) == Mask(k + 1)
    ensures Mask(0) == 1
  {
    MaskWraps(k);
  }

  lemma NextPlace(c: nat)
    ensures (c + 1) % 32 == if c % 32 == 31 then 0 else c % 32 + 1
    ensures (c + 1) / 32 == if c % 32 == 31 then c / 32 + 1 else c / 32
  {
  }

  /** The mask moves to the next bit, and to the first one of the next word after
      the last. */
  method NextColumn(mask: bv32, word: nat, ghost c: nat) returns (mask': bv32, word': nat)
    requires At(mask, word, c)
    ensures At(mask', word', c + 1)
  {
    hide Mask, Shift;
    NextMask(mask, c % 32);
    NextPlace(c);
    mask', word' := Shift(mask), word;
    if mask' == 0 {
      mask', word' := 1, word' + 1;
    }
  }

  method StoreOr(a: array2<bv32>, r: nat, w: nat, mask: bv32) returns (ghost word: bv32)
    requires r < a.Length0 && w < a.Length1
    modifies a
    ensures word == Or(old(a[r, w]), mask)
    ensures Matrix(a) == old(Matrix(a))[r := old(Matrix(a))[r][w := word]]
  {
    hide Or;
    ghost var m := Matrix(a);
    var x := Or(a[r, w], mask);
    word := x;
    a[r, w] := x;
    MatrixIs(a, m[r := m[r][w := x]]);
  }

  /** The first w words of x, each with those of y taken in. */
  ghost function OrTo(x: seq<bv32>, y: seq<bv32>, w: nat): (z: seq<bv32>)
    requires w <= |x| == |y|
    ensures |z| == |x|
  {
    seq(|x|, k requires 0 <= k < |x| => if k < w then Or(x[k], y[k]) else x[k])
  }

  lemma OrToNext(x: seq<bv32>, y: seq<bv32>, w: nat, word: bv32)
    requires w < |x| == |y| && word == Or(x[w], y[w])
    ensures OrTo(x, y, w)[w := word] == OrTo(x, y, w + 1)
  {
  }

  lemma OrToAt(x: seq<bv32>, y: seq<bv32>, w: nat)
    requires w < |x| == |y|
    ensures OrTo(x, y, w)[w] == x[w]
  {
  }

  lemma OrToEnds(x: seq<bv32>, y: seq<bv32>)
    requires |x| == |y|
    ensures OrTo(x, y, 0) == x && RowSet(OrTo(x, y, |x|)) == RowSet(x) + RowSet(y)
  {
    RowUnion(x, y, OrTo(x, y, |x|));
  }

  /** One word of row s is taken into row r. */
  method OrWord(a: array2<bv32>, r: nat, b: array2<bv32>, s: nat, w: nat, ghost m: seq<seq<bv32>>, ghost y: seq<bv32>)
    requires r < a.Length0 == |m| && s < b.Length0 && w < a.Length1 == b.Length1 == |m[r]| == |y|
    requires Matrix(a) == m[r := OrTo(m[r], y, w)] && (if a == b then y == m[s] else y == Matrix(b)[s])
    modifies a
    ensures Matrix(a) == m[r := OrTo(m[r], y, w + 1)]
    ensures a != b ==> Matrix(b) == old(Matrix(b))
  {
    hide OrTo, Or;
    ghost var row := OrTo(m[r], y, w);
    var mask := b[s, w];
    OrToAt(m[r], y, w);
    assert Matrix(a)[r][w] == a[r, w] && Matrix(b)[s][w] == mask;
    ghost var word := StoreOr(a, r, w, mask);
    OrToNext(m[r], y, w, word);
    assert m[r := row][r := row[w := word]] == m[r := row[w := word]];
  }

  /** Row r of `a` takes in row s of `b`, word by word. */
  method OrRow(a: array2<bv32>, r: nat, b: array2<bv32>, s: nat)
    requires r < a.Length0 && s < b.Length0 && a.Length1 == b.Length1
    modifies a
    ensures Rows(a) == old(Rows(a))[r := old(Rows(a)[r] + Rows(b)[s])]
  {
    hide OrTo, RowSet, RowSets, BitsOf, Or;
    ghost var m, y := Matrix(a), Matrix(b)[s];
    OrToEnds(m[r], y);
    var w := 0;
    while w < a.Length1
      invariant 0 <= w <= a.Length1
      invariant Matrix(a) == m[r := OrTo(m[r], y, w)]
      invariant a != b ==> Matrix(b)[s] == y
    {
      OrWord(a, r, b, s, w, m, y);
      w := w + 1;
    }
    RowSetsUpdate(m, r, OrTo(m[r], y, a.Length1));
  }

  /** Row r becomes a copy of row s, word by word. */
  method CopyRow(a: array2<bv32>, r: nat, s: nat)
    requires r < a.Length0 && s < a.Length0
    modifies a
    ensures Rows(a) == old(Rows(a))[r := old(Rows(a))[s]]
  {
    ghost var m := Matrix(a);
    var w := 0;
    while w < a.Length1
      invariant 0 <= w <= a.Length1
      invariant forall x, k :: 0 <= x < a.Length0 && 0 <= k < a.Length1 && (x != r || k >= w) ==> a[x, k] == m[x][k]
      invariant forall k :: 0 <= k < w ==> a[r, k] == m[s][k]
    {
      a[r, w] := a[s, w];
      w := w + 1;
    }
    MatrixIs(a, m[r := m[s]]);
    RowSetsUpdate(m, r, m[s]);
  }

  /** Column c is put into row r, by its word and mask. */
  method OrMask(a: array2<bv32>, r: nat, w: nat, mask: bv32, ghost c: nat)
    requires r < a.Length0 && c < 32 * a.Length1
    requires At(mask, w, c)
    modifies a
    ensures Rows(a) == old(Rows(a))[r := old(Rows(a))[r] + {c}]
  {
    hide RowSet, RowSets, At, Or;
    ghost var m := Matrix(a);
    AtBound(mask, w, c, a.Length1);
    ghost var word := StoreOr(a, r, w, mask);
    RowSetBit(m[r], c, w, mask, word);
    RowSetsUpdate(m, r, m[r][w := word]);
  }

  /** SETBIT on row r. */
  method SetBit(a: array2<bv32>, r: nat, c: nat)
    requires r < a.Length0 && c < 32 * a.Length1
    modifies a
    ensures Rows(a) == old(Rows(a))[r := old(Rows(a))[r] + {c}]
  {
    OrMask(a, r, c / 32, Mask(c % 32), c);
  }

  /** Is column c in row r? Asked by word and mask. */
  method TestMask(a: array2<bv32>, r: nat, w: nat, mask: bv32, ghost c: nat) returns (b: bool)
    requires r < a.Length0 && c < 32 * a.Length1
    requires At(mask, w, c)
    ensures b <==> c in Rows(a)[r]
  {
    RowTest(Matrix(a)[r], c, mask);
    b := Bit(a[r, w], mask);
  }

  /** The BIT macro on row r. */
  method TestBit(a: array2<bv32>, r: nat, c: nat) returns (b: bool)
    requires r < a.Length0 && c < 32 * a.Length1
    ensures b <==> c in Rows(a)[r]
  {
    b := TestMask(a, r, c / 32, Mask(c % 32), c);
  }

  /** calloc: a matrix of empty rows. */
  method NewRows(n: nat, size: nat) returns (a: array2<bv32>)
    ensures fresh(a) && a.Length0 == n && a.Length1 == size
    ensures Rows(a) == seq(n, r => {})
  {
    a := new bv32[n, size]((r, w) => 0);
    forall r | 0 <= r < n
      ensures Rows(a)[r] == {}
    {
      RowZero(Matrix(a)[r]);
    }
  }
}
