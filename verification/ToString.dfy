/** decCommon.c, decFloatToString and decFloatToEngString: a number of the format
    is written into a character buffer, shifted in place where a dot or zeros have
    to go in. */
module ToString {
  import opened Decimal
  import opened Finalize
  import opened Numerals
  import opened FromString
  import opened NumberText
  import opened RoundTrip

  /** The characters of the buffer before a are as they were. */
  twostate predicate KeptBefore(buf: array<char>, a: nat)
    reads buf
  {
    a <= buf.Length && buf[..a] == old(buf[..a])
  }

  // ----- the coefficient

  lemma {:induction false} StripMore(a: seq<int>, d: int)
    ensures Strip(a + [d]) == if Strip(a) == [] && d == 0 then [] else Strip(a) + [d]
    decreases |a|
  {
    if a != [] && a[0] == 0 {
      StripMore(a[1..], d);
      assert (a + [d])[1..] == a[1..] + [d];
    } else if a == [] {
      assert a + [d] == [d] && [d][1..] == [];
    }
  }

  lemma CharsOn(s: string, u: string, a: nat, ds: seq<int>)
    requires CharsAt(s, a, ds) && |s| <= |u| && u[..|s|] == s
    ensures CharsAt(u, a, ds)
  {
    forall i | a <= i < a + |ds| ensures u[i] == DigitChar(ds[i - a]) {
      assert u[..|s|][i] == s[i];
    }
  }

  lemma CharsMore(s: string, a: nat, ds: seq<int>, d: int)
    requires CharsAt(s, a, ds) && |s| == a + |ds| && 0 <= d <= 9
    ensures CharsAt(s + [DigitChar(d)], a, ds + [d])
  {
  }

  /** One more digit, unless it is a leading 0. */
  method PutDigit(buf: array<char>, c0: nat, c: nat, d: int, ghost t: seq<int>) returns (c': nat)
    requires 0 <= d <= 9 && c == c0 + |t| < buf.Length && CharsAt(buf[..c], c0, t)
    modifies buf
    ensures c' <= buf.Length && c' == c0 + |if t == [] && d == 0 then [] else t + [d]|
    ensures CharsAt(buf[..c'], c0, if t == [] && d == 0 then [] else t + [d]) && KeptBefore(buf, c0)
  {
    c' := c;
    if c != c0 || d != 0 {
      CharsMore(buf[..c], c0, t, d);
      ghost var was := buf[..c];
      buf[c] := DigitChar(d);
      c' := c + 1;
      assert buf[..c'] == was + [DigitChar(d)];
      assert buf[..c0] == was[..c0];
    }
  }

  /** The significant digits of the coefficient, or one 0. */
  lemma NothingThere(s: string, c0: nat)
    requires |s| == c0
    ensures Strip([]) == [] && CharsAt(s, c0, [])
  {
  }

  lemma ZeroThere(s: string, c0: nat)
    requires |s| == c0 + 1 && s[c0] == '0'
    ensures CharsAt(s, c0, [0])
  {
  }

  method PutDigits(digits: seq<int>, buf: array<char>, c0: nat) returns (c: nat)
    requires (forall i :: 0 <= i < |digits| ==> 0 <= digits[i] <= 9) && c0 + |digits| < buf.Length
    modifies buf
    ensures c == c0 + |Shown(digits)| <= buf.Length && CharsAt(buf[..c], c0, Shown(digits)) && KeptBefore(buf, c0)
  {
    hide Strip, CharsAt;
    c := c0;
    NothingThere(buf[..c0], c0);
    for i := 0 to |digits|
      invariant c == c0 + |Strip(digits[..i])| <= c0 + i && CharsAt(buf[..c], c0, Strip(digits[..i])) && KeptBefore(buf, c0)
    {
      StripMore(digits[..i], digits[i]);
      assert digits[..i + 1] == digits[..i] + [digits[i]];
      c := PutDigit(buf, c0, c, digits[i], Strip(digits[..i]));
    }
    assert digits[..|digits|] == digits;
    if c == c0 {
      buf[c] := '0';
      c := c + 1;
      ZeroThere(buf[..c], c0);
    }
  }

  /** Make room for one character. */
  method ShiftByOne(buf: array<char>, from: nat, c: nat)
    requires from <= c < buf.Length
    modifies buf
    ensures buf[..from] == old(buf[..from]) && buf[from + 1..c + 1] == old(buf[from..c])
  {
    var k := c;
    while k > from
      invariant from <= k <= c && buf[..k] == old(buf[..k]) && buf[k + 1..c + 1] == old(buf[k..c])
    {
      buf[k] := buf[k - 1];
      k := k - 1;
    }
  }

  /** Make room for a dot and put it in. */
  method InsertDot(buf: array<char>, cstart: nat, c: nat, pre: nat, ghost ds: seq<int>)
    requires 0 < pre < |ds| && c == cstart + |ds| < buf.Length && CharsAt(buf[..c], cstart, ds)
    modifies buf
    ensures Spelled(buf[..c + 1], cstart, ds[..pre], ds[pre..]) && KeptBefore(buf, cstart)
  {
    ghost var was := buf[..c];
    var dotat := cstart + pre;
    assert was[..dotat] == buf[..dotat] && was[dotat..] == buf[dotat..c];
    ShiftByOne(buf, dotat, c);
    ghost var head, tail := buf[..dotat], buf[dotat + 1..c + 1];
    buf[dotat] := '.';
    ghost var s := buf[..c + 1];
    assert s[..dotat] == buf[..dotat] == head && s[dotat + 1..] == buf[dotat + 1..c + 1] == tail;
    assert s[..dotat] == was[..dotat] && s[dotat + 1..] == was[dotat..];
    DotPut(was, s, cstart, pre, ds);
    assert s[..cstart] == buf[..cstart];
  }

  lemma DotPut(was: string, s: string, cstart: nat, pre: nat, ds: seq<int>)
    requires 0 < pre < |ds| && |was| == cstart + |ds| && CharsAt(was, cstart, ds) && |s| == |was| + 1
    requires s[..cstart + pre] == was[..cstart + pre] && s[cstart + pre] == '.' && s[cstart + pre + 1..] == was[cstart + pre..]
    ensures Spelled(s, cstart, ds[..pre], ds[pre..]) && s[..cstart] == was[..cstart]
  {
    var m := cstart + pre;
    forall i | cstart <= i < m ensures s[i] == DigitChar(ds[..pre][i - cstart]) {
      assert s[..m][i] == was[..m][i];
      assert was[i] == DigitChar(ds[i - cstart]);
    }
    forall i | m + 1 <= i < |s| ensures s[i] == DigitChar(ds[pre..][i - m - 1]) {
      assert s[m + 1..][i - m - 1] == was[m..][i - m - 1];
      assert was[i - 1] == DigitChar(ds[i - 1 - cstart]);
    }
    assert s[..cstart] == s[..m][..cstart] && was[..cstart] == was[..m][..cstart];
  }

  /** Shift the digits to the right by gap. */
  method ShiftRight(buf: array<char>, cstart: nat, c: nat, gap: nat, ghost ds: seq<int>)
    requires c == cstart + |ds| && c + gap <= buf.Length && CharsAt(buf[..c], cstart, ds) && gap > 0
    modifies buf
    ensures CharsAt(buf[..c + gap], cstart + gap, ds) && KeptBefore(buf, cstart)
  {
    var k := c;
    while k > cstart
      invariant cstart <= k <= c && buf[..k] == old(buf[..k])
      invariant forall i :: k + gap <= i < c + gap ==> buf[i] == DigitChar(ds[i - gap - cstart])
    {
      assert buf[k - 1] == old(buf[..c])[k - 1];
      buf[k - 1 + gap] := buf[k - 1];
      k := k - 1;
    }
  }

  /** Fill in "0." and zeros before digits that have been shifted. */
  lemma GapSpells(was: string, s: string, cstart: nat, zeros: nat, ds: seq<int>)
    requires |s| == |was| == cstart + zeros + 2 + |ds| && CharsAt(was, cstart + zeros + 2, ds)
    requires s[cstart] == '0' && s[cstart + 1] == '.' && forall l :: cstart + 2 <= l < cstart + zeros + 2 ==> s[l] == '0'
    requires forall l :: cstart + zeros + 2 <= l < |s| ==> s[l] == was[l]
    ensures Spelled(s, cstart, [0], Repeat(0, zeros) + ds)
  {
    var f := Repeat(0, zeros) + ds;
    forall l | cstart + 2 <= l < cstart + 2 + |f| ensures s[l] == DigitChar(f[l - (cstart + 2)]) {
    }
  }

  method FillGap(buf: array<char>, cstart: nat, zeros: nat, n: nat, ghost ds: seq<int>)
    requires ds != [] && n == cstart + zeros + 2 + |ds| <= buf.Length && CharsAt(buf[..n], cstart + zeros + 2, ds)
    modifies buf
    ensures Spelled(buf[..n], cstart, [0], Repeat(0, zeros) + ds) && KeptBefore(buf, cstart)
  {
    var from := cstart + zeros + 2;
    for i := cstart + 2 to from
      invariant buf[..cstart] == old(buf[..cstart]) && forall l :: cstart + 2 <= l < i ==> buf[l] == '0'
      invariant forall l :: from <= l < n ==> buf[l] == old(buf[l])
    {
      buf[i] := '0';
    }
    buf[cstart], buf[cstart + 1] := '0', '.';
    GapSpells(old(buf[..n]), buf[..n], cstart, zeros, ds);
  }

  /** Digits with "0." and zeros before them. */
  method OpenGap(buf: array<char>, cstart: nat, c: nat, zeros: nat, ghost ds: seq<int>)
    requires ds != [] && c == cstart + |ds| && c + 2 + zeros <= buf.Length && CharsAt(buf[..c], cstart, ds)
    modifies buf
    ensures Spelled(buf[..c + 2 + zeros], cstart, [0], Repeat(0, zeros) + ds) && KeptBefore(buf, cstart)
  {
    ShiftRight(buf, cstart, c, zeros + 2, ds);
    FillGap(buf, cstart, zeros, c + 2 + zeros, ds);
  }

  /** Zeros up to the place of the dot. */
  method PadZeros(buf: array<char>, cstart: nat, c: nat, pre: nat, ghost ds: seq<int>)
    requires |ds| <= pre && c == cstart + |ds| && cstart + pre <= buf.Length && CharsAt(buf[..c], cstart, ds)
    modifies buf
    ensures CharsAt(buf[..cstart + pre], cstart, ds + Repeat(0, pre - |ds|)) && KeptBefore(buf, cstart)
  {
    for i := c to cstart + pre
      invariant buf[..c] == old(buf[..c]) && forall l :: c <= l < i ==> buf[l] == '0'
    {
      buf[i] := '0';
    }
    assert buf[..cstart] == buf[..c][..cstart];
    assert old(buf[..cstart]) == old(buf[..c])[..cstart];
    forall i | cstart <= i < c ensures buf[i] == DigitChar(ds[i - cstart]) {
      assert buf[..c][i] == old(buf[..c])[i];
    }
  }

  lemma LayoutCases(ds: seq<int>, pre: int)
    ensures pre <= 0 ==> Whole(ds, pre) == [0] && Fraction(ds, pre) == Repeat(0, -pre) + ds
    ensures 0 < pre < |ds| ==> Whole(ds, pre) == ds[..pre] && Fraction(ds, pre) == ds[pre..]
    ensures pre > 0 && pre >= |ds| ==> Whole(ds, pre) == ds + Repeat(0, pre - |ds|) && Fraction(ds, pre) == []
  {
    assert ds + Repeat(0, 0) == ds == ds[..|ds|];
  }

  /** The coefficient, laid out with pre digits before the dot. */
  method LayOutDigits(buf: array<char>, cstart: nat, c0: nat, pre: int, ghost ds: seq<int>, ghost w: seq<int>, ghost f: seq<int>) returns (c: nat)
    requires ds != [] && c0 == cstart + |ds| <= buf.Length && CharsAt(buf[..c0], cstart, ds)
    requires w == Whole(ds, pre) && f == Fraction(ds, pre) && CoefficientEnd(cstart, w, f) <= buf.Length
    modifies buf
    ensures c == CoefficientEnd(cstart, w, f) && Spelled(buf[..c], cstart, w, f) && KeptBefore(buf, cstart)
  {
    LayoutCases(ds, pre);
    if pre <= 0 {
      OpenGap(buf, cstart, c0, -pre, ds);
      c := c0 + 2 - pre;
    } else if cstart + pre < c0 {
      InsertDot(buf, cstart, c0, pre, ds);
      c := c0 + 1;
    } else {
      PadZeros(buf, cstart, c0, pre, ds);
      c := cstart + pre;
    }
  }

  // ----- the exponent

  /** BIN2BCD8: three decimal digits. */
  function Bcd3(e: nat): (d: seq<int>)
    requires e < 1000
    ensures |d| == 3 && forall i :: 0 <= i < 3 ==> 0 <= d[i] <= 9
  {
    [e / 100, e / 10 % 10, e % 10]
  }

  lemma StripThree(a: int, b: int, c: int)
    requires c != 0 || b != 0 || a != 0
    ensures Strip([a, b, c]) == if a != 0 then [a, b, c] else if b != 0 then [b, c] else [c]
  {
    assert [a, b, c][1..] == [b, c] && [b, c][1..] == [c];
    assert c != 0 ==> Strip([c]) == [c];
    assert Strip([b, c]) == if b != 0 then [b, c] else Strip([c]);
  }

  lemma TwoDigits(n: nat)
    requires 10 <= n < 100
    ensures DigitsOf(n) == [n / 10, n % 10]
  {
    assert DigitsOf(n / 10) == [n / 10];
  }

  lemma ThreeDigits(n: nat)
    requires 100 <= n < 1000
    ensures DigitsOf(n) == [n / 100, n / 10 % 10, n % 10]
  {
    TwoDigits(n / 10);
    assert n / 10 / 10 == n / 100;
  }

  lemma DivTens(n: nat, m: nat)
    requires m == n / 10
    ensures m / 10 == n / 100 && m / 100 == n / 1000
  {
  }

  lemma FourDigitParts(n: nat)
    requires 1000 <= n < 10000
    ensures DigitsOf(n) == [n / 1000, n / 100 % 10, n / 10 % 10, n % 10]
  {
    var m := n / 10;
    ThreeDigits(m);
    DivTens(n, m);
    var ds := [m / 100, m / 10 % 10, m % 10];
    assert DigitsOf(m) == ds && DigitsOf(n) == ds + [n % 10];
    assert ds + [n % 10] == [n / 1000, n / 100 % 10, n / 10 % 10, n % 10];
  }

  lemma DigitsOf3(e: nat)
    requires 0 < e < 1000
    ensures DigitsOf(e) == Strip(Bcd3(e)) == Shown(Bcd3(e))
  {
    StripThree(e / 100, e / 10 % 10, e % 10);
    if e >= 100 {
      ThreeDigits(e);
    } else if e >= 10 {
      TwoDigits(e);
      assert e / 100 == 0 && e / 10 % 10 == e / 10;
    } else {
      assert e / 100 == 0 && e / 10 == 0 && e % 10 == e;
    }
  }

  /** The thousands by multiplication and shift. */
  lemma Thousands(e: nat)
    requires 1000 <= e < 10000
    ensures e / 8 * 1049 / 131072 == e / 1000
  {
    var t, q := e / 1000, e / 8;
    assert 125 * t <= q <= 125 * t + 124;
    assert 131072 * t <= q * 1049 < 131072 * (t + 1);
  }

  lemma DigitsOf4(e: nat, t: nat, r: nat)
    requires 1000 <= e < 10000 && t == e / 1000 && r == e - 1000 * t
    ensures r < 1000 && 0 <= t <= 9 && DigitsOf(e) == [t] + Bcd3(r)
  {
    FourDigitParts(e);
    SameDigits(e, t, r);
  }

  lemma TensAside(t: int, x: int)
    ensures (10 * t + x) % 10 == x % 10
  {
  }

  lemma SameDigits(e: nat, t: nat, r: nat)
    requires 1000 <= e < 10000 && t == e / 1000 && r == e - 1000 * t
    ensures 0 <= r < 1000 && r / 100 == e / 100 % 10 && r / 10 % 10 == e / 10 % 10 && r % 10 == e % 10
  {
    assert e / 100 == 10 * t + r / 100;
    TensAside(t, r / 100);
    assert e / 10 == 100 * t + r / 10;
    TensAside(10 * t, r / 10);
    TensAside(100 * t, r);
  }

  /** The digits of the exponent. */
  method PutExponentDigits(buf: array<char>, c0: nat, e: nat) returns (c: nat)
    requires 0 < e < 10000 && c0 + 4 < buf.Length
    modifies buf
    ensures c == c0 + |DigitsOf(e)| <= c0 + 4 && CharsAt(buf[..c], c0, DigitsOf(e)) && KeptBefore(buf, c0)
  {
    if e < 1000 {
      DigitsOf3(e);
      c := PutDigits(Bcd3(e), buf, c0);
    } else {
      Thousands(e);
      var thou := e / 8 * 1049 / 131072;
      DigitsOf4(e, thou, e - 1000 * thou);
      var d := Bcd3(e - 1000 * thou);
      buf[c0] := DigitChar(thou);
      buf[c0 + 1], buf[c0 + 2], buf[c0 + 3] := DigitChar(d[0]), DigitChar(d[1]), DigitChar(d[2]);
      c := c0 + 4;
      assert DigitsOf(e) == [thou, d[0], d[1], d[2]];
    }
  }

  /** The exponent part, if there is one. */
  method PutExponent(buf: array<char>, c0: nat, e: int) returns (c: nat)
    requires -10000 < e < 10000 && (e != 0 ==> c0 + 6 < buf.Length) && c0 <= buf.Length
    modifies buf
    ensures c <= buf.Length && (e == 0 ==> c == c0) && (e != 0 ==> c <= c0 + 6)
    ensures ExponentAt(buf[..c], c0, e) && KeptBefore(buf, c0)
  {
    c := c0;
    if e != 0 {
      buf[c], buf[c + 1] := 'E', if e < 0 then '-' else '+';
      label L:
      c := PutExponentDigits(buf, c + 2, Abs(e));
      assert buf[..c0 + 2] == old@L(buf[..c0 + 2]);
      assert buf[c0] == buf[..c0 + 2][c0] && buf[c0 + 1] == buf[..c0 + 2][c0 + 1];
      assert buf[..c0] == buf[..c0 + 2][..c0];
    }
  }

  // ----- the whole number

  lemma SpelledOn(s: string, u: string, cf: nat, w: seq<int>, f: seq<int>)
    requires Spelled(s, cf, w, f) && |s| <= |u| && u[..|s|] == s
    ensures Spelled(u, cf, w, f)
  {
    CharsOn(s, u, cf, w);
    if f != [] {
      CharsOn(s, u, cf + |w| + 1, f);
      assert u[..|s|][cf + |w|] == u[cf + |w|];
    }
  }

  /** A layout with room in the buffer: the coefficient and an exponent part. */
  ghost predicate HasRoom(length: nat, cstart: nat, ds: seq<int>, pre: int, e: int) {
    && ds != [] && -10000 < e < 10000
    && CoefficientEnd(cstart, Whole(ds, pre), Fraction(ds, pre)) + (if e != 0 then 6 else 0) < length
  }

  /** The exponent part and the terminator, after the coefficient. */
  method PutTail(buf: array<char>, cstart: nat, ce: nat, e: int, ghost w: seq<int>, ghost f: seq<int>) returns (c: nat)
    requires -10000 < e < 10000 && ce + (if e != 0 then 6 else 0) < buf.Length
    requires ce == CoefficientEnd(cstart, w, f) && Spelled(buf[..ce], cstart, w, f)
    modifies buf
    ensures c < buf.Length && buf[c] == '\0' && KeptBefore(buf, cstart)
    ensures Spelled(buf[..c], cstart, w, f) && ExponentAt(buf[..c], ce, e)
  {
    ghost var laid := buf[..ce];
    c := PutExponent(buf, ce, e);
    ghost var text := buf[..c];
    assert text[..ce] == laid && text[..cstart] == laid[..cstart];
    SpelledOn(laid, text, cstart, w, f);
    buf[c] := '\0';
    assert buf[..c] == text && buf[..cstart] == text[..cstart];
  }

  /** From the digits at cstart on: dot or zeros, exponent part, terminator. */
  method PutRest(buf: array<char>, cstart: nat, c0: nat, pre: int, e: int, ghost ds: seq<int>) returns (c: nat)
    requires HasRoom(buf.Length, cstart, ds, pre, e) && c0 == cstart + |ds| <= buf.Length && CharsAt(buf[..c0], cstart, ds)
    modifies buf
    ensures c < buf.Length && buf[c] == '\0' && KeptBefore(buf, cstart)
    ensures Spelled(buf[..c], cstart, Whole(ds, pre), Fraction(ds, pre))
    ensures ExponentAt(buf[..c], CoefficientEnd(cstart, Whole(ds, pre), Fraction(ds, pre)), e)
  {
    var ce := LayOutDigits(buf, cstart, c0, pre, ds, Whole(ds, pre), Fraction(ds, pre));
    c := PutTail(buf, cstart, ce, e, Whole(ds, pre), Fraction(ds, pre));
  }

  method PutSign(buf: array<char>, negative: bool) returns (c: nat)
    requires buf.Length >= 1
    modifies buf
    ensures c == SignLength(negative) && SignAt(buf[..c], negative)
  {
    c := 0;
    if negative {
      buf[c] := '-';
      c := c + 1;
    }
  }

  method PutWord(buf: array<char>, c0: nat, word: string) returns (c: nat)
    requires c0 + |word| <= buf.Length
    modifies buf
    ensures c == c0 + |word| && WordAt(buf[..c], c0, word) && KeptBefore(buf, c0)
  {
    for i := 0 to |word|
      invariant buf[..c0] == old(buf[..c0]) && forall l :: c0 <= l < c0 + i ==> buf[l] == word[l - c0]
    {
      buf[c0 + i] := word[i];
    }
    c := c0 + |word|;
  }

  // ----- the two conversions

  /** Formats whose exponents print in at most four digits. */
  ghost predicate Printable(f: Format) {
    FormatOk(f) && f.P >= 3 && f.Emax + 3 < 10000 && 3 - f.Qtiny() < 10000
  }

  lemma PlainRoom(f: Format, negative: bool, ds: seq<int>, exp: int, pre: int, e: int)
    requires Printable(f) && 0 < |ds| <= f.P && f.Qtiny() <= exp <= f.Qlimit() && (pre, e) == PlainLayout(|ds|, exp)
    ensures HasRoom(f.P + 9, SignLength(negative), ds, pre, e)
  {
    LayoutCases(ds, pre);
  }

  lemma EngRoom(f: Format, negative: bool, ds: seq<int>, exp: int, pre: int, e: int)
    requires Printable(f) && 0 < |ds| <= f.P && f.Qtiny() <= exp <= f.Qlimit() && (pre, e) == EngLayout(|ds|, exp, ds == [0])
    ensures HasRoom(f.P + 9, SignLength(negative), ds, pre, e)
  {
    LayoutCases(ds, pre);
  }

  ghost function LayoutOf(digits: seq<int>, exp: int, eng: bool): (int, int) {
    var ds := Shown(digits);
    if eng then EngLayout(|ds|, exp, ds == [0]) else PlainLayout(|ds|, exp)
  }

  lemma Assembled(s: string, negative: bool, ds: seq<int>, pre: int, e: int, head: string)
    requires SignAt(head, negative) && |head| == SignLength(negative) <= |s| && s[..|head|] == head
    requires Spelled(s, |head|, Whole(ds, pre), Fraction(ds, pre))
    requires ExponentAt(s, CoefficientEnd(|head|, Whole(ds, pre), Fraction(ds, pre)), e)
    ensures PrintsNumber(s, negative, ds, pre, e)
  {
  }

  /** Sign and coefficient digits, and the rest by the layout. */
  method PutNumber(buf: array<char>, negative: bool, digits: seq<int>, exp: int, eng: bool, ghost ds: seq<int>, ghost l: (int, int)) returns (c: nat)
    requires (forall i :: 0 <= i < |digits| ==> 0 <= digits[i] <= 9) && |digits| + 2 <= buf.Length
    requires ds == Shown(digits) && l == LayoutOf(digits, exp, eng) && HasRoom(buf.Length, SignLength(negative), ds, l.0, l.1)
    modifies buf
    ensures c < buf.Length && buf[c] == '\0' && PrintsNumber(buf[..c], negative, ds, l.0, l.1)
  {
    var cstart := PutSign(buf, negative);
    ghost var head := buf[..cstart];
    var c0 := PutDigits(digits, buf, cstart);
    assert buf[..cstart] == head;
    var pre, e := FindLayout(buf, cstart, c0, exp, eng, ds, l);
    c := PutRest(buf, cstart, c0, pre, e, ds);
    assert buf[..c][..cstart] == head;
    Assembled(buf[..c], negative, ds, pre, e, head);
  }

  method FindLayout(buf: array<char>, cstart: nat, c0: nat, exp: int, eng: bool, ghost ds: seq<int>, ghost l: (int, int)) returns (pre: int, e: int)
    requires ds != [] && c0 == cstart + |ds| <= buf.Length && CharsAt(buf[..c0], cstart, ds)
    requires l == if eng then EngLayout(|ds|, exp, ds == [0]) else PlainLayout(|ds|, exp)
    ensures (pre, e) == l
  {
    var zero := c0 == cstart + 1 && buf[cstart] == '0';
    IsZero(buf[..c0], cstart, ds, zero);
    pre, e := ChooseLayout(c0 - cstart, exp, zero, eng);
  }

  lemma IsZero(s: string, cstart: nat, ds: seq<int>, zero: bool)
    requires CharsAt(s, cstart, ds) && |s| == cstart + |ds| && ds != [] && zero == (|ds| == 1 && s[cstart] == '0')
    ensures zero <==> ds == [0]
  {
  }

  /** Where the dot goes and what the exponent part says. */
  method ChooseLayout(len: nat, exp: int, zero: bool, eng: bool) returns (pre: int, e: int)
    ensures (pre, e) == if eng then EngLayout(len, exp, zero) else PlainLayout(len, exp)
  {
    e := 0;
    pre := len + exp;
    if exp > 0 || pre < -5 {
      e := pre - 1;
      pre := 1;
      if eng {
        var adj;
        if e < 0 {
          adj := -e % 3;
          if adj != 0 {
            adj := 3 - adj;
          }
        } else {
          adj := e % 3;
        }
        e := e - adj;
        if !zero {
          pre := pre + adj;
        } else if adj != 0 {
          e := e + 3;
          pre := -(2 - adj);
        }
      }
    }
  }

  method PutSpecial(buf: array<char>, x: Datum) returns (c: nat)
    requires !x.Num? && buf.Length >= 10
    requires x.Nan? ==> (forall i :: 0 <= i < |x.payload| ==> 0 <= x.payload[i] <= 9) && |x.payload| + 6 <= buf.Length
    modifies buf
    ensures c < buf.Length && buf[c] == '\0' && Prints(buf[..c], x, false) && Prints(buf[..c], x, true)
  {
    c := PutSign(buf, x.negative);
    ghost var cf, head := c, buf[..c];
    if x.Inf? {
      c := PutWord(buf, c, "Infinity");
      assert buf[..c][..cf] == head;
    } else {
      c := PutNaN(buf, c, x.signaling, x.payload, head, x.negative);
    }
    ghost var text := buf[..c];
    buf[c] := '\0';
    assert buf[..c] == text;
  }

  /** The payload, unless it is zero. */
  method PutPayload(buf: array<char>, c0: nat, payload: seq<int>) returns (c: nat)
    requires (forall i :: 0 <= i < |payload| ==> 0 <= payload[i] <= 9) && c0 + |payload| < buf.Length
    modifies buf
    ensures c == c0 + |Strip(payload)| && CharsAt(buf[..c], c0, Strip(payload)) && KeptBefore(buf, c0)
  {
    c := c0;
    StripsAway(payload);
    if !AllZero(payload) {
      c := PutDigits(payload, buf, c);
    }
  }

  /** The word and the payload. */
  method PutNaN(buf: array<char>, cf: nat, signaling: bool, payload: seq<int>, ghost head: string, ghost negative: bool) returns (c: nat)
    requires forall i :: 0 <= i < |payload| ==> 0 <= payload[i] <= 9
    requires cf == |head| == SignLength(negative) && cf + |payload| + 4 < buf.Length && buf[..cf] == head && SignAt(head, negative)
    modifies buf
    ensures c < buf.Length && PrintsNaN(buf[..c], negative, signaling, Strip(payload))
  {
    c := cf;
    if signaling {
      buf[c] := 's';
      c := c + 1;
    }
    ghost var start := buf[..c];
    assert start == head + if signaling then "s" else "";
    c := PutWord(buf, c, "NaN");
    ghost var word := buf[..c];
    assert word[..|start|] == start;
    c := PutPayload(buf, c, payload);
    assert buf[..c][..|word|] == word;
    NaNPrinted(buf[..c], negative, signaling, Strip(payload), head, start, word);
  }

  predicate AllZero(payload: seq<int>) {
    forall i :: 0 <= i < |payload| ==> payload[i] == 0
  }

  lemma {:induction false} StripsAway(ds: seq<int>)
    ensures AllZero(ds) <==> Strip(ds) == []
    decreases |ds|
  {
    if ds != [] && ds[0] == 0 {
      StripsAway(ds[1..]);
      assert ds == [0] + ds[1..];
    }
  }

  lemma NaNPrinted(s: string, negative: bool, signaling: bool, t: seq<int>, head: string, start: string, word: string)
    requires SignAt(head, negative) && |head| == SignLength(negative) && head <= start <= word <= s
    requires start == head + (if signaling then "s" else "") && |word| == |start| + 3 && WordAt(word, |start|, "NaN")
    requires CharsAt(s, |word|, t) && |s| == |word| + |t| && (t != [] ==> t[0] != 0)
    ensures PrintsNaN(s, negative, signaling, t)
  {
  }

  /** decFloatToString, or decFloatToEngString; the string ends at the terminator. */
  method Convert(f: Format, x: Datum, eng: bool) returns (buf: array<char>, ghost s: string)
    requires Printable(f) && InFormat(f, x)
    ensures fresh(buf) && buf.Length == f.P + 9 && |s| < buf.Length && buf[..|s|] == s && buf[|s|] == '\0'
    ensures Prints(s, x, eng)
  {
    buf := new char[f.P + 9];
    var c;
    if x.Num? {
      ghost var ds, l := Shown(x.digits), LayoutOf(x.digits, x.exponent, eng);
      if eng {
        EngRoom(f, x.negative, ds, x.exponent, l.0, l.1);
      } else {
        PlainRoom(f, x.negative, ds, x.exponent, l.0, l.1);
      }
      c := PutNumber(buf, x.negative, x.digits, x.exponent, eng, ds, l);
    } else {
      c := PutSpecial(buf, x);
    }
    s := buf[..c];
  }

  method DecFloatToString(f: Format, x: Datum) returns (buf: array<char>, ghost s: string)
    requires Printable(f) && InFormat(f, x)
    ensures fresh(buf) && buf.Length == f.P + 9 && |s| < buf.Length && buf[..|s|] == s && buf[|s|] == '\0'
    ensures Prints(s, x, false)
  {
    buf, s := Convert(f, x, false);
  }

  method DecFloatToEngString(f: Format, x: Datum) returns (buf: array<char>, ghost s: string)
    requires Printable(f) && InFormat(f, x)
    ensures fresh(buf) && buf.Length == f.P + 9 && |s| < buf.Length && buf[..|s|] == s && buf[|s|] == '\0'
    ensures Prints(s, x, true)
  {
    buf, s := Convert(f, x, true);
  }

  /** The characters up to the terminator. */
  method StringIn(buf: array<char>, ghost s: string) returns (t: string)
    requires |s| < buf.Length && buf[..|s|] == s && buf[|s|] == '\0' && IsCString(s)
    ensures t == s
  {
    var i := 0;
    forall k | 0 <= k < |s| ensures buf[k] != '\0' {
      assert buf[..|s|][k] == s[k];
    }
    while buf[i] != '\0'
      invariant i <= |s|
      decreases |s| - i
    {
      i := i + 1;
    }
    t := buf[..i];
  }

  lemma PrintedIsText(s: string, x: Datum, eng: bool)
    requires Prints(s, x, eng) && (x.Num? ==> Digits(x.digits)) && (x.Nan? ==> Digits(x.payload))
    ensures IsCString(s)
  {
    if x.Num? {
      var l := LayoutOf(x.digits, x.exponent, eng);
      NumberIsText(s, x.negative, Whole(Shown(x.digits), l.0), Fraction(Shown(x.digits), l.0), l.1);
    }
  }

  lemma NumberIsText(s: string, negative: bool, w: seq<int>, f: seq<int>, e: int)
    requires SignAt(s, negative) && Spelled(s, SignLength(negative), w, f) && ExponentAt(s, CoefficientEnd(SignLength(negative), w, f), e)
    ensures IsCString(s)
  {
    var cf := SignLength(negative);
    CharsAreDigits(s, cf, w);
    if f != [] { CharsAreDigits(s, cf + |w| + 1, f); }
    if e != 0 { CharsAreDigits(s, CoefficientEnd(cf, w, f) + 2, DigitsOf(Abs(e))); }
  }

  /** Print and read: the very same number, infinity or NaN, and no status. */
  method PrintAndRead(cv: Conversion, x: Datum, ctx: Context) returns (out: Outcome)
    requires ConversionOk(cv) && PrintsIn(cv) && Printable(cv.f) && InFormat(cv.f, x)
    modifies ctx
    ensures out == Same(x) && StatusOf(ctx) == old(StatusOf(ctx)) && ctx.conversionSyntax == old(ctx.conversionSyntax)
  {
    ghost var before := StatusOf(ctx);
    ghost var r;
    var buf, text := DecFloatToString(cv.f, x);
    PrintedIsText(text, x, false);
    var s := StringIn(buf, text);
    out, r := DecFloatFromString(cv, s, ctx);
    PlainRoundTrip(cv, ctx.round, x, s, r, out, before, StatusOf(ctx));
  }

  /** The same in engineering notation: the same value, and no status. */
  method PrintEngAndRead(cv: Conversion, x: Datum, ctx: Context) returns (out: Outcome)
    requires ConversionOk(cv) && PrintsIn(cv) && Printable(cv.f) && InFormat(cv.f, x)
    modifies ctx
    ensures if x.Num? then SameNumber(x, out) else out == Same(x)
    ensures StatusOf(ctx) == old(StatusOf(ctx)) && ctx.conversionSyntax == old(ctx.conversionSyntax)
  {
    ghost var before := StatusOf(ctx);
    ghost var r;
    var buf, text := DecFloatToEngString(cv.f, x);
    PrintedIsText(text, x, true);
    var s := StringIn(buf, text);
    out, r := DecFloatFromString(cv, s, ctx);
    EngRoundTrip(cv, ctx.round, x, s, r, out, before, StatusOf(ctx));
  }
}
