/** decCommon.c, decFloatFromString. */
module FromString {
  import opened Decimal
  import opened Finalize
  import opened StickyDigit
  import opened Numerals

  /** A C string: no terminator inside. */
  ghost predicate IsCString(s: string) {
    forall i :: 0 <= i < |s| ==> s[i] != '\0'
  }

  // ----- the scans

  /** The loop over the coefficient: an optional sign, digits, and one dot. */
  method ScanCoefficient(s: string) returns (cfirst: nat, c: nat, dotchar: int, negative: bool)
    requires IsCString(s)
    ensures SignIs(s, cfirst, negative) && IsCoefficient(s, cfirst, c, dotchar) && EndsAt(s, c, dotchar)
  {
    cfirst, c, dotchar, negative := 0, 0, -1, false;
    if CharAt(s, 0) == '-' {
      cfirst, c, negative := 1, 1, true;
    } else if CharAt(s, 0) == '+' {
      cfirst, c := 1, 1;
    }
    while c < |s| && (IsDigit(s[c]) || (s[c] == '.' && dotchar == -1))
      invariant cfirst <= c <= |s| && SignIs(s, cfirst, negative) && IsCoefficient(s, cfirst, c, dotchar)
    {
      if s[c] == '.' {
        dotchar := c;
      }
      c := c + 1;
    }
  }

  lemma ZerosCoef(s: string, a: nat, b: nat)
    requires a <= b <= |s| && forall i :: a <= i < b ==> s[i] == '0'
    ensures AllZeros(Coef(s, a, b))
  {
    if a < b { ZerosCoef(s, a, b - 1); }
  }

  ghost predicate AllZeros(d: seq<int>) {
    forall i :: 0 <= i < |d| ==> d[i] == 0
  }

  /** Leading zeros do not count. */
  lemma LeadingZeros(d: seq<int>, w: seq<int>)
    requires Digits(d) && Digits(w) && AllZeros(d)
    ensures Digits(d + w) && Val(d + w) == Val(w)
  {
    ValAppend(d, w);
    ValZero(d);
  }

  /** Only digits may follow the sign of the exponent. */
  lemma NoExponent(s: string, ce: nat, eb: nat, c: nat)
    requires ce < |s| && eb == AfterSign(s, ce + 1)
    requires (s[ce] != 'E' && s[ce] != 'e') || eb >= |s| || (eb <= c < |s| && !IsDigit(s[c]))
    ensures forall b: nat :: !ExponentIs(s, ce, b)
  {
  }

  ghost function AfterSign(s: string, c: nat): nat {
    if CharAt(s, c) == '-' || CharAt(s, c) == '+' then c + 1 else c
  }

  lemma ExponentRead(cv: Conversion, s: string, ce: nat, eb: nat, z: nat, exp: int)
    requires ce < |s| && (s[ce] == 'E' || s[ce] == 'e') && eb == AfterSign(s, ce + 1) < |s|
    requires FirstNonzero(s, eb, z) && AllDigits(s, z) && exp == Val(Coef(s, z, |s|))
    ensures ExponentIs(s, ce, eb)
    ensures var x := if |s| - z > cv.emaxd then 2 * cv.f.Emax else exp;
      ExponentOf(cv, s, ce, eb, z) == if CharAt(s, ce + 1) == '-' then -x else x
  {
    hide Coef, Val;
    ExponentValue(s, eb, z);
  }

  /** The exponent part, after a coefficient that something follows. */
  method ScanExponent(cv: Conversion, s: string, ce: nat) returns (ok: bool, exp: int, eb: nat, z: nat)
    requires IsCString(s) && ce < |s|
    ensures ok ==> ExponentIs(s, ce, eb) && FirstNonzero(s, eb, z) && exp == ExponentOf(cv, s, ce, eb, z)
    ensures !ok ==> forall b: nat :: !ExponentIs(s, ce, b)
  {
    hide Coef, Val, ExponentIs, ExponentOf, FirstNonzero;
    ok, exp, eb, z := false, 0, 0, 0;
    var c := ce;
    if s[c] != 'E' && s[c] != 'e' {
      NoExponent(s, ce, AfterSign(s, ce + 1), c);
      return;
    }
    c := c + 1;
    if CharAt(s, c) == '-' || CharAt(s, c) == '+' {
      c := c + 1;
    }
    if CharAt(s, c) == '\0' {
      NoExponent(s, ce, c, c);
      return;
    }
    eb := c;
    z := SkipZeros(s, c);
    FirstInside(s, eb, z);
    exp, c := ReadExponent(s, z);
    if c < |s| {
      NoExponent(s, ce, eb, c);
      return;
    }
    ok := true;
    ExponentRead(cv, s, ce, eb, z, exp);
    if |s| - z > cv.emaxd {
      exp := cv.f.Emax * 2;
    }
    if CharAt(s, ce + 1) == '-' {
      exp := -exp;
    }
  }

  lemma FirstInside(s: string, from: nat, z: nat)
    requires FirstNonzero(s, from, z)
    ensures from <= z <= |s|
  {
  }

  method SkipZeros(s: string, from: nat) returns (z: nat)
    requires from <= |s|
    ensures FirstNonzero(s, from, z)
  {
    z := from;
    while CharAt(s, z) == '0'
      invariant from <= z <= |s| && forall i :: from <= i < z ==> s[i] == '0'
      decreases |s| - z
    {
      z := z + 1;
    }
  }

  lemma NextDigit(s: string, from: nat, c: nat)
    requires from <= c < |s| && forall i :: from <= i <= c ==> IsDigit(s[i])
    ensures Val(Coef(s, from, c + 1)) == 10 * Val(Coef(s, from, c)) + DigitOf(s[c])
  {
    assert s[c] != '.';
    ValLast(Coef(s, from, c), DigitOf(s[c]));
  }

  /** Gathering exponent digits. */
  method ReadExponent(s: string, from: nat) returns (exp: int, c: nat)
    requires from <= |s|
    ensures from <= c <= |s| && (forall i :: from <= i < c ==> IsDigit(s[i])) && (c < |s| ==> !IsDigit(s[c]))
    ensures exp == Val(Coef(s, from, c))
  {
    exp, c := 0, from;
    while c < |s| && IsDigit(s[c])
      invariant from <= c <= |s| && (forall i :: from <= i < c ==> IsDigit(s[i]))
      invariant exp == Val(Coef(s, from, c))
    {
      NextDigit(s, from, c);
      exp := exp * 10 + DigitOf(s[c]);
      c := c + 1;
    }
  }

  lemma ExponentValue(s: string, eb: nat, z: nat)
    requires FirstNonzero(s, eb, z) && AllDigits(s, z)
    ensures AllDigits(s, eb) && Val(Coef(s, eb, |s|)) == Val(Coef(s, z, |s|))
  {
    CoefSplit(s, eb, z, |s|);
    ZerosCoef(s, eb, z);
    LeadingZeros(Coef(s, eb, z), Coef(s, z, |s|));
  }

  // ----- collecting the coefficient

  /** What is before cfirst is zeros, and `digits` digits follow. */
  ghost predicate Stripped(s: string, cf: nat, ce: nat, dot: int, cfirst: nat, digits: int) {
    && IsCoefficient(s, cf, ce, dot) && cf <= cfirst < ce
    && digits == |Coef(s, cfirst, ce)| && AllZeros(Coef(s, cf, cfirst))
  }

  lemma StripOne(s: string, cf: nat, ce: nat, dot: int, cfirst: nat, digits: int)
    requires Stripped(s, cf, ce, dot, cfirst, digits) && cfirst + 1 < ce && (s[cfirst] == '0' || s[cfirst] == '.')
    ensures Stripped(s, cf, ce, dot, cfirst + 1, if s[cfirst] == '0' then digits - 1 else digits)
  {
    CoefFirst(s, cfirst, ce);
    StillZeros(Coef(s, cf, cfirst), Coef(s, cf, cfirst + 1));
  }

  lemma StillZeros(d: seq<int>, w: seq<int>)
    requires AllZeros(d)
    ensures w == d || w == d + [0] ==> AllZeros(w)
  {
  }

  lemma CoefFirst(s: string, a: nat, b: nat)
    requires a < b <= |s| && forall i :: a <= i < b ==> IsDigit(s[i]) || s[i] == '.'
    ensures Coef(s, a, b) == (if s[a] == '.' then [] else [DigitOf(s[a])]) + Coef(s, a + 1, b)
  {
    CoefSplit(s, a, a + 1, b);
    assert Coef(s, a, a) == [];
  }

  /** Stripping leading zeros, but for the last character. */
  method StripZeros(s: string, cf: nat, ce: nat, dot: int, digits: nat) returns (cfirst: nat, digits': nat)
    requires Stripped(s, cf, ce, dot, cf, digits) && digits >= 2
    ensures Stripped(s, cf, ce, dot, cfirst, digits')
    ensures cfirst == ce - 1 || (IsDigit(s[cfirst]) && s[cfirst] != '0')
  {
    cfirst, digits' := cf, digits;
    CoefLength(s, cf, ce, dot);
    if s[cfirst] == '.' {
      StripOne(s, cf, ce, dot, cfirst, digits');
      cfirst := cfirst + 1;
    }
    if s[cfirst] == '0' {
      while cfirst < ce - 1
        invariant Stripped(s, cf, ce, dot, cfirst, digits')
        decreases ce - cfirst
      {
        if s[cfirst] != '0' {
          if s[cfirst] != '.' {
            break;
          }
        }
        StripOne(s, cf, ce, dot, cfirst, digits');
        if s[cfirst] == '0' {
          digits' := digits' - 1;
        }
        cfirst := cfirst + 1;
      }
    }
  }

  predicate FourDigits(s: string, c: nat, ce: nat) {
    c + 4 <= ce <= |s| && IsDigit(s[c]) && IsDigit(s[c + 1]) && IsDigit(s[c + 2]) && IsDigit(s[c + 3])
  }

  /** Characters from cfirst to c have been copied, ub digits in all. */
  ghost predicate Copied(s: string, cfirst: nat, c: nat, ce: nat, buf: seq<int>, ub: int) {
    && cfirst <= c <= ce <= |s| && (forall i :: cfirst <= i < ce ==> IsDigit(s[i]) || s[i] == '.')
    && 0 <= ub <= |buf| && buf[..ub] == Coef(s, cfirst, c)
  }

  lemma CopyOne(s: string, cfirst: nat, c: nat, ce: nat, buf: seq<int>, ub: int)
    requires Copied(s, cfirst, c, ce, buf, ub) && c < ce && IsDigit(s[c]) && ub < |buf|
    ensures Copied(s, cfirst, c + 1, ce, buf[ub := DigitOf(s[c])], ub + 1)
  {
    var b := buf[ub := DigitOf(s[c])];
    assert b[..ub + 1] == buf[..ub] + [DigitOf(s[c])];
  }

  method Put(s: string, ghost cfirst: nat, c: nat, ghost ce: nat, buf: array<int>, ub: int)
    requires Copied(s, cfirst, c, ce, buf[..], ub) && c < ce && IsDigit(s[c]) && ub < buf.Length
    modifies buf
    ensures Copied(s, cfirst, c + 1, ce, buf[..], ub + 1)
  {
    CopyOne(s, cfirst, c, ce, buf[..], ub);
    ghost var b := buf[..][ub := DigitOf(s[c])];
    buf[ub] := DigitOf(s[c]);
    assert buf[..] == b;
  }

  /** All digits fit the buffer: they are copied, the dot is left out. */
  method CollectAll(s: string, cf: nat, ce: nat, dot: int, buf: array<int>)
    requires IsCoefficient(s, cf, ce, dot) && |Coef(s, cf, ce)| <= buf.Length
    modifies buf
    ensures buf[..|Coef(s, cf, ce)|] == Coef(s, cf, ce)
  {
    var c, ub := cf, 0;
    assert buf[..][..0] == [];
    while c < ce
      invariant Copied(s, cf, c, ce, buf[..], ub)
    {
      if s[c] != '.' {
        CoefRoom(s, cf, c, ce);
        Put(s, cf, c, ce, buf, ub);
        ub := ub + 1;
      }
      c := c + 1;
    }
  }

  lemma {:induction false} CoefRoom(s: string, a: nat, c: nat, b: nat)
    requires a <= c < b <= |s| && (forall i :: a <= i < b ==> IsDigit(s[i]) || s[i] == '.') && s[c] != '.'
    ensures |Coef(s, a, c)| < |Coef(s, a, b)|
  {
    if c + 1 < b { CoefRoom(s, a, c, b - 1); }
  }

  /** Copying up to P+1 digits, or up to four at a time while that many follow:
      at least P+1 digits are copied, or all there are. */
  method CopyLong(P: nat, s: string, cfirst: nat, ce: nat, buf: array<int>) returns (c: nat, ub: int)
    requires cfirst <= ce <= |s| && (forall i :: cfirst <= i < ce ==> IsDigit(s[i]) || s[i] == '.') && buf.Length >= P + 4
    modifies buf
    ensures Copied(s, cfirst, c, ce, buf[..], ub) && (c == ce || ub > P)
  {
    c, ub := cfirst, 0;
    assert buf[..][..0] == [];
    while c < ce && ub <= P
      invariant Copied(s, cfirst, c, ce, buf[..], ub) && ub <= P + 4
    {
      if FourDigits(s, c, ce) {
        Put(s, cfirst, c, ce, buf, ub);
        Put(s, cfirst, c + 1, ce, buf, ub + 1);
        Put(s, cfirst, c + 2, ce, buf, ub + 2);
        Put(s, cfirst, c + 3, ce, buf, ub + 3);
        ub := ub + 4;
        c := c + 4;
      } else {
        if s[c] != '.' {
          Put(s, cfirst, c, ce, buf, ub);
          ub := ub + 1;
        }
        c := c + 1;
      }
    }
  }

  /** One more character of the coefficient: a nonzero digit shows in all of it. */
  lemma CoefMeets(s: string, from: nat, c: nat, ce: nat)
    requires from <= c < ce <= |s| && forall i :: from <= i < ce ==> IsDigit(s[i]) || s[i] == '.'
    ensures AllZeros(Coef(s, from, c)) && (s[c] == '0' || s[c] == '.') ==> AllZeros(Coef(s, from, c + 1))
    ensures s[c] != '0' && s[c] != '.' ==> !AllZeros(Coef(s, from, ce))
  {
    CoefSplit(s, from, c + 1, ce);
    if s[c] != '0' && s[c] != '.' {
      assert Coef(s, from, ce)[|Coef(s, from, c)|] == DigitOf(s[c]) != 0;
    }
  }

  /** Is anything but zeros left? */
  method AnyLeft(s: string, from: nat, ce: nat) returns (left: bool)
    requires from <= ce <= |s| && forall i :: from <= i < ce ==> IsDigit(s[i]) || s[i] == '.'
    ensures left <==> !AllZeros(Coef(s, from, ce))
  {
    var c := from;
    left := false;
    hide Coef;
    CoefNone(s, from);
    while c < ce
      invariant from <= c <= ce && AllZeros(Coef(s, from, c))
    {
      CoefMeets(s, from, c, ce);
      if s[c] != '0' {
        if s[c] != '.' {
          return true;
        }
      }
      c := c + 1;
    }
  }

  /** The digits of a coefficient too long for the buffer: without leading zeros,
      cut after P+1 digits or somewhat more, the last digit sticky. If nothing is
      left, which happens when the last character is a dot after zeros only, the
      buffer is empty (lsd == -1). */
  method CollectLong(P: nat, s: string, cf: nat, ce: nat, dot: int, digits: nat, buf: array<int>) returns (lsd: int, digits': nat, ghost cfirst: nat)
    requires Stripped(s, cf, ce, dot, cf, digits) && digits >= 2 && buf.Length >= P + 4
    modifies buf
    ensures Stripped(s, cf, ce, dot, cfirst, digits') && -1 <= lsd < buf.Length
    ensures cfirst == ce - 1 || (IsDigit(s[cfirst]) && s[cfirst] != '0')
    ensures lsd == -1 <==> Coef(s, cfirst, ce) == []
    ensures lsd >= 0 ==> Kept(Coef(s, cfirst, ce), lsd + 1, buf[..lsd + 1]) && (lsd + 1 == digits' || lsd + 1 > P)
  {
    var first;
    first, digits' := StripZeros(s, cf, ce, dot, digits);
    cfirst := first;
    var c, ub := CopyLong(P, s, first, ce, buf);
    lsd := ub - 1;
    ghost var w := Coef(s, first, ce);
    CoefSplit(s, first, c, ce);
    var left := AnyLeft(s, c, ce);
    if ub > 0 {
      ghost var b := buf[..ub];
      LeftIs(w, Coef(s, first, c), Coef(s, c, ce));
      if left {
        buf[lsd] := Sticky(buf[lsd]);
      }
      assert buf[..lsd + 1] == if left then b[ub - 1 := Sticky(b[ub - 1])] else b;
    }
  }

  lemma LeftIs(w: seq<int>, a: seq<int>, b: seq<int>)
    requires w == a + b
    ensures AllZeros(b) <==> ZeroFrom(w, |a|)
  {
    if AllZeros(b) {
      forall i | |a| <= i < |w| ensures w[i] == 0 { assert w[i] == b[i - |a|]; }
    }
    if ZeroFrom(w, |a|) {
      forall i | 0 <= i < |b| ensures b[i] == 0 { assert b[i] == w[|a| + i]; }
    }
  }

  // ----- specials

  /** decBiStr */
  method BiStr(s: string, from: nat, word: string) returns (same: bool)
    requires from <= |s|
    ensures same <==> IsWord(s, from, word)
  {
    same := BeginsNoCase(s, from, word);
    same := same && from + |word| == |s|;
  }

  method BeginsNoCase(s: string, from: nat, word: string) returns (same: bool)
    requires from <= |s|
    ensures same <==> BeginsWith(s, from, word)
  {
    var i := 0;
    while i < |word|
      invariant 0 <= i <= |word| && from + i <= |s| && forall j :: 0 <= j < i ==> Lower(s[from + j]) == word[j]
    {
      if from + i >= |s| || Lower(s[from + i]) != word[i] {
        return false;
      }
      i := i + 1;
    }
    return true;
  }

  /** NaN, with an s before it if it signals, and its payload. */
  method ScanNaN(P: nat, s: string, cf: nat) returns (ok: bool, signaling: bool, p: nat)
    requires IsCString(s) && P >= 1 && cf < |s|
    ensures ok ==> NaNIs(P, s, cf, signaling, p)
    ensures !ok ==> forall sg: bool, q: nat :: !NaNIs(P, s, cf, sg, q)
  {
    ok, signaling, p := false, false, 0;
    var c := cf;
    if s[c] == 's' || s[c] == 'S' {
      signaling := true;
      c := c + 1;
    }
    var named := BeginsNoCase(s, c, "nan");
    if !named {
      return;
    }
    c := c + 3;
    p := SkipZeros(s, c);
    var e := p;
    while e < |s| && IsDigit(s[e]) && e - p < P - 1
      invariant p <= e <= |s| && forall i :: c <= i < e ==> IsDigit(s[i])
      invariant e - p <= P - 1
    {
      e := e + 1;
    }
    ok := e == |s|;
    if !ok {
      forall sg: bool, q: nat ensures !NaNIs(P, s, cf, sg, q) {
        if AllDigits(s, c) && FirstNonzero(s, c, q) { FirstOnce(s, c, p, q); }
      }
    }
  }

  lemma FirstOnce(s: string, a: nat, p: nat, q: nat)
    requires FirstNonzero(s, a, p) && FirstNonzero(s, a, q)
    ensures p == q
  {
  }

  lemma SignOnce(s: string, cf: nat, negative: bool)
    requires SignIs(s, cf, negative)
    ensures forall c: nat, n: bool :: SignIs(s, c, n) ==> c == cf && n == negative
  {
  }

  /** No digit and no dot follow the sign: only Infinity and NaN are left. */
  method ScanSpecial(P: nat, s: string, cf: nat, negative: bool) returns (r: Reading)
    requires IsCString(s) && P >= 1 && SignIs(s, cf, negative) && cf <= |s|
    requires !IsDigit(CharAt(s, cf)) && CharAt(s, cf) != '.'
    ensures ReadAs(P, s, r) && !r.Number?
  {
    SignOnce(s, cf, negative);
    forall t ensures !IsNumber(s, t) {
      if IsNumber(s, t) { NoLonger(s, cf, cf, -1, t.ce, t.dot); }
    }
    if CharAt(s, cf) == '\0' {
      NotSpecial(P, s, cf, negative);
      return Unreadable;
    }
    var long := BiStr(s, cf, "infinity");
    var short := BiStr(s, cf, "inf");
    if long || short {
      return Infinity(negative);
    }
    var ok, signaling, p := ScanNaN(P, s, cf);
    if ok {
      r := NaN(negative, signaling, PayloadFrom(s, p));
    } else {
      NotNaN(P, s, cf, negative);
      r := Unreadable;
    }
  }

  /** The payload digits, copied to the buffer. */
  function PayloadFrom(s: string, p: nat): (d: seq<int>)
    ensures d == PayloadOf(s, p)
  {
    if p <= |s| && AllFrom(s, p) then DigitsFrom(s, p, |s|) else []
  }

  predicate AllFrom(s: string, p: nat)
    ensures p <= |s| ==> (AllFrom(s, p) <==> AllDigits(s, p))
    decreases |s| - p
  {
    if p >= |s| then true else IsDigit(s[p]) && AllFrom(s, p + 1)
  }

  function DigitsFrom(s: string, a: nat, b: nat): (d: seq<int>)
    requires a <= b <= |s| && forall i :: a <= i < b ==> IsDigit(s[i])
    ensures d == Coef(s, a, b)
  {
    if a == b then [] else DigitsFrom(s, a, b - 1) + [DigitOf(s[b - 1])]
  }

  lemma NotSpecial(P: nat, s: string, cf: nat, negative: bool)
    requires IsCString(s) && SignIs(s, cf, negative) && cf >= |s|
    requires forall t :: !IsNumber(s, t)
    ensures forall t :: !Says(P, s, t)
  {
    SignOnce(s, cf, negative);
    forall t ensures !Says(P, s, t) {
    }
  }

  lemma NotNaN(P: nat, s: string, cf: nat, negative: bool)
    requires SignIs(s, cf, negative) && !IsWord(s, cf, "infinity") && !IsWord(s, cf, "inf")
    requires forall sg: bool, q: nat :: !NaNIs(P, s, cf, sg, q)
    requires forall t :: !IsNumber(s, t)
    ensures forall t :: !Says(P, s, t)
  {
    SignOnce(s, cf, negative);
    forall t ensures !Says(P, s, t) {
    }
  }

  // ----- numbers

  datatype Outcome =
    | Value(number: Final)
    | NotANumber(negative: bool, signaling: bool, payload: seq<int>)

  ghost function StatusOf(ctx: Context): Status
    reads ctx
  {
    Status(ctx.inexact, ctx.underflow, ctx.overflow, ctx.invalidContext)
  }

  /** The coefficient does not fit the buffer, is zero, and ends in a dot: no digit of
      it is kept. */
  ghost predicate NoneKept(cv: Conversion, s: string, cf: nat, ce: nat)
    requires cf <= ce <= |s| && ce > 0
    requires forall i :: cf <= i < ce ==> IsDigit(s[i]) || s[i] == '.'
  {
    |Coef(s, cf, ce)| > cv.room && AllZeros(Coef(s, cf, ce)) && s[ce - 1] == '.'
  }

  /** And the exponent is so large that no digits overflow. */
  ghost predicate Stranded(cv: Conversion, s: string, r: Reading)
    requires IsNumber(s, r)
  {
    NoneKept(cv, s, r.cf, r.ce) && NumberExponent(cv, s, r) > cv.f.Emax + 1
  }

  /** The result of an overflow, with its status. */
  ghost predicate OverflowTo(f: Format, mode: Rounding, negative: bool, r: Final, before: Status, after: Status) {
    && r == (if ToMax(mode, negative) then Finite(negative, Repeat(9, f.P), f.Qlimit()) else Infinite(negative))
    && after == before.(inexact := true, overflow := true)
  }

  /** What is delivered when no digit is kept. */
  ghost predicate DeliversNothing(f: Format, mode: Rounding, negative: bool, q: int, r: Final, before: Status, after: Status) {
    if q > f.Emax + 1 then OverflowTo(f, mode, negative, r, before, after) else Delivers(f, mode, negative, 0, q, r, before, after)
  }

  /** decFinalize without a digit. */
  method FinishNothing(f: Format, buf: array<int>, negative: bool, exponent: int, ctx: Context) returns (r: Final)
    requires FormatOk(f) && 0 < buf.Length
    modifies buf, ctx
    ensures DeliversNothing(f, ctx.round, negative, exponent, r, old(StatusOf(ctx)), StatusOf(ctx))
    ensures ctx.conversionSyntax == old(ctx.conversionSyntax)
  {
    ghost var before := StatusOf(ctx);
    ghost var length, m, s, e;
    r, length, m, s, e := DecFinalize(f, buf, 0, -1, negative, exponent, ctx);
    if exponent <= f.Emax + 1 { ClampedZero(f, ctx.round, negative, exponent, before); }
  }

  method Finish(f: Format, buf: array<int>, lsd: int, negative: bool, exponent: int, ctx: Context) returns (r: Final)
    requires FormatOk(f) && 0 <= lsd < buf.Length && Digits(buf[..lsd + 1])
    modifies buf, ctx
    ensures Delivers(f, ctx.round, negative, old(Val(buf[..lsd + 1])), exponent, r, old(StatusOf(ctx)), StatusOf(ctx))
    ensures ctx.conversionSyntax == old(ctx.conversionSyntax)
  {
    ghost var before := StatusOf(ctx);
    assert buf[0..lsd + 1] == buf[..lsd + 1];
    ghost var n := Val(buf[..lsd + 1]);
    ghost var length, m, s, e;
    r, length, m, s, e := DecFinalize(f, buf, 0, lsd, negative, exponent, ctx);
    assert DeliversBy(f, ctx.round, negative, n, exponent, r, before, StatusOf(ctx), length, m, s, e);
  }

  /** The whole coefficient is in the buffer. */
  method FinishShort(cv: Conversion, s: string, cf: nat, ce: nat, dot: int, digits: nat, negative: bool, exponent: int, ghost x: nat, ctx: Context) returns (r: Final)
    requires ConversionOk(cv) && IsCoefficient(s, cf, ce, dot) && 1 <= digits == |Coef(s, cf, ce)| <= cv.room && x == Val(Coef(s, cf, ce))
    modifies ctx
    ensures Delivers(cv.f, ctx.round, negative, x, exponent, r, old(StatusOf(ctx)), StatusOf(ctx))
    ensures ctx.conversionSyntax == old(ctx.conversionSyntax)
  {
    var buf := new int[cv.room + 3];
    CollectAll(s, cf, ce, dot, buf);
    r := Finish(cv.f, buf, digits - 1, negative, exponent, ctx);
  }

  /** Nothing is left exactly in the stranded case. */
  lemma NothingLeft(s: string, cf: nat, ce: nat, dot: int, cfirst: nat, digits: int)
    requires Stripped(s, cf, ce, dot, cfirst, digits)
    requires cfirst == ce - 1 || (IsDigit(s[cfirst]) && s[cfirst] != '0')
    ensures Coef(s, cfirst, ce) == [] <==> AllZeros(Coef(s, cf, ce)) && s[ce - 1] == '.'
    ensures Coef(s, cfirst, ce) != [] && !(|Coef(s, cfirst, ce)| == 1) ==> Coef(s, cfirst, ce)[0] != 0
  {
    hide Coef;
    CoefSplit(s, cf, cfirst, ce);
    var w := Coef(s, cfirst, ce);
    if IsDigit(s[cfirst]) {
      CoefFirstDigit(s, cfirst, ce);
      assert Coef(s, cf, ce)[|Coef(s, cf, cfirst)|] == w[0];
    } else {
      DotOnly(s, cfirst);
    }
  }

  lemma CoefFirstDigit(s: string, a: nat, b: nat)
    requires a < b <= |s| && (forall i :: a <= i < b ==> IsDigit(s[i]) || s[i] == '.') && IsDigit(s[a])
    ensures Coef(s, a, b) != [] && Coef(s, a, b)[0] == DigitOf(s[a])
    ensures b == a + 1 ==> s[b - 1] != '.'
  {
    CoefSplit(s, a, a + 1, b);
    assert Coef(s, a, a) == [];
  }

  lemma DotOnly(s: string, a: nat)
    requires a < |s| && s[a] == '.'
    ensures Coef(s, a, a + 1) == []
  {
    assert Coef(s, a, a) == [];
  }

  /** The value of what was kept, with its exponent, delivers the whole. */
  lemma LongDelivers(f: Format, mode: Rounding, negative: bool, w: seq<int>, k: nat, v: seq<int>, n: nat, x: nat, q: int, r: Final, before: Status, after: Status)
    requires FormatOk(f) && Digits(w) && Kept(w, k, v) && Digits(v) && n == Val(v) && x == Val(w)
    requires (k == |w| || k > f.P) && (|w| > 1 ==> w[0] != 0)
    requires Delivers(f, mode, negative, n, q + (|w| - k), r, before, after)
    ensures Delivers(f, mode, negative, x, q, r, before, after)
  {
    hide Delivers, FormatOk;
    if k == |w| {
      assert v == w;
    } else {
      StickyAgrees(f, mode, negative, w, k, v, n, x, q, r, before, after);
    }
  }

  lemma KeptDigits(w: seq<int>, k: nat, v: seq<int>)
    requires Digits(w) && Kept(w, k, v)
    ensures Digits(v)
  {
  }

  lemma StrippedValue(s: string, cf: nat, ce: nat, dot: int, cfirst: nat, digits: int)
    requires Stripped(s, cf, ce, dot, cfirst, digits)
    ensures Val(Coef(s, cf, ce)) == Val(Coef(s, cfirst, ce))
  {
    CoefSplit(s, cf, cfirst, ce);
    LeadingZeros(Coef(s, cf, cfirst), Coef(s, cfirst, ce));
  }

  /** The kept digits of w are in the buffer. */
  method FinishKept(f: Format, buf: array<int>, lsd: int, negative: bool, exponent: int, digits: nat, ghost w: seq<int>, ghost x: nat, ctx: Context) returns (r: Final)
    requires FormatOk(f) && 0 <= lsd < buf.Length && Digits(w) && digits == |w| && Kept(w, lsd + 1, buf[..lsd + 1]) && x == Val(w)
    requires (lsd + 1 == digits || lsd + 1 > f.P) && (|w| > 1 ==> w[0] != 0)
    modifies buf, ctx
    ensures Delivers(f, ctx.round, negative, x, exponent, r, old(StatusOf(ctx)), StatusOf(ctx))
    ensures ctx.conversionSyntax == old(ctx.conversionSyntax)
  {
    ghost var v, before := buf[..lsd + 1], StatusOf(ctx);
    KeptDigits(w, lsd + 1, v);
    ghost var n := Val(v);
    r := Finish(f, buf, lsd, negative, exponent + (digits - (lsd + 1)), ctx);
    LongDelivers(f, ctx.round, negative, w, lsd + 1, v, n, x, exponent, r, before, StatusOf(ctx));
  }

  /** A coefficient too long for the buffer. */
  method FinishLong(cv: Conversion, s: string, cf: nat, ce: nat, dot: int, digits: nat, negative: bool, exponent: int, ghost x: nat, ctx: Context) returns (r: Final)
    requires ConversionOk(cv) && IsCoefficient(s, cf, ce, dot) && digits == |Coef(s, cf, ce)| > cv.room && x == Val(Coef(s, cf, ce))
    modifies ctx
    ensures NoneKept(cv, s, cf, ce) ==> DeliversNothing(cv.f, ctx.round, negative, exponent, r, old(StatusOf(ctx)), StatusOf(ctx))
    ensures !NoneKept(cv, s, cf, ce) ==> Delivers(cv.f, ctx.round, negative, x, exponent, r, old(StatusOf(ctx)), StatusOf(ctx))
    ensures ctx.conversionSyntax == old(ctx.conversionSyntax)
  {
    hide Coef, Val, Delivers, Kept, AllZeros, DeliversNothing;
    var buf := new int[cv.room + 3];
    var lsd, digits', cfirst := CollectLong(cv.f.P, s, cf, ce, dot, digits, buf);
    NothingLeft(s, cf, ce, dot, cfirst, digits');
    if lsd == -1 {
      r := FinishNothing(cv.f, buf, negative, exponent + digits', ctx);
    } else {
      StrippedValue(s, cf, ce, dot, cfirst, digits');
      r := FinishKept(cv.f, buf, lsd, negative, exponent, digits', Coef(s, cfirst, ce), x, ctx);
    }
  }

  // ----- decFloatFromString

  /** What the conversion promises for a string read as r. */
  ghost predicate Converted(cv: Conversion, mode: Rounding, s: string, r: Reading, out: Outcome, before: Status, after: Status) {
    match r
    case Number(negative, cf, ce, dot, eb, z) =>
      IsNumber(s, r) &&
      out.Value? &&
      (if Stranded(cv, s, r) then OverflowTo(cv.f, mode, negative, out.number, before, after)
       else Delivers(cv.f, mode, negative, Val(Coef(s, cf, ce)), NumberExponent(cv, s, r), out.number, before, after))
    case Infinity(negative) => out == Value(Infinite(negative)) && after == before
    case NaN(negative, signaling, payload) => out == NotANumber(negative, signaling, payload) && after == before
    case Unreadable => out == NotANumber(false, false, []) && after == before
  }

  method FinishCoefficient(cv: Conversion, s: string, negative: bool, cf: nat, ce: nat, dot: int, exponent: int, ghost x: nat, ctx: Context) returns (out: Final)
    requires ConversionOk(cv) && IsCoefficient(s, cf, ce, dot) && ce - cf > (if dot == -1 then 0 else 1) && x == Val(Coef(s, cf, ce))
    modifies ctx
    ensures NoneKept(cv, s, cf, ce) ==> DeliversNothing(cv.f, ctx.round, negative, exponent, out, old(StatusOf(ctx)), StatusOf(ctx))
    ensures !NoneKept(cv, s, cf, ce) ==> Delivers(cv.f, ctx.round, negative, x, exponent, out, old(StatusOf(ctx)), StatusOf(ctx))
    ensures ctx.conversionSyntax == old(ctx.conversionSyntax)
  {
    CoefLength(s, cf, ce, dot);
    var digits := if dot == -1 then ce - cf else ce - cf - 1;
    if digits <= cv.room {
      out := FinishShort(cv, s, cf, ce, dot, digits, negative, exponent, x, ctx);
    } else {
      out := FinishLong(cv, s, cf, ce, dot, digits, negative, exponent, x, ctx);
    }
  }

  method FinishNumber(cv: Conversion, s: string, negative: bool, cf: nat, ce: nat, dot: int, eb: nat, z: nat, exp: int, ctx: Context) returns (out: Outcome)
    requires ConversionOk(cv) && IsNumber(s, Number(negative, cf, ce, dot, eb, z)) && exp == ExponentOf(cv, s, ce, eb, z)
    modifies ctx
    ensures Converted(cv, ctx.round, s, Number(negative, cf, ce, dot, eb, z), out, old(StatusOf(ctx)), StatusOf(ctx))
    ensures ctx.conversionSyntax == old(ctx.conversionSyntax)
  {
    hide Coef, Val, Delivers, ExponentOf, DeliversNothing, NoneKept;
    var exponent := if dot == -1 then exp else exp - (ce - 1 - dot);
    ghost var x, before := Val(Coef(s, cf, ce)), StatusOf(ctx);
    var number := FinishCoefficient(cv, s, negative, cf, ce, dot, exponent, x, ctx);
    NumberConverted(cv, ctx.round, s, Number(negative, cf, ce, dot, eb, z), x, exponent, number, before, StatusOf(ctx));
    out := Value(number);
  }

  lemma NumberConverted(cv: Conversion, mode: Rounding, s: string, r: Reading, x: nat, exponent: int, out: Final, before: Status, after: Status)
    requires IsNumber(s, r) && x == Val(Coef(s, r.cf, r.ce)) && exponent == NumberExponent(cv, s, r)
    requires NoneKept(cv, s, r.cf, r.ce) ==> DeliversNothing(cv.f, mode, r.negative, exponent, out, before, after)
    requires !NoneKept(cv, s, r.cf, r.ce) ==> Delivers(cv.f, mode, r.negative, x, exponent, out, before, after)
    ensures Converted(cv, mode, s, r, Value(out), before, after)
  {
    hide Delivers;
    if NoneKept(cv, s, r.cf, r.ce) { ValZero(Coef(s, r.cf, r.ce)); }
  }

  /** A zero that is stranded is delivered as an overflow, and all other numbers as
      what they are: what the conversion makes of a number is that number, correctly
      rounded, exactly if it is not stranded. */
  lemma StrandedIff(cv: Conversion, mode: Rounding, s: string, r: Reading, out: Outcome, before: Status, after: Status)
    requires FormatOk(cv.f) && IsNumber(s, r) && Converted(cv, mode, s, r, out, before, after)
    ensures out.Value?
    ensures Delivers(cv.f, mode, r.negative, Val(Coef(s, r.cf, r.ce)), NumberExponent(cv, s, r), out.number, before, after) <==> !Stranded(cv, s, r)
  {
    hide DeliversBy;
    if Stranded(cv, s, r) && Delivers(cv.f, mode, r.negative, Val(Coef(s, r.cf, r.ce)), NumberExponent(cv, s, r), out.number, before, after) {
      ValZero(Coef(s, r.cf, r.ce));
      var q := NumberExponent(cv, s, r);
      var length: nat, m: nat, d, e :| DeliversBy(cv.f, mode, r.negative, 0, q, out.number, before, after, length, m, d, e);
      ZeroIsClamped(cv.f, mode, r.negative, length, q, out.number, before, after, m, d, e);
      assert false;
    }
  }

  /** With a digit or a dot after the sign, a string is a number or nothing. */
  lemma OnlyNumber(P: nat, s: string, cf: nat, negative: bool)
    requires SignIs(s, cf, negative) && (IsDigit(CharAt(s, cf)) || CharAt(s, cf) == '.')
    ensures forall t :: Says(P, s, t) ==> IsNumber(s, t)
  {
    SignOnce(s, cf, negative);
    OtherWord(s, cf, "infinity");
    OtherWord(s, cf, "inf");
    OtherWord(s, cf, "nan");
    forall t | Says(P, s, t) ensures IsNumber(s, t) {
    }
  }

  lemma OtherWord(s: string, cf: nat, word: string)
    requires word != "" && cf < |s| && Lower(s[cf]) != word[0]
    ensures !BeginsWith(s, cf, word)
  {
  }

  /** decFloatFromString: the string is recognized exactly if it is a number, an
      infinity or a NaN; a coefficient of any length is delivered correctly rounded
      with the exponent of NumberExponent, unless it is a stranded zero. Module
      ExponentCap tells when that is the exponent of the exact value. */
  method DecFloatFromString(cv: Conversion, s: string, ctx: Context) returns (out: Outcome, ghost r: Reading)
    requires ConversionOk(cv) && IsCString(s)
    modifies ctx
    ensures ReadAs(cv.f.P, s, r)
    ensures Converted(cv, ctx.round, s, r, out, old(StatusOf(ctx)), StatusOf(ctx))
    ensures ctx.conversionSyntax == (old(ctx.conversionSyntax) || r.Unreadable?)
  {
    var cfirst, c, dotchar, negative := ScanCoefficient(s);
    if c > cfirst {
      OnlyNumber(cv.f.P, s, cfirst, negative);
      var ok, exp, eb, z := true, 0, |s|, |s|;
      if c < |s| {
        ok, exp, eb, z := ScanExponent(cv, s, c);
      }
      if ok && c - cfirst > (if dotchar == -1 then 0 else 1) {
        r := Number(negative, cfirst, c, dotchar, eb, z);
        out := FinishNumber(cv, s, negative, cfirst, c, dotchar, eb, z, exp, ctx);
        return;
      }
      forall t ensures !IsNumber(s, t) {
        if IsNumber(s, t) { OneScan(s, cfirst, c, dotchar, negative, t); }
      }
      r := Unreadable;
    } else {
      var special := ScanSpecial(cv.f.P, s, cfirst, negative);
      r := special;
      if special.Infinity? {
        return Value(Infinite(special.negative)), r;
      }
      if special.NaN? {
        return NotANumber(special.negative, special.signaling, special.payload), r;
      }
    }
    ctx.conversionSyntax := true;
    out := NotANumber(false, false, []);
  }

  lemma OneScan(s: string, cf: nat, ce: nat, dot: int, negative: bool, t: Reading)
    requires SignIs(s, cf, negative) && IsCoefficient(s, cf, ce, dot) && EndsAt(s, ce, dot) && IsNumber(s, t)
    ensures t.cf == cf && t.ce == ce && t.dot == dot
  {
    SignOnce(s, cf, negative);
    NoLonger(s, cf, ce, dot, t.ce, t.dot);
    NoLonger(s, cf, t.ce, t.dot, ce, dot);
  }
}
