/** The texts that decFloatToString and decFloatToEngString write, character by
    character, and how they read (IEEE 754-2008, section 5.12). */
module NumberText {
  import opened Decimal
  import opened Finalize
  import opened Numerals

  function DigitChar(d: int): (c: char)
    requires 0 <= d <= 9
    ensures IsDigit(c) && DigitOf(c) == d && (c == '0' <==> d == 0)
  {
    ('0' as int + d) as char
  }

  /** The digits ds stand in s from a on. */
  ghost predicate CharsAt(s: string, a: nat, ds: seq<int>) {
    Digits(ds) && a + |ds| <= |s| && forall i :: a <= i < a + |ds| ==> s[i] == DigitChar(ds[i - a])
  }

  lemma CharsAreDigits(s: string, a: nat, ds: seq<int>)
    requires CharsAt(s, a, ds)
    ensures a + |ds| <= |s| && forall i :: a <= i < a + |ds| ==> IsDigit(s[i])
  {
  }

  lemma CharAtIs(s: string, a: nat, ds: seq<int>, n: nat)
    requires CharsAt(s, a, ds) && n < |ds|
    ensures a + n < |s| && IsDigit(s[a + n]) && DigitOf(s[a + n]) == ds[n]
  {
    assert s[a + n] == DigitChar(ds[(a + n) - a]);
  }

  lemma CoefMore(s: string, a: nat, b: nat, d: int)
    requires a <= b < |s| && (forall i :: a <= i <= b ==> IsDigit(s[i])) && DigitOf(s[b]) == d
    ensures Coef(s, a, b + 1) == Coef(s, a, b) + [d]
  {
  }

  lemma {:induction false} CoefChars(s: string, a: nat, ds: seq<int>, n: nat)
    requires CharsAt(s, a, ds) && n <= |ds|
    ensures forall i :: a <= i < a + n ==> IsDigit(s[i])
    ensures Coef(s, a, a + n) == ds[..n]
  {
    hide Coef, CharsAt;
    CharsAreDigits(s, a, ds);
    CoefNone(s, a);
    if n > 0 {
      CoefChars(s, a, ds, n - 1);
      CharAtIs(s, a, ds, n - 1);
      CoefMore(s, a, a + n - 1, ds[n - 1]);
      assert ds[..n] == ds[..n - 1] + [ds[n - 1]];
    }
  }

  lemma CoefOf(s: string, a: nat, ds: seq<int>)
    requires CharsAt(s, a, ds)
    ensures forall i :: a <= i < a + |ds| ==> IsDigit(s[i])
    ensures Coef(s, a, a + |ds|) == ds
  {
    CoefChars(s, a, ds, |ds|);
    assert ds[..|ds|] == ds;
  }

  // ----- digits and dot

  /** The digits before and after the dot, pre of them before it. */
  ghost function Whole(ds: seq<int>, pre: int): (w: seq<int>)
    ensures Digits(ds) ==> Digits(w)
    ensures ds != [] ==> w != []
  {
    if pre <= 0 then [0] else if pre <= |ds| then ds[..pre] else ds + Repeat(0, pre - |ds|)
  }

  ghost function Fraction(ds: seq<int>, pre: int): (f: seq<int>)
    ensures Digits(ds) ==> Digits(f)
  {
    if pre <= 0 then Repeat(0, -pre) + ds else if pre <= |ds| then ds[pre..] else []
  }

  /** From cf on s reads w, a dot and f, or w alone. */
  ghost predicate Spelled(s: string, cf: nat, w: seq<int>, f: seq<int>) {
    CharsAt(s, cf, w) && (f != [] ==> cf + |w| < |s| && s[cf + |w|] == '.' && CharsAt(s, cf + |w| + 1, f))
  }

  function DotAt(cf: nat, w: seq<int>, f: seq<int>): int {
    if f == [] then -1 else cf + |w|
  }

  function CoefficientEnd(cf: nat, w: seq<int>, f: seq<int>): nat {
    cf + |w| + if f == [] then 0 else 1 + |f|
  }

  lemma DotCoef(s: string, m: nat)
    requires m < |s| && s[m] == '.'
    ensures Coef(s, m, m + 1) == []
  {
    assert Coef(s, m, m) == [];
  }

  lemma SpelledIsCoefficient(s: string, cf: nat, w: seq<int>, f: seq<int>)
    requires Spelled(s, cf, w, f)
    ensures IsCoefficient(s, cf, CoefficientEnd(cf, w, f), DotAt(cf, w, f))
  {
    CharsAreDigits(s, cf, w);
    if f != [] { CharsAreDigits(s, cf + |w| + 1, f); }
  }

  lemma JoinCoef(s: string, cf: nat, m: nat, ce: nat, w: seq<int>, f: seq<int>)
    requires cf <= m < ce <= |s| && forall i :: cf <= i < ce ==> IsDigit(s[i]) || s[i] == '.'
    requires s[m] == '.' && Coef(s, cf, m) == w && Coef(s, m + 1, ce) == f
    ensures Coef(s, cf, ce) == w + f
  {
    DotCoef(s, m);
    CoefSplit(s, cf, m, m + 1);
    CoefSplit(s, cf, m + 1, ce);
    assert w + [] == w;
  }

  lemma SpelledCoef(s: string, cf: nat, w: seq<int>, f: seq<int>)
    requires Spelled(s, cf, w, f)
    ensures IsCoefficient(s, cf, CoefficientEnd(cf, w, f), DotAt(cf, w, f))
    ensures Coef(s, cf, CoefficientEnd(cf, w, f)) == w + f
  {
    SpelledIsCoefficient(s, cf, w, f);
    CoefOf(s, cf, w);
    if f == [] {
      assert w + f == w;
    } else {
      CoefOf(s, cf + |w| + 1, f);
      JoinCoef(s, cf, cf + |w|, CoefficientEnd(cf, w, f), w, f);
    }
  }

  /** The coefficient ends in a digit. */
  lemma EndsInDigit(s: string, cf: nat, w: seq<int>, f: seq<int>)
    requires Spelled(s, cf, w, f) && w != []
    ensures CoefficientEnd(cf, w, f) > 0 && IsDigit(s[CoefficientEnd(cf, w, f) - 1])
  {
    CharsAreDigits(s, cf, w);
    if f != [] { CharsAreDigits(s, cf + |w| + 1, f); }
  }

  // ----- the exponent

  /** The digits of n, without leading zeros. */
  ghost function DigitsOf(n: nat): (ds: seq<int>)
    ensures Digits(ds) && ds != [] && (n > 0 ==> ds[0] != 0)
  {
    if n < 10 then [n] else DigitsOf(n / 10) + [n % 10]
  }

  lemma {:induction false} DigitsOfVal(n: nat)
    ensures Val(DigitsOf(n)) == n
  {
    if n < 10 {
      OneDigit(n);
    } else {
      DigitsOfVal(n / 10);
      var ds := DigitsOf(n);
      assert ds[..|ds| - 1] == DigitsOf(n / 10);
    }
  }

  function Abs(e: int): nat {
    if e < 0 then -e else e
  }

  /** s goes on with a sign and the digits x of an exponent, and ends there. */
  ghost predicate SignedExponentAt(s: string, ce: nat, negative: bool, x: seq<int>) {
    ce + 2 + |x| == |s| && s[ce] == 'E' && s[ce + 1] == (if negative then '-' else '+') && CharsAt(s, ce + 2, x)
  }

  ghost predicate ExponentAt(s: string, ce: nat, e: int) {
    if e == 0 then ce == |s| else SignedExponentAt(s, ce, e < 0, DigitsOf(Abs(e)))
  }

  /** The exponent has few enough digits for the conversion. */
  ghost predicate ExponentFits(cv: Conversion, e: int) {
    |DigitsOf(Abs(e))| <= cv.emaxd
  }

  lemma SignedIs(s: string, ce: nat, negative: bool, x: seq<int>)
    requires SignedExponentAt(s, ce, negative, x) && x != [] && x[0] != 0
    ensures ExponentIs(s, ce, ce + 2) && FirstNonzero(s, ce + 2, ce + 2) && AllDigits(s, ce + 2)
  {
    CharsAreDigits(s, ce + 2, x);
    assert s[ce + 2] == DigitChar(x[0]);
  }

  lemma SignedDigits(cv: Conversion, s: string, ce: nat, negative: bool, x: seq<int>, v: int)
    requires SignedExponentAt(s, ce, negative, x) && x != [] && |x| <= cv.emaxd && AllDigits(s, ce + 2)
    requires Digits(x) && v == Val(x)
    ensures ExponentOf(cv, s, ce, ce + 2, ce + 2) == (if negative then -v else v)
  {
    CoefOf(s, ce + 2, x);
  }

  lemma ExponentReads(cv: Conversion, s: string, ce: nat, e: int)
    requires ExponentAt(s, ce, e) && ExponentFits(cv, e)
    ensures var eb := if e == 0 then ce else ce + 2;
      ExponentIs(s, ce, eb) && FirstNonzero(s, eb, eb) && AllDigits(s, eb) && ExponentOf(cv, s, ce, eb, eb) == e
  {
    if e != 0 {
      SignedIs(s, ce, e < 0, DigitsOf(Abs(e)));
      DigitsOfVal(Abs(e));
      SignedDigits(cv, s, ce, e < 0, DigitsOf(Abs(e)), Abs(e));
    }
  }

  lemma StopsThere(s: string, ce: nat, e: int, dot: int)
    requires ExponentAt(s, ce, e)
    ensures EndsAt(s, ce, dot)
  {
  }

  // ----- the whole text

  function SignLength(negative: bool): nat {
    if negative then 1 else 0
  }

  ghost predicate SignAt(s: string, negative: bool) {
    negative ==> s != "" && s[0] == '-'
  }

  /** A number: its sign, the digits ds with pre of them before the dot, and the
      exponent part, which is absent for 0. */
  ghost predicate PrintsNumber(s: string, negative: bool, ds: seq<int>, pre: int, e: int) {
    var cf, w, f := SignLength(negative), Whole(ds, pre), Fraction(ds, pre);
    SignAt(s, negative) && Spelled(s, cf, w, f) && ExponentAt(s, CoefficientEnd(cf, w, f), e)
  }

  lemma SignReads(s: string, negative: bool)
    requires SignAt(s, negative) && SignLength(negative) < |s| && s[SignLength(negative)] !in {'-', '+'}
    ensures SignIs(s, SignLength(negative), negative)
  {
  }

  /** What the text reads as. */
  ghost function NumberReading(negative: bool, w: seq<int>, f: seq<int>, e: int): Reading {
    var cf := SignLength(negative);
    var ce := CoefficientEnd(cf, w, f);
    var eb := if e == 0 then ce else ce + 2;
    Number(negative, cf, ce, DotAt(cf, w, f), eb, eb)
  }

  lemma PartsAreNumber(cv: Conversion, s: string, negative: bool, w: seq<int>, f: seq<int>, e: int)
    requires SignAt(s, negative) && Spelled(s, SignLength(negative), w, f) && w != []
    requires ExponentAt(s, CoefficientEnd(SignLength(negative), w, f), e) && ExponentFits(cv, e)
    ensures IsNumber(s, NumberReading(negative, w, f, e))
  {
    var r := NumberReading(negative, w, f, e);
    SpelledIsCoefficient(s, r.cf, w, f);
    CharsAreDigits(s, r.cf, w);
    SignReads(s, negative);
    ExponentReads(cv, s, r.ce, e);
    StopsThere(s, r.ce, e, r.dot);
  }

  lemma ExponentFrom(cv: Conversion, s: string, r: Reading, e: int, n: nat)
    requires IsNumber(s, r) && AllDigits(s, r.eb) && ExponentOf(cv, s, r.ce, r.eb, r.z) == e
    requires n == if r.dot == -1 then 0 else r.ce - 1 - r.dot
    ensures NumberExponent(cv, s, r) == e - n
  {
  }

  lemma PartsExponent(cv: Conversion, s: string, negative: bool, w: seq<int>, f: seq<int>, e: int, r: Reading)
    requires IsNumber(s, r) && r == NumberReading(negative, w, f, e)
    requires ExponentAt(s, CoefficientEnd(SignLength(negative), w, f), e) && ExponentFits(cv, e)
    ensures NumberExponent(cv, s, r) == e - |f|
  {
    ExponentReads(cv, s, r.ce, e);
    ExponentFrom(cv, s, r, e, |f|);
  }

  /** The text is a number with the digits w and f and the exponent they need. */
  lemma TextReads(cv: Conversion, s: string, negative: bool, ds: seq<int>, pre: int, e: int) returns (r: Reading)
    requires PrintsNumber(s, negative, ds, pre, e) && ds != [] && ExponentFits(cv, e)
    ensures IsNumber(s, r) && r.negative == negative && r.ce > 0 && s[r.ce - 1] != '.'
    ensures Coef(s, r.cf, r.ce) == Whole(ds, pre) + Fraction(ds, pre)
    ensures NumberExponent(cv, s, r) == e - |Fraction(ds, pre)|
  {
    var w, f := Whole(ds, pre), Fraction(ds, pre);
    r := NumberReading(negative, w, f, e);
    PartsAreNumber(cv, s, negative, w, f, e);
    PartsExponent(cv, s, negative, w, f, e, r);
    SpelledCoef(s, r.cf, w, f);
    EndsInDigit(s, r.cf, w, f);
  }

  // ----- infinities and NaNs

  ghost predicate WordAt(s: string, a: nat, word: string) {
    a + |word| <= |s| && forall i :: a <= i < a + |word| ==> s[i] == word[i - a]
  }

  ghost predicate PrintsInfinity(s: string, negative: bool) {
    SignAt(s, negative) && |s| == SignLength(negative) + 8 && WordAt(s, SignLength(negative), "Infinity")
  }

  /** A NaN with its payload, which is left out if it is zero. */
  ghost predicate PrintsNaN(s: string, negative: bool, signaling: bool, payload: seq<int>) {
    var cf := SignLength(negative);
    var n := cf + if signaling then 1 else 0;
    && SignAt(s, negative) && |s| == n + 3 + |payload| && (signaling ==> s[cf] == 's')
    && WordAt(s, n, "NaN") && CharsAt(s, n + 3, payload) && (payload != [] ==> payload[0] != 0)
  }

  /** After the sign comes neither a digit nor a dot. */
  lemma NoNumber(s: string, cf: nat, negative: bool, t: Reading)
    requires SignIs(s, cf, negative) && cf < |s| && !IsDigit(s[cf]) && s[cf] != '.'
    ensures !IsNumber(s, t)
  {
    if IsNumber(s, t) {
      NoLonger(s, cf, cf, -1, t.ce, t.dot);
    }
  }

  lemma LowerInfinity(s: string, cf: nat)
    requires WordAt(s, cf, "Infinity") && |s| == cf + 8
    ensures IsWord(s, cf, "infinity")
  {
    assert s[cf] == 'I' && s[cf + 1] == 'n' && s[cf + 2] == 'f' && s[cf + 3] == 'i' && s[cf + 4] == 'n' && s[cf + 5] == 'i' && s[cf + 6] == 't' && s[cf + 7] == 'y';
  }

  lemma OtherBeginning(s: string, cf: nat, word: string)
    requires word != "" && cf < |s| && Lower(s[cf]) != word[0]
    ensures !BeginsWith(s, cf, word)
  {
  }

  lemma SignUnique(s: string, cf: nat, negative: bool, c: nat, n: bool)
    requires SignIs(s, cf, negative) && SignIs(s, c, n)
    ensures c == cf && n == negative
  {
  }

  lemma InfinityReads(P: nat, s: string, negative: bool, t: Reading)
    requires PrintsInfinity(s, negative) && ReadAs(P, s, t)
    ensures t == Infinity(negative)
  {
    var cf, r := SignLength(negative), Infinity(negative);
    assert s[cf] == 'I';
    SignReads(s, negative);
    LowerInfinity(s, cf);
    assert IsInfinity(s, r);
    assert Says(P, s, r);
    NoNumber(s, cf, negative, t);
    OtherBeginning(s, cf, "nan");
    InfinityOnly(P, s, cf, negative, t);
  }

  lemma InfinityOnly(P: nat, s: string, cf: nat, negative: bool, t: Reading)
    requires SignIs(s, cf, negative) && cf < |s| && s[cf] !in {'s', 'S'} && !BeginsWith(s, cf, "nan")
    requires IsInfinity(s, t) || IsNaN(P, s, t)
    ensures t == Infinity(negative)
  {
    if IsInfinity(s, t) {
      var c: nat :| SignIs(s, c, t.negative) && (IsWord(s, c, "infinity") || IsWord(s, c, "inf"));
      SignUnique(s, cf, negative, c, t.negative);
    }
  }

  lemma LowerNaN(s: string, n: nat)
    requires WordAt(s, n, "NaN")
    ensures BeginsWith(s, n, "nan")
  {
    assert s[n] == 'N' && s[n + 1] == 'a' && s[n + 2] == 'N';
  }

  lemma NaNOnly(P: nat, s: string, cf: nat, negative: bool, signaling: bool, p: nat, t: Reading)
    requires SignIs(s, cf, negative) && NaNIs(P, s, cf, signaling, p) && cf < |s| && Lower(s[cf]) != 'i'
    requires IsInfinity(s, t) || IsNaN(P, s, t)
    ensures t == NaN(negative, signaling, PayloadOf(s, p))
  {
    if IsInfinity(s, t) {
      var c: nat :| SignIs(s, c, t.negative) && (IsWord(s, c, "infinity") || IsWord(s, c, "inf"));
      SignUnique(s, cf, negative, c, t.negative);
      OtherBeginning(s, cf, "infinity");
      OtherBeginning(s, cf, "inf");
    } else {
      var c: nat, q: nat :| SignIs(s, c, t.negative) && NaNIs(P, s, c, t.signaling, q) && t.payload == PayloadOf(s, q);
      SignUnique(s, cf, negative, c, t.negative);
      SamePayload(P, s, cf, signaling, p, t.signaling, q);
    }
  }

  lemma SamePayload(P: nat, s: string, cf: nat, signaling: bool, p: nat, other: bool, q: nat)
    requires NaNIs(P, s, cf, signaling, p) && NaNIs(P, s, cf, other, q)
    ensures other == signaling && p == q
  {
  }

  lemma NaNSays(P: nat, s: string, cf: nat, r: Reading, p: nat)
    requires r.NaN? && SignIs(s, cf, r.negative) && NaNIs(P, s, cf, r.signaling, p) && r.payload == PayloadOf(s, p)
    ensures Says(P, s, r)
  {
    assert IsNaN(P, s, r);
  }

  /** Kind and payload of a printed NaN are read back. */
  lemma NaNReads(P: nat, s: string, negative: bool, signaling: bool, payload: seq<int>, t: Reading)
    requires PrintsNaN(s, negative, signaling, payload) && |payload| + 1 <= P && ReadAs(P, s, t)
    ensures t == NaN(negative, signaling, payload)
  {
    var cf := SignLength(negative);
    var n := cf + if signaling then 1 else 0;
    assert s[n] == 'N';
    SignReads(s, negative);
    LowerNaN(s, n);
    PayloadReads(s, n + 3, payload);
    assert NaNIs(P, s, cf, signaling, n + 3);
    var r := NaN(negative, signaling, payload);
    NaNSays(P, s, cf, r, n + 3);
    NoNumber(s, cf, negative, t);
    NaNOnly(P, s, cf, negative, signaling, n + 3, t);
  }

  lemma PayloadReads(s: string, a: nat, payload: seq<int>)
    requires CharsAt(s, a, payload) && |s| == a + |payload| && (payload != [] ==> payload[0] != 0)
    ensures AllDigits(s, a) && FirstNonzero(s, a, a) && PayloadOf(s, a) == payload
  {
    CoefOf(s, a, payload);
    assert payload != [] ==> s[a] == DigitChar(payload[0]);
  }
}
