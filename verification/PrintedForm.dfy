/** What a printed number looks like (decCommon.c, decFloatToString; IEEE 754-2008,
    section 5.12.2): when there is an exponent part, where the dot stands, and how
    many digits surround it. With the round trips this leaves one text for each
    number. */
module PrintedForm {
  import opened Decimal
  import opened Finalize
  import opened CorrectRounding
  import opened Numerals
  import opened NumberText
  import opened RoundTrip

  /** A minus sign or none, digits up to d, a dot and more digits up to c, if d is not
      c, and from c on an exponent part, if c is not the end: a sign, and digits of
      which the first is not 0. */
  ghost predicate Shape(s: string, negative: bool, d: nat, c: nat) {
    var cf := if negative then 1 else 0;
    && (negative ==> s != "" && s[0] == '-') && cf < d <= c <= |s|
    && (forall i :: cf <= i < c && i != d ==> IsDigit(s[i]))
    && (d < c ==> s[d] == '.' && d + 1 < c)
    && (c < |s| ==> c + 2 < |s| && s[c] == 'E' && s[c + 1] in {'+', '-'} && s[c + 2] != '0' && forall i :: c + 2 <= i < |s| ==> IsDigit(s[i]))
  }

  /** Digits behind the dot. */
  function Behind(d: nat, c: nat): int {
    if d < c then c - d - 1 else 0
  }

  /** The exponent that is written, 0 if there is none. */
  ghost function Power(s: string, negative: bool, d: nat, c: nat): int
    requires Shape(s, negative, d, c)
  {
    if c == |s| then 0
    else
      var x: int := Val(Coef(s, c + 2, |s|));
      if s[c + 1] == '-' then -x else x
  }

  /** v * 10^e is below 10^-6, or a zero of an exponent below -6. */
  ghost predicate BelowMillionth(v: nat, e: int) {
    e < -6 && v < Pow10(-6 - e)
  }

  /** The form decFloatToString prints a number in: with an exponent part exactly if
      the exponent is above 0 or the value below a millionth. Without one, as many
      digits stand behind the dot as the exponent is below 0; with one, a single
      digit stands before the dot, which is 0 only for a lone 0. */
  ghost predicate PlainForm(s: string, negative: bool, v: nat, exponent: int, d: nat, c: nat) {
    var cf := if negative then 1 else 0;
    && Shape(s, negative, d, c)
    && ('E' in s <==> exponent > 0 || BelowMillionth(v, exponent))
    && Behind(d, c) == Power(s, negative, d, c) - exponent
    && (s[cf] == '0' ==> d == cf + 1)
    && ('E' in s ==> d == cf + 1 && (s[cf] == '0' <==> v == 0) && (v == 0 ==> c == d))
  }

  /** The form decFloatToEngString prints it in: a positive exponent shows in an
      exponent part only from 1000 on, or for a zero. The exponent part is a multiple
      of three with one to three digits before the dot, of which the first is not 0;
      for a zero, one 0 stands there, and the exponent part is the least multiple of
      three that is not below the exponent. The last digit is that of the number,
      unless zeros had to be added before the dot. */
  ghost predicate EngForm(s: string, negative: bool, v: nat, exponent: int, d: nat, c: nat) {
    var cf := if negative then 1 else 0;
    && Shape(s, negative, d, c)
    && ('E' in s <==> (exponent > 0 && (v == 0 || v * Pow10(exponent) >= 1000)) || BelowMillionth(v, exponent))
    && var p := Power(s, negative, d, c);
       && p % 3 == 0 && Behind(d, c) == (if p > exponent then p - exponent else 0)
       && (s[cf] == '0' ==> d == cf + 1)
       && ('E' in s && v != 0 ==> 1 <= d - cf <= 3 && s[cf] != '0')
       && ('E' in s && v == 0 ==> d == cf + 1 && s[cf] == '0' && exponent <= p <= exponent + 2)
  }

  lemma PartShape(s: string, c: nat, e: int)
    requires ExponentAt(s, c, e) && e != 0
    ensures c + 2 < |s| && s[c] == 'E' && s[c + 1] == (if e < 0 then '-' else '+') && s[c + 2] != '0'
    ensures (forall i :: c + 2 <= i < |s| ==> IsDigit(s[i])) && Val(Coef(s, c + 2, |s|)) == Abs(e)
  {
    hide Coef, Val;
    var x := DigitsOf(Abs(e));
    CoefOf(s, c + 2, x);
    DigitsOfVal(Abs(e));
    assert s[c + 2] == DigitChar(x[0]);
  }

  /** The shape of a text with pre digits before the dot and exponent part e. */
  lemma ShapeOf(s: string, negative: bool, ds: seq<int>, pre: int, e: int, d: nat, c: nat)
    requires PrintsNumber(s, negative, ds, pre, e) && ds != []
    requires d == SignLength(negative) + |Whole(ds, pre)| && c == CoefficientEnd(SignLength(negative), Whole(ds, pre), Fraction(ds, pre))
    ensures Shape(s, negative, d, c) && ('E' in s <==> e != 0)
    ensures Power(s, negative, d, c) == e && Behind(d, c) == |Fraction(ds, pre)|
  {
    hide Whole, Fraction, Coef, CharsAt;
    var cf, w, f := SignLength(negative), Whole(ds, pre), Fraction(ds, pre);
    SpelledIsCoefficient(s, cf, w, f);
    if e != 0 { PartShape(s, c, e); }
    assert forall i :: cf <= i < c ==> s[i] != 'E';
  }

  /** Digits before and behind the dot, and the first one. */
  lemma Around(s: string, negative: bool, ds: seq<int>, pre: int, e: int)
    requires PrintsNumber(s, negative, ds, pre, e) && IsTrimmed(ds)
    ensures |Whole(ds, pre)| == (if pre <= 0 then 1 else pre) && |Fraction(ds, pre)| == FractionLength(|ds|, pre)
    ensures SignLength(negative) < |s| && (s[SignLength(negative)] == '0' <==> pre <= 0 || ds == [0])
  {
    var cf, w := SignLength(negative), Whole(ds, pre);
    assert s[cf] == DigitChar(w[0]);
    assert ds[0] == 0 ==> ds == [0];
  }

  lemma LengthBelow(n: nat, length: nat, k: nat)
    requires HasLength(n, length) && k > 0
    ensures n < Pow10(k) <==> length <= k
  {
    if length <= k { PowMono(length, k); } else { PowMono(k, length - 1); }
  }

  /** How many digits a number has tells whether it is below a millionth. */
  lemma MillionthIs(ds: seq<int>, exp: int)
    requires Digits(ds) && IsTrimmed(ds)
    ensures BelowMillionth(Val(ds), exp) <==> |ds| + exp < -5
  {
    hide Val, HasLength, IsTrimmed, Digits, Pow10;
    TrimmedLength(ds);
    if exp < -6 { LengthBelow(Val(ds), |ds|, -6 - exp); }
  }

  lemma ThousandIs(ds: seq<int>, exp: nat)
    requires Digits(ds) && IsTrimmed(ds) && ds != [0]
    ensures Val(ds) * Pow10(exp) >= 1000 <==> |ds| + exp > 3
  {
    hide Val, IsTrimmed, Digits;
    TrimmedLength(ds);
    PowSum(|ds|, exp);
    PowSum(|ds| - 1, exp);
    MulLess(Val(ds), Pow10(|ds|), Pow10(exp));
    MulMono(Pow10(|ds| - 1), Val(ds), Pow10(exp));
    assert Pow10(3) == 1000 by { assert Pow10(0) == 1 && Pow10(1) == 10 && Pow10(2) == 100; }
    LengthBelow(Val(ds) * Pow10(exp), |ds| + exp, 3);
  }

  /** What decFloatToString prints has its form. */
  lemma PlainHasForm(f: Format, x: Datum, s: string) returns (d: nat, c: nat)
    requires InFormat(f, x) && x.Num? && Prints(s, x, false)
    ensures PlainForm(s, x.negative, Val(x.digits), x.exponent, d, c)
  {
    hide PrintsNumber, Shape, Power, Whole, Fraction, BelowMillionth;
    var ds := Shown(x.digits);
    var l := PlainLayout(|ds|, x.exponent);
    d, c := SignLength(x.negative) + |Whole(ds, l.0)|, CoefficientEnd(SignLength(x.negative), Whole(ds, l.0), Fraction(ds, l.0));
    ShapeOf(s, x.negative, ds, l.0, l.1, d, c);
    Around(s, x.negative, ds, l.0, l.1);
    ShownValue(x.digits);
    MillionthIs(ds, x.exponent);
  }

  lemma EngLayoutIs(len: nat, exp: int, zero: bool)
    requires len > 0 && (zero ==> len == 1)
    ensures
      var l := EngLayout(len, exp, zero);
      && l.1 % 3 == 0 && (l.1 != 0 <==> (exp > 0 && (zero || len + exp > 3)) || len + exp < -5)
      && FractionLength(len, l.0) == (if l.1 > exp then l.1 - exp else 0)
      && (if zero then l.0 <= 1 && (l.1 != 0 ==> exp <= l.1 <= exp + 2) else l.1 != 0 ==> 1 <= l.0 <= 3)
  {
    EngParts(len, exp, zero);
  }

  /** What decFloatToEngString prints has its form. */
  lemma EngHasForm(f: Format, x: Datum, s: string) returns (d: nat, c: nat)
    requires InFormat(f, x) && x.Num? && Prints(s, x, true)
    ensures EngForm(s, x.negative, Val(x.digits), x.exponent, d, c)
  {
    hide PrintsNumber, Shape, Power, Whole, Fraction, BelowMillionth, EngLayout, FractionLength;
    var ds := Shown(x.digits);
    var l := EngLayout(|ds|, x.exponent, ds == [0]);
    d, c := SignLength(x.negative) + |Whole(ds, l.0)|, CoefficientEnd(SignLength(x.negative), Whole(ds, l.0), Fraction(ds, l.0));
    ShapeOf(s, x.negative, ds, l.0, l.1, d, c);
    Around(s, x.negative, ds, l.0, l.1);
    ShownValue(x.digits);
    MillionthIs(ds, x.exponent);
    EngLayoutIs(|ds|, x.exponent, ds == [0]);
    if x.exponent > 0 && ds != [0] { ThousandIs(ds, x.exponent); }
  }

  lemma InfinityText(s: string, negative: bool)
    requires PrintsInfinity(s, negative)
    ensures s == if negative then "-Infinity" else "Infinity"
  {
    var cf := SignLength(negative);
    assert s[..cf] == if negative then "-" else "";
    assert s[cf..] == "Infinity";
    assert s == s[..cf] + s[cf..];
  }

  ghost function Word(negative: bool, signaling: bool): string {
    (if negative then "-" else "") + if signaling then "sNaN" else "NaN"
  }

  lemma NaNText(s: string, negative: bool, signaling: bool, t: seq<int>)
    requires PrintsNaN(s, negative, signaling, t)
    ensures
      var word := Word(negative, signaling);
      && |word| <= |s| && s[..|word|] == word && (forall i :: |word| <= i < |s| ==> IsDigit(s[i]))
      && Coef(s, |word|, |s|) == t && (|word| < |s| ==> s[|word|] != '0')
  {
    hide Coef;
    var cf := SignLength(negative);
    var n := cf + if signaling then 1 else 0;
    CoefOf(s, n + 3, t);
    assert t != [] ==> s[n + 3] == DigitChar(t[0]);
    assert s[n..n + 3] == "NaN";
    assert s[cf..n] == if signaling then "s" else "";
    assert s[..cf] == if negative then "-" else "";
    assert s[..n + 3] == s[..cf] + (s[cf..n] + s[n..n + 3]);
  }

  /** Infinity is spelled out, and a NaN with its kind and the digits of its payload. */
  lemma SpecialText(f: Format, x: Datum, eng: bool, s: string)
    requires InFormat(f, x) && !x.Num? && Prints(s, x, eng)
    ensures x.Inf? ==> s == if x.negative then "-Infinity" else "Infinity"
    ensures x.Nan? ==>
      var word := (if x.negative then "-" else "") + if x.signaling then "sNaN" else "NaN";
      && |word| <= |s| && s[..|word|] == word && (forall i :: |word| <= i < |s| ==> IsDigit(s[i]))
      && Val(Coef(s, |word|, |s|)) == Val(x.payload) && (|word| < |s| ==> s[|word|] != '0')
  {
    hide PrintsInfinity, PrintsNaN, Coef, Val;
    if x.Nan? {
      NaNText(s, x.negative, x.signaling, Strip(x.payload));
      StripValue(x.payload);
    } else {
      InfinityText(s, x.negative);
    }
  }
}
