/** What decFloatToString and decFloatToEngString choose to print, and that reading
    it back gives the number again: digit for digit in the one case, in value in
    the other. */
module RoundTrip {
  import opened Decimal
  import opened Finalize
  import opened CorrectRounding
  import opened StickyDigit
  import opened Numerals
  import opened FromString
  import opened NumberText

  /** A number of the format: P digits and an exponent, an infinity, or a NaN with
      a payload of P - 1 digits. */
  datatype Datum =
    | Num(negative: bool, digits: seq<int>, exponent: int)
    | Inf(negative: bool)
    | Nan(negative: bool, signaling: bool, payload: seq<int>)

  ghost predicate InFormat(f: Format, x: Datum) {
    FormatOk(f) &&
    match x
    case Num(_, digits, exponent) => Digits(digits) && |digits| == f.P && f.Qtiny() <= exponent <= f.Qlimit()
    case Inf(_) => true
    case Nan(_, _, payload) => Digits(payload) && |payload| == f.P - 1
  }

  // ----- the digits that are printed

  /** Without the leading zeros. */
  ghost function Strip(ds: seq<int>): (t: seq<int>)
    ensures |t| <= |ds| && (t != [] ==> t[0] != 0)
    ensures Digits(ds) ==> Digits(t)
  {
    if ds != [] && ds[0] == 0 then Strip(ds[1..]) else ds
  }

  /** A coefficient of zeros is printed as one 0. */
  ghost function Shown(ds: seq<int>): (t: seq<int>)
    ensures t != [] && (ds != [] ==> |t| <= |ds|)
    ensures Digits(ds) ==> Digits(t)
    ensures IsTrimmed(t)
  {
    if Strip(ds) == [] then [0] else Strip(ds)
  }

  lemma {:induction false} StripValue(ds: seq<int>)
    requires Digits(ds)
    ensures Val(Strip(ds)) == Val(ds)
    decreases |ds|
  {
    if ds != [] && ds[0] == 0 {
      StripValue(ds[1..]);
      FirstZero(ds);
    }
  }

  lemma FirstZero(ds: seq<int>)
    requires Digits(ds) && ds != [] && ds[0] == 0
    ensures Val(ds[1..]) == Val(ds)
  {
    if |ds| > 1 {
      DropZero(ds);
    } else {
      assert ds == [0] && ds[1..] == [];
      OneDigit(0);
    }
  }

  /** The printed digits are the coefficient. */
  lemma ShownValue(ds: seq<int>)
    requires Digits(ds)
    ensures Val(Shown(ds)) == Val(ds)
    ensures Shown(ds) == [0] <==> Val(ds) == 0
  {
    StripValue(ds);
    OneDigit(0);
    TrimmedLength(Shown(ds));
  }

  // ----- the layout

  /** Exponential form is taken for a positive exponent and for more than five
      zeros after the dot. */
  predicate Exponential(len: nat, exp: int) {
    exp > 0 || len + exp < -5
  }

  /** Digits before the dot, and the exponent part (0: none). */
  function PlainLayout(len: nat, exp: int): (int, int) {
    if Exponential(len, exp) then (1, len + exp - 1) else (len + exp, 0)
  }

  /** The part of the exponent beyond a multiple of three. */
  function Adjust(e: int): (adj: int)
    ensures 0 <= adj <= 2 && (e - adj) % 3 == 0
  {
    if e < 0 then (if -e % 3 != 0 then 3 - -e % 3 else 0) else e % 3
  }

  /** The same for engineering notation: the exponent part is a multiple of three,
      and up to three digits stand before the dot. */
  function EngLayout(len: nat, exp: int, zero: bool): (int, int) {
    if !Exponential(len, exp) then (len + exp, 0)
    else
      var e := len + exp - 1;
      var adj := Adjust(e);
      if !zero then (1 + adj, e - adj) else if adj != 0 then (adj - 2, e - adj + 3) else (1, e)
  }

  ghost function Padding(len: nat, pre: int): nat {
    if pre > len then pre - len else 0
  }

  ghost function FractionLength(len: nat, pre: int): nat {
    if pre <= len then len - pre else 0
  }

  lemma FractionHas(ds: seq<int>, pre: int)
    ensures |Fraction(ds, pre)| == FractionLength(|ds|, pre)
  {
  }

  lemma PlainParts(len: nat, exp: int)
    requires len > 0
    ensures var l := PlainLayout(len, exp); l.1 - FractionLength(len, l.0) == exp && Padding(len, l.0) == 0
  {
  }

  /** The exponent part is a multiple of three; padding is made up for. */
  lemma EngParts(len: nat, exp: int, zero: bool)
    requires len > 0 && (zero ==> len == 1)
    ensures var l := EngLayout(len, exp, zero);
      && l.1 - FractionLength(len, l.0) == exp - Padding(len, l.0) && Padding(len, l.0) <= 2
      && l.1 % 3 == 0 && (zero ==> Padding(len, l.0) == 0)
  {
  }

  /** A value below a power of ten has no more digits than that. */
  lemma FewDigits(n: nat, k: nat)
    requires n < Pow10(k) && k > 0
    ensures |DigitsOf(n)| <= k
  {
    DigitsOfVal(n);
    if n > 0 { LeadLength(DigitsOf(n), n, k); }
  }

  lemma LeadLength(x: seq<int>, n: nat, k: nat)
    requires Digits(x) && x != [] && x[0] != 0 && n == Val(x)
    ensures n < Pow10(k) ==> |x| <= k
  {
    ValLead(x);
    if |x| > k { PowMono(k, |x| - 1); }
  }

  /** All exponent parts that are printed have at most as many digits as the
      conversion takes. */
  ghost predicate PrintsIn(cv: Conversion) {
    cv.emaxd > 0 && cv.f.Emax + 3 < Pow10(cv.emaxd) && 3 - cv.f.Qtiny() < Pow10(cv.emaxd)
  }

  lemma PartFits(cv: Conversion, e: int)
    requires PrintsIn(cv) && cv.f.Qtiny() - 3 < e < cv.f.Emax + 4
    ensures ExponentFits(cv, e)
  {
    FewDigits(Abs(e), cv.emaxd);
  }

  lemma LayoutFits(cv: Conversion, len: nat, exp: int, zero: bool)
    requires PrintsIn(cv) && 0 < len <= cv.f.P && cv.f.Qtiny() <= exp <= cv.f.Qlimit() && (zero ==> len == 1)
    requires FormatOk(cv.f)
    ensures ExponentFits(cv, PlainLayout(len, exp).1) && ExponentFits(cv, EngLayout(len, exp, zero).1)
  {
    if Exponential(len, exp) {
      PartFits(cv, PlainLayout(len, exp).1);
      PartFits(cv, EngLayout(len, exp, zero).1);
    } else {
      assert DigitsOf(0) == [0];
    }
  }

  // ----- what finalizing does to a number of the format

  /** Zeros at the end are cut off without loss. */
  lemma ZerosCut(s: seq<int>, k: nat, n: nat)
    requires Digits(s) && n == Val(s + Repeat(0, k))
    ensures Quot(n, Pow10(k)) == Val(s) && Rem(n, Pow10(k)) == 0
  {
    ZerosVal(s, k);
    DivIs(Val(s), 0, Pow10(k), n);
  }

  lemma PaddedTrimmed(t: seq<int>, j: nat)
    requires Digits(t) && IsTrimmed(t) && (t == [0] ==> j == 0)
    ensures Digits(t + Repeat(0, j)) && IsTrimmed(t + Repeat(0, j)) && |t + Repeat(0, j)| == |t| + j
  {
    assert t[0] == 0 ==> t == [0];
    assert (t + Repeat(0, j))[0] == t[0];
  }

  lemma PaddedAgain(t: seq<int>, j: nat, k: nat)
    ensures t + Repeat(0, j + k) == (t + Repeat(0, j)) + Repeat(0, k)
  {
  }

  /** What rounding leaves of a number that ends in zeros. */
  lemma CutExactly(f: Format, mode: Rounding, negative: bool, s: seq<int>, drop: nat, n: nat, q: int)
    requires Digits(s) && IsTrimmed(s) && |s| <= f.P && n == Val(s + Repeat(0, drop))
    ensures RoundedTo(f, mode, negative, n, q, drop, Val(s), s, q + drop) && !WasInexact(n, drop)
  {
    ZerosCut(s, drop, n);
  }

  lemma LaidOut(f: Format, mode: Rounding, negative: bool, s: seq<int>, e: int)
    requires e <= f.Qlimit() && e + |s| - 1 <= f.Emax
    ensures HighEndIs(f, mode, negative, s, e, Finite(negative, s, e)) && !Overflows(f, s, e)
  {
  }

  /** Putting a delivery together. */
  lemma Delivered(f: Format, mode: Rounding, negative: bool, n: nat, q: int, r: Final, status: Status, length: nat, m: nat, s: seq<int>, e: int, drop: nat)
    requires HasLength(n, length) && drop == Dropped(f, length, q)
    requires RoundedTo(f, mode, negative, n, q, drop, m, s, e) && !WasInexact(n, drop)
    requires HighEndIs(f, mode, negative, s, e, r) && !Overflows(f, s, e)
    ensures Delivers(f, mode, negative, n, q, r, status, status)
  {
    assert Finalized(f, mode, negative, n, length, q, m, s, e, r);
    assert StatusIs(f, mode, n, length, q, s, e, status, status);
    assert DeliversBy(f, mode, negative, n, q, r, status, status, length, m, s, e);
  }

  lemma PaddedLength(t: seq<int>, pad: nat, n: nat)
    requires Digits(t) && IsTrimmed(t) && (t == [0] ==> pad == 0) && n == Val(t + Repeat(0, pad))
    ensures HasLength(n, |t| + pad)
  {
    hide Val, HasLength, Digits, IsTrimmed, Repeat;
    PaddedTrimmed(t, pad);
    TrimmedLength(t + Repeat(0, pad));
  }

  /** Only zeros of the padding are dropped, and then the format is full. */
  lemma ZerosDropped(f: Format, length: nat, exp: int, pad: nat)
    requires FormatOk(f) && 1 <= length <= f.P && f.Qtiny() <= exp <= f.Qlimit()
    ensures var drop := Dropped(f, length + pad, exp - pad);
      && drop <= pad && length + (pad - drop) <= f.P
      && exp - (pad - drop) <= f.Qlimit() && exp - (pad - drop) + (length + (pad - drop)) - 1 <= f.Emax
  {
  }

  /** The digits t of the format, padded with zeros under a smaller exponent, are
      delivered with as many of the zeros as the format can hold. */
  lemma PaddedDelivers(f: Format, mode: Rounding, negative: bool, t: seq<int>, exp: int, pad: nat, n: nat, status: Status) returns (j: nat)
    requires FormatOk(f) && Digits(t) && IsTrimmed(t) && |t| <= f.P && f.Qtiny() <= exp <= f.Qlimit()
    requires (t == [0] ==> pad == 0) && n == Val(t + Repeat(0, pad))
    ensures j <= pad && Delivers(f, mode, negative, n, exp - pad, Finite(negative, t + Repeat(0, j), exp - j), status, status)
  {
    hide Dropped, Delivers, HasLength, RoundedTo, HighEndIs, Val, Repeat, WasInexact, Overflows;
    var q, length := exp - pad, |t| + pad;
    PaddedLength(t, pad, n);
    var drop := Dropped(f, length, q);
    ZerosDropped(f, |t|, exp, pad);
    j := pad - drop;
    var s := t + Repeat(0, j);
    PaddedAgain(t, j, drop);
    PaddedTrimmed(t, j);
    CutExactly(f, mode, negative, s, drop, n, q);
    LaidOut(f, mode, negative, s, exp - j);
    Delivered(f, mode, negative, n, q, Finite(negative, s, exp - j), status, length, Val(s), s, exp - j, drop);
  }

  // ----- reading what was printed

  /** A string that says a number is read as that. */
  lemma NumberReadOnce(P: nat, s: string, r: Reading, t: Reading)
    requires IsNumber(s, r) && ReadAs(P, s, t)
    ensures t == r
  {
    assert Says(P, s, r);
    FirstOfCoefficient(s, r);
    OnlyNumber(P, s, r.cf, r.negative);
    NumberOnce(s, r, t);
  }

  lemma FirstOfCoefficient(s: string, r: Reading)
    requires IsNumber(s, r)
    ensures IsDigit(CharAt(s, r.cf)) || CharAt(s, r.cf) == '.'
  {
  }

  /** A number that ends in a digit is converted to its value n * 10^q. */
  lemma NumberConverts(cv: Conversion, mode: Rounding, s: string, r: Reading, n: nat, q: int, t: Reading, out: Outcome, before: Status, after: Status)
    requires IsNumber(s, r) && r.ce > 0 && s[r.ce - 1] != '.'
    requires n == Val(Coef(s, r.cf, r.ce)) && q == NumberExponent(cv, s, r)
    requires ReadAs(cv.f.P, s, t) && Converted(cv, mode, s, t, out, before, after)
    ensures t.Number? && out.Value? && Delivers(cv.f, mode, r.negative, n, q, out.number, before, after)
  {
    NumberReadOnce(cv.f.P, s, r, t);
  }

  lemma WholeAndFraction(ds: seq<int>, pre: int)
    ensures Whole(ds, pre) + Fraction(ds, pre) ==
      if pre <= 0 then [0] + (Repeat(0, -pre) + ds) else ds + Repeat(0, Padding(|ds|, pre))
  {
  }

  lemma ZerosInFront(ds: seq<int>, k: nat)
    requires Digits(ds)
    ensures Val([0] + (Repeat(0, k) + ds)) == Val(ds)
  {
    LeadingZeros(Repeat(0, k), ds);
    LeadingZeros([0], Repeat(0, k) + ds);
  }

  /** Zeros in front do not count. */
  lemma TextValue(ds: seq<int>, pre: int, v: seq<int>)
    requires Digits(ds) && v == Whole(ds, pre) + Fraction(ds, pre)
    ensures Digits(v) && Val(v) == Val(ds + Repeat(0, Padding(|ds|, pre)))
  {
    WholeAndFraction(ds, pre);
    if pre <= 0 {
      ZerosInFront(ds, -pre);
      assert ds + Repeat(0, 0) == ds;
    }
  }

  /** The value of the text, as it reads. */
  lemma TextSays(cv: Conversion, s: string, negative: bool, ds: seq<int>, pre: int, e: int, n: nat, q: int) returns (r: Reading)
    requires PrintsNumber(s, negative, ds, pre, e) && Digits(ds) && ds != [] && ExponentFits(cv, e)
    requires n == Val(ds + Repeat(0, Padding(|ds|, pre))) && q == e - FractionLength(|ds|, pre)
    ensures IsNumber(s, r) && r.negative == negative && r.ce > 0 && s[r.ce - 1] != '.'
    ensures n == Val(Coef(s, r.cf, r.ce)) && q == NumberExponent(cv, s, r)
  {
    r := TextReads(cv, s, negative, ds, pre, e);
    FractionHas(ds, pre);
    TextValue(ds, pre, Coef(s, r.cf, r.ce));
  }

  /** What the conversion makes of a printed number. */
  lemma TextConverts(cv: Conversion, mode: Rounding, negative: bool, ds: seq<int>, pre: int, e: int, n: nat, q: int, s: string, t: Reading, out: Outcome, before: Status, after: Status)
    requires PrintsNumber(s, negative, ds, pre, e) && Digits(ds) && ds != [] && ExponentFits(cv, e)
    requires n == Val(ds + Repeat(0, Padding(|ds|, pre))) && q == e - FractionLength(|ds|, pre)
    requires ReadAs(cv.f.P, s, t) && Converted(cv, mode, s, t, out, before, after)
    ensures t.Number? && out.Value? && Delivers(cv.f, mode, negative, n, q, out.number, before, after)
  {
    var r := TextSays(cv, s, negative, ds, pre, e, n, q);
    NumberConverts(cv, mode, s, r, n, q, t, out, before, after);
  }

  /** A padded number of the format comes back with some of its padding. */
  lemma PaddedBack(f: Format, mode: Rounding, negative: bool, t: seq<int>, exp: int, pad: nat, n: nat, q: int, r: Final, before: Status, after: Status) returns (j: nat)
    requires FormatOk(f) && Digits(t) && IsTrimmed(t) && |t| <= f.P && f.Qtiny() <= exp <= f.Qlimit() && (t == [0] ==> pad == 0)
    requires n == Val(t + Repeat(0, pad)) && q == exp - pad && Delivers(f, mode, negative, n, q, r, before, after)
    ensures j <= pad && r == Finite(negative, t + Repeat(0, j), exp - j) && after == before
  {
    j := PaddedDelivers(f, mode, negative, t, exp, pad, n, before);
    DeliversOnce(f, mode, negative, n, q, r, Finite(negative, t + Repeat(0, j), exp - j), before, after, before);
  }

  /** The printed form of a datum, by the given layout of its digits. */
  ghost predicate Prints(s: string, x: Datum, eng: bool) {
    match x
    case Num(negative, digits, exponent) =>
      var ds := Shown(digits);
      var l := if eng then EngLayout(|ds|, exponent, ds == [0]) else PlainLayout(|ds|, exponent);
      PrintsNumber(s, negative, ds, l.0, l.1)
    case Inf(negative) => PrintsInfinity(s, negative)
    case Nan(negative, signaling, payload) => PrintsNaN(s, negative, signaling, Strip(payload))
  }

  /** The datum as the conversion delivers it: the digits without leading zeros. */
  ghost function Same(x: Datum): Outcome {
    match x
    case Num(negative, digits, exponent) => Value(Finite(negative, Shown(digits), exponent))
    case Inf(negative) => Value(Infinite(negative))
    case Nan(negative, signaling, payload) => NotANumber(negative, signaling, Strip(payload))
  }

  /** Infinities and NaNs come back with sign, kind and payload, and set no
      status. */
  lemma SpecialRoundTrip(cv: Conversion, mode: Rounding, x: Datum, eng: bool, s: string, t: Reading, out: Outcome, before: Status, after: Status)
    requires InFormat(cv.f, x) && !x.Num? && Prints(s, x, eng)
    requires ReadAs(cv.f.P, s, t) && Converted(cv, mode, s, t, out, before, after)
    ensures !t.Unreadable? && out == Same(x) && after == before
  {
    if x.Inf? {
      InfinityReads(cv.f.P, s, x.negative, t);
    } else {
      NaNReads(cv.f.P, s, x.negative, x.signaling, Strip(x.payload), t);
    }
  }

  /** A layout that makes up for its padding. */
  ghost predicate LayoutOk(cv: Conversion, len: nat, exp: int, zero: bool, pre: int, e: int, pad: nat) {
    && ExponentFits(cv, e) && pad == Padding(len, pre) && (zero ==> pad == 0)
    && e - FractionLength(len, pre) == exp - pad
  }

  /** A number of the format, printed by such a layout, comes back with some of the
      padding, and no status is set. */
  lemma NumberBack(cv: Conversion, mode: Rounding, negative: bool, ds: seq<int>, exp: int, pre: int, e: int, pad: nat, s: string, t: Reading, out: Outcome, before: Status, after: Status) returns (j: nat)
    requires FormatOk(cv.f) && Digits(ds) && IsTrimmed(ds) && |ds| <= cv.f.P && cv.f.Qtiny() <= exp <= cv.f.Qlimit()
    requires PrintsNumber(s, negative, ds, pre, e) && LayoutOk(cv, |ds|, exp, ds == [0], pre, e, pad)
    requires ReadAs(cv.f.P, s, t) && Converted(cv, mode, s, t, out, before, after)
    ensures t.Number? && j <= pad && out == Value(Finite(negative, ds + Repeat(0, j), exp - j)) && after == before
  {
    hide Converted, ReadAs, PrintsNumber, Delivers;
    var n := Val(ds + Repeat(0, pad));
    TextConverts(cv, mode, negative, ds, pre, e, n, exp - pad, s, t, out, before, after);
    j := PaddedBack(cv.f, mode, negative, ds, exp, pad, n, exp - pad, out.number, before, after);
  }

  lemma PlainLayoutOk(cv: Conversion, len: nat, exp: int, zero: bool, pre: int, e: int)
    requires FormatOk(cv.f) && PrintsIn(cv) && 0 < len <= cv.f.P && cv.f.Qtiny() <= exp <= cv.f.Qlimit() && (zero ==> len == 1)
    requires (pre, e) == PlainLayout(len, exp)
    ensures LayoutOk(cv, len, exp, zero, pre, e, 0)
  {
    LayoutFits(cv, len, exp, zero);
    PlainParts(len, exp);
  }

  lemma EngLayoutOk(cv: Conversion, len: nat, exp: int, zero: bool, pre: int, e: int) returns (pad: nat)
    requires FormatOk(cv.f) && PrintsIn(cv) && 0 < len <= cv.f.P && cv.f.Qtiny() <= exp <= cv.f.Qlimit() && (zero ==> len == 1)
    requires (pre, e) == EngLayout(len, exp, zero)
    ensures pad <= 2 && LayoutOk(cv, len, exp, zero, pre, e, pad)
  {
    LayoutFits(cv, len, exp, zero);
    EngParts(len, exp, zero);
    pad := Padding(len, pre);
  }

  /** What decFloatToString prints is readable, and gives the same sign, digits and
      exponent, or the same special value and payload, with no status set. */
  lemma PlainRoundTrip(cv: Conversion, mode: Rounding, x: Datum, s: string, t: Reading, out: Outcome, before: Status, after: Status)
    requires PrintsIn(cv) && InFormat(cv.f, x) && Prints(s, x, false)
    requires ReadAs(cv.f.P, s, t) && Converted(cv, mode, s, t, out, before, after)
    ensures !t.Unreadable? && out == Same(x) && after == before
  {
    hide Converted, ReadAs, PrintsNumber;
    if x.Num? {
      var ds := Shown(x.digits);
      var pre, e := PlainLayout(|ds|, x.exponent).0, PlainLayout(|ds|, x.exponent).1;
      PlainLayoutOk(cv, |ds|, x.exponent, ds == [0], pre, e);
      var j := NumberBack(cv, mode, x.negative, ds, x.exponent, pre, e, 0, s, t, out, before, after);
      assert ds + Repeat(0, 0) == ds;
    } else {
      SpecialRoundTrip(cv, mode, x, false, s, t, out, before, after);
    }
  }

  /** Same sign and value; a zero is the very same. */
  ghost predicate SameNumber(x: Datum, out: Outcome) {
    && x.Num? && Digits(x.digits) && out.Value? && out.number.Finite? && Digits(out.number.digits)
    && out.number.negative == x.negative
    && SameValue(Val(out.number.digits), out.number.exponent, Val(x.digits), x.exponent)
    && (Val(x.digits) == 0 ==> out == Same(x))
  }

  lemma PaddedSame(v: nat, e: int, j: nat)
    ensures SameValue(v * Pow10(j), e - j, v, e)
  {
    SameShift(v, e - j, j);
    SameSym(v, e, v * Pow10(j), e - j);
  }

  lemma PaddedIsSame(x: Datum, out: Outcome, j: nat)
    requires x.Num? && Digits(x.digits) && out == Value(Finite(x.negative, Shown(x.digits) + Repeat(0, j), x.exponent - j))
    requires Shown(x.digits) == [0] ==> j == 0
    ensures SameNumber(x, out)
  {
    var ds := Shown(x.digits);
    ShownValue(x.digits);
    ZerosVal(ds, j);
    PaddedSame(Val(ds), x.exponent, j);
    assert [0] + Repeat(0, 0) == [0];
  }

  lemma EngNumberBack(cv: Conversion, mode: Rounding, x: Datum, ds: seq<int>, pre: int, e: int, s: string, t: Reading, out: Outcome, before: Status, after: Status)
    requires PrintsIn(cv) && InFormat(cv.f, x) && x.Num? && ds == Shown(x.digits)
    requires (pre, e) == EngLayout(|ds|, x.exponent, ds == [0]) && PrintsNumber(s, x.negative, ds, pre, e)
    requires ReadAs(cv.f.P, s, t) && Converted(cv, mode, s, t, out, before, after)
    ensures t.Number? && after == before && SameNumber(x, out)
  {
    hide Converted, ReadAs, PrintsNumber, EngLayout, SameNumber, LayoutOk;
    var pad := EngLayoutOk(cv, |ds|, x.exponent, ds == [0], pre, e);
    var j := NumberBack(cv, mode, x.negative, ds, x.exponent, pre, e, pad, s, t, out, before, after);
    PaddedIsSame(x, out, j);
  }

  /** What decFloatToEngString prints is readable, and gives the same sign and value,
      or the same special value and payload, with no status set. A zero keeps its
      exponent. */
  lemma EngRoundTrip(cv: Conversion, mode: Rounding, x: Datum, s: string, t: Reading, out: Outcome, before: Status, after: Status)
    requires PrintsIn(cv) && InFormat(cv.f, x) && Prints(s, x, true)
    requires ReadAs(cv.f.P, s, t) && Converted(cv, mode, s, t, out, before, after)
    ensures !t.Unreadable? && after == before
    ensures if x.Num? then SameNumber(x, out) else out == Same(x)
  {
    hide Converted, ReadAs, PrintsNumber, EngLayout, SameNumber;
    if x.Num? {
      var ds := Shown(x.digits);
      var l := EngLayout(|ds|, x.exponent, ds == [0]);
      EngNumberBack(cv, mode, x, ds, l.0, l.1, s, t, out, before, after);
    } else {
      SpecialRoundTrip(cv, mode, x, true, s, t, out, before, after);
    }
  }
}
