/** When decFloatFromString delivers the exact value. It replaces an exponent of too
    many significant digits by twice the largest one, before it takes the digits
    after the dot into account (decCommon.c, lines 834 to 860). That is harmless
    exactly if both exponents put the number beyond the range on the same side. And
    it keeps no digit of a long zero that ends in a dot (lines 905 to 945). */
module ExponentCap {
  import opened Decimal
  import opened Finalize
  import opened StickyDigit
  import opened Numerals
  import opened FromString
  import opened NumberText
  import opened RoundTrip

  /** The exponent as it is written, whatever its length. */
  ghost function WrittenExponent(s: string, ce: nat, eb: nat): int
    requires ce <= |s| && AllDigits(s, eb)
  {
    if ce == |s| then 0
    else if CharAt(s, ce + 1) == '-' then 0 - Val(Coef(s, eb, |s|)) else Val(Coef(s, eb, |s|))
  }

  /** The exponent of the number's exact value. */
  ghost function ExactExponent(s: string, r: Reading): int
    requires IsNumber(s, r)
  {
    WrittenExponent(s, r.ce, r.eb) - if r.dot == -1 then 0 else r.ce - 1 - r.dot
  }

  /** An exponent of few enough significant digits is taken as written. */
  lemma ShortExponentExact(cv: Conversion, s: string, r: Reading)
    requires IsNumber(s, r) && |s| - r.z <= cv.emaxd
    ensures NumberExponent(cv, s, r) == ExactExponent(s, r)
  {
  }

  // ----- delivering, constructively

  ghost function HighResult(f: Format, mode: Rounding, negative: bool, s: seq<int>, e: int): (r: Final)
    ensures HighEndIs(f, mode, negative, s, e, r)
  {
    if Overflows(f, s, e) then
      if ToMax(mode, negative) then Finite(negative, Repeat(9, f.P), f.Qlimit()) else Infinite(negative)
    else if e <= f.Qlimit() || s == [0] then Finite(negative, s, if e <= f.Qlimit() then e else f.Qlimit())
    else Finite(negative, s + Repeat(0, e - f.Qlimit()), f.Qlimit())
  }

  const Clear: Status := Status(false, false, false, false)

  ghost function StatusAfter(f: Format, mode: Rounding, n: nat, length: nat, q: int, s: seq<int>, e: int): (after: Status)
    ensures StatusIs(f, mode, n, length, q, s, e, Clear, after)
  {
    var lost := WasInexact(n, Dropped(f, length, q));
    Status(lost || Overflows(f, s, e), lost && Tiny(f, length, q), Overflows(f, s, e), lost && mode == Unknown)
  }

  lemma Deliver(f: Format, mode: Rounding, negative: bool, n: nat, length: nat, q: int, m: nat, s: seq<int>, e: int)
    requires HasLength(n, length) && RoundedTo(f, mode, negative, n, q, Dropped(f, length, q), m, s, e)
    ensures Delivers(f, mode, negative, n, q, HighResult(f, mode, negative, s, e), Clear, StatusAfter(f, mode, n, length, q, s, e))
  {
    assert DeliversBy(f, mode, negative, n, q, HighResult(f, mode, negative, s, e), Clear, StatusAfter(f, mode, n, length, q, s, e), length, m, s, e);
  }

  // ----- digits of a number

  lemma LengthIs(n: nat)
    ensures HasLength(n, |DigitsOf(n)|) && IsTrimmed(DigitsOf(n)) && Val(DigitsOf(n)) == n
  {
    DigitsOfVal(n);
    DigitsOfTrimmed(n);
    TrimmedLength(DigitsOf(n));
  }

  lemma DigitsOfTrimmed(n: nat)
    ensures IsTrimmed(DigitsOf(n)) && (n == 0 <==> DigitsOf(n) == [0])
  {
    DigitsOfVal(n);
    OneDigit(0);
  }

  // ----- the three ways to be harmless

  ghost predicate Over(f: Format, length: nat, q: int) {
    q + length - 1 > f.Emax
  }

  /** Less than half of the least number of the format. */
  ghost predicate Vanishes(f: Format, n: nat, q: int) {
    q < f.Qtiny() && 2 * n < Pow10(f.Qtiny() - q)
  }

  /** Whether n with exponent c is treated as n with exponent q. */
  ghost predicate Harmless(f: Format, n: nat, q: int, c: int) {
    var length := |DigitsOf(n)|;
    || q == c
    || (n == 0 && Clamp(f, q) == Clamp(f, c))
    || (n > 0 && Over(f, length, q) && Over(f, length, c))
    || (n > 0 && Vanishes(f, n, q) && Vanishes(f, n, c))
  }

  /** In every rounding mode and with either sign, what is delivered for the one
      exponent is what is to be delivered for the other. */
  ghost predicate SameDelivery(f: Format, negative: bool, n: nat, q: int, c: int) {
    forall mode, r, before, after :: Delivers(f, mode, negative, n, c, r, before, after) ==> Delivers(f, mode, negative, n, q, r, before, after)
  }

  // ----- overflow

  lemma OverDrop(f: Format, length: nat, q: int)
    requires FormatOk(f) && length >= 1 && Over(f, length, q)
    ensures Dropped(f, length, q) == if length > f.P then length - f.P else 0
    ensures !Tiny(f, length, q)
  {
  }

  /** Rounding does not shorten the number. */
  lemma RoundedLength(f: Format, mode: Rounding, negative: bool, n: nat, length: nat, q: int, d: nat, m: nat, s: seq<int>, e: int)
    requires HasLength(n, length) && n > 0 && d < length <= d + f.P && RoundedTo(f, mode, negative, n, q, d, m, s, e)
    ensures s != [0] && e + |s| - 1 >= q + length - 1
  {
    QuotLength(n, length, d);
    RoundedIsBumped(mode, negative, n, Pow10(d), m);
    LengthOfUnits(s, e, m, q + d, f.P, Quot(n, Pow10(d)), length - d);
  }

  lemma LengthOfUnits(s: seq<int>, e: int, m: nat, e0: int, P: nat, k: nat, len: nat)
    requires Worth(s, e, m, e0, P) && HasLength(k, len) && (len > 1 || m > 0) && m >= k && len <= P
    ensures s != [0] && e + |s| - 1 >= e0 + len - 1
  {
    TrimmedLength(s);
    OneDigit(0);
    if e == e0 && Val(s) == m {
      if |s| < len { PowMono(|s|, len - 1); }
    } else if |s| < P {
      PowMono(|s|, P - 1);
    }
  }

  lemma OverMoves(f: Format, mode: Rounding, negative: bool, n: nat, length: nat, q: int, c: int, r: Final, before: Status, after: Status, m: nat, s: seq<int>, e: int)
    requires FormatOk(f) && n > 0 && Over(f, length, q) && Over(f, length, c)
    requires DeliversBy(f, mode, negative, n, c, r, before, after, length, m, s, e)
    ensures DeliversBy(f, mode, negative, n, q, r, before, after, length, m, s, e + (q - c))
  {
    OverDrop(f, length, q);
    OverDrop(f, length, c);
    var d := Dropped(f, length, c);
    RoundedLength(f, mode, negative, n, length, c, d, m, s, e);
    assert RoundedTo(f, mode, negative, n, q, d, m, s, e + (q - c));
  }

  // ----- underflow to nothing

  lemma VanishDrop(f: Format, n: nat, length: nat, q: int)
    requires FormatOk(f) && HasLength(n, length) && n > 0 && Vanishes(f, n, q)
    ensures Dropped(f, length, q) == f.Qtiny() - q >= length && Tiny(f, length, q)
    ensures var u := Pow10(f.Qtiny() - q); Quot(n, u) == 0 && Rem(n, u) == n && PlaceOf(n, u) == Below
  {
    var d := f.Qtiny() - q;
    if d < length { PowMono(d, length - 1); }
    QuotLength(n, length, d);
  }

  lemma VanishMoves(f: Format, mode: Rounding, negative: bool, n: nat, length: nat, q: int, c: int, r: Final, before: Status, after: Status, m: nat, s: seq<int>, e: int)
    requires FormatOk(f) && n > 0 && Vanishes(f, n, q) && Vanishes(f, n, c)
    requires DeliversBy(f, mode, negative, n, c, r, before, after, length, m, s, e)
    ensures DeliversBy(f, mode, negative, n, q, r, before, after, length, m, s, e)
  {
    hide Pow10, HasLength, Dropped, HighEndIs, Overflows, Worth, Rounded;
    VanishDrop(f, n, length, q);
    VanishDrop(f, n, length, c);
    SamePlaceRounds(mode, negative, n, Pow10(f.Qtiny() - c), n, Pow10(f.Qtiny() - q), m);
  }

  /** Harmless exponents deliver the same. */
  lemma HarmlessDelivers(f: Format, negative: bool, n: nat, q: int, c: int)
    requires FormatOk(f) && Harmless(f, n, q, c)
    ensures SameDelivery(f, negative, n, q, c)
  {
    hide DeliversBy;
    forall mode, r, before, after | Delivers(f, mode, negative, n, c, r, before, after)
      ensures Delivers(f, mode, negative, n, q, r, before, after)
    {
      HarmlessMoves(f, mode, negative, n, q, c, r, before, after);
    }
  }

  lemma HarmlessMoves(f: Format, mode: Rounding, negative: bool, n: nat, q: int, c: int, r: Final, before: Status, after: Status)
    requires FormatOk(f) && Harmless(f, n, q, c) && Delivers(f, mode, negative, n, c, r, before, after)
    ensures Delivers(f, mode, negative, n, q, r, before, after)
  {
    hide DeliversBy, Vanishes;
    var length: nat, m: nat, s, e :| DeliversBy(f, mode, negative, n, c, r, before, after, length, m, s, e);
    LengthOfDelivered(f, mode, negative, n, c, r, before, after, length, m, s, e);
    if n == 0 && Clamp(f, q) == Clamp(f, c) {
      ZeroIsClamped(f, mode, negative, length, c, r, before, after, m, s, e);
      ClampedZero(f, mode, negative, q, before);
    } else if q != c && Over(f, length, q) && Over(f, length, c) {
      OverMoves(f, mode, negative, n, length, q, c, r, before, after, m, s, e);
    } else if q != c {
      VanishMoves(f, mode, negative, n, length, q, c, r, before, after, m, s, e);
    }
  }

  lemma LengthOfDelivered(f: Format, mode: Rounding, negative: bool, n: nat, c: int, r: Final, before: Status, after: Status, length: nat, m: nat, s: seq<int>, e: int)
    requires DeliversBy(f, mode, negative, n, c, r, before, after, length, m, s, e)
    ensures length == |DigitsOf(n)|
  {
    LengthIs(n);
    LengthUnique(n, length, |DigitsOf(n)|);
  }

  // ----- and nothing else is harmless

  /** Rounding down, whatever the exponent. */
  lemma DownTo(f: Format, negative: bool, n: nat, q: int) returns (s: seq<int>, e: int)
    requires FormatOk(f)
    ensures var length := |DigitsOf(n)|; var d := Dropped(f, length, q);
      && e == q + d && s == DigitsOf(Quot(n, Pow10(d)))
      && Delivers(f, Down, negative, n, q, HighResult(f, Down, negative, s, e), Clear, StatusAfter(f, Down, n, length, q, s, e))
  {
    var length := |DigitsOf(n)|;
    var d := Dropped(f, length, q);
    var u := Pow10(d);
    var m := Quot(n, u);
    LengthIs(n);
    LengthIs(m);
    QuotLength(n, length, d);
    BumpedIsRounded(Down, negative, n, u);
    s, e := DigitsOf(m), q + d;
    if d < length { LengthUnique(m, |s|, length - d); }
    hide Dropped, HasLength, Pow10, Quot, Rounded, Delivers, HighResult, StatusAfter;
    assert Worth(s, e, m, q + d, f.P);
    Deliver(f, Down, negative, n, length, q, m, s, e);
  }

  /** Where the first digit of a delivered number stands. */
  lemma Shape(f: Format, mode: Rounding, negative: bool, s: seq<int>, e: int)
    requires s != [] && !Overflows(f, s, e)
    ensures var r := HighResult(f, mode, negative, s, e);
      r.Finite? && (if s == [0] then r.digits == [0] else r.digits != [0] && |r.digits| + r.exponent == |s| + e)
  {
  }

  lemma SameOnce(f: Format, mode: Rounding, negative: bool, n: nat, q: int, c: int, r: Final, after: Status, r': Final, after': Status)
    requires SameDelivery(f, negative, n, q, c)
    requires Delivers(f, mode, negative, n, c, r, Clear, after) && Delivers(f, mode, negative, n, q, r', Clear, after')
    ensures r == r' && after == after'
  {
    DeliversOnce(f, mode, negative, n, q, r, r', Clear, after, after');
  }

  lemma DownLength(n: nat, length: nat, d: nat)
    requires HasLength(n, length)
    ensures d < length ==> |DigitsOf(Quot(n, Pow10(d)))| == length - d
    ensures d >= length ==> DigitsOf(Quot(n, Pow10(d))) == [0]
  {
    var m := Quot(n, Pow10(d));
    QuotLength(n, length, d);
    LengthIs(m);
    if d < length { LengthUnique(m, |DigitsOf(m)|, length - d); }
  }

  /** If even rounding down delivers the same, both overflow, or nothing is left of
      either. */
  lemma DownSame(f: Format, negative: bool, n: nat, q: int, c: int)
    requires FormatOk(f) && n > 0 && q != c && SameDelivery(f, negative, n, q, c)
    ensures var length := |DigitsOf(n)|;
      || (Over(f, length, q) && Over(f, length, c))
      || (Dropped(f, length, q) >= length && Dropped(f, length, c) >= length)
  {
    hide Delivers, SameDelivery, HighResult;
    var length := |DigitsOf(n)|;
    LengthIs(n);
    var s, e := DownTo(f, negative, n, c);
    var s', e' := DownTo(f, negative, n, q);
    var r, r' := HighResult(f, Down, negative, s, e), HighResult(f, Down, negative, s', e');
    SameOnce(f, Down, negative, n, q, c, r, StatusAfter(f, Down, n, length, c, s, e), r', StatusAfter(f, Down, n, length, q, s', e'));
    DownLength(n, length, Dropped(f, length, c));
    DownLength(n, length, Dropped(f, length, q));
    assert Overflows(f, s, e) == Overflows(f, s', e');
    if Overflows(f, s, e) {
      OverflowsOver(f, n, length, c, s, e);
      OverflowsOver(f, n, length, q, s', e');
    } else {
      Shape(f, Down, negative, s, e);
      Shape(f, Down, negative, s', e');
      FirstDigits(f, n, length, c, s, e);
      FirstDigits(f, n, length, q, s', e');
    }
  }

  lemma OverflowsOver(f: Format, n: nat, length: nat, q: int, s: seq<int>, e: int)
    requires HasLength(n, length) && e == q + Dropped(f, length, q) && s == DigitsOf(Quot(n, Pow10(Dropped(f, length, q)))) && Overflows(f, s, e)
    ensures Over(f, length, q)
  {
    DownLength(n, length, Dropped(f, length, q));
  }

  lemma FirstDigits(f: Format, n: nat, length: nat, q: int, s: seq<int>, e: int)
    requires HasLength(n, length) && n > 0 && e == q + Dropped(f, length, q) && s == DigitsOf(Quot(n, Pow10(Dropped(f, length, q))))
    ensures if Dropped(f, length, q) >= length then s == [0] else s != [0] && |s| + e == q + length
  {
    var d := Dropped(f, length, q);
    DownLength(n, length, d);
    if d < length {
      QuotLength(n, length, d);
      QuotAtLeast(n, Pow10(d), 1) by { PowMono(d, length - 1); }
      DigitsOfTrimmed(Quot(n, Pow10(d)));
    }
  }

  // ----- rounding half up tells numbers near the least one apart

  lemma AllDropped(f: Format, length: nat, q: int)
    requires FormatOk(f) && length >= 1 && Dropped(f, length, q) >= length
    ensures Dropped(f, length, q) == f.Qtiny() - q
  {
  }

  ghost function HalfUpBit(n: nat, u: nat): nat {
    if 2 * n >= u then 1 else 0
  }

  lemma HalfUpTo(f: Format, negative: bool, n: nat, length: nat, q: int, d: nat)
    requires FormatOk(f) && n > 0 && HasLength(n, length) && d == Dropped(f, length, q) >= length
    ensures var s := [HalfUpBit(n, Pow10(d))];
      Delivers(f, HalfUp, negative, n, q, HighResult(f, HalfUp, negative, s, f.Qtiny()), Clear, StatusAfter(f, HalfUp, n, length, q, s, f.Qtiny()))
  {
    AllDropped(f, length, q);
    QuotLength(n, length, d);
    var u, m := Pow10(d), HalfUpBit(n, Pow10(d));
    BumpedIsRounded(HalfUp, negative, n, u);
    OneDigit(m);
    assert Worth([m], f.Qtiny(), m, q + d, f.P);
    Deliver(f, HalfUp, negative, n, length, q, m, [m], f.Qtiny());
  }

  lemma BitShows(f: Format, negative: bool, a: nat, b: nat)
    requires FormatOk(f) && a <= 1 && b <= 1 && HighResult(f, HalfUp, negative, [a], f.Qtiny()) == HighResult(f, HalfUp, negative, [b], f.Qtiny())
    ensures a == b
  {
  }

  /** n cannot be half of two different powers of ten above it. */
  lemma OneHalf(n: nat, c: nat, d: nat)
    requires c < d && n < Pow10(c)
    ensures 2 * n < Pow10(d)
  {
    PowMono(c, d);
  }

  lemma HalfUpSame(f: Format, negative: bool, n: nat, length: nat, q: int, c: int)
    requires FormatOk(f) && n > 0 && q != c && HasLength(n, length) && SameDelivery(f, negative, n, q, c)
    requires Dropped(f, length, q) >= length && Dropped(f, length, c) >= length
    ensures Vanishes(f, n, q) && Vanishes(f, n, c)
  {
    var d, d' := Dropped(f, length, c), Dropped(f, length, q);
    AllDropped(f, length, c);
    AllDropped(f, length, q);
    HalfUpBits(f, negative, n, length, q, c, d, d');
    PowMono(length, d);
    PowMono(length, d');
    if d < d' { OneHalf(n, d, d'); } else { OneHalf(n, d', d); }
  }

  lemma HalfUpBits(f: Format, negative: bool, n: nat, length: nat, q: int, c: int, d: nat, d': nat)
    requires FormatOk(f) && n > 0 && HasLength(n, length) && SameDelivery(f, negative, n, q, c)
    requires d == Dropped(f, length, c) >= length && d' == Dropped(f, length, q) >= length
    ensures HalfUpBit(n, Pow10(d)) == HalfUpBit(n, Pow10(d'))
  {
    hide Delivers, SameDelivery, HighResult;
    var a, b := HalfUpBit(n, Pow10(d)), HalfUpBit(n, Pow10(d'));
    HalfUpTo(f, negative, n, length, c, d);
    HalfUpTo(f, negative, n, length, q, d');
    SameOnce(f, HalfUp, negative, n, q, c, HighResult(f, HalfUp, negative, [a], f.Qtiny()), StatusAfter(f, HalfUp, n, length, c, [a], f.Qtiny()),
      HighResult(f, HalfUp, negative, [b], f.Qtiny()), StatusAfter(f, HalfUp, n, length, q, [b], f.Qtiny()));
    BitShows(f, negative, a, b);
  }

  lemma ZeroSame(f: Format, negative: bool, q: int, c: int)
    requires FormatOk(f) && SameDelivery(f, negative, 0, q, c)
    ensures Clamp(f, q) == Clamp(f, c)
  {
    hide Delivers;
    ClampedZero(f, Down, negative, c, Clear);
    ClampedZero(f, Down, negative, q, Clear);
    SameOnce(f, Down, negative, 0, q, c, Finite(negative, [0], Clamp(f, c)), Clear, Finite(negative, [0], Clamp(f, q)), Clear);
  }

  /** The exponent c delivers what q is to deliver exactly if they are equal, both
      overflow, both vanish, or clamp a zero alike. */
  lemma HarmlessIff(f: Format, negative: bool, n: nat, q: int, c: int)
    requires FormatOk(f)
    ensures SameDelivery(f, negative, n, q, c) <==> Harmless(f, n, q, c)
  {
    hide Delivers, SameDelivery, Vanishes;
    if Harmless(f, n, q, c) {
      HarmlessDelivers(f, negative, n, q, c);
    }
    if SameDelivery(f, negative, n, q, c) {
      if n == 0 {
        ZeroSame(f, negative, q, c);
      } else if q != c {
        LengthIs(n);
        DownSame(f, negative, n, q, c);
        if !(Over(f, |DigitsOf(n)|, q) && Over(f, |DigitsOf(n)|, c)) {
          HalfUpSame(f, negative, n, |DigitsOf(n)|, q, c);
        }
      }
    }
  }

  // ----- strings

  /** In every mode, what the conversion makes of the number is its exact value,
      correctly rounded. */
  ghost predicate Exactly(cv: Conversion, s: string, r: Reading)
    requires IsNumber(s, r)
  {
    forall mode, out, before, after :: Converted(cv, mode, s, r, out, before, after) ==>
      out.Value? && Delivers(cv.f, mode, r.negative, Val(Coef(s, r.cf, r.ce)), ExactExponent(s, r), out.number, before, after)
  }

  lemma NotStranded(cv: Conversion, s: string, r: Reading)
    requires FormatOk(cv.f) && IsNumber(s, r) && !Stranded(cv, s, r)
    ensures Exactly(cv, s, r) <==> SameDelivery(cv.f, r.negative, Val(Coef(s, r.cf, r.ce)), ExactExponent(s, r), NumberExponent(cv, s, r))
  {
    hide Delivers, ExactExponent, NumberExponent, Stranded;
    var n := Val(Coef(s, r.cf, r.ce));
    var q, c := ExactExponent(s, r), NumberExponent(cv, s, r);
    if Exactly(cv, s, r) {
      forall mode, d, before, after | Delivers(cv.f, mode, r.negative, n, c, d, before, after)
        ensures Delivers(cv.f, mode, r.negative, n, q, d, before, after)
      {
        assert Converted(cv, mode, s, r, Value(d), before, after);
      }
    }
  }

  lemma StrandedMissed(cv: Conversion, s: string, r: Reading)
    requires FormatOk(cv.f) && IsNumber(s, r) && Stranded(cv, s, r)
    ensures !Exactly(cv, s, r)
  {
    hide DeliversBy;
    var over := Status(true, false, true, false);
    var number := Infinite(r.negative);
    assert Converted(cv, Up, s, r, Value(number), Clear, over);
    ValZero(Coef(s, r.cf, r.ce));
    if Delivers(cv.f, Up, r.negative, 0, ExactExponent(s, r), number, Clear, over) {
      var q := ExactExponent(s, r);
      var length: nat, m: nat, d, e :| DeliversBy(cv.f, Up, r.negative, 0, q, number, Clear, over, length, m, d, e);
      ZeroIsClamped(cv.f, Up, r.negative, length, q, number, Clear, over, m, d, e);
      assert false;
    }
  }

  /** decFloatFromString delivers the exact value of a number, correctly rounded,
      exactly if the number is no stranded zero, and the exponent either has at most
      emaxd significant digits or is as harmless as twice the largest one, less the
      digits after the dot. */
  lemma ExactValueIff(cv: Conversion, s: string, r: Reading)
    requires FormatOk(cv.f) && IsNumber(s, r)
    ensures Exactly(cv, s, r) <==>
      !Stranded(cv, s, r) && (|s| - r.z <= cv.emaxd || Harmless(cv.f, Val(Coef(s, r.cf, r.ce)), ExactExponent(s, r), NumberExponent(cv, s, r)))
  {
    hide Exactly, SameDelivery, Stranded;
    if Stranded(cv, s, r) {
      StrandedMissed(cv, s, r);
    } else {
      NotStranded(cv, s, r);
      HarmlessIff(cv.f, r.negative, Val(Coef(s, r.cf, r.ce)), ExactExponent(s, r), NumberExponent(cv, s, r));
      if |s| - r.z <= cv.emaxd { ShortExponentExact(cv, s, r); }
    }
  }

  /** The replacement is safe for coefficients with few digits on either side of
      the dot: the number lies far beyond the range either way. */
  lemma ShortCoefficientSafe(f: Format, n: nat, x: int, fraction: nat, negative: bool)
    requires FormatOk(f) && n > 0
    requires if negative then |DigitsOf(n)| < f.Qtiny() + fraction + 2 * f.Emax && |DigitsOf(n)| < f.Qtiny() + fraction + x
             else fraction < f.Emax && fraction + f.Emax < x
    ensures Harmless(f, n, (if negative then -x else x) - fraction, (if negative then -2 * f.Emax else 2 * f.Emax) - fraction)
  {
    LengthIs(n);
    if negative {
      FarBelow(f, n, |DigitsOf(n)|, -x - fraction);
      FarBelow(f, n, |DigitsOf(n)|, -2 * f.Emax - fraction);
    }
  }

  lemma FarBelow(f: Format, n: nat, k: nat, q: int)
    requires HasLength(n, k) && k < f.Qtiny() - q
    ensures Vanishes(f, n, q)
  {
    PowMono(k, f.Qtiny() - q);
  }

  // ----- two inputs that are not converted to their value

  const Decimal64: Conversion := Conversion(Format(16, 384, -383), 3, 37)

  /** 0.000...01E+1000, with 1000 digits after the dot: the number 1. */
  function LongOne(): string {
    "0." + seq(999, _ => '0') + "1E+1000"
  }

  ghost function LongOneReading(): Reading {
    Number(false, 0, 1002, 1, 1004, 1004)
  }

  lemma LongOneParts(s: string, f: seq<int>)
    requires s == LongOne() && f == Repeat(0, 999) + [1]
    ensures Spelled(s, 0, [0], f) && SignedExponentAt(s, 1002, false, [1, 0, 0, 0])
  {
    assert |s| == 1008 && s[0] == '0' && s[1] == '.' && s[1001] == '1' && s[1002] == 'E' && s[1003] == '+';
    assert s[1004] == '1' && s[1005] == '0' && s[1006] == '0' && s[1007] == '0';
    assert forall i :: 2 <= i < 1001 ==> s[i] == '0';
  }

  lemma ThousandIs()
    ensures Val([1, 0, 0, 0]) == 1000
  {
    OneDigit(1);
    ValLast([1], 0);
    ValLast([1, 0], 0);
    ValLast([1, 0, 0], 0);
    assert [1] + [0] == [1, 0] && [1, 0] + [0] == [1, 0, 0] && [1, 0, 0] + [0] == [1, 0, 0, 0];
  }

  lemma LongOneIsOne(s: string, f: seq<int>)
    requires s == LongOne() && f == Repeat(0, 999) + [1]
    ensures var r := LongOneReading(); IsNumber(s, r) && Val(Coef(s, r.cf, r.ce)) == 1 && |s| - r.z == 4
  {
    LongOneParts(s, f);
    SpelledCoef(s, 0, [0], f);
    SignedIs(s, 1002, false, [1, 0, 0, 0]);
    OneDigit(1);
    LeadingZeros(Repeat(0, 999), [1]);
    LeadingZeros([0], f);
  }

  lemma LongOneExponents(s: string, f: seq<int>)
    requires s == LongOne() && f == Repeat(0, 999) + [1] && IsNumber(s, LongOneReading())
    ensures ExactExponent(s, LongOneReading()) == 0 && NumberExponent(Decimal64, s, LongOneReading()) == -232
  {
    LongOneParts(s, f);
    CoefOf(s, 1004, [1, 0, 0, 0]);
    ThousandIs();
  }

  /** The number 1, written at length, is not delivered as 1 by decimal64: it comes
      out as 10^-232. */
  lemma LongOneMissed(mode: Rounding, status: Status)
    ensures var s, r := LongOne(), LongOneReading();
      && IsNumber(s, r) && Val(Coef(s, r.cf, r.ce)) == 1 && ExactExponent(s, r) == 0
      && !Exactly(Decimal64, s, r)
      && Delivers(Decimal64.f, mode, false, 1, NumberExponent(Decimal64, s, r), Finite(false, [1], -232), status, status)
  {
    var s, f := LongOne(), Repeat(0, 999) + [1];
    LongOneIsOne(s, f);
    LongOneExponents(s, f);
    ExactValueIff(Decimal64, s, LongOneReading());
    OneNotHarmless();
    OneDelivered(mode, status);
  }

  lemma OneNotHarmless()
    ensures !Harmless(Decimal64.f, 1, 0, -232)
  {
    assert DigitsOf(1) == [1];
  }

  lemma OneDelivered(mode: Rounding, status: Status)
    ensures Delivers(Decimal64.f, mode, false, 1, -232, Finite(false, [1], -232), status, status)
  {
    OneDigit(1);
    assert [1] + Repeat(0, 0) == [1];
    var j := PaddedDelivers(Decimal64.f, mode, false, [1], -232, 0, 1, status);
  }

  /** 38 zeros, one more than the buffer holds, a dot, and E+386: a zero. */
  function LongZero(): string {
    seq(38, _ => '0') + ".E+386"
  }

  ghost function LongZeroReading(): Reading {
    Number(false, 0, 39, 38, 41, 41)
  }

  lemma ExponentIs386()
    ensures Val([3, 8, 6]) == 386
  {
    OneDigit(3);
    ValLast([3], 8);
    ValLast([3, 8], 6);
    assert [3] + [8] == [3, 8] && [3, 8] + [6] == [3, 8, 6];
  }

  lemma LongZeroShape(s: string)
    requires s == LongZero()
    ensures |s| == 44 && s[38] == '.' && s[39] == 'E' && s[40] == '+' && forall i :: 0 <= i < 38 ==> s[i] == '0'
    ensures SignedExponentAt(s, 39, false, [3, 8, 6])
  {
    assert s[41] == '3' && s[42] == '8' && s[43] == '6';
  }

  lemma LongZeroIsZero(s: string)
    requires s == LongZero()
    ensures IsNumber(s, LongZeroReading()) && |Coef(s, 0, 39)| == 38 && AllZeros(Coef(s, 0, 39))
    ensures NumberExponent(Decimal64, s, LongZeroReading()) == ExactExponent(s, LongZeroReading()) == 386
  {
    LongZeroShape(s);
    hide LongZero, Val;
    SignedIs(s, 39, false, [3, 8, 6]);
    CoefOf(s, 41, [3, 8, 6]);
    ExponentIs386();
    ZerosCoef(s, 0, 38);
    CoefLength(s, 0, 39, 38);
    DotCoef(s, 38);
    CoefSplit(s, 0, 38, 39);
  }

  /** This zero overflows in decimal64, and is delivered as infinity or as the
      largest number. */
  lemma LongZeroStranded(mode: Rounding, out: Outcome, before: Status, after: Status)
    requires Converted(Decimal64, mode, LongZero(), LongZeroReading(), out, before, after)
    ensures Val(Coef(LongZero(), 0, 39)) == 0 && Stranded(Decimal64, LongZero(), LongZeroReading())
    ensures out == Value(if ToMax(mode, false) then Finite(false, Repeat(9, 16), 369) else Infinite(false))
    ensures after.overflow && after.inexact
  {
    LongZeroIsZero(LongZero());
    ValZero(Coef(LongZero(), 0, 39));
  }
}
