/** Rounding a number twice. Done first in the mode ZeroFiveUp and then, to fewer
    digits, in any mode, it gives what rounding once does: a last digit of 0 or 5
    goes up if anything was lost, and so keeps that it was. */
module TwiceRounded {
  import opened Decimal
  import opened Finalize
  import opened StickyDigit

  lemma TimesRest(R: nat, r: nat, u: nat, w: nat)
    requires R < w && r < u
    ensures R * u + r < w * u
  {
    MulMono(R + 1, w, u);
    assert (R + 1) * u == R * u + u;
  }

  lemma SplitUnits(q: nat, Q: nat, R: nat, w: nat, u: nat, r: nat, x: nat)
    requires q == Q * w + R && x == q * u + r
    ensures x == Q * (w * u) + (R * u + r)
  {
    assert q * u == (Q * w) * u + R * u;
    assert (Q * w) * u == Q * (w * u);
  }

  /** The rest R of a number of units, against half of w = 10 * v units, with r left
      over; b is 1 if the last digit went up. */
  lemma SameRest(R: nat, r: nat, u: nat, v: nat, b: nat)
    requires R < 10 * v && r < u && b == (if r > 0 && R % 5 == 0 then 1 else 0)
    ensures R + b < 10 * v
    ensures R + b == 0 <==> R * u + r == 0
    ensures 2 * (R + b) < 10 * v <==> 2 * (R * u + r) < (10 * v) * u
    ensures 2 * (R + b) == 10 * v <==> 2 * (R * u + r) == (10 * v) * u
  {
    var h := 5 * v;
    assert h % 5 == 0;
    NotBefore(R, v);
    assert (10 * v) * u == 2 * (h * u);
    if R < h {
      TimesRest(R, r, u, h);
    } else if R == h {
    } else {
      TimesRest(h, 0, u, R);
    }
    if R > 0 { MulMono(1, R, u); }
  }

  /** A digit before a multiple of 5 is none. */
  lemma NotBefore(R: nat, v: nat)
    ensures R % 5 == 0 ==> R + 1 != 10 * v && R + 1 != 5 * v
    ensures R == 5 * v ==> R % 5 == 0
  {
  }

  lemma RestFive(q: nat, Q: nat, R: nat, v: nat)
    requires q == Q * (10 * v) + R
    ensures q % 5 == R % 5
  {
    var t := Q * (2 * v);
    assert q == 5 * t + R by { assert Q * (10 * v) == 5 * t; }
    ModFive(q, t + R / 5, R % 5);
  }

  lemma FiveUp(negative: bool, x: nat, u: nat, m: nat)
    requires u > 0 && Rounded(ZeroFiveUp, negative, x, u, m)
    ensures m == Quot(x, u) + if Rem(x, u) > 0 && Quot(x, u) % 5 == 0 then 1 else 0
  {
  }

  /** Rests that compare alike with half of their units are at the same place. */
  lemma SamePlace(m: nat, w: nat, a: nat, x: nat, y: nat, b: nat, Q: nat)
    requires a < w && b < y && m == Q * w + a && x == Q * y + b
    requires (a == 0 <==> b == 0) && (2 * a < w <==> 2 * b < y) && (2 * a == w <==> 2 * b == y)
    ensures Quot(m, w) == Quot(x, y) && PlaceOf(m, w) == PlaceOf(x, y)
  {
    DivIs(Q, a, w, m);
    DivIs(Q, b, y, x);
  }

  /** The same with x in units of u, of which Q * w + R are full and r is left. */
  lemma CutUnits(x: nat, u: nat, v: nat, w: nat, q: nat, Q: nat, R: nat, r: nat, b: nat, m: nat)
    requires w == 10 * v && R < w && r < u && q == Q * w + R && x == q * u + r && m == q + b
    requires b == if r > 0 && q % 5 == 0 then 1 else 0
    ensures w * u > 0 && Quot(m, w) == Quot(x, w * u) && PlaceOf(m, w) == PlaceOf(x, w * u)
  {
    RestFive(q, Q, R, v);
    SameRest(R, r, u, v, b);
    SplitUnits(q, Q, R, w, u, r, x);
    TimesRest(R, r, u, w);
    SamePlace(m, w, R + b, x, w * u, R * u + r, Q);
  }

  /** Cutting k digits more off the rounded number leaves the same quotient, and the
      rest at the same place, as cutting all off at once. */
  lemma SameCut(negative: bool, x: nat, u: nat, k: nat, m: nat)
    requires u > 0 && k >= 1 && Rounded(ZeroFiveUp, negative, x, u, m)
    ensures Pow10(k) * u > 0
    ensures Quot(m, Pow10(k)) == Quot(x, Pow10(k) * u) && PlaceOf(m, Pow10(k)) == PlaceOf(x, Pow10(k) * u)
  {
    var v, w, q, r := Pow10(k - 1), Pow10(k), Quot(x, u), Rem(x, u);
    assert w == 10 * v;
    FiveUp(negative, x, u, m);
    hide Rounded, Quot, Rem, Pow10, PlaceOf;
    DivMod(x, u);
    DivMod(q, w);
    CutUnits(x, u, v, w, q, Quot(q, w), Rem(q, w), r, if r > 0 && q % 5 == 0 then 1 else 0, m);
  }

  /** Rounding again to k digits fewer is rounding once. */
  lemma RoundedAgain(mode: Rounding, negative: bool, x: nat, u: nat, k: nat, m: nat, j: nat)
    requires u > 0 && k >= 1 && Rounded(ZeroFiveUp, negative, x, u, m)
    ensures Pow10(k) * u > 0
    ensures Rounded(mode, negative, m, Pow10(k), j) <==> Rounded(mode, negative, x, Pow10(k) * u, j)
  {
    hide Rounded;
    SameCut(negative, x, u, k, m);
    if Rounded(mode, negative, m, Pow10(k), j) {
      SamePlaceRounds(mode, negative, m, Pow10(k), x, Pow10(k) * u, j);
    }
    if Rounded(mode, negative, x, Pow10(k) * u, j) {
      SamePlaceRounds(mode, negative, x, Pow10(k) * u, m, Pow10(k), j);
    }
  }

  // ----- from format to format

  /** The format g is shorter than f at both ends. */
  ghost predicate Narrower(g: Format, f: Format) {
    FormatOk(g) && FormatOk(f) && g.P < f.P && f.Qtiny() < g.Qtiny()
  }

  /** ZeroFiveUp never carries: the units have as many digits as were kept. */
  lemma UnitsLength(negative: bool, n: nat, length: nat, drop: nat, m: nat)
    requires HasLength(n, length) && Rounded(ZeroFiveUp, negative, n, Pow10(drop), m)
    ensures HasLength(m, if drop < length then length - drop else 1)
  {
    var q := Quot(n, Pow10(drop));
    QuotLength(n, length, drop);
    if drop < length {
      NotBefore(q, Pow10(length - drop - 1));
    } else {
      PowMono(0, 1);
      assert Pow10(1) == 10 * Pow10(0);
    }
  }

  /** The units are the coefficient. */
  lemma UnitsAre(f: Format, negative: bool, n: nat, length: nat, q: int, m: nat, s: seq<int>, e: int)
    requires FormatOk(f) && HasLength(n, length)
    requires RoundedTo(f, ZeroFiveUp, negative, n, q, Dropped(f, length, q), m, s, e)
    ensures var drop := Dropped(f, length, q);
      Digits(s) && Val(s) == m && e == q + drop && |s| == if drop < length then length - drop else 1
  {
    var drop := Dropped(f, length, q);
    UnitsLength(negative, n, length, drop, m);
    PowMono(if drop < length then length - drop else 1, f.P);
    TrimmedLength(s);
    LengthUnique(m, |s|, if drop < length then length - drop else 1);
  }

  lemma DropsAdd(f: Format, g: Format, length: nat, q: int)
    requires Narrower(g, f) && length >= 1
    ensures var drop := Dropped(f, length, q);
      var len := if drop < length then length - drop else 1;
      && Dropped(g, length, q) == drop + Dropped(g, len, q + drop)
      && (drop > 0 ==> Dropped(g, len, q + drop) >= 1)
  {
  }

  /** A number rounded to a format in the mode ZeroFiveUp is rounded to any narrower
      format just as the number itself, in every mode. */
  lemma RoundedTwice(f: Format, g: Format, mode: Rounding, negative: bool, n: nat, length: nat, q: int, m: nat, s: seq<int>, e: int, m': nat, s': seq<int>, e': int)
    requires Narrower(g, f) && HasLength(n, length)
    requires RoundedTo(f, ZeroFiveUp, negative, n, q, Dropped(f, length, q), m, s, e)
    ensures Digits(s)
    ensures RoundedTo(g, mode, negative, Val(s), e, Dropped(g, |s|, e), m', s', e') <==> RoundedTo(g, mode, negative, n, q, Dropped(g, length, q), m', s', e')
  {
    hide Dropped, Rounded, Worth, HasLength, Val;
    var drop := Dropped(f, length, q);
    UnitsAre(f, negative, n, length, q, m, s, e);
    assert length >= 1 by { LengthPositive(n, length); }
    DropsAdd(f, g, length, q);
    UnitsAgain(mode, negative, n, drop, Dropped(g, |s|, e), m, m');
  }

  lemma LengthPositive(n: nat, length: nat)
    requires HasLength(n, length)
    ensures length >= 1
  {
  }

  lemma UnitsAgain(mode: Rounding, negative: bool, n: nat, drop: nat, k: nat, m: nat, j: nat)
    requires Rounded(ZeroFiveUp, negative, n, Pow10(drop), m) && (drop > 0 ==> k >= 1)
    ensures Rounded(mode, negative, m, Pow10(k), j) <==> Rounded(mode, negative, n, Pow10(drop + k), j)
  {
    hide Rounded;
    PowSum(k, drop);
    assert k + drop == drop + k;
    if drop > 0 {
      RoundedAgain(mode, negative, n, Pow10(drop), k, m, j);
    } else {
      NothingDropped(negative, n, m);
    }
  }

  lemma NothingDropped(negative: bool, n: nat, m: nat)
    requires Rounded(ZeroFiveUp, negative, n, Pow10(0), m)
    ensures m == n
  {
    assert Pow10(0) == 1;
    UnitQuot(n);
  }

  /** So is its result in that format, overflow included. */
  lemma FinalizedTwice(f: Format, g: Format, mode: Rounding, negative: bool, n: nat, length: nat, q: int, m: nat, s: seq<int>, e: int, m': nat, s': seq<int>, e': int, r: Final)
    requires Narrower(g, f) && HasLength(n, length)
    requires RoundedTo(f, ZeroFiveUp, negative, n, q, Dropped(f, length, q), m, s, e)
    ensures Digits(s) && HasLength(Val(s), |s|)
    ensures Finalized(g, mode, negative, Val(s), |s|, e, m', s', e', r) <==> Finalized(g, mode, negative, n, length, q, m', s', e', r)
  {
    hide RoundedTo, HighEndIs;
    RoundedTwice(f, g, mode, negative, n, length, q, m, s, e, m', s', e');
    WorthLength(f, negative, n, length, q, m, s, e);
  }

  lemma WorthLength(f: Format, negative: bool, n: nat, length: nat, q: int, m: nat, s: seq<int>, e: int)
    requires RoundedTo(f, ZeroFiveUp, negative, n, q, Dropped(f, length, q), m, s, e)
    ensures Digits(s) && HasLength(Val(s), |s|)
  {
    TrimmedLength(s);
  }
}
