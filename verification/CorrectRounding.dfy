/** What decFinalize promises, in terms of values: the result fits the format, is
    the correctly rounded one among all numbers of the format, and the status
    bits tell exactly when it is not the number itself. */
module CorrectRounding {
  import opened Decimal
  import opened Finalize

  /** v * 10^e at the scale of 10^b. */
  ghost function Scaled(v: nat, e: int, b: int): nat
    requires b <= e
  {
    v * Pow10(e - b)
  }

  /** Two numbers are equal in value. */
  ghost predicate SameValue(v: nat, e: int, w: nat, d: int) {
    if e <= d then v == Scaled(w, d, e) else Scaled(v, e, d) == w
  }

  lemma ScaledOn(v: nat, e: int, b: int, a: int)
    requires a <= b <= e
    ensures Scaled(v, e, a) == Scaled(v, e, b) * Pow10(b - a)
  {
    PowSum(e - b, b - a);
    assert (e - b) + (b - a) == e - a;
    Assoc(v, Pow10(e - b), Pow10(b - a));
  }

  lemma Assoc(a: int, b: int, c: int)
    ensures a * (b * c) == (a * b) * c
  {
  }

  lemma MulLess(a: int, b: int, c: int)
    requires c > 0
    ensures a < b <==> a * c < b * c
  {
    if a < b { MulMono(a + 1, b, c); assert (a + 1) * c == a * c + c; } else { MulMono(b, a, c); }
  }

  lemma MulCancel(a: int, b: int, c: int)
    requires c > 0 && a * c == b * c
    ensures a == b
  {
    MulLess(a, b, c);
    MulLess(b, a, c);
  }

  /** Equality does not depend on the scale. */
  lemma SameScaled(v: nat, e: int, w: nat, d: int, b: int)
    requires b <= e && b <= d
    ensures SameValue(v, e, w, d) <==> Scaled(v, e, b) == Scaled(w, d, b)
  {
    if e <= d {
      ScaledOn(w, d, e, b);
      if Scaled(v, e, b) == Scaled(w, d, b) { MulCancel(v, Scaled(w, d, e), Pow10(e - b)); }
    } else {
      ScaledOn(v, e, d, b);
      if Scaled(v, e, b) == Scaled(w, d, b) { MulCancel(Scaled(v, e, d), w, Pow10(d - b)); }
    }
  }

  lemma SameTrans(v: nat, e: int, w: nat, d: int, x: nat, c: int)
    requires SameValue(v, e, w, d) && SameValue(w, d, x, c)
    ensures SameValue(v, e, x, c)
  {
    var b := if e <= d && e <= c then e else if d <= c then d else c;
    SameScaled(v, e, w, d, b);
    SameScaled(w, d, x, c, b);
    SameScaled(v, e, x, c, b);
  }

  lemma SameSym(v: nat, e: int, w: nat, d: int)
    requires SameValue(v, e, w, d)
    ensures SameValue(w, d, v, e)
  {
    var b := if e <= d then e else d;
    SameScaled(v, e, w, d, b);
    SameScaled(w, d, v, e, b);
  }

  lemma SameShift(v: nat, e: int, k: nat)
    ensures SameValue(v * Pow10(k), e, v, e + k) && SameValue(v, e + k, v * Pow10(k), e)
  {
    if k == 0 { assert Pow10(0) == 1; }
  }

  lemma SameSelf(v: nat, e: int)
    ensures SameValue(v, e, v, e)
  {
    assert Pow10(0) == 1;
  }

  // ----- the layout keeps the value

  lemma {:induction false} ZerosVal(s: seq<int>, k: nat)
    requires Digits(s)
    ensures Digits(s + Repeat(0, k)) && Val(s + Repeat(0, k)) == Val(s) * Pow10(k)
  {
    ValZero(Repeat(0, k));
    ValAppend(s, Repeat(0, k));
  }

  /** Carrying into a further digit keeps the value. */
  lemma WorthValue(s: seq<int>, e: int, m: nat, e0: int, P: nat)
    requires Worth(s, e, m, e0, P)
    ensures SameValue(Val(s), e, m, e0)
  {
    if e == e0 {
      SameSelf(m, e0);
    } else {
      SameShift(Val(s), e0, 1);
      assert Pow10(1) == 10 by { assert Pow10(0) == 1; }
    }
  }

  /** Unless it overflows, the result has the value of the rounded number, and it
      fits: at most P digits, and an exponent of the format, which is that of the
      rounded number or the largest if that is larger. */
  lemma LayoutKeepsValue(f: Format, mode: Rounding, negative: bool, m: nat, e0: int, s: seq<int>, e: int, r: Final)
    requires FormatOk(f) && Worth(s, e, m, e0, f.P) && HighEndIs(f, mode, negative, s, e, r) && !Overflows(f, s, e)
    ensures r.Finite? && r.negative == negative && Digits(r.digits) && 1 <= |r.digits| <= f.P
    ensures r.exponent <= f.Qlimit() && (e0 >= f.Qtiny() ==> r.exponent >= f.Qtiny())
    ensures m != 0 || e0 <= f.Qlimit() ==> SameValue(Val(r.digits), r.exponent, m, e0)
    ensures m == 0 ==> Val(r.digits) == 0 && r.exponent == if e0 <= f.Qlimit() then e0 else f.Qlimit()
    ensures m != Pow10(f.P) ==> r.exponent == if e0 <= f.Qlimit() then e0 else f.Qlimit()
  {
    WorthValue(s, e, m, e0, f.P);
    if e > f.Qlimit() && s != [0] {
      var k := e - f.Qlimit();
      ZerosVal(s, k);
      SameShift(Val(s), f.Qlimit(), k);
      SameTrans(Val(r.digits), r.exponent, Val(s), e, m, e0);
    }
    ZeroIs(s);
  }

  lemma ZeroIs(s: seq<int>)
    requires Digits(s) && IsTrimmed(s)
    ensures Val(s) == 0 <==> s == [0]
  {
    TrimmedLength(s);
    OneDigit(0);
    if Val(s) == 0 { assert s[0] == 0 && |s| == 1; }
  }

  // ----- overflow

  /** The largest finite number, nines at the largest exponent, at scale b. */
  ghost function MaxScaled(f: Format, b: int): nat
    requires b <= f.Qlimit()
  {
    Scaled(Pow10(f.P) - 1, f.Qlimit(), b)
  }

  lemma ScaledAtLeast(v: nat, n: nat, e: int, b: int)
    requires b <= e && Pow10(n) <= v
    ensures Scaled(v, e, b) >= Pow10(n + (e - b))
  {
    PowSum(n, e - b);
    MulMono(Pow10(n), v, Pow10(e - b));
  }

  lemma ScaledBelow(v: nat, n: nat, e: int, b: int)
    requires b <= e && v < Pow10(n)
    ensures Scaled(v, e, b) < Pow10(n + (e - b))
  {
    PowSum(n, e - b);
    MulLess(v, Pow10(n), Pow10(e - b));
  }

  lemma ScaledMono(v: nat, w: nat, e: int, d: int, b: int)
    requires b <= e <= d && v <= w
    ensures Scaled(v, e, b) <= Scaled(w, d, b)
  {
    MulMono(v, w, Pow10(e - b));
    PowMono(e - b, d - b);
    MulOrder(w, Pow10(e - b), Pow10(d - b));
  }

  lemma MulOrder(a: int, b: int, c: int)
    requires b <= c && 0 <= a
    ensures a * b <= a * c
  {
  }

  lemma AboveMax(f: Format, v: nat, n: nat, e: int, b: int)
    requires b <= e && b <= f.Qlimit() && n >= 1 && Pow10(n - 1) <= v && e + n - 1 > f.Emax && f.P >= 1
    ensures Scaled(v, e, b) > MaxScaled(f, b)
  {
    ScaledAtLeast(v, n - 1, e, b);
    PowMono(f.P + (f.Qlimit() - b), n - 1 + (e - b));
    ScaledBelow(Pow10(f.P) - 1, f.P, f.Qlimit(), b);
  }

  /** A trimmed coefficient exceeds the largest number exactly if its adjusted
      exponent exceeds Emax. */
  lemma ExceedsMax(f: Format, s: seq<int>, e: int, b: int)
    requires FormatOk(f) && Digits(s) && IsTrimmed(s) && |s| <= f.P && b <= e && b <= f.Qlimit()
    ensures Overflows(f, s, e) <==> Scaled(Val(s), e, b) > MaxScaled(f, b)
  {
    TrimmedLength(s);
    ZeroIs(s);
    if Overflows(f, s, e) {
      ValLead(s);
      AboveMax(f, Val(s), |s|, e, b);
    } else {
      AtMostMax(f, s, e, b);
    }
  }

  lemma AtMostMax(f: Format, s: seq<int>, e: int, b: int)
    requires FormatOk(f) && Digits(s) && IsTrimmed(s) && |s| <= f.P && b <= e && b <= f.Qlimit() && !Overflows(f, s, e)
    ensures Scaled(Val(s), e, b) <= MaxScaled(f, b)
  {
    if s == [0] {
      OneDigit(0);
      assert Scaled(0, e, b) == 0;
    } else if e <= f.Qlimit() {
      PowMono(|s|, f.P);
      ScaledMono(Val(s), Pow10(f.P) - 1, e, f.Qlimit(), b);
    } else {
      FoldedBelow(f, Val(s), |s|, e, b);
    }
  }

  lemma FoldedBelow(f: Format, v: nat, n: nat, e: int, b: int)
    requires b <= f.Qlimit() < e && v < Pow10(n) && n + (e - f.Qlimit()) <= f.P
    ensures Scaled(v, e, b) <= MaxScaled(f, b)
  {
    ScaledBelow(v, n, e, f.Qlimit());
    PowMono(n + (e - f.Qlimit()), f.P);
    ScaledOn(v, e, f.Qlimit(), b);
    var w := Scaled(v, e, f.Qlimit());
    ScaledMono(w, Pow10(f.P) - 1, f.Qlimit(), f.Qlimit(), b);
  }

  /** Overflow is raised exactly if the rounded number, with the exponent
      unbounded, is larger than the largest finite number. */
  lemma OverflowIff(f: Format, mode: Rounding, negative: bool, n: nat, exponent: int, drop: nat, m: nat, s: seq<int>, e: int, b: int)
    requires FormatOk(f) && RoundedTo(f, mode, negative, n, exponent, drop, m, s, e)
    requires b <= exponent && b <= f.Qlimit()
    ensures Overflows(f, s, e) <==> Scaled(m, exponent + drop, b) > MaxScaled(f, b)
  {
    ExceedsMax(f, s, e, b);
    WorthValue(s, e, m, exponent + drop, f.P);
    SameScaled(Val(s), e, m, exponent + drop, b);
  }

  // ----- correct rounding

  /** v * 10^e has at most P digits and an exponent that the format does not
      exclude at the low end. */
  ghost predicate Representable(f: Format, v: nat, e: int) {
    v < Pow10(f.P) && e >= f.Qtiny()
  }

  /** r is the number the mode picks for x before a candidate w. The directed modes
      pick the nearest on their side; ZeroFiveUp picks one of the two next to x. The
      other modes pick a nearest one; of two equally near ones HalfUp picks the
      larger, HalfDown the smaller, and HalfEven the one that is even. */
  ghost predicate PickedOver(mode: Rounding, negative: bool, x: int, r: int, even: bool, w: int) {
    match mode
    case Down => NearestBelow(x, r, w)
    case Up => NearestAbove(x, r, w)
    case Ceiling => if negative then NearestBelow(x, r, w) else NearestAbove(x, r, w)
    case Floor => if negative then NearestAbove(x, r, w) else NearestBelow(x, r, w)
    case HalfUp => Dist(r, x) <= Dist(w, x) && (Dist(r, x) == Dist(w, x) ==> w <= r)
    case HalfDown => Dist(r, x) <= Dist(w, x) && (Dist(r, x) == Dist(w, x) ==> r <= w)
    case HalfEven => Dist(r, x) <= Dist(w, x) && (Dist(r, x) == Dist(w, x) ==> w == r || even)
    case ZeroFiveUp => if r <= x then NearestBelow(x, r, w) else NearestAbove(x, r, w)
    case Unknown => NearestBelow(x, r, w)
  }

  ghost predicate NearestBelow(x: int, r: int, w: int) {
    r <= x && (w <= x ==> w <= r)
  }

  ghost predicate NearestAbove(x: int, r: int, w: int) {
    r >= x && (w >= x ==> w >= r)
  }

  function Dist(a: int, b: int): int {
    if a <= b then b - a else a - b
  }

  /** Among multiples of u. */
  lemma PickedMultiple(mode: Rounding, negative: bool, n: nat, u: nat, m: nat, j: nat)
    requires u > 0 && Rounded(mode, negative, n, u, m)
    ensures PickedOver(mode, negative, n, m * u, m % 2 == 0, j * u)
  {
    var q := Quot(n, u);
    DivMod(n, u);
    Multiples(q, j, u);
    Multiples(q, m, u);
    TimesIs(m, u);
    PickedLinear(mode, negative, n, u, q, Rem(n, u), q * u, m, m * u, j, j * u);
  }

  lemma PickedLinear(mode: Rounding, negative: bool, x: int, u: int, q: int, r: int, y: int, m: int, z: int, j: int, w: int)
    requires x == y + r && 0 <= r < u && q >= 0
    requires m < q ==> z <= y - u
    requires m == q ==> z == y
    requires m == q + 1 ==> z == y + u
    requires m > q + 1 ==> z >= y + 2 * u
    requires j < q ==> w <= y - u
    requires j == q ==> w == y
    requires j == q + 1 ==> w == y + u
    requires j > q + 1 ==> w >= y + 2 * u
    requires if r == 0 then m == q else RoundsTo(mode, negative, x, u, q, m, z)
    ensures PickedOver(mode, negative, x, z, m % 2 == 0, w)
  {
    if r != 0 { OneOfTwo(mode, negative, x, u, q, r, y, m, z); }
  }

  lemma DistScale(a: int, b: int, k: int)
    requires k > 0
    ensures Dist(a * k, b * k) == Dist(a, b) * k
  {
    MulLess(b, a, k);
    assert (a - b) * k == a * k - b * k && (b - a) * k == b * k - a * k;
  }

  lemma PickedScale(mode: Rounding, negative: bool, x: int, r: int, even: bool, w: int, k: int)
    requires k > 0 && PickedOver(mode, negative, x, r, even, w)
    ensures PickedOver(mode, negative, x * k, r * k, even, w * k)
  {
    MulLess(x, w, k);
    MulLess(w, x, k);
    MulLess(r, w, k);
    MulLess(w, r, k);
    MulLess(x, r, k);
    MulLess(r, x, k);
    DistScale(r, x, k);
    DistScale(w, x, k);
    MulMono(Dist(r, x), if Dist(r, x) <= Dist(w, x) then Dist(w, x) else Dist(r, x), k);
  }

  /** Picked over a lower bound of x, a number is picked over all below it. */
  lemma PickedBelow(mode: Rounding, negative: bool, x: int, r: int, even: bool, l: int, w: int)
    requires PickedOver(mode, negative, x, r, even, l) && w < l <= x
    ensures PickedOver(mode, negative, x, r, even, w)
  {
  }

  /** Scaling m units of exponent q + drop. */
  lemma ScaledUnits(m: nat, q: int, drop: nat, b: int)
    requires b <= q
    ensures Scaled(m, q + drop, b) == (m * Pow10(drop)) * Pow10(q - b)
  {
    PowSum(drop, q - b);
    assert q + drop - b == drop + (q - b);
    Assoc(m, Pow10(drop), Pow10(q - b));
  }

  /** The rounded number is picked over every multiple of its unit. */
  lemma PickedOverMultiple(mode: Rounding, negative: bool, n: nat, q: int, drop: nat, m: nat, j: nat, b: int)
    requires b <= q && Rounded(mode, negative, n, Pow10(drop), m)
    ensures PickedOver(mode, negative, Scaled(n, q, b), Scaled(m, q + drop, b), m % 2 == 0, Scaled(j, q + drop, b))
  {
    PickedMultiple(mode, negative, n, Pow10(drop), m, j);
    ScaledUnits(m, q, drop, b);
    ScaledUnits(j, q, drop, b);
    PickedScale(mode, negative, n, m * Pow10(drop), m % 2 == 0, j * Pow10(drop), Pow10(q - b));
  }

  /** Correct rounding: of all numbers with at most P digits and an exponent not
      below the least, whatever their exponents, the result of rounding is the one
      the mode asks for. The number of units is even when the last digit is. */
  lemma CorrectlyRounded(f: Format, mode: Rounding, negative: bool, n: nat, length: nat, q: int, m: nat, v: nat, d: int, b: int)
    requires FormatOk(f) && HasLength(n, length)
    requires Rounded(mode, negative, n, Pow10(Dropped(f, length, q)), m)
    requires Representable(f, v, d) && b <= q && b <= d
    ensures PickedOver(mode, negative, Scaled(n, q, b), Scaled(m, q + Dropped(f, length, q), b), m % 2 == 0, Scaled(v, d, b))
  {
    var drop := Dropped(f, length, q);
    var e := q + drop;
    if d >= e {
      var j := Scaled(v, d, e);
      ScaledOn(v, d, e, b);
      PickedOverMultiple(mode, negative, n, q, drop, m, j, b);
    } else if drop == 0 {
      assert Pow10(0) == 1;
      UnitQuot(n);
    } else {
      assert drop == length - f.P;
      var j := Pow10(f.P - 1);
      PickedOverMultiple(mode, negative, n, q, drop, m, j, b);
      FinerIsSmaller(f, n, length, q, v, d, b);
      PickedBelow(mode, negative, Scaled(n, q, b), Scaled(m, e, b), m % 2 == 0, Scaled(j, e, b), Scaled(v, d, b));
    }
  }

  lemma LengthBound(n: nat, length: nat)
    requires HasLength(n, length) && length > 1
    ensures Pow10(length - 1) <= n
  {
  }

  /** A number of finer exponent, with at most P digits, is below the leading
      digit of one that has more. */
  lemma FinerIsSmaller(f: Format, n: nat, length: nat, q: int, v: nat, d: int, b: int)
    requires FormatOk(f) && HasLength(n, length) && length > f.P && v < Pow10(f.P)
    requires b <= d < q + (length - f.P) && b <= q
    ensures Scaled(v, d, b) < Scaled(Pow10(f.P - 1), q + (length - f.P), b) <= Scaled(n, q, b)
  {
    hide Pow10;
    LengthBound(n, length);
    var e := q + (length - f.P);
    ScaledBelow(v, f.P, d, b);
    PowMono(f.P + (d - b), f.P - 1 + (e - b));
    ScaledAtLeast(Pow10(f.P - 1), f.P - 1, e, b);
    PowSum(f.P - 1, e - b);
    ScaledAtLeast(n, length - 1, q, b);
    assert f.P - 1 + (e - b) == length - 1 + (q - b);
  }

  // ----- the result, finite or not

  /** A finite number of the format. */
  ghost predicate FormatHas(f: Format, v: nat, d: int) {
    v < Pow10(f.P) && f.Qtiny() <= d <= f.Qlimit()
  }

  /** One unit above the largest finite number, at scale b. */
  ghost function NextScaled(f: Format, b: int): nat
    requires b <= f.Qlimit()
  {
    Scaled(Pow10(f.P), f.Qlimit(), b)
  }

  /** Where the numbers begin that the mode takes to infinity, max being the largest
      finite number and next the one a unit above it: behind max if the mode rounds
      away from zero, and half a unit behind max for the nearest modes. No number is
      so large that a mode that rounds toward zero would take it there. */
  ghost predicate GoesInfinite(mode: Rounding, negative: bool, x: int, max: int, next: int) {
    match mode
    case Down => false
    case ZeroFiveUp => false
    case Up => x > max
    case Ceiling => !negative && x > max
    case Floor => negative && x > max
    case HalfUp => 2 * x >= max + next
    case HalfEven => 2 * x >= max + next
    case HalfDown => 2 * x > max + next
    case Unknown => x >= next
  }

  /** Infinity is picked over the finite number w: w is below x and the mode rounds
      away from zero, or w is no nearer than the first number past the largest. */
  ghost predicate InfiniteOver(mode: Rounding, negative: bool, x: int, next: int, w: int) {
    match mode
    case Down => false
    case ZeroFiveUp => false
    case Up => w < x
    case Ceiling => !negative && w < x
    case Floor => negative && w < x
    case HalfUp => x - w >= next - x
    case HalfEven => x - w >= next - x
    case HalfDown => x - w > next - x
    case Unknown => next <= x
  }

  /** r is what the mode makes of x, before a finite candidate w and infinity. */
  ghost predicate PickedFinal(f: Format, mode: Rounding, negative: bool, x: int, r: Final, w: int, b: int)
    requires b <= f.Qtiny() && b <= f.Qlimit()
  {
    && r.negative == negative
    && (r.Infinite? <==> GoesInfinite(mode, negative, x, MaxScaled(f, b), NextScaled(f, b)))
    && match r
       case Infinite(_) => InfiniteOver(mode, negative, x, NextScaled(f, b), w)
       case Finite(_, digits, e) =>
         && Digits(digits) && FormatHas(f, Val(digits), e)
         && PickedOver(mode, negative, x, Scaled(Val(digits), e, b), Val(digits) % 2 == 0, w)
  }

  lemma NextIs(f: Format, b: int)
    requires FormatOk(f) && b <= f.Qlimit()
    ensures NextScaled(f, b) == Pow10(f.P + (f.Qlimit() - b)) == MaxScaled(f, b) + Pow10(f.Qlimit() - b)
    ensures Pow10(f.P - 1 + (f.Qlimit() - b)) <= MaxScaled(f, b)
  {
    var u := Pow10(f.Qlimit() - b);
    PowSum(f.P, f.Qlimit() - b);
    PowSum(f.P - 1, f.Qlimit() - b);
    assert (Pow10(f.P) - 1) * u == Pow10(f.P) * u - u;
    PowMono(f.P - 1, f.P);
    MulMono(Pow10(f.P - 1), Pow10(f.P) - 1, u);
  }

  lemma {:induction false} PowEven(n: nat)
    requires n > 0
    ensures Pow10(n) % 2 == 0
  {
    ModTwo(Pow10(n), 5 * Pow10(n - 1), 0);
  }

  /** No more than a full coefficient is left of a number. */
  lemma UnitsAtMost(f: Format, n: nat, length: nat, q: int, b: int)
    requires FormatOk(f) && HasLength(n, length) && b <= q
    ensures Scaled(n, q, b) < Pow10(f.P + (q + Dropped(f, length, q) - b))
  {
    ScaledBelow(n, length, q, b);
    PowMono(length + (q - b), f.P + (q + Dropped(f, length, q) - b));
  }

  lemma WorthAtMost(s: seq<int>, e: int, m: nat, e0: int, P: nat)
    requires Worth(s, e, m, e0, P)
    ensures m <= Pow10(P)
  {
    PowMono(|s|, P);
  }

  /** If the unit is below that of the largest number, the number is below it. */
  lemma SmallUnit(f: Format, n: nat, length: nat, q: int, m: nat, b: int)
    requires FormatOk(f) && HasLength(n, length) && b <= q && b <= f.Qlimit() && m <= Pow10(f.P)
    requires q + Dropped(f, length, q) < f.Qlimit()
    ensures Scaled(n, q, b) <= MaxScaled(f, b) && Scaled(m, q + Dropped(f, length, q), b) <= MaxScaled(f, b)
  {
    var e0 := q + Dropped(f, length, q);
    UnitsAtMost(f, n, length, q, b);
    NextIs(f, b);
    PowMono(f.P + (e0 - b), f.P - 1 + (f.Qlimit() - b));
    PowSum(f.P, e0 - b);
    MulMono(m, Pow10(f.P), Pow10(e0 - b));
  }

  /** If it is above, the number is below the largest one or at least a unit past it,
      and the rounded number likewise. */
  lemma LargeUnit(f: Format, mode: Rounding, negative: bool, n: nat, length: nat, q: int, m: nat, b: int)
    requires FormatOk(f) && HasLength(n, length) && b <= q && b <= f.Qlimit()
    requires Rounded(mode, negative, n, Pow10(Dropped(f, length, q)), m)
    requires q + Dropped(f, length, q) > f.Qlimit()
    ensures Scaled(n, q, b) <= MaxScaled(f, b) || Scaled(n, q, b) >= NextScaled(f, b)
    ensures Scaled(m, q + Dropped(f, length, q), b) > MaxScaled(f, b) <==> Scaled(n, q, b) > MaxScaled(f, b)
  {
    var drop := Dropped(f, length, q);
    NextIs(f, b);
    if drop == 0 {
      assert Pow10(0) == 1;
      UnitQuot(n);
      ScaledOn(n, q, f.Qlimit(), b);
      var k := Scaled(n, q, f.Qlimit());
      if k >= Pow10(f.P) { MulMono(Pow10(f.P), k, Pow10(f.Qlimit() - b)); } else { MulMono(k, Pow10(f.P) - 1, Pow10(f.Qlimit() - b)); }
    } else {
      FullCoefficient(f, mode, negative, n, length, q, m);
      ScaledAtLeast(n, length - 1, q, b);
      ScaledAtLeast(m, f.P - 1, q + drop, b);
      PowMono(f.P + (f.Qlimit() - b), f.P - 1 + (q + drop - b));
      assert length - 1 + (q - b) == f.P - 1 + (q + drop - b);
    }
  }

  /** Cut to the precision, a number keeps all P digits. */
  lemma FullCoefficient(f: Format, mode: Rounding, negative: bool, n: nat, length: nat, q: int, m: nat)
    requires FormatOk(f) && HasLength(n, length) && length > f.P && Dropped(f, length, q) == length - f.P
    requires Rounded(mode, negative, n, Pow10(length - f.P), m)
    ensures m >= Pow10(f.P - 1)
  {
    var drop := length - f.P;
    QuotLength(n, length, drop);
    DivMod(n, Pow10(drop));
    Multiples(Quot(n, Pow10(drop)), m, Pow10(drop));
    TimesIs(m, Pow10(drop));
    if Rem(n, Pow10(drop)) != 0 {
      OneOfTwo(mode, negative, n, Pow10(drop), Quot(n, Pow10(drop)), Rem(n, Pow10(drop)), Quot(n, Pow10(drop)) * Pow10(drop), m, m * Pow10(drop));
    }
  }

  /** At the unit of the largest number: rounding up to the next one is going to
      infinity, and only a number behind the largest does that. */
  lemma SameUnit(f: Format, mode: Rounding, negative: bool, n: nat, length: nat, q: int, m: nat, b: int)
    requires FormatOk(f) && HasLength(n, length) && b <= q && b <= f.Qlimit() && m <= Pow10(f.P)
    requires Rounded(mode, negative, n, Pow10(Dropped(f, length, q)), m)
    requires q + Dropped(f, length, q) == f.Qlimit()
    ensures !mode.ZeroFiveUp? ==>
      (Scaled(m, f.Qlimit(), b) > MaxScaled(f, b) <==> GoesInfinite(mode, negative, Scaled(n, q, b), MaxScaled(f, b), NextScaled(f, b)))
    ensures Scaled(m, f.Qlimit(), b) > MaxScaled(f, b) ==> Scaled(n, q, b) > MaxScaled(f, b)
  {
    var drop, full := Dropped(f, length, q), Pow10(f.P);
    NextIs(f, b);
    UnitsAtMost(f, n, length, q, b);
    PickedOverMultiple(mode, negative, n, q, drop, m, full, b);
    PickedOverMultiple(mode, negative, n, q, drop, m, full - 1, b);
    PowEven(f.P);
    if m < full { MulMono(m, full - 1, Pow10(f.Qlimit() - b)); }
    if m + 1 < full { MulLess(m, full - 1, Pow10(f.Qlimit() - b)); }
    AtTheTop(mode, negative, Scaled(n, q, b), Scaled(m, f.Qlimit(), b), m % 2 == 0, MaxScaled(f, b), NextScaled(f, b), m == full, m == full - 1);
  }

  lemma AtTheTop(mode: Rounding, negative: bool, x: int, r: int, even: bool, max: int, next: int, isNext: bool, isMax: bool)
    requires x < next && max < next
    requires PickedOver(mode, negative, x, r, even, next) && PickedOver(mode, negative, x, r, even, max)
    requires if isNext then r == next else if isMax then r == max && !even else r < max
    ensures !mode.ZeroFiveUp? ==> (r > max <==> GoesInfinite(mode, negative, x, max, next))
    ensures r > max ==> x > max
  {
  }

  /** An overflow and its mode say whether the number goes to infinity. */
  lemma OverflowGoes(f: Format, mode: Rounding, negative: bool, n: nat, length: nat, q: int, m: nat, s: seq<int>, e: int, b: int)
    requires FormatOk(f) && HasLength(n, length) && b <= q && b <= f.Qlimit()
    requires RoundedTo(f, mode, negative, n, q, Dropped(f, length, q), m, s, e)
    ensures Overflows(f, s, e) && !ToMax(mode, negative) <==> GoesInfinite(mode, negative, Scaled(n, q, b), MaxScaled(f, b), NextScaled(f, b))
    ensures Overflows(f, s, e) ==> Scaled(n, q, b) > MaxScaled(f, b)
  {
    hide Overflows, Worth;
    var e0 := q + Dropped(f, length, q);
    OverflowIff(f, mode, negative, n, q, Dropped(f, length, q), m, s, e, b);
    WorthAtMost(s, e, m, e0, f.P);
    NextIs(f, b);
    if e0 < f.Qlimit() {
      SmallUnit(f, n, length, q, m, b);
    } else if e0 > f.Qlimit() {
      LargeUnit(f, mode, negative, n, length, q, m, b);
    } else {
      SameUnit(f, mode, negative, n, length, q, m, b);
    }
  }

  lemma NumberAtMost(f: Format, v: nat, d: int, b: int)
    requires FormatHas(f, v, d) && b <= f.Qtiny()
    ensures Scaled(v, d, b) <= MaxScaled(f, b)
  {
    ScaledMono(v, Pow10(f.P) - 1, d, f.Qlimit(), b);
  }

  /** Where digits were dropped, the result has the last digit of the rounded number. */
  lemma KeepsParity(f: Format, mode: Rounding, negative: bool, n: nat, length: nat, q: int, m: nat, s: seq<int>, e: int, r: Final)
    requires FormatOk(f) && HasLength(n, length) && Dropped(f, length, q) > 0
    requires Finalized(f, mode, negative, n, length, q, m, s, e, r) && !Overflows(f, s, e)
    ensures r.Finite? && r.digits == s && (Val(s) % 2 == 0 <==> m % 2 == 0)
  {
    if Dropped(f, length, q) == length - f.P {
      FullCoefficient(f, mode, negative, n, length, q, m);
      if |s| < f.P { PowMono(|s|, f.P - 1); }
    }
    if m == Pow10(f.P) && Val(s) == Pow10(f.P - 1) {
      PowEven(f.P);
      PowEven(f.P - 1);
      if |s| < f.P { PowMono(|s|, f.P - 1); }
    }
    OneDigit(0);
  }

  /** The value of a finite result without overflow, at any scale. */
  lemma ResultScaled(f: Format, mode: Rounding, negative: bool, n: nat, length: nat, q: int, m: nat, s: seq<int>, e: int, r: Final, b: int)
    requires FormatOk(f) && Finalized(f, mode, negative, n, length, q, m, s, e, r) && !Overflows(f, s, e) && b <= q && b <= f.Qtiny()
    ensures r.Finite? && r.negative == negative && Digits(r.digits) && FormatHas(f, Val(r.digits), r.exponent)
    ensures Scaled(Val(r.digits), r.exponent, b) == Scaled(m, q + Dropped(f, length, q), b)
  {
    var e0 := q + Dropped(f, length, q);
    LayoutKeepsValue(f, mode, negative, m, e0, s, e, r);
    PowMono(|r.digits|, f.P);
    if m != 0 {
      SameScaled(Val(r.digits), r.exponent, m, e0, b);
    }
  }

  lemma ExactUnits(mode: Rounding, negative: bool, n: nat, m: nat)
    requires Rounded(mode, negative, n, Pow10(0), m)
    ensures m == n
  {
    assert Pow10(0) == 1;
    UnitQuot(n);
  }

  /** Without overflow. */
  lemma FinitePicked(f: Format, mode: Rounding, negative: bool, n: nat, length: nat, q: int, m: nat, s: seq<int>, e: int, r: Final, v: nat, d: int, b: int)
    requires FormatOk(f) && HasLength(n, length) && FormatHas(f, v, d) && b <= q && b <= f.Qtiny()
    requires Finalized(f, mode, negative, n, length, q, m, s, e, r) && !Overflows(f, s, e)
    ensures r.Finite? && Digits(r.digits) && FormatHas(f, Val(r.digits), r.exponent)
    ensures PickedOver(mode, negative, Scaled(n, q, b), Scaled(Val(r.digits), r.exponent, b), Val(r.digits) % 2 == 0, Scaled(v, d, b))
  {
    hide Worth, HighEndIs, Overflows, Rounded;
    ResultScaled(f, mode, negative, n, length, q, m, s, e, r, b);
    CorrectlyRounded(f, mode, negative, n, length, q, m, v, d, b);
    if Dropped(f, length, q) > 0 {
      KeepsParity(f, mode, negative, n, length, q, m, s, e, r);
    } else {
      ExactUnits(mode, negative, n, m);
    }
  }

  /** Whatever the number, the result is the one the mode asks for among all finite
      numbers of the format and infinity. */
  lemma ResultPicked(f: Format, mode: Rounding, negative: bool, n: nat, length: nat, q: int, m: nat, s: seq<int>, e: int, r: Final, v: nat, d: int, b: int)
    requires FormatOk(f) && HasLength(n, length) && Finalized(f, mode, negative, n, length, q, m, s, e, r)
    requires FormatHas(f, v, d) && b <= q && b <= f.Qtiny()
    ensures PickedFinal(f, mode, negative, Scaled(n, q, b), r, Scaled(v, d, b), b)
  {
    hide Worth, Rounded;
    OverflowGoes(f, mode, negative, n, length, q, m, s, e, b);
    NumberAtMost(f, v, d, b);
    NextIs(f, b);
    if Overflows(f, s, e) {
      if r.Finite? { Nines(r.digits); }
    } else {
      FinitePicked(f, mode, negative, n, length, q, m, s, e, r, v, d, b);
    }
  }

  // ----- inexact

  /** Nothing was lost exactly if the units make up the number. */
  lemma ExactIff(mode: Rounding, negative: bool, n: nat, q: int, drop: nat, m: nat)
    requires Rounded(mode, negative, n, Pow10(drop), m)
    ensures !WasInexact(n, drop) <==> SameValue(m, q + drop, n, q)
  {
    DivMod(n, Pow10(drop));
    if SameValue(m, q + drop, n, q) {
      ScaledUnits(m, q, drop, q);
      assert Pow10(0) == 1;
      DivIs(m, 0, Pow10(drop), n);
    }
    if !WasInexact(n, drop) {
      SameShift(m, q, drop);
    }
  }

  /** A number that overflows is not the largest finite one. */
  lemma OverflowIsInexact(f: Format, mode: Rounding, negative: bool, n: nat, length: nat, q: int, m: nat, s: seq<int>, e: int)
    requires FormatOk(f) && HasLength(n, length)
    requires RoundedTo(f, mode, negative, n, q, Dropped(f, length, q), m, s, e) && Overflows(f, s, e)
    ensures !SameValue(Pow10(f.P) - 1, f.Qlimit(), n, q)
  {
    var drop, nines := Dropped(f, length, q), Pow10(f.P) - 1;
    if SameValue(nines, f.Qlimit(), n, q) {
      var b := if q <= f.Qlimit() then q else f.Qlimit();
      SameScaled(nines, f.Qlimit(), n, q, b);
      OverflowIff(f, mode, negative, n, q, drop, m, s, e, b);
      MaxExact(f, mode, negative, n, length, q, m, b);
    }
  }

  /** If n is the largest finite number, rounding leaves it as it is. */
  lemma MaxExact(f: Format, mode: Rounding, negative: bool, n: nat, length: nat, q: int, m: nat, b: int)
    requires FormatOk(f) && HasLength(n, length) && b == (if q <= f.Qlimit() then q else f.Qlimit())
    requires Scaled(n, q, b) == MaxScaled(f, b) && Rounded(mode, negative, n, Pow10(Dropped(f, length, q)), m)
    ensures Scaled(m, q + Dropped(f, length, q), b) == MaxScaled(f, b)
  {
    var drop := Dropped(f, length, q);
    assert Pow10(0) == 1;
    if q <= f.Qlimit() {
      var k := f.Qlimit() - q;
      MaxLength(f, n, k, length);
      assert drop == k;
      DivIs(Pow10(f.P) - 1, 0, Pow10(k), n);
      assert m == Pow10(f.P) - 1;
    } else {
      ScaledMono(n, n, f.Qlimit(), q, f.Qlimit());
      if length > f.P { PowMono(f.P, length - 1); }
      assert drop == 0;
      UnitQuot(n);
    }
  }

  lemma MaxLength(f: Format, n: nat, k: nat, length: nat)
    requires FormatOk(f) && n == (Pow10(f.P) - 1) * Pow10(k) && HasLength(n, length)
    ensures length == f.P + k
  {
    PowSum(f.P, k);
    PowSum(f.P - 1, k);
    MulLess(Pow10(f.P) - 1, Pow10(f.P), Pow10(k));
    PowMono(f.P - 1, f.P);
    MulMono(Pow10(f.P - 1), Pow10(f.P) - 1, Pow10(k));
    LengthUnique(n, length, f.P + k);
  }

  /** The result is the number itself exactly when Inexact is not set. */
  lemma InexactIff(f: Format, mode: Rounding, negative: bool, n: nat, length: nat, q: int, m: nat, s: seq<int>, e: int, r: Final)
    requires FormatOk(f) && HasLength(n, length)
    requires Finalized(f, mode, negative, n, length, q, m, s, e, r)
    ensures
      (r.Finite? && Digits(r.digits) && SameValue(Val(r.digits), r.exponent, n, q)) <==>
      !(WasInexact(n, Dropped(f, length, q)) || Overflows(f, s, e))
  {
    var drop := Dropped(f, length, q);
    ExactIff(mode, negative, n, q, drop, m);
    if Overflows(f, s, e) {
      OverflowIsInexact(f, mode, negative, n, length, q, m, s, e);
      if r.Finite? { Nines(r.digits); }
    } else {
      LayoutKeepsValue(f, mode, negative, m, q + drop, s, e, r);
      FiniteExact(f, mode, negative, n, q, drop, m, Val(r.digits), r.exponent);
    }
  }

  lemma ZeroMod(u: nat)
    requires u > 0
    ensures Rem(0, u) == 0
  {
  }

  lemma FiniteExact(f: Format, mode: Rounding, negative: bool, n: nat, q: int, drop: nat, m: nat, v: nat, d: int)
    requires Rounded(mode, negative, n, Pow10(drop), m)
    requires m != 0 ==> SameValue(v, d, m, q + drop)
    requires m == 0 ==> v == 0
    ensures SameValue(v, d, n, q) <==> !WasInexact(n, drop)
  {
    ExactIff(mode, negative, n, q, drop, m);
    if m != 0 {
      SameSym(v, d, m, q + drop);
      if SameValue(v, d, n, q) { SameTrans(m, q + drop, v, d, n, q); }
      if SameValue(m, q + drop, n, q) { SameTrans(v, d, m, q + drop, n, q); }
    } else {
      var b := if d <= q then d else q;
      SameScaled(v, d, n, q, b);
      if n > 0 { MulMono(1, n, Pow10(q - b)); }
      DivMod(n, Pow10(drop));
      ZeroMod(Pow10(drop));
    }
  }

  /** Underflow is about numbers below the least normal one, before rounding. */
  lemma TinyIff(f: Format, n: nat, length: nat, q: int, b: int)
    requires FormatOk(f) && HasLength(n, length) && n > 0 && b <= q && b <= f.Emin
    ensures Tiny(f, length, q) <==> Scaled(n, q, b) < Scaled(1, f.Emin, b)
  {
    assert Pow10(0) == 1;
    if Tiny(f, length, q) {
      ScaledBelow(n, length, q, b);
      PowMono(length + (q - b), f.Emin - b);
    } else {
      ScaledAtLeast(n, length - 1, q, b);
      PowMono(f.Emin - b, length - 1 + (q - b));
    }
  }
}
