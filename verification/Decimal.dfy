/** Numbers in decimal: what digit strings are worth, and what it means to round
    one correctly (IEEE 754-2008, section 4.3). */
module Decimal {

  ghost function Pow10(n: nat): (p: nat)
    ensures p >= 1
  {
    if n == 0 then 1 else 10 * Pow10(n - 1)
  }

  lemma {:induction false} PowSum(m: nat, n: nat)
    ensures Pow10(m + n) == Pow10(m) * Pow10(n)
  {
    if n > 0 {
      PowSum(m, n - 1);
      MulAssoc(Pow10(m), Pow10(n - 1));
    }
  }

  lemma MulAssoc(a: int, b: int)
    ensures 10 * (a * b) == a * (10 * b)
  {
  }

  lemma {:induction false} PowMono(m: nat, n: nat)
    requires m <= n
    ensures Pow10(m) <= Pow10(n)
    ensures m < n ==> 10 * Pow10(m) <= Pow10(n)
  {
    if m < n { PowMono(m, n - 1); }
  }

  ghost predicate Digits(s: seq<int>) {
    forall i :: 0 <= i < |s| ==> 0 <= s[i] <= 9
  }

  /** The integer a digit string stands for, most significant digit first. */
  ghost function Val(s: seq<int>): (v: nat)
    requires Digits(s)
    ensures v < Pow10(|s|)
  {
    if s == [] then 0 else 10 * Val(s[..|s| - 1]) + s[|s| - 1]
  }

  lemma {:induction false} ValAppend(s: seq<int>, t: seq<int>)
    requires Digits(s) && Digits(t)
    ensures Digits(s + t) && Val(s + t) == Val(s) * Pow10(|t|) + Val(t)
  {
    if t == [] {
      assert s + t == s;
    } else {
      var u := t[..|t| - 1];
      ValAppend(s, u);
      assert (s + t)[..|s + t| - 1] == s + u;
      AppendArith(Val(s + u), Val(s), Pow10(|u|), Val(u), t[|t| - 1]);
    }
  }

  lemma AppendArith(a: int, v: int, p: int, x: int, d: int)
    requires a == v * p + x
    ensures 10 * a + d == v * (10 * p) + (10 * x + d)
  {
    MulAssoc(v, p);
  }

  lemma {:induction false} ValZero(s: seq<int>)
    requires Digits(s)
    ensures Val(s) == 0 <==> forall i :: 0 <= i < |s| ==> s[i] == 0
  {
    if s != [] { ValZero(s[..|s| - 1]); }
  }

  /** A leading digit other than 0 fixes the magnitude. */
  lemma ValLead(s: seq<int>)
    requires Digits(s) && s != [] && s[0] != 0
    ensures Pow10(|s| - 1) <= Val(s)
  {
    assert s == s[..1] + s[1..];
    ValAppend(s[..1], s[1..]);
    assert Val(s[..1]) == s[0];
    MulMono(1, s[0], Pow10(|s| - 1));
  }

  lemma MulMono(a: int, b: int, c: int)
    requires a <= b && 0 <= c
    ensures a * c <= b * c
  {
  }

  /** The number of digits of n; one for 0. */
  ghost predicate HasLength(n: nat, len: nat) {
    len >= 1 && n < Pow10(len) && (len > 1 ==> Pow10(len - 1) <= n)
  }

  lemma LengthUnique(n: nat, a: nat, b: nat)
    requires HasLength(n, a) && HasLength(n, b)
    ensures a == b
  {
    if a < b { PowMono(a, b - 1); }
    if b < a { PowMono(b, a - 1); }
  }

  // ----- rounding

  datatype Rounding = HalfEven | Down | HalfDown | HalfUp | Up | Ceiling | Floor | ZeroFiveUp | Unknown

  /** Quotient and remainder, by repeated subtraction. */
  ghost function Quot(x: nat, u: nat): nat
    requires u > 0
  {
    if x < u then 0 else 1 + Quot(x - u, u)
  }

  ghost function Rem(x: nat, u: nat): (r: nat)
    requires u > 0
    ensures r < u
  {
    if x < u then x else Rem(x - u, u)
  }

  /** The two neighbours of x / unit and where x lies between them. */
  datatype Place = Exact | Below | Half | Above

  ghost function PlaceOf(x: nat, unit: nat): Place
    requires unit > 0
  {
    if Rem(x, unit) == 0 then Exact else if 2 * (Rem(x, unit)) < unit then Below else if 2 * (Rem(x, unit)) == unit then Half else Above
  }

  /** m * u */
  ghost function Times(m: nat, u: nat): nat {
    if m == 0 then 0 else Times(m - 1, u) + u
  }

  lemma {:induction false} TimesIs(m: nat, u: nat)
    ensures Times(m, u) == m * u
  {
    if m > 0 {
      TimesIs(m - 1, u);
      assert m * u == (m - 1) * u + u;
    }
  }

  /** m is x / unit correctly rounded to an integer. */
  ghost predicate Rounded(mode: Rounding, negative: bool, x: nat, unit: nat, m: nat)
    requires unit > 0
  {
    if Rem(x, unit) == 0 then m == Quot(x, unit) else RoundsTo(mode, negative, x, unit, Quot(x, unit), m, Times(m, unit))
  }

  /** The same for an x that is no multiple of unit: q is the lower neighbour, and
      the result m stands for y. The nearest modes choose the nearer neighbour and
      break ties as named; the directed modes choose by sign; ZeroFiveUp goes up
      only from a last digit of 0 or 5, so that the result can be rounded again. */
  ghost predicate RoundsTo(mode: Rounding, negative: bool, x: int, unit: int, q: int, m: int, y: int) {
    match mode
    case Down => TowardZero(x, unit, y)
    case Up => AwayFromZero(x, unit, y)
    case Ceiling => if negative then TowardZero(x, unit, y) else AwayFromZero(x, unit, y)
    case Floor => if negative then AwayFromZero(x, unit, y) else TowardZero(x, unit, y)
    case HalfUp => Nearest(x, unit, y) && (Tie(x, unit, y) ==> y > x)
    case HalfDown => Nearest(x, unit, y) && (Tie(x, unit, y) ==> y < x)
    case HalfEven => Nearest(x, unit, y) && (Tie(x, unit, y) ==> m % 2 == 0)
    case ZeroFiveUp => if q % 5 == 0 then m == q + 1 else m == q
    case Unknown => m == q
  }

  ghost predicate TowardZero(x: int, unit: int, y: int) {
    y <= x < y + unit
  }

  ghost predicate AwayFromZero(x: int, unit: int, y: int) {
    y - unit < x <= y
  }

  ghost predicate Nearest(x: int, unit: int, y: int) {
    -unit <= 2 * (x - y) <= unit
  }

  ghost predicate Tie(x: int, unit: int, y: int) {
    2 * (x - y) == unit || 2 * (y - x) == unit
  }

  /** Does the mode go up from the lower neighbour, whose last digit is given? */
  function Bumps(mode: Rounding, negative: bool, p: Place, last: int): bool {
    match mode
    case HalfEven => p == Above || (p == Half && last % 2 == 1)
    case Down => false
    case HalfDown => p == Above
    case HalfUp => p == Above || p == Half
    case Up => p != Exact
    case Ceiling => !negative && p != Exact
    case Floor => negative && p != Exact
    case ZeroFiveUp => p != Exact && (last == 0 || last == 5)
    case Unknown => false
  }

  lemma {:induction false} DivMod(x: nat, unit: nat)
    requires unit > 0
    ensures x == Quot(x, unit) * unit + Rem(x, unit)
    decreases x
  {
    if x >= unit {
      DivMod(x - unit, unit);
      var q := Quot(x - unit, unit);
      assert (q + 1) * unit == q * unit + unit;
    }
  }

  lemma Multiples(q: int, m: int, unit: int)
    requires unit > 0
    ensures m < q ==> m * unit <= q * unit - unit
    ensures m == q + 1 ==> m * unit == q * unit + unit
    ensures m > q + 1 ==> m * unit >= q * unit + 2 * unit
  {
    assert (q - 1) * unit == q * unit - unit && (q + 1) * unit == q * unit + unit && (q + 2) * unit == q * unit + 2 * unit;
    if m < q { MulMono(m, q - 1, unit); }
    if m > q + 1 { MulMono(q + 2, m, unit); }
  }

  /** Bumping exactly as the mode says rounds correctly. */
  lemma BumpRounds(mode: Rounding, negative: bool, x: nat, unit: nat, last: int)
    requires unit > 0 && last == (Quot(x, unit)) % 10
    ensures Rounded(mode, negative, x, unit, Quot(x, unit) + if Bumps(mode, negative, PlaceOf(x, unit), last) then 1 else 0)
  {
    var q := Quot(x, unit);
    DivMod(x, unit);
    Multiples(q, q + 1, unit);
    TimesIs(q, unit);
    TimesIs(q + 1, unit);
    BumpPlace(mode, negative, x, unit, q, Rem(x, unit), q * unit, last);
  }

  lemma BumpPlace(mode: Rounding, negative: bool, x: int, unit: int, q: int, r: int, y: int, last: int)
    requires x == y + r && 0 <= r < unit && q >= 0 && last == q % 10
    ensures r > 0 ==>
      var p := if 2 * r < unit then Below else if 2 * r == unit then Half else Above;
      if Bumps(mode, negative, p, last) then RoundsTo(mode, negative, x, unit, q, q + 1, y + unit)
      else RoundsTo(mode, negative, x, unit, q, q, y)
  {
    LastDigit(q);
  }

  /** There is only one correct rounding. */
  lemma RoundedUnique(mode: Rounding, negative: bool, x: nat, unit: nat, m: nat, n: nat)
    requires unit > 0 && Rounded(mode, negative, x, unit, m) && Rounded(mode, negative, x, unit, n)
    ensures m == n
  {
    var q := Quot(x, unit);
    DivMod(x, unit);
    Multiples(q, m, unit);
    Multiples(q, n, unit);
    TimesIs(m, unit);
    TimesIs(n, unit);
    if Rem(x, unit) != 0 {
      OneOfTwo(mode, negative, x, unit, q, Rem(x, unit), q * unit, m, m * unit);
      OneOfTwo(mode, negative, x, unit, q, Rem(x, unit), q * unit, n, n * unit);
    }
  }

  /** The rounding is one of the neighbours, and which one is determined. */
  lemma OneOfTwo(mode: Rounding, negative: bool, x: int, unit: int, q: int, r: int, y: int, m: int, z: int)
    requires x == y + r && 0 < r < unit && q >= 0
    requires m < q ==> z <= y - unit
    requires m == q ==> z == y
    requires m == q + 1 ==> z == y + unit
    requires m > q + 1 ==> z >= y + 2 * unit
    requires RoundsTo(mode, negative, x, unit, q, m, z)
    ensures m == q || m == q + 1
    ensures m == q + 1 <==> Bumps(mode, negative, if 2 * r < unit then Below else if 2 * r == unit then Half else Above, q % 10)
  {
    if mode.ZeroFiveUp? || mode.Unknown? {
      LastDigit(q);
    } else {
      NextTo(mode, negative, x, unit, q, r, y, m, z);
      if m == q { AtLower(mode, negative, x, unit, q, r, y); } else { AtUpper(mode, negative, x, unit, q, r, y); }
    }
  }

  lemma LastDigit(q: int)
    requires q >= 0
    ensures (q % 2 == 1 <==> (q + 1) % 2 == 0) && q % 10 % 2 == q % 2
    ensures q % 5 == 0 <==> q % 10 == 0 || q % 10 == 5
  {
    var k, d := q / 10, q % 10;
    var h := if d >= 5 then 1 else 0;
    ModTwo(q, 5 * k + d / 2, d % 2);
    ModTwo(q + 1, 5 * k + (d + 1) / 2, (d + 1) % 2);
    ModFive(q, 2 * k + h, d - 5 * h);
  }

  lemma ModTwo(q: int, t: int, p: int)
    requires q == 2 * t + p && 0 <= p < 2
    ensures q % 2 == p
  {
  }

  lemma ModFive(q: int, t: int, p: int)
    requires q == 5 * t + p && 0 <= p < 5
    ensures q % 5 == p
  {
  }

  lemma NextTo(mode: Rounding, negative: bool, x: int, unit: int, q: int, r: int, y: int, m: int, z: int)
    requires x == y + r && 0 < r < unit && q >= 0 && !mode.ZeroFiveUp? && !mode.Unknown?
    requires m < q ==> z <= y - unit
    requires m > q + 1 ==> z >= y + 2 * unit
    requires RoundsTo(mode, negative, x, unit, q, m, z)
    ensures m == q || m == q + 1
  {
  }

  lemma AtLower(mode: Rounding, negative: bool, x: int, unit: int, q: int, r: int, y: int)
    requires x == y + r && 0 < r < unit && q >= 0 && !mode.ZeroFiveUp? && RoundsTo(mode, negative, x, unit, q, q, y)
    ensures !Bumps(mode, negative, if 2 * r < unit then Below else if 2 * r == unit then Half else Above, q % 10)
  {
    LastDigit(q);
  }

  lemma AtUpper(mode: Rounding, negative: bool, x: int, unit: int, q: int, r: int, y: int)
    requires x == y + r && 0 < r < unit && q >= 0 && !mode.ZeroFiveUp? && RoundsTo(mode, negative, x, unit, q, q + 1, y + unit)
    ensures Bumps(mode, negative, if 2 * r < unit then Below else if 2 * r == unit then Half else Above, q % 10)
  {
    LastDigit(q);
  }

  // ----- dropping digits

  lemma QuotBelow(n: nat, u: nat, b: nat)
    requires u > 0 && n < b * u
    ensures Quot(n, u) < b
  {
    DivMod(n, u);
    if Quot(n, u) >= b { MulMono(b, Quot(n, u), u); }
  }

  lemma QuotAtLeast(n: nat, u: nat, b: nat)
    requires u > 0 && b * u <= n
    ensures b <= Quot(n, u)
  {
    DivMod(n, u);
    if Quot(n, u) < b {
      MulMono(Quot(n, u) + 1, b, u);
    }
  }

  /** What is left after d digits are dropped. */
  lemma QuotLength(n: nat, length: nat, d: nat)
    requires HasLength(n, length)
    ensures d < length ==> HasLength(Quot(n, Pow10(d)), length - d)
    ensures d >= length ==> Quot(n, Pow10(d)) == 0 && Rem(n, Pow10(d)) == n
  {
    if d < length {
      PowSum(length - d, d);
      assert length - d + d == length;
      QuotBelow(n, Pow10(d), Pow10(length - d));
      if length - d > 1 {
        PowSum(length - d - 1, d);
        assert length - d - 1 + d == length - 1;
        QuotAtLeast(n, Pow10(d), Pow10(length - d - 1));
      }
    } else {
      PowMono(length, d);
    }
  }
}
