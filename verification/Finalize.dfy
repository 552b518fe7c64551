/** decCommon.c, decFinalize: rounding a coefficient to the format, with
    overflow, underflow and fold-down (IEEE 754-2008, sections 4.3, 7.4, 7.5). */
module Finalize {
  import opened Decimal

  /** Precision, and the exponent range of the adjusted exponent. */
  datatype Format = Format(P: nat, Emax: int, Emin: int) {
    /** The least exponent of a coefficient (DECQTINY). */
    function Qtiny(): int { Emin - (P - 1) }

    /** The largest exponent of a full coefficient. */
    function Qlimit(): int { Emax - (P - 1) }
  }

  ghost predicate FormatOk(f: Format) {
    f.P >= 2 && f.Emin <= f.Emax
  }

  /** The rounding mode, and the status bits that operations set. */
  class Context {
    const round: Rounding
    var inexact: bool
    var underflow: bool
    var overflow: bool
    var invalidContext: bool
    var conversionSyntax: bool

    constructor (mode: Rounding)
      ensures round == mode && !inexact && !underflow && !overflow && !invalidContext && !conversionSyntax
    {
      round := mode;
      inexact, underflow, overflow, invalidContext, conversionSyntax := false, false, false, false, false;
    }
  }

  datatype Final =
    | Finite(negative: bool, digits: seq<int>, exponent: int)
    | Infinite(negative: bool)

  // ----- leading zeros

  /** Without its leading zeros, but for a last one. */
  ghost predicate IsTrimmed(s: seq<int>) {
    s != [] && (s[0] == 0 ==> |s| == 1)
  }

  lemma TrimmedLength(s: seq<int>)
    requires Digits(s) && IsTrimmed(s)
    ensures HasLength(Val(s), |s|)
    ensures s[0] == 0 <==> Val(s) == 0
  {
    if s[0] != 0 {
      ValLead(s);
    } else {
      assert s == [0];
      assert Val([0]) == 0;
    }
  }

  lemma DropZero(s: seq<int>)
    requires Digits(s) && |s| > 1 && s[0] == 0
    ensures Val(s[1..]) == Val(s)
  {
    hide Val;
    assert s == [s[0]] + s[1..];
    ValAppend([s[0]], s[1..]);
    OneDigit(s[0]);
  }

  lemma OneDigit(d: int)
    requires 0 <= d <= 9
    ensures Val([d]) == d
  {
    assert [d][..0] == [];
  }

  /** t has the value of s. */
  ghost predicate SameWorth(s: seq<int>, t: seq<int>) {
    Digits(s) && Digits(t) && Val(s) == Val(t)
  }

  method TrimFours(buf: array<int>, msd: int, lsd: int) returns (umsd: int)
    requires 0 <= msd <= lsd + 1 <= buf.Length && Digits(buf[msd..lsd + 1])
    ensures msd <= umsd <= lsd + 1 && (msd <= lsd ==> umsd <= lsd) && SameWorth(buf[umsd..lsd + 1], buf[msd..lsd + 1])
  {
    umsd := msd;
    ghost var s := buf[msd..lsd + 1];
    while umsd + 3 < lsd && buf[umsd] == buf[umsd + 1] == buf[umsd + 2] == buf[umsd + 3] == 0
      invariant msd <= umsd <= lsd + 1 && (msd <= lsd ==> umsd <= lsd) && SameWorth(buf[umsd..lsd + 1], s)
    {
      DropZeros(buf[umsd..lsd + 1]);
      assert buf[umsd..lsd + 1][4..] == buf[umsd + 4..lsd + 1];
      umsd := umsd + 4;
    }
  }

  method TrimOnes(buf: array<int>, msd: int, lsd: int) returns (umsd: int)
    requires 0 <= msd <= lsd + 1 <= buf.Length && Digits(buf[msd..lsd + 1])
    ensures msd <= umsd <= lsd + 1 && SameWorth(buf[umsd..lsd + 1], buf[msd..lsd + 1])
    ensures if msd <= lsd then umsd <= lsd && IsTrimmed(buf[umsd..lsd + 1]) else umsd == msd
  {
    umsd := msd;
    ghost var s := buf[msd..lsd + 1];
    while umsd < lsd && buf[umsd] == 0
      invariant msd <= umsd <= lsd + 1 && (msd <= lsd ==> umsd <= lsd) && SameWorth(buf[umsd..lsd + 1], s)
    {
      DropZero(buf[umsd..lsd + 1]);
      assert buf[umsd..lsd + 1][1..] == buf[umsd + 1..lsd + 1];
      umsd := umsd + 1;
    }
  }

  /** Skipping leading zeros, four at a time and then one by one. */
  method Trim(buf: array<int>, msd: int, lsd: int) returns (umsd: int)
    requires 0 <= msd <= lsd + 1 <= buf.Length && Digits(buf[msd..lsd + 1])
    ensures msd <= umsd <= lsd + 1 && SameWorth(buf[umsd..lsd + 1], buf[msd..lsd + 1])
    ensures if msd <= lsd then umsd <= lsd && IsTrimmed(buf[umsd..lsd + 1]) else umsd == msd
  {
    umsd := TrimFours(buf, msd, lsd);
    umsd := TrimOnes(buf, umsd, lsd);
  }

  lemma DropZeros(s: seq<int>)
    requires Digits(s) && |s| > 4 && s[0] == s[1] == s[2] == s[3] == 0
    ensures Digits(s[4..]) && Val(s[4..]) == Val(s)
  {
    DropZero(s);
    DropZero(s[1..]);
    assert s[1..][1..] == s[2..];
    DropZero(s[2..]);
    assert s[2..][1..] == s[3..];
    DropZero(s[3..]);
    assert s[3..][1..] == s[4..];
  }

  // ----- cutting digits off

  /** DECSTICKYTAB */
  function Sticky(d: int): int {
    if d == 0 then 1 else if d == 5 then 6 else d
  }

  /** The re-round digit tells where the number lies between its neighbours. */
  function DigitPlace(reround: int): Place {
    if reround == 0 then Exact else if reround < 5 then Below else if reround == 5 then Half else Above
  }

  lemma ValLast(a: seq<int>, d: int)
    requires Digits(a) && 0 <= d <= 9
    ensures Val(a + [d]) == 10 * Val(a) + d
  {
    assert (a + [d])[..|a + [d]| - 1] == a;
  }

  lemma JoinArith(x: int, w: int, v: int, d: int, u: int, r: int)
    requires w == 10 * v + d && x == w * u + r
    ensures x == v * (10 * u) + (d * u + r)
  {
    assert w * u == 10 * (v * u) + d * u;
  }

  /** Val of a ++ [d] ++ rest. */
  lemma ValJoin(a: seq<int>, d: int, rest: seq<int>, x: int, v: int, r: int, u: int)
    requires Digits(a) && Digits(rest) && 0 <= d <= 9
    requires Digits(a + [d] + rest) && x == Val(a + [d] + rest) && v == Val(a) && r == Val(rest) && u == Pow10(|rest|)
    ensures x == v * (10 * u) + (d * u + r)
  {
    ValLast(a, d);
    var w := Val(a + [d]);
    assert x == w * u + r by { ValAppend(a + [d], rest); }
    JoinArith(x, w, v, d, u, r);
  }

  /** The digits cut off, as a place: their first digit, made sticky if any other
      is not 0. */
  lemma CutPlace(a: seq<int>, d: int, rest: seq<int>, s: seq<int>)
    requires Digits(a) && Digits(rest) && 0 <= d <= 9 && s == a + [d] + rest
    ensures Digits(s) && Quot(Val(s), Pow10(|rest| + 1)) == Val(a)
    ensures PlaceOf(Val(s), Pow10(|rest| + 1)) == DigitPlace(if Val(rest) != 0 then Sticky(d) else d)
  {
    var x, v, r, u := Val(s), Val(a), Val(rest), Pow10(|rest|);
    ValJoin(a, d, rest, x, v, r, u);
    CutDivide(v, d, r, u, x, 10 * u);
  }

  lemma CutDivide(q: nat, a: nat, r: nat, u: nat, x: nat, unit: nat)
    requires 0 <= a <= 9 && r < u && unit == 10 * u && x == q * (10 * u) + (a * u + r)
    ensures Quot(x, unit) == q
    ensures PlaceOf(x, unit) == DigitPlace(if r != 0 then Sticky(a) else a)
  {
    var m := a * u + r;
    SmallRest(a, r, u, m);
    DivIs(q, m, unit, x);
  }

  lemma DivIs(q: nat, m: nat, unit: nat, x: nat)
    requires m < unit && x == q * unit + m
    ensures Quot(x, unit) == q && Rem(x, unit) == m
  {
    DivMod(x, unit);
    if Quot(x, unit) < q { MulMono(Quot(x, unit) + 1, q, unit); }
    if Quot(x, unit) > q { MulMono(q + 1, Quot(x, unit), unit); }
  }

  lemma SmallRest(a: nat, r: nat, u: nat, m: int)
    requires 0 <= a <= 9 && r < u && m == a * u + r
    ensures 0 <= m < 10 * u
    ensures m == 0 <==> a == 0 && r == 0
    ensures a < 5 ==> 2 * m < 10 * u
    ensures a == 5 ==> 2 * m == 10 * u + 2 * r
    ensures a > 5 ==> 2 * m > 10 * u
  {
    MulMono(a, 9, u);
    if a < 5 { MulMono(a, 4, u); }
    if a > 5 { MulMono(6, a, u); }
    if a > 0 { MulMono(1, a, u); }
  }

  /** All digits cut off, and more places than digits. */
  lemma CutAll(s: seq<int>, drop: nat)
    requires Digits(s) && drop > |s|
    ensures Quot(Val(s), Pow10(drop)) == 0
    ensures PlaceOf(Val(s), Pow10(drop)) == DigitPlace(if Val(s) != 0 then Sticky(0) else 0)
  {
    PowMono(|s|, drop);
    DivIs(0, Val(s), Pow10(drop), Val(s));
  }

  /** The loop over the digits cut off. */
  method CheckStickies(buf: array<int>, from: int, to: int, digit: int) returns (reround: int)
    requires 0 <= from <= to + 1 <= buf.Length && Digits(buf[from..to + 1])
    ensures reround == if Val(buf[from..to + 1]) != 0 then Sticky(digit) else digit
  {
    reround := digit;
    var ub := from;
    ValZero(buf[from..to + 1]);
    while ub <= to
      invariant from <= ub <= to + 1 && reround == digit
      invariant forall i :: from <= i < ub ==> buf[i] == 0
    {
      if buf[ub] != 0 {
        assert buf[from..to + 1][ub - from] != 0;
        reround := Sticky(reround);
        return;
      }
      ub := ub + 1;
    }
  }

  lemma ValMod(s: seq<int>)
    requires Digits(s) && s != []
    ensures Val(s) % 10 == s[|s| - 1]
  {
  }

  /** What cutting `drop` digits off leaves: the quotient, trimmed, and the place
      of what is gone. */
  ghost predicate IsCut(n: nat, drop: nat, s: seq<int>, reround: int) {
    && Digits(s) && IsTrimmed(s) && Val(s) == Quot(n, Pow10(drop)) && 0 <= reround <= 9
    && PlaceOf(n, Pow10(drop)) == DigitPlace(reround)
  }

  lemma DigitParts(s: seq<int>, a: seq<int>, d: int, rest: seq<int>)
    requires Digits(s) && IsTrimmed(s) && s == a + [d] + rest && a != []
    ensures Digits(a) && IsTrimmed(a) && 0 <= d <= 9 && Digits(rest)
  {
    assert forall i :: 0 <= i < |a| ==> a[i] == s[i];
    assert d == s[|a|];
    forall i | 0 <= i < |rest| ensures 0 <= rest[i] <= 9 {
      assert rest[i] == s[|a| + 1 + i];
    }
  }

  lemma CutPlaceIs(a: seq<int>, d: int, rest: seq<int>, s: seq<int>, drop: nat, reround: int)
    requires Digits(a) && IsTrimmed(a) && Digits(rest) && 0 <= d <= 9 && s == a + [d] + rest && drop == |rest| + 1
    requires reround == if Val(rest) != 0 then Sticky(d) else d
    ensures Digits(s) && IsCut(Val(s), drop, a, reround)
  {
    CutPlace(a, d, rest, s);
  }

  /** The new last digit is in the coefficient. */
  method CutInside(buf: array<int>, umsd: int, ulsd: int, drop: nat) returns (reround: int)
    requires 0 <= umsd <= ulsd < buf.Length && Digits(buf[umsd..ulsd + 1]) && IsTrimmed(buf[umsd..ulsd + 1])
    requires 0 < drop < ulsd - umsd + 1
    ensures IsCut(Val(buf[umsd..ulsd + 1]), drop, buf[umsd..ulsd - drop + 1], reround)
  {
    var roundat := ulsd - drop + 1;
    ghost var s, a, d, rest := buf[umsd..ulsd + 1], buf[umsd..roundat], buf[roundat], buf[roundat + 1..ulsd + 1];
    DigitParts(s, a, d, rest);
    reround := CheckStickies(buf, roundat + 1, ulsd, buf[roundat]);
    CutPlaceIs(a, d, rest, s, drop, reround);
  }

  lemma CutFirst(d: int, rest: seq<int>, s: seq<int>, reround: int)
    requires Digits(rest) && 0 <= d <= 9 && s == [d] + rest && reround == if Val(rest) != 0 then Sticky(d) else d
    ensures Digits(s) && IsCut(Val(s), |rest| + 1, [0], reround)
  {
    assert s == [] + [d] + rest;
    CutPlace([], d, rest, s);
    OneDigit(0);
  }

  lemma CutMore(s: seq<int>, drop: nat, reround: int)
    requires Digits(s) && drop > |s| && reround == if Val(s) != 0 then Sticky(0) else 0
    ensures IsCut(Val(s), drop, [0], reround)
  {
    CutAll(s, drop);
    OneDigit(0);
  }

  /** The whole coefficient goes; it becomes 0. */
  method CutWhole(buf: array<int>, umsd: int, ulsd: int, drop: nat) returns (reround: int)
    requires 0 <= umsd < buf.Length && umsd <= ulsd + 1 <= buf.Length && Digits(buf[umsd..ulsd + 1]) && drop >= ulsd - umsd + 1 && drop > 0
    modifies buf
    ensures IsCut(old(Val(buf[umsd..ulsd + 1])), drop, [0], reround) && buf[umsd] == 0
  {
    ghost var s := buf[umsd..ulsd + 1];
    if drop == ulsd - umsd + 1 {
      ghost var d, rest := buf[umsd], buf[umsd + 1..ulsd + 1];
      assert s == [d] + rest && d == s[0] && rest == s[1..];
      reround := CheckStickies(buf, umsd + 1, ulsd, buf[umsd]);
      CutFirst(d, rest, s, reround);
    } else {
      reround := CheckStickies(buf, umsd, ulsd, 0);
      CutMore(s, drop, reround);
    }
    buf[umsd] := 0;
  }

  // ----- incrementing

  ghost predicate AllAre(s: seq<int>, from: int, d: int) {
    forall i :: from <= i < |s| && 0 <= i ==> s[i] == d
  }

  /** The digit before the nines goes up, and the nines become zeros. */
  lemma {:induction false} CarryAt(s: seq<int>, t: seq<int>, k: nat)
    requires Digits(s) && Digits(t) && k < |s| == |t| && s[..k] == t[..k] && t[k] == s[k] + 1
    requires AllAre(s, k + 1, 9) && AllAre(t, k + 1, 0)
    ensures Val(t) == Val(s) + 1
  {
    var n := |s| - 1;
    if k < n {
      assert s[..n][..k] == s[..k] && t[..n][..k] == t[..k];
      CarryAt(s[..n], t[..n], k);
    } else {
      assert s[..n] == t[..n];
    }
  }

  lemma {:induction false} Nines(s: seq<int>)
    requires Digits(s) && AllAre(s, 0, 9)
    ensures Val(s) + 1 == Pow10(|s|)
  {
    if s != [] { Nines(s[..|s| - 1]); }
  }

  /** Nines at the end become zeros, four at a time and then one by one. */
  method SkipNines(buf: array<int>, umsd: int, ulsd: int) returns (ub: int)
    requires 0 <= umsd <= ulsd < buf.Length
    modifies buf
    ensures umsd - 1 <= ub <= ulsd && (ub >= umsd ==> buf[ub] != 9)
    ensures forall i :: ub < i <= ulsd ==> old(buf[i]) == 9 && buf[i] == 0
    ensures forall i :: umsd <= i <= ub ==> buf[i] == old(buf[i])
  {
    ub := ulsd;
    while ub - 3 >= umsd && buf[ub] == buf[ub - 1] == buf[ub - 2] == buf[ub - 3] == 9
      invariant umsd - 1 <= ub <= ulsd
      invariant forall i :: umsd <= i <= ub ==> buf[i] == old(buf[i])
      invariant forall i :: ub < i <= ulsd ==> old(buf[i]) == 9 && buf[i] == 0
    {
      buf[ub], buf[ub - 1], buf[ub - 2], buf[ub - 3] := 0, 0, 0, 0;
      ub := ub - 4;
    }
    while ub >= umsd && buf[ub] == 9
      invariant umsd - 1 <= ub <= ulsd
      invariant forall i :: umsd <= i <= ub ==> buf[i] == old(buf[i])
      invariant forall i :: ub < i <= ulsd ==> old(buf[i]) == 9 && buf[i] == 0
    {
      buf[ub] := 0;
      ub := ub - 1;
    }
  }

  /** Adding 1 in place; all nines become all zeros, with a carry. */
  method Increment(buf: array<int>, umsd: int, ulsd: int) returns (carry: bool)
    requires 0 <= umsd <= ulsd < buf.Length && Digits(buf[umsd..ulsd + 1])
    modifies buf
    ensures Digits(buf[umsd..ulsd + 1])
    ensures !carry ==> Val(buf[umsd..ulsd + 1]) == old(Val(buf[umsd..ulsd + 1])) + 1
    ensures !carry ==> (buf[umsd] == 0 ==> old(buf[umsd]) == 0 && ulsd > umsd)
    ensures carry ==> old(buf[ulsd]) == 9
    ensures carry ==> old(Val(buf[umsd..ulsd + 1])) + 1 == Pow10(ulsd - umsd + 1) && AllAre(buf[umsd..ulsd + 1], 0, 0)
  {
    ghost var s := buf[umsd..ulsd + 1];
    var ub := SkipNines(buf, umsd, ulsd);
    carry := ub < umsd;
    if carry {
      Nines(s);
    } else {
      ghost var k := ub - umsd;
      assert buf[ub] == s[k];
      buf[ub] := buf[ub] + 1;
      ghost var t := buf[umsd..ulsd + 1];
      assert forall i :: 0 <= i < |t| ==> t[i] == (if i < k then s[i] else if i == k then s[k] + 1 else 0);
      CarryAt(s, t, k);
    }
  }

  // ----- bumping

  /** The switch over the rounding modes. */
  method NeedsBump(negative: bool, reround: int, last: int, ctx: Context) returns (bump: bool)
    requires 0 < reround <= 9 && 0 <= last <= 9
    modifies ctx`invalidContext
    ensures bump == Bumps(ctx.round, negative, DigitPlace(reround), last)
    ensures ctx.invalidContext == (old(ctx.invalidContext) || ctx.round == Unknown)
  {
    bump := false;
    match ctx.round {
      case HalfEven =>
        if reround > 5 {
          bump := true;
        } else if reround == 5 {
          bump := last % 2 == 1;
        }
      case Down =>
      case HalfDown => bump := reround > 5;
      case HalfUp => bump := reround >= 5;
      case Up => bump := reround > 0;
      case Ceiling => bump := !negative && reround > 0;
      case Floor => bump := negative && reround > 0;
      case ZeroFiveUp =>
        if reround > 0 {
          bump := last == 0 || last == 5;
        }
      case Unknown => ctx.invalidContext := true;
    }
  }

  /** The coefficient s of exponent e stands for m units of exponent e0. */
  ghost predicate Worth(s: seq<int>, e: int, m: nat, e0: int, P: nat) {
    && Digits(s) && IsTrimmed(s) && |s| <= P
    && ((e == e0 && Val(s) == m) || (e == e0 + 1 && P >= 1 && m == Pow10(P) && Val(s) == Pow10(P - 1)))
  }

  lemma {:induction false} PowerOf(s: seq<int>)
    requires s != [] && s[0] == 1 && AllAre(s, 1, 0)
    ensures Digits(s) && Val(s) == Pow10(|s| - 1)
  {
    if |s| == 1 {
      OneDigit(1);
    } else {
      var t := s[..|s| - 1];
      PowerOf(t);
      assert s == t + [0];
    }
  }

  /** All digits were 9: the coefficient becomes 1000..., one digit longer unless
      it is full. */
  method CarryOut(P: nat, buf: array<int>, umsd: int, ulsd: int, exponent: int) returns (ulsd': int, exponent': int)
    requires 0 <= umsd <= ulsd && ulsd + 1 < buf.Length && AllAre(buf[umsd..ulsd + 1], 0, 0)
    requires ulsd - umsd + 1 <= P
    modifies buf
    ensures umsd <= ulsd' < buf.Length
    ensures Worth(buf[umsd..ulsd' + 1], exponent', Pow10(ulsd - umsd + 1), exponent, P)
  {
    ulsd', exponent' := ulsd, exponent;
    ghost var s := buf[umsd..ulsd + 1];
    buf[umsd] := 1;
    if ulsd - umsd + 1 == P {
      exponent' := exponent + 1;
    } else {
      ulsd' := ulsd + 1;
      buf[ulsd'] := 0;
    }
    assert forall i :: umsd < i <= ulsd ==> buf[i] == s[i - umsd];
    PowerOf(buf[umsd..ulsd' + 1]);
  }

  /** Incrementing, and what is done if all digits were 9. */
  method BumpUp(P: nat, buf: array<int>, umsd: int, ulsd: int, exponent: int) returns (ulsd': int, exponent': int)
    requires 0 <= umsd <= ulsd < buf.Length && (ulsd + 1 < buf.Length || buf[ulsd] == 0) && Digits(buf[umsd..ulsd + 1]) && IsTrimmed(buf[umsd..ulsd + 1])
    requires ulsd - umsd + 1 <= P
    modifies buf
    ensures umsd <= ulsd' < buf.Length
    ensures Worth(buf[umsd..ulsd' + 1], exponent', old(Val(buf[umsd..ulsd + 1])) + 1, exponent, P)
  {
    ulsd', exponent' := ulsd, exponent;
    var carry := Increment(buf, umsd, ulsd);
    if carry {
      ulsd', exponent' := CarryOut(P, buf, umsd, ulsd, exponent);
    }
  }

  // ----- rounding

  /** How many digits must go: those past the precision, or those below the least
      exponent. */
  function DropOf(f: Format, length: int, exponent: int): int {
    if length - f.P >= f.Qtiny() - exponent then length - f.P else f.Qtiny() - exponent
  }

  ghost predicate WasInexact(n: nat, drop: nat) {
    Rem(n, Pow10(drop)) != 0
  }

  /** The number is below the least normal one. */
  ghost predicate Tiny(f: Format, length: int, exponent: int) {
    exponent + length - 1 < f.Emin
  }

  lemma ExactPlace(n: nat, drop: nat, reround: int)
    requires 0 <= reround <= 9 && PlaceOf(n, Pow10(drop)) == DigitPlace(reround)
    ensures reround != 0 <==> WasInexact(n, drop)
  {
  }

  /** After a cut, bumping as the mode says rounds the whole number correctly. */
  lemma CutRounds(mode: Rounding, negative: bool, n: nat, drop: nat, s: seq<int>, reround: int)
    requires IsCut(n, drop, s, reround)
    ensures Rounded(mode, negative, n, Pow10(drop), Val(s) + if reround != 0 && Bumps(mode, negative, DigitPlace(reround), s[|s| - 1]) then 1 else 0)
  {
    ValMod(s);
    BumpRounds(mode, negative, n, Pow10(drop), s[|s| - 1]);
    assert reround == 0 ==> !Bumps(mode, negative, Exact, s[|s| - 1]);
  }

  method Cut(buf: array<int>, umsd: int, ulsd: int, drop: nat) returns (ulsd': int, reround: int)
    requires 0 <= umsd < buf.Length && umsd <= ulsd + 1 <= buf.Length && Digits(buf[umsd..ulsd + 1]) && drop > 0
    requires umsd <= ulsd ==> IsTrimmed(buf[umsd..ulsd + 1])
    modifies buf
    ensures umsd <= ulsd' < buf.Length && ulsd' == (if drop < ulsd - umsd + 1 then ulsd - drop else umsd)
    ensures IsCut(old(Val(buf[umsd..ulsd + 1])), drop, buf[umsd..ulsd' + 1], reround)
    ensures ulsd' + 1 < buf.Length || buf[ulsd'] == 0
  {
    if drop < ulsd - umsd + 1 {
      reround := CutInside(buf, umsd, ulsd, drop);
      ulsd' := ulsd - drop;
    } else {
      reround := CutWhole(buf, umsd, ulsd, drop);
      ulsd' := umsd;
      assert buf[umsd..ulsd' + 1] == [0];
    }
  }

  /** The conditions of the code for Underflow say that the number was tiny. */
  lemma TinyIs(f: Format, length: int, exponent: int, drop: int)
    requires FormatOk(f) && length >= 1 && drop == DropOf(f, length, exponent) > 0
    ensures
      var e, cut := exponent + drop, if drop < length then length - drop else 1;
      e < f.Emin && e + cut - 1 < f.Emin <==> Tiny(f, length, exponent)
  {
  }

  /** What rounding leaves of n with the given length and exponent. */
  ghost predicate RoundedTo(f: Format, mode: Rounding, negative: bool, n: nat, exponent: int, drop: nat, m: nat, s: seq<int>, e: int) {
    Rounded(mode, negative, n, Pow10(drop), m) && Worth(s, e, m, exponent + drop, f.P)
  }

  /** The increment, if the mode asks for it. */
  method Bump(P: nat, buf: array<int>, umsd: int, ulsd: int, negative: bool, exponent: int, reround: int, ctx: Context) returns (ulsd': int, exponent': int, ghost m: nat)
    requires 0 <= umsd <= ulsd < buf.Length && (ulsd + 1 < buf.Length || buf[ulsd] == 0) && Digits(buf[umsd..ulsd + 1]) && IsTrimmed(buf[umsd..ulsd + 1])
    requires ulsd - umsd + 1 <= P && 0 < reround <= 9
    modifies buf, ctx`invalidContext
    ensures umsd <= ulsd' < buf.Length && Worth(buf[umsd..ulsd' + 1], exponent', m, exponent, P)
    ensures m == old(Val(buf[umsd..ulsd + 1])) + if Bumps(ctx.round, negative, DigitPlace(reround), old(buf[ulsd])) then 1 else 0
    ensures ctx.invalidContext == (old(ctx.invalidContext) || ctx.round == Unknown)
  {
    ulsd', exponent' := ulsd, exponent;
    m := Val(buf[umsd..ulsd + 1]);
    assert buf[ulsd] == buf[umsd..ulsd + 1][ulsd - umsd];
    var bump := NeedsBump(negative, reround, buf[ulsd], ctx);
    if bump {
      m := m + 1;
      ulsd', exponent' := BumpUp(P, buf, umsd, ulsd, exponent);
    }
  }

  /** The status bits, and the increment. */
  method AfterCut(f: Format, buf: array<int>, umsd: int, ulsd: int, negative: bool, exponent: int, reround: int, ghost n: nat, ghost drop: nat, ctx: Context) returns (ulsd': int, exponent': int, ghost m: nat)
    requires 0 <= umsd <= ulsd < buf.Length && (ulsd + 1 < buf.Length || buf[ulsd] == 0) && ulsd - umsd + 1 <= f.P
    requires IsCut(n, drop, buf[umsd..ulsd + 1], reround)
    modifies buf, ctx`inexact, ctx`underflow, ctx`invalidContext
    ensures umsd <= ulsd' < buf.Length
    ensures Rounded(ctx.round, negative, n, Pow10(drop), m) && Worth(buf[umsd..ulsd' + 1], exponent', m, exponent, f.P)
    ensures ctx.inexact == (old(ctx.inexact) || WasInexact(n, drop))
    ensures ctx.underflow == (old(ctx.underflow) || (WasInexact(n, drop) && exponent < f.Emin && exponent + (ulsd - umsd + 1) - 1 < f.Emin))
    ensures ctx.invalidContext == (old(ctx.invalidContext) || (WasInexact(n, drop) && ctx.round == Unknown))
  {
    ghost var s := buf[umsd..ulsd + 1];
    assert buf[ulsd] == s[|s| - 1];
    ExactPlace(n, drop, reround);
    CutRounds(ctx.round, negative, n, drop, s, reround);
    ulsd', exponent', m := ulsd, exponent, Val(s);
    if reround != 0 {
      ctx.inexact := true;
      if exponent < f.Emin && exponent + (ulsd - umsd + 1) - 1 < f.Emin {
        ctx.underflow := true;
      }
      ulsd', exponent', m := Bump(f.P, buf, umsd, ulsd, negative, exponent, reround, ctx);
    }
  }

  method RoundOff(f: Format, buf: array<int>, umsd: int, ulsd: int, negative: bool, exponent: int, drop: nat, ctx: Context) returns (ulsd': int, exponent': int, ghost m: nat)
    requires FormatOk(f) && 0 <= umsd < buf.Length && umsd <= ulsd + 1 <= buf.Length && Digits(buf[umsd..ulsd + 1])
    requires umsd <= ulsd ==> IsTrimmed(buf[umsd..ulsd + 1])
    requires drop == DropOf(f, ulsd - umsd + 1, exponent) > 0
    modifies buf, ctx`inexact, ctx`underflow, ctx`invalidContext
    ensures umsd <= ulsd' < buf.Length
    ensures RoundedTo(f, ctx.round, negative, old(Val(buf[umsd..ulsd + 1])), exponent, drop, m, buf[umsd..ulsd' + 1], exponent')
    ensures ctx.inexact == (old(ctx.inexact) || WasInexact(old(Val(buf[umsd..ulsd + 1])), drop))
    ensures ctx.underflow == (old(ctx.underflow) || (WasInexact(old(Val(buf[umsd..ulsd + 1])), drop) && Tiny(f, ulsd - umsd + 1, exponent)))
    ensures ctx.invalidContext == (old(ctx.invalidContext) || (WasInexact(old(Val(buf[umsd..ulsd + 1])), drop) && ctx.round == Unknown))
  {
    if umsd <= ulsd { TinyIs(f, ulsd - umsd + 1, exponent, drop); }
    ghost var n := Val(buf[umsd..ulsd + 1]);
    var reround;
    ulsd', reround := Cut(buf, umsd, ulsd, drop);
    ulsd', exponent', m := AfterCut(f, buf, umsd, ulsd', negative, exponent + drop, reround, n, drop, ctx);
  }

  // ----- the high end

  /** Overflow gives the largest finite number in the modes that round toward it. */
  function ToMax(mode: Rounding, negative: bool): bool {
    match mode
    case Down => true
    case ZeroFiveUp => true
    case Ceiling => negative
    case Floor => !negative
    case _ => false
  }

  function Repeat(d: int, n: nat): (s: seq<int>)
    ensures |s| == n && forall i :: 0 <= i < n ==> s[i] == d
  {
    seq(n, _ => d)
  }

  ghost predicate Overflows(f: Format, s: seq<int>, e: int) {
    s != [0] && e + |s| - 1 > f.Emax
  }

  /** Clamping a zero, folding down a large exponent, or overflow. */
  ghost predicate HighEndIs(f: Format, mode: Rounding, negative: bool, s: seq<int>, e: int, r: Final) {
    if Overflows(f, s, e) then
      r == if ToMax(mode, negative) then Finite(negative, Repeat(9, f.P), f.Qlimit()) else Infinite(negative)
    else if e <= f.Qlimit() || s == [0] then
      r == Finite(negative, s, if e <= f.Qlimit() then e else f.Qlimit())
    else r == Finite(negative, s + Repeat(0, e - f.Qlimit()), f.Qlimit())
  }

  method HighEnd(f: Format, buf: array<int>, umsd: int, ulsd: int, negative: bool, exponent: int, ctx: Context) returns (r: Final)
    requires FormatOk(f) && 0 <= umsd <= ulsd + 1 <= buf.Length && Digits(buf[umsd..ulsd + 1])
    requires (umsd <= ulsd ==> IsTrimmed(buf[umsd..ulsd + 1])) && ulsd - umsd + 1 <= f.P
    modifies ctx`overflow, ctx`inexact
    ensures HighEndIs(f, ctx.round, negative, buf[umsd..ulsd + 1], exponent, r)
    ensures ctx.overflow == (old(ctx.overflow) || Overflows(f, buf[umsd..ulsd + 1], exponent))
    ensures ctx.inexact == (old(ctx.inexact) || Overflows(f, buf[umsd..ulsd + 1], exponent))
  {
    ghost var s := buf[umsd..ulsd + 1];
    var length := ulsd - umsd + 1;
    r := Finite(negative, buf[umsd..ulsd + 1], exponent);
    if exponent > f.Emax - (f.P - 1) {
      if ulsd == umsd && buf[ulsd] == 0 {
        assert s == [0];
        r := r.(exponent := f.Emax - (f.P - 1));
      } else {
        assert s != [0];
        if exponent + length - 1 > f.Emax {
          ctx.overflow := true;
          ctx.inexact := true;
          var needmax := false;
          match ctx.round {
            case Down => needmax := true;
            case ZeroFiveUp => needmax := true;
            case Ceiling => if negative { needmax := true; }
            case Floor => if !negative { needmax := true; }
            case _ =>
          }
          if !needmax {
            r := Infinite(negative);
          } else {
            r := Finite(negative, Repeat(9, f.P), f.Emax - (f.P - 1));
          }
        } else {
          var shift := exponent - (f.Emax - (f.P - 1));
          if shift > 0 {
            r := Finite(negative, buf[umsd..ulsd + 1] + Repeat(0, shift), exponent - shift);
          }
        }
      }
    }
  }

  // ----- decFinalize

  /** What decFinalize does with n * 10^exponent, n having the given length: it is
      rounded to m units, and the units are laid out in the format. */
  ghost predicate Finalized(f: Format, mode: Rounding, negative: bool, n: nat, length: int, exponent: int, m: nat, s: seq<int>, e: int, r: Final) {
    var drop := Dropped(f, length, exponent);
    RoundedTo(f, mode, negative, n, exponent, drop, m, s, e) && HighEndIs(f, mode, negative, s, e, r)
  }

  ghost function Dropped(f: Format, length: int, exponent: int): nat {
    if DropOf(f, length, exponent) > 0 then DropOf(f, length, exponent) else 0
  }

  lemma NoRounding(f: Format, mode: Rounding, negative: bool, s: seq<int>, exponent: int)
    requires Digits(s) && IsTrimmed(s) && |s| <= f.P
    ensures RoundedTo(f, mode, negative, Val(s), exponent, 0, Val(s), s, exponent) && !WasInexact(Val(s), 0)
  {
    assert Pow10(0) == 1;
    UnitQuot(Val(s));
  }

  lemma {:induction false} UnitQuot(x: nat)
    ensures Quot(x, 1) == x && Rem(x, 1) == 0
  {
    if x > 0 { UnitQuot(x - 1); }
  }

  // ----- encoding

  /** A coefficient as it is encoded: zeros in front do not show, and no digits at
      all make 0. */
  function Coefficient(s: seq<int>): (c: seq<int>)
    ensures IsTrimmed(c) && (IsTrimmed(s) ==> c == s)
    ensures (forall i :: 0 <= i < |s| ==> s[i] == 0) ==> c == [0]
  {
    if s == [] then [0] else if |s| > 1 && s[0] == 0 then Coefficient(s[1..]) else s
  }

  function Encoded(r: Final): Final {
    match r
    case Finite(negative, digits, exponent) => Finite(negative, Coefficient(digits), exponent)
    case Infinite(_) => r
  }

  /** A trimmed coefficient is encoded as it is. */
  lemma EncodedSame(f: Format, mode: Rounding, negative: bool, s: seq<int>, e: int, r: Final)
    requires FormatOk(f) && IsTrimmed(s) && HighEndIs(f, mode, negative, s, e, r)
    ensures Encoded(r) == r
  {
  }

  /** The exponent nearest to q that a zero can have. */
  function Clamp(f: Format, q: int): int {
    if q < f.Qtiny() then f.Qtiny() else if q > f.Qlimit() then f.Qlimit() else q
  }

  /** What decFinalize makes of no digits at all: the zero of that exponent, if it is
      not above Emax + 1. Past that it takes them for a number that overflows. */
  ghost predicate NothingFinalized(f: Format, mode: Rounding, negative: bool, q: int, r: Final) {
    r == if q <= f.Emax + 1 then Finite(negative, [0], Clamp(f, q))
      else if ToMax(mode, negative) then Finite(negative, Repeat(9, f.P), f.Qlimit()) else Infinite(negative)
  }

  lemma ZeroWorth(s: seq<int>, e: int, e0: int, P: nat)
    requires Worth(s, e, 0, e0, P)
    ensures s == [0] && e == e0
  {
    TrimmedLength(s);
  }

  lemma NothingRounded(f: Format, mode: Rounding, negative: bool, exponent: int, drop: nat, m: nat, s: seq<int>, e: int)
    requires RoundedTo(f, mode, negative, 0, exponent, drop, m, s, e)
    ensures s == [0] && e == exponent + drop && !WasInexact(0, drop)
  {
    ZeroWorth(s, e, exponent + drop, f.P);
  }

  lemma NothingIs(f: Format, mode: Rounding, negative: bool, exponent: int, s: seq<int>, e: int, r: Final)
    requires FormatOk(f) && HighEndIs(f, mode, negative, s, e, r)
    requires if exponent < f.Qtiny() then s == [0] && e == f.Qtiny() else s == [] && e == exponent
    ensures NothingFinalized(f, mode, negative, exponent, Encoded(r)) && (Overflows(f, s, e) <==> exponent > f.Emax + 1)
  {
  }

  /** decFinalize, for a finite number. The coefficient may be empty, with lsd one
      before msd. */
  method DecFinalize(f: Format, buf: array<int>, msd: int, lsd: int, negative: bool, exponent: int, ctx: Context) returns (r: Final, ghost length: nat, ghost m: nat, ghost s: seq<int>, ghost e: int)
    requires FormatOk(f) && 0 <= msd < buf.Length && msd <= lsd + 1 <= buf.Length && Digits(buf[msd..lsd + 1])
    modifies buf, ctx
    ensures lsd >= msd ==> HasLength(old(Val(buf[msd..lsd + 1])), length)
    ensures lsd >= msd ==> Finalized(f, ctx.round, negative, old(Val(buf[msd..lsd + 1])), length, exponent, m, s, e, r)
    ensures lsd >= msd ==>
      var lost := WasInexact(old(Val(buf[msd..lsd + 1])), Dropped(f, length, exponent));
      && ctx.inexact == (old(ctx.inexact) || lost || Overflows(f, s, e))
      && ctx.underflow == (old(ctx.underflow) || (lost && Tiny(f, length, exponent)))
      && ctx.overflow == (old(ctx.overflow) || Overflows(f, s, e))
      && ctx.invalidContext == (old(ctx.invalidContext) || (lost && ctx.round == Unknown))
    ensures lsd < msd ==>
      && NothingFinalized(f, ctx.round, negative, exponent, r)
      && ctx.inexact == (old(ctx.inexact) || exponent > f.Emax + 1) && ctx.overflow == (old(ctx.overflow) || exponent > f.Emax + 1)
      && ctx.underflow == old(ctx.underflow) && ctx.invalidContext == old(ctx.invalidContext)
    ensures ctx.conversionSyntax == old(ctx.conversionSyntax)
  {
    hide HasLength, Val, NothingFinalized, HighEndIs, Overflows;
    var umsd := Trim(buf, msd, lsd);
    var ulsd := lsd;
    length := ulsd - umsd + 1;
    if msd <= lsd { TrimmedLength(buf[umsd..lsd + 1]); } else { ValZero(buf[umsd..lsd + 1]); }
    var drop := DropOf(f, ulsd - umsd + 1, exponent);
    var exponent' := exponent;
    m := Val(buf[umsd..lsd + 1]);
    if drop > 0 {
      ulsd, exponent', m := RoundOff(f, buf, umsd, ulsd, negative, exponent, drop, ctx);
      if lsd < msd { NothingRounded(f, ctx.round, negative, exponent, drop, m, buf[umsd..ulsd + 1], exponent'); }
    } else if msd <= lsd {
      NoRounding(f, ctx.round, negative, buf[umsd..lsd + 1], exponent);
    }
    s, e := buf[umsd..ulsd + 1], exponent';
    r := HighEnd(f, buf, umsd, ulsd, negative, exponent', ctx);
    if msd <= lsd { EncodedSame(f, ctx.round, negative, s, e, r); } else { NothingIs(f, ctx.round, negative, exponent, s, e, r); }
    r := Encoded(r);
  }
}
