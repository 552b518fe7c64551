/** decCommon.c, decFloatFromString: the syntax of numeric strings (IEEE 754-2008,
    section 5.12), and the scans that recognize it. */
module Numerals {
  import opened Decimal
  import opened Finalize

  /** A format with the number of digits of its largest exponent and the number of
      coefficient digits that fit the buffer of the conversion. */
  datatype Conversion = Conversion(f: Format, emaxd: nat, room: nat)

  ghost predicate ConversionOk(cv: Conversion) {
    FormatOk(cv.f) && cv.room > cv.f.P
  }

  predicate IsDigit(c: char) {
    '0' <= c <= '9'
  }

  function DigitOf(c: char): (d: int)
    requires IsDigit(c)
    ensures 0 <= d <= 9
  {
    c as int - '0' as int
  }

  /** The character at i; the terminator past the end. */
  function CharAt(s: string, i: nat): char {
    if i < |s| then s[i] else '\0'
  }

  /** The digits of s from a to b, leaving out a dot. */
  ghost function Coef(s: string, a: nat, b: nat): (d: seq<int>)
    requires a <= b <= |s| && forall i :: a <= i < b ==> IsDigit(s[i]) || s[i] == '.'
    ensures Digits(d) && |d| <= b - a
  {
    if a == b then [] else if s[b - 1] == '.' then Coef(s, a, b - 1) else Coef(s, a, b - 1) + [DigitOf(s[b - 1])]
  }

  lemma CoefNone(s: string, a: nat)
    requires a <= |s|
    ensures Coef(s, a, a) == []
  {
  }

  lemma {:induction false} CoefSplit(s: string, a: nat, m: nat, b: nat)
    requires a <= m <= b <= |s| && forall i :: a <= i < b ==> IsDigit(s[i]) || s[i] == '.'
    ensures Coef(s, a, b) == Coef(s, a, m) + Coef(s, m, b)
  {
    if m < b { CoefSplit(s, a, m, b - 1); }
  }

  /** Digits and at most one dot, at position dot (-1: none), from a to b. */
  ghost predicate IsCoefficient(s: string, a: nat, b: nat, dot: int) {
    && a <= b <= |s| && (dot == -1 || (a <= dot < b && s[dot] == '.'))
    && forall i :: a <= i < b && i != dot ==> IsDigit(s[i])
  }

  lemma {:induction false} CoefLength(s: string, a: nat, b: nat, dot: int)
    requires IsCoefficient(s, a, b, dot)
    ensures |Coef(s, a, b)| == b - a - if dot == -1 then 0 else 1
  {
    if a < b {
      assert IsDigit(s[b - 1]) ==> s[b - 1] != '.';
      if b - 1 == dot { CoefLength(s, a, b - 1, -1); } else { CoefLength(s, a, b - 1, dot); }
    }
  }

  /** An optional sign: where the rest begins, and whether it is a minus. */
  ghost predicate SignIs(s: string, cf: nat, negative: bool) {
    if CharAt(s, 0) == '-' then cf == 1 && negative
    else if CharAt(s, 0) == '+' then cf == 1 && !negative
    else cf == 0 && !negative
  }

  /** The scan stopped at ce: no digit there, and no first dot. */
  ghost predicate EndsAt(s: string, ce: nat, dot: int) {
    !IsDigit(CharAt(s, ce)) && (dot == -1 ==> CharAt(s, ce) != '.')
  }

  /** An exponent part from ce on, or none: its digits begin at eb. */
  ghost predicate ExponentIs(s: string, ce: nat, eb: nat) {
    && ce <= |s| && eb <= |s|
    && if ce == |s| then eb == |s|
       else s[ce] in {'E', 'e'} && eb == ce + (if CharAt(s, ce + 1) in {'-', '+'} then 2 else 1) && eb < |s| && forall i :: eb <= i < |s| ==> IsDigit(s[i])
  }

  ghost predicate AllDigits(s: string, a: nat) {
    a <= |s| && forall i :: a <= i < |s| ==> IsDigit(s[i])
  }

  /** The exponent written from eb on: its value, unless it has more significant
      digits than any exponent of the format; then twice the largest one stands for
      it. */
  ghost function ExponentOf(cv: Conversion, s: string, ce: nat, eb: nat, z: nat): int
    requires ce <= |s| && eb <= z <= |s| && AllDigits(s, eb)
  {
    if ce == |s| then 0
    else
      var x := if |s| - z > cv.emaxd then 2 * cv.f.Emax else Val(Coef(s, eb, |s|));
      if CharAt(s, ce + 1) == '-' then -x else x
  }

  /** z is the first exponent digit that is not 0. */
  ghost predicate FirstNonzero(s: string, eb: nat, z: nat) {
    eb <= z <= |s| && (forall i :: eb <= i < z ==> s[i] == '0') && (z < |s| ==> s[z] != '0')
  }

  /** What a string says. */
  datatype Reading =
    | Number(negative: bool, cf: nat, ce: nat, dot: int, eb: nat, z: nat)
    | Infinity(negative: bool)
    | NaN(negative: bool, signaling: bool, payload: seq<int>)
    | Unreadable

  /** s is a number: sign, coefficient with at least one digit, exponent. */
  ghost predicate IsNumber(s: string, r: Reading) {
    && r.Number? && SignIs(s, r.cf, r.negative) && IsCoefficient(s, r.cf, r.ce, r.dot) && EndsAt(s, r.ce, r.dot)
    && r.ce - r.cf > (if r.dot == -1 then 0 else 1)
    && ExponentIs(s, r.ce, r.eb) && FirstNonzero(s, r.eb, r.z)
  }

  /** The exponent of the number: the written one, less the digits after the dot. */
  ghost function NumberExponent(cv: Conversion, s: string, r: Reading): int
    requires IsNumber(s, r)
  {
    ExponentOf(cv, s, r.ce, r.eb, r.z) - if r.dot == -1 then 0 else r.ce - 1 - r.dot
  }

  function Lower(c: char): char {
    if 'A' <= c <= 'Z' then (c as int - 'A' as int + 'a' as int) as char else c
  }

  /** s from cf on is the word, in either case. */
  ghost predicate IsWord(s: string, cf: nat, word: string) {
    cf + |word| == |s| && BeginsWith(s, cf, word)
  }

  ghost predicate BeginsWith(s: string, cf: nat, word: string) {
    cf + |word| <= |s| && forall i :: 0 <= i < |word| ==> Lower(s[cf + i]) == word[i]
  }

  /** A NaN with its payload, an integer of at most P-1 significant digits that
      begins at p after its leading zeros. */
  ghost predicate NaNIs(P: nat, s: string, cf: nat, signaling: bool, p: nat) {
    var n := if signaling then cf + 1 else cf;
    && (signaling <==> CharAt(s, cf) in {'s', 'S'})
    && BeginsWith(s, n, "nan") && AllDigits(s, n + 3) && FirstNonzero(s, n + 3, p) && |s| - p <= P - 1
  }

  ghost predicate IsNaN(P: nat, s: string, r: Reading) {
    r.NaN? && exists cf: nat, p: nat :: SignIs(s, cf, r.negative) && NaNIs(P, s, cf, r.signaling, p) && r.payload == PayloadOf(s, p)
  }

  ghost function PayloadOf(s: string, p: nat): seq<int> {
    if AllDigits(s, p) then Coef(s, p, |s|) else []
  }

  ghost predicate IsInfinity(s: string, r: Reading) {
    r.Infinity? && exists cf: nat :: SignIs(s, cf, r.negative) && (IsWord(s, cf, "infinity") || IsWord(s, cf, "inf"))
  }

  ghost predicate Says(P: nat, s: string, r: Reading) {
    IsNumber(s, r) || IsInfinity(s, r) || IsNaN(P, s, r)
  }

  /** The string is read as r; Unreadable only if it says nothing else. */
  ghost predicate ReadAs(P: nat, s: string, r: Reading) {
    if r.Unreadable? then forall t :: !Says(P, s, t) else Says(P, s, r)
  }

  // ----- a string says one thing

  lemma NumberOnce(s: string, r: Reading, t: Reading)
    requires IsNumber(s, r) && IsNumber(s, t)
    ensures r == t
  {
    NoLonger(s, r.cf, r.ce, r.dot, t.ce, t.dot);
    NoLonger(s, r.cf, t.ce, t.dot, r.ce, r.dot);
  }

  /** A coefficient does not run on past where a scan stopped. */
  lemma NoLonger(s: string, a: nat, b: nat, dot: int, c: nat, dot': int)
    requires IsCoefficient(s, a, b, dot) && EndsAt(s, b, dot) && IsCoefficient(s, a, c, dot')
    ensures c <= b && (b == c ==> dot == dot')
  {
  }
}
