/** Rounding a number of which only the leading digits are kept: a last digit
    that says whether anything but zeros followed is enough. */
module StickyDigit {
  import opened Decimal
  import opened Finalize

  datatype Status = Status(inexact: bool, underflow: bool, overflow: bool, invalidContext: bool)

  ghost predicate StatusIs(f: Format, mode: Rounding, n: nat, length: nat, q: int, s: seq<int>, e: int, before: Status, after: Status) {
    var lost := WasInexact(n, Dropped(f, length, q));
    && after.inexact == (before.inexact || lost || Overflows(f, s, e))
    && after.underflow == (before.underflow || (lost && Tiny(f, length, q)))
    && after.overflow == (before.overflow || Overflows(f, s, e))
    && after.invalidContext == (before.invalidContext || (lost && mode == Unknown))
  }

  /** Finalizing n * 10^q gives r and the new status. */
  ghost predicate Delivers(f: Format, mode: Rounding, negative: bool, n: nat, q: int, r: Final, before: Status, after: Status) {
    exists length, m, s, e :: DeliversBy(f, mode, negative, n, q, r, before, after, length, m, s, e)
  }

  ghost predicate DeliversBy(f: Format, mode: Rounding, negative: bool, n: nat, q: int, r: Final, before: Status, after: Status, length: nat, m: nat, s: seq<int>, e: int) {
    HasLength(n, length) && Finalized(f, mode, negative, n, length, q, m, s, e, r) && StatusIs(f, mode, n, length, q, s, e, before, after)
  }

  // ----- there is one result

  lemma {:induction false} ValOnce(s: seq<int>, t: seq<int>)
    requires Digits(s) && Digits(t) && |s| == |t| && Val(s) == Val(t)
    ensures s == t
  {
    if s != [] {
      var n := |s| - 1;
      ValMod(s);
      ValMod(t);
      ValOnce(s[..n], t[..n]);
      assert s == s[..n] + [s[n]] && t == t[..n] + [t[n]];
    }
  }

  lemma TrimmedOnce(s: seq<int>, t: seq<int>)
    requires Digits(s) && IsTrimmed(s) && Digits(t) && IsTrimmed(t) && Val(s) == Val(t)
    ensures s == t
  {
    TrimmedLength(s);
    TrimmedLength(t);
    LengthUnique(Val(s), |s|, |t|);
    ValOnce(s, t);
  }

  lemma WorthOnce(s: seq<int>, e: int, t: seq<int>, d: int, m: nat, e0: int, P: nat)
    requires Worth(s, e, m, e0, P) && Worth(t, d, m, e0, P)
    ensures s == t && e == d
  {
    PowMono(|s|, P);
    PowMono(|t|, P);
    TrimmedOnce(s, t);
  }

  /** The result and the status are determined by the number. */
  lemma DeliversOnce(f: Format, mode: Rounding, negative: bool, n: nat, q: int, r: Final, r': Final, before: Status, after: Status, after': Status)
    requires Delivers(f, mode, negative, n, q, r, before, after) && Delivers(f, mode, negative, n, q, r', before, after')
    ensures r == r' && after == after'
  {
    var length: nat, m: nat, s, e :| DeliversBy(f, mode, negative, n, q, r, before, after, length, m, s, e);
    var length': nat, m': nat, s', e' :| DeliversBy(f, mode, negative, n, q, r', before, after', length', m', s', e');
    LengthUnique(n, length, length');
    FinalizedOnce(f, mode, negative, n, length, q, m, s, e, r, m', s', e', r');
  }

  lemma FinalizedOnce(f: Format, mode: Rounding, negative: bool, n: nat, length: nat, q: int, m: nat, s: seq<int>, e: int, r: Final, m': nat, s': seq<int>, e': int, r': Final)
    requires Finalized(f, mode, negative, n, length, q, m, s, e, r) && Finalized(f, mode, negative, n, length, q, m', s', e', r')
    ensures s == s' && e == e' && r == r'
  {
    RoundedUnique(mode, negative, n, Pow10(Dropped(f, length, q)), m, m');
    WorthOnce(s, e, s', e', m, q + Dropped(f, length, q), f.P);
  }

  // ----- the sticky digit

  ghost predicate ZeroFrom(s: seq<int>, p: int) {
    forall i :: p <= i < |s| && 0 <= i ==> s[i] == 0
  }

  /** The first k digits of s, the last of them made sticky. */
  ghost predicate Kept(s: seq<int>, k: nat, v: seq<int>) {
    && 0 < k <= |s| && |v| == k && (forall i :: 0 <= i < k - 1 ==> v[i] == s[i])
    && v[k - 1] == if ZeroFrom(s, k) then s[k - 1] else Sticky(s[k - 1])
  }

  lemma ZeroVal(s: seq<int>, p: nat)
    requires Digits(s) && p <= |s|
    ensures Digits(s[p..]) && (ZeroFrom(s, p) <==> Val(s[p..]) == 0)
  {
    var t := s[p..];
    assert forall i :: 0 <= i < |t| ==> t[i] == s[p + i];
    ValZero(t);
    if Val(t) == 0 {
      forall i | p <= i < |s| ensures s[i] == 0 {
        assert t[i - p] == 0;
      }
    }
  }

  /** The re-round digit of s for a cut before position p. */
  ghost function Reround(s: seq<int>, p: nat): int
    requires p < |s|
  {
    if ZeroFrom(s, p + 1) then s[p] else Sticky(s[p])
  }

  /** Cutting at p < k, the kept digits show the same re-round place. */
  lemma KeptReround(s: seq<int>, k: nat, v: seq<int>, p: nat)
    requires Digits(s) && Kept(s, k, v) && p < k
    ensures v[..p] == s[..p] && DigitPlace(Reround(v, p)) == DigitPlace(Reround(s, p))
  {
    if p < k - 1 { KeptZero(s, k, v, p + 1); }
  }

  lemma KeptZero(s: seq<int>, k: nat, v: seq<int>, p: nat)
    requires Kept(s, k, v) && p < k
    ensures ZeroFrom(v, p) <==> ZeroFrom(s, p)
  {
    if ZeroFrom(v, p) { assert v[k - 1] == 0; }
  }

  /** A cut inside the digits, by its re-round digit. */
  lemma CutAt(s: seq<int>, p: nat, drop: nat)
    requires Digits(s) && p < |s| && drop == |s| - p
    ensures Digits(s[..p]) && Quot(Val(s), Pow10(drop)) == Val(s[..p]) && PlaceOf(Val(s), Pow10(drop)) == DigitPlace(Reround(s, p))
  {
    hide Val, Quot, PlaceOf, DigitPlace, Sticky, Pow10;
    var rest := s[p + 1..];
    assert s == s[..p] + [s[p]] + rest;
    ZeroVal(s, p + 1);
    CutPlace(s[..p], s[p], rest, s);
  }

  /** A cut past the digits. */
  lemma CutPast(s: seq<int>, drop: nat)
    requires Digits(s) && drop > |s|
    ensures Quot(Val(s), Pow10(drop)) == 0 && PlaceOf(Val(s), Pow10(drop)) == if ZeroFrom(s, 0) then Exact else Below
  {
    CutAll(s, drop);
    ZeroVal(s, 0);
    assert s[0..] == s;
  }

  /** The kept digits have the same quotient and the same place. */
  lemma KeptCut(s: seq<int>, k: nat, v: seq<int>, drop: nat)
    requires Digits(s) && Kept(s, k, v) && drop >= 1
    ensures Digits(v) && Quot(Val(v), Pow10(drop)) == Quot(Val(s), Pow10(drop + (|s| - k)))
    ensures PlaceOf(Val(v), Pow10(drop)) == PlaceOf(Val(s), Pow10(drop + (|s| - k)))
  {
    var t := |s| - k;
    if drop <= k {
      var p := k - drop;
      KeptReround(s, k, v, p);
      CutAt(v, p, drop);
      CutAt(s, p, drop + t);
    } else {
      CutPast(v, drop);
      CutPast(s, drop + t);
      KeptZero(s, k, v, 0);
    }
  }

  /** The correct rounding, by quotient and place. */
  ghost function Bumped(mode: Rounding, negative: bool, q: nat, p: Place): nat {
    q + if Bumps(mode, negative, p, q % 10) then 1 else 0
  }

  lemma BumpedIsRounded(mode: Rounding, negative: bool, x: nat, u: nat)
    requires u > 0
    ensures Rounded(mode, negative, x, u, Bumped(mode, negative, Quot(x, u), PlaceOf(x, u)))
  {
    BumpRounds(mode, negative, x, u, (Quot(x, u)) % 10);
  }

  lemma RoundedIsBumped(mode: Rounding, negative: bool, x: nat, u: nat, m: nat)
    requires u > 0
    requires Rounded(mode, negative, x, u, m)
    ensures m == Bumped(mode, negative, Quot(x, u), PlaceOf(x, u))
  {
    BumpedIsRounded(mode, negative, x, u);
    RoundedUnique(mode, negative, x, u, m, Bumped(mode, negative, Quot(x, u), PlaceOf(x, u)));
  }

  lemma SamePlaceRounds(mode: Rounding, negative: bool, x: nat, u: nat, y: nat, w: nat, m: nat)
    requires u > 0 && w > 0 && Quot(x, u) == Quot(y, w) && PlaceOf(x, u) == PlaceOf(y, w)
    requires Rounded(mode, negative, x, u, m)
    ensures Rounded(mode, negative, y, w, m)
  {
    RoundedIsBumped(mode, negative, x, u, m);
    BumpedIsRounded(mode, negative, y, w);
  }

  lemma SamePlaceLost(x: nat, u: nat, y: nat, w: nat)
    requires u > 0 && w > 0 && PlaceOf(x, u) == PlaceOf(y, w)
    ensures Rem(x, u) != 0 <==> Rem(y, w) != 0
  {
  }

  /** What a number n of k digits shares with w, of t digits more. */
  ghost predicate StandsFor(f: Format, n: nat, w: nat, k: nat, l: nat, t: nat, q: int) {
    HasLength(n, k) && HasLength(w, l) && l == k + t && Dropped(f, l, q) == Dropped(f, k, q + t) + t && Shares(n, w, Dropped(f, k, q + t), t)
  }

  lemma KeptStands(f: Format, s: seq<int>, k: nat, v: seq<int>, q: int)
    requires FormatOk(f) && Digits(s) && Kept(s, k, v) && Digits(v) && s[0] != 0 && k > f.P
    ensures StandsFor(f, Val(v), Val(s), k, |s|, |s| - k, q)
  {
    KeptLengths(s, k, v);
    DropLonger(f, k, |s| - k, q);
    KeptShares(s, k, v, Dropped(f, k, q + (|s| - k)));
  }

  /** Finalizing the kept digits, with the exponent raised by the number of digits
      left out, is finalizing the whole number. */
  lemma StickyAgrees(f: Format, mode: Rounding, negative: bool, s: seq<int>, k: nat, v: seq<int>, n: nat, w: nat, q: int, r: Final, before: Status, after: Status)
    requires FormatOk(f) && Digits(s) && Kept(s, k, v) && Digits(v) && s[0] != 0 && k > f.P
    requires n == Val(v) && w == Val(s)
    requires Delivers(f, mode, negative, n, q + (|s| - k), r, before, after)
    ensures Delivers(f, mode, negative, w, q, r, before, after)
  {
    hide Delivers, FormatOk;
    assert StandsFor(f, n, w, k, |s|, |s| - k, q) by { KeptStands(f, s, k, v, q); }
    DeliversKept(f, mode, negative, n, w, k, |s|, |s| - k, q, r, before, after);
  }

  lemma DeliversKept(f: Format, mode: Rounding, negative: bool, n: nat, w: nat, k: nat, l: nat, t: nat, q: int, r: Final, before: Status, after: Status)
    requires StandsFor(f, n, w, k, l, t, q)
    requires Delivers(f, mode, negative, n, q + t, r, before, after)
    ensures Delivers(f, mode, negative, w, q, r, before, after)
  {
    var length: nat, m: nat, c, e :| DeliversBy(f, mode, negative, n, q + t, r, before, after, length, m, c, e);
    LengthUnique(n, length, k);
    DeliversLonger(f, mode, negative, n, w, k, l, t, q, r, before, after, m, c, e);
  }

  lemma DropLonger(f: Format, k: nat, t: nat, q: int)
    requires k > f.P
    ensures Dropped(f, k, q + t) >= 1 && Dropped(f, k + t, q) == Dropped(f, k, q + t) + t
  {
  }

  /** What the kept digits share with the whole number. */
  ghost predicate Shares(n: nat, w: nat, drop: nat, t: nat) {
    Quot(n, Pow10(drop)) == Quot(w, Pow10(drop + t)) && PlaceOf(n, Pow10(drop)) == PlaceOf(w, Pow10(drop + t))
  }

  lemma KeptShares(s: seq<int>, k: nat, v: seq<int>, drop: nat)
    requires Digits(s) && Kept(s, k, v) && Digits(v) && drop >= 1
    ensures Shares(Val(v), Val(s), drop, |s| - k)
  {
    KeptCut(s, k, v, drop);
  }

  lemma KeptLengths(s: seq<int>, k: nat, v: seq<int>)
    requires Digits(s) && Kept(s, k, v) && Digits(v) && s[0] != 0
    ensures HasLength(Val(v), k) && HasLength(Val(s), |s|)
  {
    TrimmedLength(v);
    TrimmedLength(s);
  }

  lemma FinalizedLonger(f: Format, mode: Rounding, negative: bool, n: nat, w: nat, k: nat, l: nat, t: nat, q: int, m: nat, c: seq<int>, e: int, r: Final)
    requires Dropped(f, l, q) == Dropped(f, k, q + t) + t && Shares(n, w, Dropped(f, k, q + t), t)
    requires Finalized(f, mode, negative, n, k, q + t, m, c, e, r)
    ensures Finalized(f, mode, negative, w, l, q, m, c, e, r)
  {
    hide Dropped, Pow10, HighEndIs, Rounded, Worth, Quot, PlaceOf;
    var drop := Dropped(f, k, q + t);
    SamePlaceRounds(mode, negative, n, Pow10(drop), w, Pow10(drop + t), m);
    assert q + t + drop == q + (drop + t);
  }

  lemma StatusLonger(f: Format, mode: Rounding, n: nat, w: nat, k: nat, l: nat, t: nat, q: int, c: seq<int>, e: int, before: Status, after: Status)
    requires l == k + t && Dropped(f, l, q) == Dropped(f, k, q + t) + t && Shares(n, w, Dropped(f, k, q + t), t)
    requires StatusIs(f, mode, n, k, q + t, c, e, before, after)
    ensures StatusIs(f, mode, w, l, q, c, e, before, after)
  {
    hide Dropped, Pow10, Quot, PlaceOf, Rem, Overflows;
    var drop := Dropped(f, k, q + t);
    SamePlaceLost(n, Pow10(drop), w, Pow10(drop + t));
  }

  lemma DeliversLonger(f: Format, mode: Rounding, negative: bool, n: nat, w: nat, k: nat, l: nat, t: nat, q: int, r: Final, before: Status, after: Status, m: nat, c: seq<int>, e: int)
    requires HasLength(w, l) && l == k + t && Dropped(f, l, q) == Dropped(f, k, q + t) + t
    requires DeliversBy(f, mode, negative, n, q + t, r, before, after, k, m, c, e)
    requires Shares(n, w, Dropped(f, k, q + t), t)
    ensures Delivers(f, mode, negative, w, q, r, before, after)
  {
    hide Finalized, StatusIs, HasLength, Shares, Dropped;
    FinalizedLonger(f, mode, negative, n, w, k, l, t, q, m, c, e, r);
    StatusLonger(f, mode, n, w, k, l, t, q, c, e, before, after);
    assert DeliversBy(f, mode, negative, w, q, r, before, after, l, m, c, e);
  }

  // ----- zeros

  lemma ZeroParts(f: Format, q: int)
    requires FormatOk(f)
    ensures HasLength(0, 1) && q + Dropped(f, 1, q) == (if q < f.Qtiny() then f.Qtiny() else q)
    ensures Quot(0, Pow10(Dropped(f, 1, q))) == 0 && Rem(0, Pow10(Dropped(f, 1, q))) == 0
  {
    PowMono(0, 1);
  }

  /** A zero is delivered with its exponent clamped. */
  lemma ZeroIsClamped(f: Format, mode: Rounding, negative: bool, length: nat, c: int, r: Final, before: Status, after: Status, m: nat, s: seq<int>, e: int)
    requires FormatOk(f) && DeliversBy(f, mode, negative, 0, c, r, before, after, length, m, s, e)
    ensures r == Finite(negative, [0], Clamp(f, c)) && after == before
  {
    ZeroParts(f, c);
    LengthUnique(0, length, 1);
    ZeroWorth(s, e, c + Dropped(f, 1, c), f.P);
  }

  lemma ClampedZero(f: Format, mode: Rounding, negative: bool, q: int, status: Status)
    requires FormatOk(f)
    ensures Delivers(f, mode, negative, 0, q, Finite(negative, [0], Clamp(f, q)), status, status)
  {
    ZeroParts(f, q);
    OneDigit(0);
    var e, r := q + Dropped(f, 1, q), Finite(negative, [0], Clamp(f, q));
    assert Worth([0], e, 0, e, f.P);
    assert HighEndIs(f, mode, negative, [0], e, r);
    assert DeliversBy(f, mode, negative, 0, q, r, status, status, 1, 0, [0], e);
  }
}
