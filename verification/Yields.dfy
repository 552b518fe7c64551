/** What a string of symbols yields, read off a forest of parse trees, and that
    this is what it derives. */
module Yields {
  import opened Grammar
  import opened Nullability
  import opened Lookahead
  import opened Derivation

  /** Rule r rewrites X, and its part of w has length k. */
  ghost predicate Splits(g: Grammar, X: int, r: int, w: seq<int>, k: int)
    requires WellFormed(g)
  {
    IsRuleNo(g, r) && g.rlhs[r] == X && 0 <= k <= |w|
  }

  /** The symbols of a yield w: a token yields itself, a nonterminal what one of
      its right-hand sides yields. */
  ghost predicate YieldsN(g: Grammar, n: nat, a: seq<int>, w: seq<int>)
    requires WellFormed(g)
    decreases n, 0
  {
    if a == [] then w == []
    else n > 0 && if a[0] < g.ntokens then w != [] && w[0] == a[0] && YieldsN(g, n - 1, a[1..], w[1..])
    else exists r, k :: Splits(g, a[0], r, w, k) && YieldsBy(g, n - 1, a, w, r, k)
  }

  ghost predicate YieldsBy(g: Grammar, n: nat, a: seq<int>, w: seq<int>, r: int, k: int)
    requires WellFormed(g) && a != []
    decreases n, 1
  {
    Splits(g, a[0], r, w, k) && YieldsN(g, n, Rhs(g, r), w[..k]) && YieldsN(g, n, a[1..], w[k..])
  }

  ghost predicate Yields(g: Grammar, a: seq<int>, w: seq<int>)
    requires WellFormed(g)
  {
    exists n: nat :: YieldsN(g, n, a, w)
  }

  lemma {:induction false} YieldsMore(g: Grammar, m: nat, n: nat, a: seq<int>, w: seq<int>)
    requires WellFormed(g) && m <= n && YieldsN(g, m, a, w)
    ensures YieldsN(g, n, a, w)
  {
    if a != [] {
      if a[0] < g.ntokens {
        YieldsMore(g, m - 1, n - 1, a[1..], w[1..]);
      } else {
        var r, k :| Splits(g, a[0], r, w, k) && YieldsBy(g, m - 1, a, w, r, k);
        YieldsMore(g, m - 1, n - 1, Rhs(g, r), w[..k]);
        YieldsMore(g, m - 1, n - 1, a[1..], w[k..]);
        assert YieldsBy(g, n - 1, a, w, r, k);
      }
    }
  }

  lemma YieldsVar(g: Grammar, n: nat, a: seq<int>, w: seq<int>, r: int, k: int)
    requires WellFormed(g) && a != [] && a[0] >= g.ntokens && Splits(g, a[0], r, w, k)
    requires YieldsN(g, n, Rhs(g, r), w[..k]) && YieldsN(g, n, a[1..], w[k..])
    ensures YieldsN(g, n + 1, a, w)
  {
    assert YieldsBy(g, n, a, w, r, k);
  }

  lemma YieldsParts(g: Grammar, n: nat, a: seq<int>, w: seq<int>) returns (r: int, k: int)
    requires WellFormed(g) && a != [] && a[0] >= g.ntokens && YieldsN(g, n, a, w)
    ensures n > 0 && Splits(g, a[0], r, w, k) && YieldsN(g, n - 1, Rhs(g, r), w[..k]) && YieldsN(g, n - 1, a[1..], w[k..])
  {
    r, k :| Splits(g, a[0], r, w, k) && YieldsBy(g, n - 1, a, w, r, k);
  }

  lemma JoinToken(g: Grammar, n: nat, a: seq<int>, v: seq<int>, b: seq<int>, w: seq<int>)
    requires WellFormed(g) && a != [] && a[0] < g.ntokens && v != [] && v[0] == a[0]
    requires YieldsN(g, n, a[1..] + b, v[1..] + w)
    ensures YieldsN(g, n + 1, a + b, v + w)
  {
    assert (a + b)[1..] == a[1..] + b && (v + w)[1..] == v[1..] + w;
  }

  lemma JoinVar(g: Grammar, n: nat, a: seq<int>, v: seq<int>, b: seq<int>, w: seq<int>, r: int, k: int)
    requires WellFormed(g) && a != [] && a[0] >= g.ntokens && Splits(g, a[0], r, v, k)
    requires YieldsN(g, n, Rhs(g, r), v[..k]) && YieldsN(g, n, a[1..] + b, v[k..] + w)
    ensures YieldsN(g, n + 1, a + b, v + w)
  {
    hide WellFormed;
    assert (a + b)[1..] == a[1..] + b;
    assert (v + w)[..k] == v[..k] && (v + w)[k..] == v[k..] + w;
    YieldsVar(g, n, a + b, v + w, r, k);
  }

  lemma YieldsToken(g: Grammar, n: nat, a: seq<int>, w: seq<int>)
    requires WellFormed(g) && a != [] && a[0] < g.ntokens && YieldsN(g, n, a, w)
    ensures n > 0 && w != [] && w[0] == a[0] && YieldsN(g, n - 1, a[1..], w[1..])
  {
  }

  lemma NothingFromNothing(g: Grammar, n: nat, w: seq<int>)
    requires WellFormed(g) && YieldsN(g, n, [], w)
    ensures w == []
  {
  }

  lemma {:induction false} YieldsJoin(g: Grammar, m: nat, n: nat, a: seq<int>, v: seq<int>, b: seq<int>, w: seq<int>)
    requires WellFormed(g) && YieldsN(g, m, a, v) && YieldsN(g, n, b, w)
    ensures YieldsN(g, m + n, a + b, v + w)
    decreases m
  {
    hide WellFormed, YieldsN;
    if a == [] {
      NothingFromNothing(g, m, v);
      YieldsMore(g, n, m + n, b, w);
      assert a + b == b && v + w == w;
    } else if a[0] < g.ntokens {
      YieldsToken(g, m, a, v);
      YieldsJoin(g, m - 1, n, a[1..], v[1..], b, w);
      JoinToken(g, m - 1 + n, a, v, b, w);
    } else {
      var r, k := YieldsParts(g, m, a, v);
      YieldsJoin(g, m - 1, n, a[1..], v[k..], b, w);
      YieldsMore(g, m - 1, m - 1 + n, Rhs(g, r), v[..k]);
      JoinVar(g, m - 1 + n, a, v, b, w, r, k);
    }
  }

  lemma CutVar(g: Grammar, n: nat, a: seq<int>, w: seq<int>, r: int, i: nat, k: nat)
    requires WellFormed(g) && a != [] && a[0] >= g.ntokens && Splits(g, a[0], r, w, i) && i + k <= |w|
    requires YieldsN(g, n, Rhs(g, r), w[..i]) && YieldsN(g, n, a[1..], w[i..][..k])
    ensures YieldsN(g, n + 1, a, w[..i + k])
  {
    var v := w[..i + k];
    assert v[..i] == w[..i] && v[i..] == w[i..][..k];
    YieldsVar(g, n, a, v, r, i);
  }

  lemma CutToken(g: Grammar, n: nat, a: seq<int>, w: seq<int>, k: nat)
    requires WellFormed(g) && a != [] && a[0] < g.ntokens && w != [] && w[0] == a[0] && 1 + k <= |w|
    requires YieldsN(g, n, a[1..], w[1..][..k])
    ensures YieldsN(g, n + 1, a, w[..1 + k])
  {
    assert w[1..][..k] == w[..1 + k][1..];
  }

  lemma CutRest(g: Grammar, n: nat, b: seq<int>, w: seq<int>, i: nat, k: nat)
    requires WellFormed(g) && i + k <= |w| && YieldsN(g, n, b, w[i..][k..])
    ensures YieldsN(g, n + 1, b, w[i + k..])
  {
    assert w[i..][k..] == w[i + k..];
    YieldsMore(g, n, n + 1, b, w[i + k..]);
  }

  lemma {:induction false} YieldsCut(g: Grammar, n: nat, a: seq<int>, b: seq<int>, w: seq<int>) returns (k: nat)
    requires WellFormed(g) && YieldsN(g, n, a + b, w)
    ensures k <= |w| && YieldsN(g, n, a, w[..k]) && YieldsN(g, n, b, w[k..])
    decreases n, 2
  {
    if a == [] {
      k := 0;
      assert a + b == b && w[0..] == w;
    } else {
      k := YieldsCutAfter(g, n, a, b, w);
    }
  }

  lemma YieldsCutAfter(g: Grammar, n: nat, a: seq<int>, b: seq<int>, w: seq<int>) returns (k: nat)
    requires WellFormed(g) && a != [] && YieldsN(g, n, a + b, w)
    ensures k <= |w| && YieldsN(g, n, a, w[..k]) && YieldsN(g, n, b, w[k..])
    decreases n, 1
  {
    if a[0] < g.ntokens {
      k := YieldsCutToken(g, n, a, b, w);
    } else {
      k := YieldsCutVar(g, n, a, b, w);
    }
  }

  lemma YieldsCutToken(g: Grammar, n: nat, a: seq<int>, b: seq<int>, w: seq<int>) returns (k: nat)
    requires WellFormed(g) && a != [] && a[0] < g.ntokens && YieldsN(g, n, a + b, w)
    ensures k <= |w| && YieldsN(g, n, a, w[..k]) && YieldsN(g, n, b, w[k..])
    decreases n, 0
  {
    hide WellFormed, YieldsN;
    var c := a + b;
    assert c[1..] == a[1..] + b;
    YieldsToken(g, n, c, w);
    var j := YieldsCut(g, n - 1, a[1..], b, w[1..]);
    CutToken(g, n - 1, a, w, j);
    CutRest(g, n - 1, b, w, 1, j);
    k := 1 + j;
  }

  lemma YieldsCutVar(g: Grammar, n: nat, a: seq<int>, b: seq<int>, w: seq<int>) returns (k: nat)
    requires WellFormed(g) && a != [] && a[0] >= g.ntokens && YieldsN(g, n, a + b, w)
    ensures k <= |w| && YieldsN(g, n, a, w[..k]) && YieldsN(g, n, b, w[k..])
    decreases n, 0
  {
    hide WellFormed, YieldsN;
    var c := a + b;
    assert c[1..] == a[1..] + b;
    var r, i := YieldsParts(g, n, c, w);
    var j := YieldsCut(g, n - 1, a[1..], b, w[i..]);
    CutVar(g, n - 1, a, w, r, i, j);
    CutRest(g, n - 1, b, w, i, j);
    k := i + j;
  }

  /** Tokens yield themselves. */
  lemma {:induction false} TokensYield(g: Grammar, w: seq<int>)
    requires WellFormed(g) && forall j :: 0 <= j < |w| ==> 0 <= w[j] < g.ntokens
    ensures YieldsN(g, |w|, w, w)
  {
    if w != [] { TokensYield(g, w[1..]); }
  }

  lemma RuleYields(g: Grammar, n: nat, r: int, w: seq<int>)
    requires WellFormed(g) && IsRuleNo(g, r) && YieldsN(g, n, Rhs(g, r), w)
    ensures YieldsN(g, n + 1, [g.rlhs[r]], w)
  {
    RuleBounds(g, r);
    var a := [g.rlhs[r]];
    assert a[1..] == [] && w[..|w|] == w && w[|w|..] == [];
    assert YieldsN(g, n, a[1..], w[|w|..]);
    YieldsVar(g, n, a, w, r, |w|);
  }

  /** The symbol in the middle may be rewritten. */
  lemma MiddleYields(g: Grammar, n: nat, x: seq<int>, r: int, w: seq<int>)
    requires WellFormed(g) && IsRuleNo(g, r) && YieldsN(g, n, x + Rhs(g, r), w)
    ensures YieldsN(g, n + (n + 1), x + [g.rlhs[r]], w)
  {
    var i := YieldsCut(g, n, x, Rhs(g, r), w);
    RuleYields(g, n, r, w[i..]);
    YieldsJoin(g, n, n + 1, x, w[..i], [g.rlhs[r]], w[i..]);
    assert w[..i] + w[i..] == w;
  }

  lemma RewritePlace(g: Grammar, a: seq<int>, c: seq<int>) returns (r: int, x: seq<int>, y: seq<int>)
    requires WellFormed(g) && Rewrites(g, a, c)
    ensures IsRuleNo(g, r) && a == x + [g.rlhs[r]] + y && c == x + Rhs(g, r) + y
  {
    hide WellFormed, Rhs;
    var k;
    k, r :| RewritesAt(g, a, c, k, r);
    x, y := a[..k], a[k + 1..];
  }

  /** One derivation step backwards. */
  lemma RewriteYields(g: Grammar, n: nat, a: seq<int>, c: seq<int>, w: seq<int>)
    requires WellFormed(g) && Rewrites(g, a, c) && YieldsN(g, n, c, w)
    ensures YieldsN(g, n + (n + 1) + n, a, w)
  {
    hide WellFormed, YieldsN, Rhs, Rewrites;
    var r, x, y := RewritePlace(g, a, c);
    var j := YieldsCut(g, n, x + Rhs(g, r), y, w);
    MiddleYields(g, n, x, r, w[..j]);
    YieldsJoin(g, n + (n + 1), n, x + [g.rlhs[r]], w[..j], y, w[j..]);
    assert w[..j] + w[j..] == w;
  }

  /** A string of tokens that is derived is yielded. */
  lemma {:induction false} DerivedIsYielded(g: Grammar, n: nat, a: seq<int>, w: seq<int>)
    requires WellFormed(g) && DerivesN(g, n, a, w) && forall j :: 0 <= j < |w| ==> 0 <= w[j] < g.ntokens
    ensures Yields(g, a, w)
  {
    if n == 0 {
      TokensYield(g, w);
    } else {
      var c :| Rewrites(g, a, c) && DerivesN(g, n - 1, c, w);
      DerivedIsYielded(g, n - 1, c, w);
      var m: nat :| YieldsN(g, m, c, w);
      RewriteYields(g, m, a, c, w);
    }
  }

  // ----- the rest of a rule

  /** The symbols from item i to the end of rule r. */
  ghost function Rest(g: Grammar, r: int, i: int): seq<int>
    requires WellFormed(g) && InRule(g, r, i)
  {
    RuleBounds(g, r);
    g.ritem[i..g.rrhs[r + 1] - 1]
  }

  lemma RestIs(g: Grammar, r: int, i: int)
    requires WellFormed(g) && InRule(g, r, i)
    ensures 1 <= i < |g.ritem|
    ensures i == g.rrhs[r] ==> Rest(g, r, i) == Rhs(g, r)
    ensures if i == g.rrhs[r + 1] - 1 then Rest(g, r, i) == [] && g.ritem[i] == -r
            else InRule(g, r, i + 1) && i + 1 < |g.ritem| && 0 <= g.ritem[i] < g.nsyms && Rest(g, r, i) == [g.ritem[i]] + Rest(g, r, i + 1)
  {
    RuleBounds(g, r);
    RulesIncrease(g, 2, |g.rlhs|);
    if r > 2 { RulesIncrease(g, 2, r); }
  }

  /** What yields nothing is nullable. */
  lemma {:induction false} NothingYielded(g: Grammar, n: nat, r: int, i: int)
    requires WellFormed(g) && InRule(g, r, i) && YieldsN(g, n, Rest(g, r, i), [])
    ensures NullSuffix(g, i)
    ensures forall k :: 0 <= i <= k < g.rrhs[r + 1] - 1 < |g.ritem| ==> Nullable(g, g.ritem[k])
    decreases n, g.rrhs[r + 1] - i
  {
    RestIs(g, r, i);
    if i != g.rrhs[r + 1] - 1 {
      var a, w := Rest(g, r, i), [];
      var q, k := YieldsParts(g, n, a, w);
      assert a[1..] == Rest(g, r, i + 1) && w[..k] == [] && w[k..] == [];
      NothingYielded(g, n - 1, r, i + 1);
      RuleBounds(g, q);
      RestIs(g, q, g.rrhs[q]);
      NothingYielded(g, n - 1, q, g.rrhs[q]);
      NullableRule(g, q);
    }
  }

  /** The first token of a yield is in FIRST. */
  lemma {:induction false} FirstYielded(g: Grammar, n: nat, r: int, i: int, w: seq<int>)
    requires WellFormed(g) && InRule(g, r, i) && YieldsN(g, n, Rest(g, r, i), w) && w != []
    ensures First(g, i, w[0])
    decreases n, g.rrhs[r + 1] - i
  {
    RestIs(g, r, i);
    var a := Rest(g, r, i);
    if a[0] < g.ntokens {
      FirstToken(g, i);
    } else {
      var q, k := YieldsParts(g, n, a, w);
      RuleBounds(g, q);
      RestIs(g, q, g.rrhs[q]);
      assert a[1..] == Rest(g, r, i + 1);
      if k > 0 {
        FirstYielded(g, n - 1, q, g.rrhs[q], w[..k]);
        FirstRule(g, i, q, w[0]);
      } else {
        assert w[..k] == [] && w[k..] == w;
        NothingYielded(g, n - 1, q, g.rrhs[q]);
        NullableRule(g, q);
        FirstYielded(g, n - 1, r, i + 1, w);
        FirstSkip(g, i, w[0]);
      }
    }
  }
}
