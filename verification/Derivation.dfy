/** Derivations of the packed grammar. */
module Derivation {
  import opened Grammar

  ghost predicate IsRuleNo(g: Grammar, r: int) {
    2 <= r < |g.rlhs|
  }

  ghost function Rhs(g: Grammar, r: int): seq<int>
    requires WellFormed(g) && IsRuleNo(g, r)
  {
    RuleBounds(g, r);
    g.ritem[g.rrhs[r]..g.rrhs[r + 1] - 1]
  }

  /** Symbol k of a is rewritten by rule r. */
  ghost predicate RewritesAt(g: Grammar, a: seq<int>, b: seq<int>, k: int, r: int)
    requires WellFormed(g)
  {
    IsRuleNo(g, r) && 0 <= k < |a| && a[k] == g.rlhs[r] && b == a[..k] + Rhs(g, r) + a[k + 1..]
  }

  ghost predicate Rewrites(g: Grammar, a: seq<int>, b: seq<int>)
    requires WellFormed(g)
  {
    exists k, r :: RewritesAt(g, a, b, k, r)
  }

  ghost predicate DerivesN(g: Grammar, n: nat, a: seq<int>, b: seq<int>)
    requires WellFormed(g)
  {
    if n == 0 then a == b else exists c :: Rewrites(g, a, c) && DerivesN(g, n - 1, c, b)
  }

  ghost predicate Derives(g: Grammar, a: seq<int>, b: seq<int>)
    requires WellFormed(g)
  {
    exists n: nat :: DerivesN(g, n, a, b)
  }

  /** w is a sentence: a string of tokens derived from the goal symbol. */
  ghost predicate Sentence(g: Grammar, w: seq<int>)
    requires WellFormed(g)
  {
    Derives(g, [g.ntokens + 1], w) && forall j :: 0 <= j < |w| ==> 0 <= w[j] < g.ntokens
  }

  lemma RewritesBefore(g: Grammar, a: seq<int>, b: seq<int>, c: seq<int>)
    requires WellFormed(g) && Rewrites(g, a, b)
    ensures Rewrites(g, a + c, b + c)
  {
    var k, r :| RewritesAt(g, a, b, k, r);
    assert (a + c)[..k] == a[..k] && (a + c)[k + 1..] == a[k + 1..] + c;
    assert RewritesAt(g, a + c, b + c, k, r);
  }

  /** A derivation goes on unchanged in front of more symbols. */
  lemma {:induction false} DerivesBefore(g: Grammar, n: nat, a: seq<int>, b: seq<int>, c: seq<int>)
    requires WellFormed(g) && DerivesN(g, n, a, b)
    ensures DerivesN(g, n, a + c, b + c)
  {
    if n > 0 {
      var d :| Rewrites(g, a, d) && DerivesN(g, n - 1, d, b);
      RewritesBefore(g, a, d, c);
      DerivesBefore(g, n - 1, d, b, c);
    }
  }

  /** To undo a right-hand side is to derive in one more step. */
  lemma ReduceDerives(g: Grammar, a: seq<int>, r: int, w: seq<int>)
    requires WellFormed(g) && IsRuleNo(g, r) && Derives(g, a + Rhs(g, r), w)
    ensures Derives(g, a + [g.rlhs[r]], w)
  {
    var n: nat :| DerivesN(g, n, a + Rhs(g, r), w);
    var b := a + [g.rlhs[r]];
    assert b[..|a|] == a && b[|a| + 1..] == [];
    assert RewritesAt(g, b, a + Rhs(g, r), |a|, r);
    assert Rewrites(g, b, a + Rhs(g, r));
    assert DerivesN(g, n + 1, a + [g.rlhs[r]], w);
  }

  lemma ShiftDerives(g: Grammar, a: seq<int>, w: seq<int>, t: int)
    requires WellFormed(g) && Derives(g, a, w)
    ensures Derives(g, a + [t], w + [t])
  {
    var n: nat :| DerivesN(g, n, a, w);
    DerivesBefore(g, n, a, w, [t]);
  }
}
