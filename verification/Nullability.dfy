/** lr0.c, set_nullable: the nonterminals that derive the empty string. */
module Nullability {
  import opened Grammar

  /** All symbols of items i..hi-1 are in S. */
  ghost predicate AllIn(g: Grammar, S: set<int>, i: int, hi: int)
    requires 0 <= i <= hi <= |g.ritem|
  {
    forall k :: i <= k < hi ==> g.ritem[k] in S
  }

  ghost predicate RuleHolds(g: Grammar, S: set<int>, r: int)
    requires WellFormed(g) && 2 <= r < |g.rlhs|
  {
    RuleBounds(g, r);
    AllIn(g, S, g.rrhs[r], g.rrhs[r + 1] - 1) ==> g.rlhs[r] in S
  }

  /** S holds the left-hand side of every rule whose right-hand side lies in S. */
  ghost predicate NullClosed(g: Grammar, S: set<int>)
    requires WellFormed(g)
  {
    forall r :: 2 <= r < |g.rlhs| ==> RuleHolds(g, S, r)
  }

  /** X is in the least such set. */
  ghost predicate Nullable(g: Grammar, X: int)
    requires WellFormed(g)
  {
    forall S: set<int> :: NullClosed(g, S) ==> X in S
  }

  lemma NullableIsVar(g: Grammar, X: int)
    requires WellFormed(g) && Nullable(g, X)
    ensures IsVar(g, X)
  {
    var S := set s | 0 <= s < g.nsyms && IsVar(g, s);
    forall r | 2 <= r < |g.rlhs| ensures RuleHolds(g, S, r) {
      RuleBounds(g, r);
    }
    assert NullClosed(g, S);
  }

  /** The least set is itself closed. */
  lemma NullableRule(g: Grammar, r: int)
    requires WellFormed(g) && 2 <= r < |g.rlhs|
    requires forall k :: 0 <= g.rrhs[r] <= k < g.rrhs[r + 1] - 1 < |g.ritem| ==> Nullable(g, g.ritem[k])
    ensures Nullable(g, g.rlhs[r])
  {
    RuleBounds(g, r);
    forall S: set<int> | NullClosed(g, S)
      ensures g.rlhs[r] in S
    {
      assert RuleHolds(g, S, r);
    }
  }

  /** A derivation tree that derives the empty string: every leaf is a rule
      with an empty right-hand side. */
  datatype Tree = Node(rule: int, kids: seq<Tree>)

  ghost predicate DerivesEmpty(g: Grammar, t: Tree, X: int)
    requires WellFormed(g)
  {
    IsRule(g, t.rule, X) &&
    (RuleBounds(g, t.rule);
     var start := g.rrhs[t.rule];
     && |t.kids| == g.rrhs[t.rule + 1] - 1 - start
     && forall k :: 0 <= k < |t.kids| ==> DerivesEmpty(g, t.kids[k], g.ritem[start + k]))
  }

  lemma {:induction false} TreeIsNullable(g: Grammar, t: Tree, X: int)
    requires WellFormed(g) && DerivesEmpty(g, t, X)
    ensures Nullable(g, X)
  {
    RuleBounds(g, t.rule);
    var start := g.rrhs[t.rule];
    forall k | start <= k < g.rrhs[t.rule + 1] - 1
      ensures Nullable(g, g.ritem[k])
    {
      assert DerivesEmpty(g, t.kids[k - start], g.ritem[start + (k - start)]);
      TreeIsNullable(g, t.kids[k - start], g.ritem[k]);
    }
    NullableRule(g, t.rule);
  }

  ghost predicate HasTree(g: Grammar, X: int)
    requires WellFormed(g)
  {
    exists t :: DerivesEmpty(g, t, X)
  }

  lemma {:induction false} TreesFor(g: Grammar, i: nat, hi: nat) returns (kids: seq<Tree>)
    requires WellFormed(g) && i <= hi <= |g.ritem|
    requires forall k :: i <= k < hi ==> HasTree(g, g.ritem[k])
    ensures |kids| == hi - i
    ensures forall k :: 0 <= k < |kids| ==> DerivesEmpty(g, kids[k], g.ritem[i + k])
    decreases hi
  {
    if i == hi {
      kids := [];
    } else {
      kids := TreesFor(g, i, hi - 1);
      assert HasTree(g, g.ritem[hi - 1]);
      var t :| DerivesEmpty(g, t, g.ritem[hi - 1]);
      kids := kids + [t];
    }
  }

  /** The least fixpoint is exactly derivability of the empty string. */
  lemma NullableIffTree(g: Grammar, X: int)
    requires WellFormed(g)
    ensures Nullable(g, X) <==> HasTree(g, X)
  {
    if HasTree(g, X) {
      var t :| DerivesEmpty(g, t, X);
      TreeIsNullable(g, t, X);
    }
    if Nullable(g, X) {
      var S := set s | 0 <= s < g.nsyms && HasTree(g, s);
      forall r | 2 <= r < |g.rlhs| ensures RuleHolds(g, S, r) {
        RuleBounds(g, r);
        var i, hi := g.rrhs[r], g.rrhs[r + 1] - 1;
        if AllIn(g, S, i, hi) {
          assert forall k :: i <= k < hi ==> g.ritem[k] in S;
          var kids := TreesFor(g, i, hi);
          assert DerivesEmpty(g, Node(r, kids), g.rlhs[r]);
        }
      }
      assert NullClosed(g, S);
    }
  }

  /** The symbols marked so far. */
  ghost function Marked(nullable: seq<bool>): set<int> {
    set X | 0 <= X < |nullable| && nullable[X]
  }

  ghost function Unmarked(nullable: seq<bool>): set<int> {
    set X | 0 <= X < |nullable| && !nullable[X]
  }

  ghost predicate Sound(g: Grammar, nullable: seq<bool>)
    requires WellFormed(g)
  {
    |nullable| == g.nsyms && forall X :: X in Marked(nullable) ==> Nullable(g, X)
  }

  /** One rule of a pass: `empty` tells whether its right-hand side is marked. */
  method ScanRule(g: Grammar, nullable: array<bool>, i: nat, ghost r: int) returns (empty: bool, end: nat)
    requires WellFormed(g) && nullable.Length == g.nsyms
    requires 2 <= r < |g.rlhs| && i == g.rrhs[r]
    ensures end == g.rrhs[r + 1] - 1
    ensures 0 <= i <= end < |g.ritem| && (empty <==> AllIn(g, Marked(nullable[..]), i, end))
  {
    RuleBounds(g, r);
    empty, end := true, i;
    while g.ritem[end] >= 0
      invariant i <= end <= g.rrhs[r + 1] - 1
      invariant empty <==> AllIn(g, Marked(nullable[..]), i, end)
      decreases g.rrhs[r + 1] - end
    {
      if !nullable[g.ritem[end]] {
        empty := false;
      }
      end := end + 1;
    }
  }

  /** One pass over all rules; marks are put down in the middle of the pass. */
  method Pass(g: Grammar, nullable: array<bool>) returns (done: bool)
    requires WellFormed(g) && Sound(g, nullable[..])
    modifies nullable
    ensures Sound(g, nullable[..])
    ensures done ==> NullClosed(g, Marked(nullable[..]))
    ensures !done ==> Unmarked(nullable[..]) < old(Unmarked(nullable[..]))
  {
    done := true;
    var i := 1;
    ghost var r := 2;
    RulesIncrease(g, 2, |g.rlhs|);
    while i < |g.ritem|
      invariant r < |g.rlhs| ==> i < |g.ritem|
      invariant 2 <= r <= |g.rlhs| && i == g.rrhs[r]
      invariant Sound(g, nullable[..])
      invariant Unmarked(nullable[..]) <= old(Unmarked(nullable[..]))
      invariant done ==> forall s :: 2 <= s < r ==> RuleHolds(g, Marked(nullable[..]), s)
      invariant !done ==> Unmarked(nullable[..]) < old(Unmarked(nullable[..]))
      decreases |g.rlhs| - r
    {
      var empty, end := ScanRule(g, nullable, i, r);
      RuleBounds(g, r);
      if empty {
        var j := g.rlhs[-g.ritem[end]];
        if !nullable[j] {
          NullableRule(g, r);
          assert j in Unmarked(nullable[..]);
          nullable[j] := true;
          done := false;
        }
      }
      i := end + 1;
      r := r + 1;
      if r < |g.rlhs| { RulesIncrease(g, r, |g.rlhs|); }
    }
  }

  method SetNullable(g: Grammar) returns (nullable: array<bool>)
    requires WellFormed(g)
    ensures fresh(nullable) && nullable.Length == g.nsyms
    ensures forall X :: 0 <= X < g.nsyms ==> (nullable[X] <==> Nullable(g, X))
  {
    nullable := new bool[g.nsyms](_ => false);
    var done := false;
    while !done
      invariant Sound(g, nullable[..])
      invariant done ==> NullClosed(g, Marked(nullable[..]))
      decreases !done, Unmarked(nullable[..])
    {
      done := Pass(g, nullable);
    }
    assert forall X :: 0 <= X < g.nsyms ==> (nullable[X] <==> X in Marked(nullable[..]));
  }
}
