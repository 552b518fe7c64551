/** What LALR(1) lookaheads are: the least solution of propagating tokens over
    the items of the automaton. */
module Lookahead {
  import opened Grammar
  import opened Nullability
  import opened ClosureTables
  import opened Automaton
  import opened Machine

  /** Token t can begin what follows position i in its rule, shown in n steps. */
  ghost predicate FirstN(g: Grammar, n: nat, i: int, t: int)
    requires WellFormed(g)
    decreases n
  {
    && n > 0 && 1 <= i < |g.ritem| && g.ritem[i] >= 0
    && if g.ritem[i] < g.ntokens then t == g.ritem[i]
       else ((exists r :: StartOf(g, r, g.ritem[i]) && FirstN(g, n - 1, g.rrhs[r], t))
             || (Nullable(g, g.ritem[i]) && FirstN(g, n - 1, i + 1, t)))
  }

  ghost predicate StartOf(g: Grammar, r: int, s: int) {
    IsRule(g, r, s) && r < |g.rrhs|
  }

  ghost predicate First(g: Grammar, i: int, t: int)
    requires WellFormed(g)
  {
    exists n :: FirstN(g, n, i, t)
  }

  /** Everything from position i to the end of its rule is nullable. */
  ghost predicate NullSuffix(g: Grammar, i: int)
    requires WellFormed(g)
    decreases |g.ritem| - i
  {
    1 <= i < |g.ritem| && (g.ritem[i] < 0 || (Nullable(g, g.ritem[i]) && NullSuffix(g, i + 1)))
  }

  /** Token t reaches item i of state q in n propagation steps: from an item of
      the same state that expands to it, or from the item before it in a
      preceding state. */
  ghost predicate PropN(g: Grammar, A: Automaton, n: nat, q: int, i: int, t: int)
    requires WellFormed(g)
    decreases n
  {
    n > 0 && IsState(A, q) && i in Items(g, A, q) &&
    ((exists h :: Expands(g, A, q, h, i) && (First(g, h + 1, t) || (NullSuffix(g, h + 1) && PropN(g, A, n - 1, q, h, t))))
     || (exists p :: Precedes(g, A, p, q, i) && PropN(g, A, n - 1, p, i - 1, t)))
  }

  /** Item h of state q has the dot before the nonterminal whose rule starts at i. */
  ghost predicate Expands(g: Grammar, A: Automaton, q: int, h: int, i: int)
    requires WellFormed(g)
  {
    IsState(A, q) && h in Items(g, A, q) && 0 <= h < |g.ritem| && IsStart(g, g.ritem[h], i)
  }

  ghost predicate IsStart(g: Grammar, s: int, i: int)
    requires WellFormed(g)
  {
    IsVar(g, s) && exists r :: StartOf(g, r, s) && g.rrhs[r] == i
  }

  /** State p goes to q over the symbol before item i. */
  ghost predicate Precedes(g: Grammar, A: Automaton, p: int, q: int, i: int)
    requires WellFormed(g)
  {
    IsState(A, p) && i - 1 in Items(g, A, p) && 0 <= i - 1 < |g.ritem| && Trans(A, p, g.ritem[i - 1], q)
  }

  /** The LALR(1) lookahead of item i in state q. */
  ghost predicate Propagated(g: Grammar, A: Automaton, q: int, i: int, t: int)
    requires WellFormed(g)
  {
    exists n :: PropN(g, A, n, q, i, t)
  }

  // ----- basic facts

  lemma {:induction false} FirstMono(g: Grammar, m: nat, n: nat, i: int, t: int)
    requires WellFormed(g) && m <= n && FirstN(g, m, i, t)
    ensures FirstN(g, n, i, t)
  {
    if g.ritem[i] >= g.ntokens {
      if r :| StartOf(g, r, g.ritem[i]) && FirstN(g, m - 1, g.rrhs[r], t) {
        FirstMono(g, m - 1, n - 1, g.rrhs[r], t);
      } else {
        FirstMono(g, m - 1, n - 1, i + 1, t);
      }
    }
  }

  lemma FirstToken(g: Grammar, i: int)
    requires WellFormed(g) && 1 <= i < |g.ritem| && 0 <= g.ritem[i] < g.ntokens
    ensures First(g, i, g.ritem[i])
  {
    assert FirstN(g, 1, i, g.ritem[i]);
  }

  lemma FirstRule(g: Grammar, i: int, r: int, t: int)
    requires WellFormed(g) && 1 <= i < |g.ritem| && IsVar(g, g.ritem[i]) && IsRule(g, r, g.ritem[i])
    requires First(g, g.rrhs[r], t)
    ensures First(g, i, t)
  {
    var n: nat :| FirstN(g, n, g.rrhs[r], t);
    assert StartOf(g, r, g.ritem[i]);
    assert FirstN(g, n + 1, i, t);
  }

  lemma FirstSkip(g: Grammar, i: int, t: int)
    requires WellFormed(g) && 1 <= i < |g.ritem| && IsVar(g, g.ritem[i]) && Nullable(g, g.ritem[i])
    requires First(g, i + 1, t)
    ensures First(g, i, t)
  {
    var n: nat :| FirstN(g, n, i + 1, t);
    assert FirstN(g, n + 1, i, t);
  }

  lemma {:induction false} FirstIsToken(g: Grammar, n: nat, i: int, t: int)
    requires WellFormed(g) && FirstN(g, n, i, t)
    ensures 0 <= t < g.ntokens
  {
    if g.ritem[i] >= g.ntokens {
      if r :| StartOf(g, r, g.ritem[i]) && FirstN(g, n - 1, g.rrhs[r], t) {
        FirstIsToken(g, n - 1, g.rrhs[r], t);
      } else {
        FirstIsToken(g, n - 1, i + 1, t);
      }
    }
  }

  /** A token in the FIRST of some item of a state is in the FIRST of a kernel
      item of that state. */
  lemma FirstInKernel(g: Grammar, A: Automaton, s: int, i: int, t: int) returns (j: int)
    requires WellFormed(g) && Canonical(g, A) && IsState(A, s) && i in Items(g, A, s) && First(g, i, t)
    ensures j in Kernel(A, s) && First(g, j, t)
  {
    ItemsAre(g, A, s);
    var S := set x | x in Items(g, A, s) && PullsBack(g, A, s, x, t);
    forall x, r | x in S && 0 <= x < |g.ritem| && IsVar(g, g.ritem[x]) && IsRule(g, r, g.ritem[x])
      ensures g.rrhs[r] in S
    {
      ClosureStep(g, Kernel(A, s), x, r);
      if First(g, g.rrhs[r], t) {
        FirstRule(g, x, r, t);
      }
    }
    ClosureInduction(g, Kernel(A, s), S, i);
    assert PullsBack(g, A, s, i, t);
    j :| j in Kernel(A, s) && First(g, j, t);
  }

  ghost predicate PullsBack(g: Grammar, A: Automaton, s: int, x: int, t: int)
    requires WellFormed(g) && IsState(A, s)
  {
    First(g, x, t) ==> exists j :: j in Kernel(A, s) && First(g, j, t)
  }

  // ----- following the dot through a rule

  /** The walk from p over the symbols of items i..j-1 ends in q. */
  ghost predicate Follows(g: Grammar, A: Automaton, p: int, i: int, j: int, q: int)
    requires WellFormed(g)
    decreases j - i
  {
    && IsState(A, p) && 1 <= i <= j < |g.ritem|
    && if i == j then p == q else exists u :: Trans(A, p, g.ritem[i], u) && Follows(g, A, u, i + 1, j, q)
  }

  /** The same walk, one more symbol at its end. */
  lemma {:induction false} FollowsOn(g: Grammar, A: Automaton, p: int, i: int, j: int, q: int, u: int)
    requires WellFormed(g) && Follows(g, A, p, i, j, q) && j + 1 < |g.ritem| && Trans(A, q, g.ritem[j], u)
    ensures Follows(g, A, p, i, j + 1, u)
    decreases j - i
  {
    if i == j {
      assert Follows(g, A, u, i + 1, j + 1, u);
    } else {
      var v :| Trans(A, p, g.ritem[i], v) && Follows(g, A, v, i + 1, j, q);
      FollowsOn(g, A, v, i + 1, j, q, u);
    }
  }

  /** An item at the start of a walk is carried along it. */
  lemma {:induction false} CarryItem(g: Grammar, A: Automaton, p: int, i: int, j: int, q: int)
    requires WellFormed(g) && Canonical(g, A) && Follows(g, A, p, i, j, q) && i in Items(g, A, p)
    ensures IsState(A, q) && j in Items(g, A, q)
    decreases j - i
  {
    hide Canonical, Trans, Items;
    if i < j {
      var u :| Trans(A, p, g.ritem[i], u) && Follows(g, A, u, i + 1, j, q);
      StepItem(g, A, p, i, u);
      CarryItem(g, A, u, i + 1, j, q);
    }
  }

  lemma StepItem(g: Grammar, A: Automaton, p: int, i: int, u: int)
    requires WellFormed(g) && Canonical(g, A) && IsState(A, p) && i in Items(g, A, p)
    requires 0 <= i < |g.ritem| && Trans(A, p, g.ritem[i], u)
    ensures i + 1 in Items(g, A, u)
    ensures Precedes(g, A, p, u, i + 1)
  {
    TransKernel(g, A, p, g.ritem[i], u);
    ItemsAre(g, A, u);
  }

  lemma StepLookahead(g: Grammar, A: Automaton, p: int, i: int, u: int, t: int)
    requires WellFormed(g) && Canonical(g, A) && Propagated(g, A, p, i, t)
    requires 0 <= i < |g.ritem| && Trans(A, p, g.ritem[i], u)
    ensures Propagated(g, A, u, i + 1, t)
  {
    var n: nat :| PropN(g, A, n, p, i, t);
    StepItem(g, A, p, i, u);
    assert PropN(g, A, n + 1, u, i + 1, t);
  }

  /** Lookahead at the start of a walk is carried along it. */
  lemma {:induction false} CarryLookahead(g: Grammar, A: Automaton, p: int, i: int, j: int, q: int, t: int)
    requires WellFormed(g) && Canonical(g, A) && Follows(g, A, p, i, j, q) && Propagated(g, A, p, i, t)
    ensures Propagated(g, A, q, j, t)
    decreases j - i
  {
    hide Canonical, Propagated, Trans;
    if i < j {
      var u :| Trans(A, p, g.ritem[i], u) && Follows(g, A, u, i + 1, j, q);
      StepLookahead(g, A, p, i, u, t);
      CarryLookahead(g, A, u, i + 1, j, q, t);
    }
  }

  /** Past the start of its rule, lookahead comes from the item before. */
  lemma StepBack(g: Grammar, A: Automaton, n: nat, q: int, r: int, j: int, t: int) returns (u: int)
    requires WellFormed(g) && PropN(g, A, n, q, j, t)
    requires InRule(g, r, j) && j != g.rrhs[r]
    ensures n > 0 && PropN(g, A, n - 1, u, j - 1, t)
    ensures 1 <= j - 1 && InRule(g, r, j - 1) && j < |g.ritem| && Trans(A, u, g.ritem[j - 1], q)
  {
    RuleBounds(g, r);
    NotAStart(g, A, q, r, j);
    u :| Precedes(g, A, u, q, j) && PropN(g, A, n - 1, u, j - 1, t);
  }

  /** Lookahead inside a rule comes from its start item, some way back. */
  lemma {:induction false} TraceBack(g: Grammar, A: Automaton, n: nat, q: int, r: int, j: int, t: int) returns (p: int, m: nat)
    requires WellFormed(g) && Canonical(g, A) && PropN(g, A, n, q, j, t)
    requires InRule(g, r, j)
    ensures m <= n && PropN(g, A, m, p, g.rrhs[r], t)
    ensures Follows(g, A, p, g.rrhs[r], j, q)
  {
    if j == g.rrhs[r] {
      p, m := q, n;
    } else {
      var u := StepBack(g, A, n, q, r, j, t);
      p, m := TraceBack(g, A, n - 1, u, r, j - 1, t);
      FollowsOn(g, A, p, g.rrhs[r], j - 1, u, q);
    }
  }

  lemma NotAStart(g: Grammar, A: Automaton, q: int, r: int, j: int)
    requires WellFormed(g) && InRule(g, r, j) && j != g.rrhs[r]
    ensures forall h :: !Expands(g, A, q, h, j)
  {
    forall h ensures !Expands(g, A, q, h, j) {
      if Expands(g, A, q, h, j) {
        var s :| StartOf(g, s, g.ritem[h]) && g.rrhs[s] == j;
        RuleBounds(g, s);
        RuleUnique(g, r, s, j);
      }
    }
  }

  /** Where no dot has moved, the lookahead comes from an item that expands. */
  lemma Expander(g: Grammar, A: Automaton, n: nat, p: int, j: int, t: int) returns (h: int)
    requires WellFormed(g) && PropN(g, A, n, p, j, t) && forall u :: !Precedes(g, A, u, p, j)
    ensures Expands(g, A, p, h, j)
    ensures First(g, h + 1, t) || (NullSuffix(g, h + 1) && n > 0 && PropN(g, A, n - 1, p, h, t))
  {
    hide WellFormed, First, NullSuffix, Precedes;
    h :| Expands(g, A, p, h, j) && (First(g, h + 1, t) || (NullSuffix(g, h + 1) && PropN(g, A, n - 1, p, h, t)));
  }

  lemma NonePrecedes(g: Grammar, A: Automaton, p: int, r: int, u: int)
    requires WellFormed(g) && Canonical(g, A) && 2 <= r < |g.rlhs|
    ensures !Precedes(g, A, u, p, g.rrhs[r])
  {
    hide Canonical;
    RuleBounds(g, r);
    BeforeStart(g, r);
    if Precedes(g, A, u, p, g.rrhs[r]) {
      TransKernel(g, A, u, g.ritem[g.rrhs[r] - 1], p);
    }
  }

  /** Lookahead on a start item was generated or propagated in its own state. */
  lemma StartLookahead(g: Grammar, A: Automaton, n: nat, p: int, r: int, t: int) returns (h: int)
    requires WellFormed(g) && Canonical(g, A) && 2 <= r < |g.rlhs| && PropN(g, A, n, p, g.rrhs[r], t)
    ensures h in Items(g, A, p) && 1 <= h < |g.ritem| && g.ritem[h] == g.rlhs[r]
    ensures First(g, h + 1, t) || (NullSuffix(g, h + 1) && n > 0 && PropN(g, A, n - 1, p, h, t))
  {
    hide Canonical, PropN, First, NullSuffix, Precedes;
    RuleBounds(g, r);
    forall u ensures !Precedes(g, A, u, p, g.rrhs[r]) {
      NonePrecedes(g, A, p, r, u);
    }
    h := Expander(g, A, n, p, g.rrhs[r], t);
    var s :| StartOf(g, s, g.ritem[h]) && g.rrhs[s] == g.rrhs[r];
    RuleBounds(g, s);
    RuleUnique(g, r, s, g.rrhs[r]);
  }

  /** What stands before the first item of a rule is the end of another. */
  lemma BeforeStart(g: Grammar, r: int)
    requires WellFormed(g) && 2 <= r < |g.rlhs|
    ensures 1 <= g.rrhs[r] < |g.ritem| && g.ritem[g.rrhs[r] - 1] < 0
  {
    RuleBounds(g, r);
    if r > 2 {
      RuleBounds(g, r - 1);
    }
  }
}
