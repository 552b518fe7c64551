/** The state stack of an LR parser is a walk of the automaton from state 0. */
module StackPaths {
  import opened Grammar
  import opened ClosureTables
  import opened Automaton
  import opened Machine
  import opened Derivation

  /** Entry i of the stack was entered from the one below it. */
  ghost predicate Entered(A: Automaton, stack: seq<int>, i: int) {
    && 1 <= i < |stack| && IsState(A, stack[i - 1]) && IsState(A, stack[i])
    && Trans(A, stack[i - 1], A.states[stack[i]].accessing, stack[i])
  }

  ghost predicate IsPath(A: Automaton, stack: seq<int>) {
    && stack != [] && stack[0] == 0 && IsState(A, 0)
    && forall i :: 1 <= i < |stack| ==> Entered(A, stack, i)
  }

  /** The symbols on the stack. */
  ghost function Word(A: Automaton, stack: seq<int>): (w: seq<int>)
    requires IsPath(A, stack)
    ensures |w| == |stack| - 1
  {
    if |stack| == 1 then []
    else
      var n := |stack| - 1;
      assert Entered(A, stack, n);
      PathPrefix(A, stack, n);
      Word(A, stack[..n]) + [A.states[stack[n]].accessing]
  }

  lemma PathTop(A: Automaton, stack: seq<int>)
    requires IsPath(A, stack)
    ensures IsState(A, stack[|stack| - 1])
  {
    if |stack| > 1 { assert Entered(A, stack, |stack| - 1); }
  }

  lemma PathPrefix(A: Automaton, stack: seq<int>, n: nat)
    requires IsPath(A, stack) && 1 <= n <= |stack|
    ensures IsPath(A, stack[..n])
  {
    forall i | 1 <= i < n ensures Entered(A, stack[..n], i) {
      assert Entered(A, stack, i);
    }
  }

  lemma {:induction false} WordPrefix(A: Automaton, stack: seq<int>, n: nat)
    requires IsPath(A, stack) && 1 <= n <= |stack|
    ensures IsPath(A, stack[..n]) && Word(A, stack[..n]) == Word(A, stack)[..n - 1]
  {
    PathPrefix(A, stack, n);
    if n == |stack| {
      assert stack[..n] == stack;
    } else {
      var m := |stack| - 1;
      PathPrefix(A, stack, m);
      WordPrefix(A, stack[..m], n);
      assert stack[..m][..n] == stack[..n];
    }
  }

  lemma PathMore(A: Automaton, stack: seq<int>, X: int, u: int)
    requires IsPath(A, stack) && Trans(A, stack[|stack| - 1], X, u)
    ensures IsPath(A, stack + [u]) && Word(A, stack + [u]) == Word(A, stack) + [X]
  {
    var s := stack + [u];
    forall i | 1 <= i < |s| ensures Entered(A, s, i) {
      if i < |stack| { assert Entered(A, stack, i); }
    }
    assert s[..|stack|] == stack;
  }

  /** State 0 is at the bottom only. */
  lemma OnlyBottom(g: Grammar, A: Automaton, stack: seq<int>)
    requires WellFormed(g) && Canonical(g, A) && IsPath(A, stack)
    ensures stack[|stack| - 1] == 0 <==> |stack| == 1
  {
    if |stack| > 1 {
      var i := |stack| - 1;
      assert Entered(A, stack, i);
      TransKernel(g, A, stack[i - 1], A.states[stack[i]].accessing, stack[i]);
    }
  }

  // ----- where items come from

  /** The first item of some rule, with the dot before its left-hand side in S. */
  ghost predicate Opened(g: Grammar, S: set<int>, j: int)
    requires WellFormed(g)
  {
    exists h, r :: OpenedBy(g, S, j, h, r)
  }

  ghost predicate OpenedBy(g: Grammar, S: set<int>, j: int, h: int, r: int)
    requires WellFormed(g)
  {
    IsRuleNo(g, r) && h in S && 0 <= h < |g.ritem| && g.ritem[h] == g.rlhs[r] && g.rrhs[r] == j
  }

  lemma KernelOrOpened(g: Grammar, A: Automaton, s: int, j: int)
    requires WellFormed(g) && Canonical(g, A) && IsState(A, s) && j in Items(g, A, s)
    ensures j in Kernel(A, s) || Opened(g, Items(g, A, s), j)
  {
    ItemsAre(g, A, s);
    var I := Items(g, A, s);
    var S := Kernel(A, s) + set x | x in I && Opened(g, I, x);
    forall x, r | x in S && 0 <= x < |g.ritem| && IsVar(g, g.ritem[x]) && IsRule(g, r, g.ritem[x])
      ensures g.rrhs[r] in S
    {
      ClosureStep(g, Kernel(A, s), x, r);
      assert OpenedBy(g, I, g.rrhs[r], x, r);
    }
    ClosureInduction(g, Kernel(A, s), S, j);
  }

  /** An item inside a rule comes from the item before it. */
  lemma ItemBefore(g: Grammar, A: Automaton, q: int, X: int, s: int, r: int, j: int)
    requires WellFormed(g) && Canonical(g, A) && Trans(A, q, X, s) && j in Items(g, A, s)
    requires InRule(g, r, j) && j != g.rrhs[r]
    ensures j - 1 in Items(g, A, q) && InRule(g, r, j - 1) && g.ritem[j - 1] == X
  {
    KernelOrOpened(g, A, s, j);
    NotOpened(g, Items(g, A, s), r, j);
    TransKernel(g, A, q, X, s);
  }

  lemma NotOpened(g: Grammar, S: set<int>, r: int, j: int)
    requires WellFormed(g) && InRule(g, r, j) && j != g.rrhs[r]
    ensures !Opened(g, S, j)
  {
    if Opened(g, S, j) {
      var h, q :| OpenedBy(g, S, j, h, q);
      RuleBounds(g, q);
      RuleUnique(g, r, q, j);
    }
  }

  /** State 0 holds first items only. */
  lemma StartsAtBottom(g: Grammar, A: Automaton, r: int, j: int)
    requires WellFormed(g) && Canonical(g, A) && IsState(A, 0) && j in Items(g, A, 0) && InRule(g, r, j)
    ensures j == g.rrhs[r]
  {
    if j != g.rrhs[r] {
      KernelOrOpened(g, A, 0, j);
      NotOpened(g, Items(g, A, 0), r, j);
      assert A.states[0].items == [1];
      RuleUnique(g, r, 2, 1);
    }
  }

  lemma TailMore(v: seq<int>, k: nat, c: seq<int>, i: nat, j: nat)
    requires k <= |v| && i < j <= |c| && v[k..] == c[i..j - 1]
    ensures (v + [c[j - 1]])[k..] == c[i..j]
  {
    assert (v + [c[j - 1]])[k..] == v[k..] + [c[j - 1]];
    assert c[i..j] == c[i..j - 1] + [c[j - 1]];
  }

  /** Under an item with its dot past m symbols lie those m symbols, and under
      them a state with the first item of the rule. */
  lemma {:induction false} Handle(g: Grammar, A: Automaton, stack: seq<int>, r: int, j: int)
    requires WellFormed(g) && Canonical(g, A) && IsPath(A, stack) && InRule(g, r, j)
    requires IsState(A, stack[|stack| - 1]) && j in Items(g, A, stack[|stack| - 1])
    ensures var m := j - g.rrhs[r];
      && m < |stack| && IsState(A, stack[|stack| - 1 - m])
      && g.rrhs[r] in Items(g, A, stack[|stack| - 1 - m])
      && j <= |g.ritem| && Word(A, stack)[|stack| - 1 - m..] == g.ritem[g.rrhs[r]..j]
    decreases |stack|
  {
    hide Canonical, Items;
    RuleBounds(g, r);
    var n := |stack| - 1;
    if j != g.rrhs[r] {
      if n == 0 {
        StartsAtBottom(g, A, r, j);
      } else {
        assert Entered(A, stack, n);
        ItemBefore(g, A, stack[n - 1], A.states[stack[n]].accessing, stack[n], r, j);
        PathPrefix(A, stack, n);
        Handle(g, A, stack[..n], r, j - 1);
        TailMore(Word(A, stack[..n]), n - (j - g.rrhs[r]), g.ritem, g.rrhs[r], j);
      }
    }
  }

  /** The kernel holds no first item of a user's rule. */
  lemma FirstNotInKernel(g: Grammar, A: Automaton, q: int, r: int)
    requires WellFormed(g) && Canonical(g, A) && IsState(A, q) && 3 <= r < |g.rlhs|
    ensures g.rrhs[r] !in Kernel(A, q)
  {
    RuleBounds(g, r);
    RuleBounds(g, r - 1);
    assert RuleOk(g, r);
    if q == 0 {
      assert A.states[0].items == [1];
    } else {
      var p := EnteredFrom(g, A, q);
      TransKernel(g, A, p, A.states[q].accessing, q);
    }
  }

  /** A state with the first item of a user's rule has a goto on its left-hand
      side. */
  lemma GotoThere(g: Grammar, A: Automaton, q: int, r: int) returns (u: int)
    requires WellFormed(g) && Canonical(g, A) && IsState(A, q) && 3 <= r < |g.rlhs| && g.rrhs[r] in Items(g, A, q)
    ensures Trans(A, q, g.rlhs[r], u)
  {
    var j := g.rrhs[r];
    RuleBounds(g, r);
    KernelOrOpened(g, A, q, j);
    FirstNotInKernel(g, A, q, r);
    var h, s :| OpenedBy(g, Items(g, A, q), j, h, s);
    RuleBounds(g, s);
    RuleUnique(g, r, s, j);
    u := TransExists(g, A, q, h);
  }

  /** Rule 2 is never completed: $end is not shifted. */
  lemma AcceptNotCompleted(g: Grammar, A: Automaton, s: int)
    requires WellFormed(g) && Canonical(g, A) && IsState(A, s)
    ensures 3 !in Items(g, A, s)
  {
    if 3 in Items(g, A, s) {
      if s == 0 {
        StartsAtBottom(g, A, 2, 3);
      } else {
        var p := EnteredFrom(g, A, s);
        TransKernel(g, A, p, A.states[s].accessing, s);
        ItemBefore(g, A, p, A.states[s].accessing, s, 2, 3);
      }
    }
  }
}
