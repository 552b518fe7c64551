/** The relations of lalr.c over nonterminal transitions, and the theorem that
    solving them gives the LALR(1) lookaheads. */
module Relations {
  import opened Graph
  import opened Digraph
  import opened Grammar
  import opened Nullability
  import opened ClosureTables
  import opened Automaton
  import opened Machine
  import opened Lookahead

  /** The nonterminal transitions: number k goes from `from[k]` to `to[k]`;
      those on nonterminal b (counted from 0) have the numbers
      starts[b] .. starts[b+1]-1, in order of their source states. */
  datatype Gotos = Gotos(starts: seq<int>, from: seq<int>, to: seq<int>)

  ghost predicate InColumn(T: Gotos, b: int, k: int) {
    0 <= b && b + 1 < |T.starts| && T.starts[b] <= k < T.starts[b + 1]
  }

  ghost predicate ColumnsOk(g: Grammar, T: Gotos)
    requires WellFormed(g)
  {
    && |T.starts| == VarCount(g) + 1 && |T.from| == |T.to|
    && T.starts[0] == 0 && T.starts[VarCount(g)] == |T.from|
    && forall b :: 0 <= b < VarCount(g) ==> T.starts[b] <= T.starts[b + 1]
  }

  ghost predicate GotosOk(g: Grammar, A: Automaton, T: Gotos)
    requires WellFormed(g)
  {
    && ColumnsOk(g, T)
    && (forall b, k :: InColumn(T, b, k) ==> 0 <= k < |T.from| && Trans(A, T.from[k], g.ntokens + b, T.to[k]))
    && (forall b, k, l :: InColumn(T, b, k) && InColumn(T, b, l) && k < l ==> 0 <= k < |T.from| && 0 <= l < |T.from| && T.from[k] < T.from[l])
    && (forall s, X, t :: Trans(A, s, X, t) && IsVar(g, X) ==> HasGoto(g, A, T, s, X))
  }

  lemma GotosFit(g: Grammar, A: Automaton, T: Gotos)
    requires WellFormed(g) && GotosOk(g, A, T)
    ensures |T.from| == |T.to|
  {
  }

  /** Goto number k is the transition from s on X. */
  ghost predicate IsGotoNo(g: Grammar, A: Automaton, T: Gotos, k: int, s: int, X: int) {
    && 0 <= k < |T.from| && k < |T.to| && T.from[k] == s
    && Trans(A, s, X, T.to[k]) && InColumn(T, X - g.ntokens, k)
  }

  ghost predicate HasGoto(g: Grammar, A: Automaton, T: Gotos, s: int, X: int) {
    exists k :: IsGotoNo(g, A, T, k, s, X)
  }

  /** The symbol of goto k. */
  ghost function SymbolOf(A: Automaton, T: Gotos, k: int): int
    requires 0 <= k < |T.to| && IsState(A, T.to[k])
  {
    A.states[T.to[k]].accessing
  }

  lemma {:induction false} FindColumn(g: Grammar, T: Gotos, k: int, n: nat) returns (b: int)
    requires WellFormed(g) && ColumnsOk(g, T) && n <= VarCount(g) && 0 <= k < T.starts[n]
    ensures 0 <= b < n && InColumn(T, b, k)
  {
    if T.starts[n - 1] <= k {
      b := n - 1;
    } else {
      b := FindColumn(g, T, k, n - 1);
    }
  }

  lemma GotoIs(g: Grammar, A: Automaton, T: Gotos, k: int)
    requires WellFormed(g) && GotosOk(g, A, T) && 0 <= k < |T.from|
    ensures IsState(A, T.to[k]) && IsVar(g, SymbolOf(A, T, k))
    ensures IsGotoNo(g, A, T, k, T.from[k], SymbolOf(A, T, k))
  {
    var b := FindColumn(g, T, k, VarCount(g));
    assert Trans(A, T.from[k], g.ntokens + b, T.to[k]);
  }

  /** In a column the numbers are in order of their sources. */
  lemma ColumnOrder(g: Grammar, A: Automaton, T: Gotos, b: int, k: int, l: int)
    requires WellFormed(g) && GotosOk(g, A, T) && InColumn(T, b, k) && InColumn(T, b, l)
    ensures 0 <= k < |T.from| && 0 <= l < |T.from|
    ensures T.from[k] < T.from[l] <==> k < l
    ensures T.from[k] == T.from[l] <==> k == l
  {
    hide HasGoto, ColumnsOk, Trans;
    assert k < l ==> T.from[k] < T.from[l];
    assert l < k ==> T.from[l] < T.from[k];
  }

  /** A transition has one number. */
  lemma GotoUnique(g: Grammar, A: Automaton, T: Gotos, k: int, l: int, s: int, X: int)
    requires WellFormed(g) && GotosOk(g, A, T) && IsGotoNo(g, A, T, k, s, X) && IsGotoNo(g, A, T, l, s, X)
    ensures k == l
  {
    hide GotosOk, WellFormed, Trans;
    ColumnOrder(g, A, T, X - g.ntokens, k, l);
  }

  // ----- the relations

  /** The tokens that can be read directly after goto k; goto 0 reads $end. */
  ghost predicate Reads0(g: Grammar, A: Automaton, T: Gotos, k: int, t: int)
    requires 0 <= k < |T.to|
  {
    (0 < t < g.ntokens && exists u :: Trans(A, T.to[k], t, u)) || (t == 0 && k == 0)
  }

  /** k reads y: y leaves the target of k over a nullable nonterminal. */
  ghost predicate ReadsRel(g: Grammar, A: Automaton, T: Gotos, k: int, y: int)
    requires WellFormed(g) && 0 <= k < |T.to|
  {
    0 <= y < |T.from| && y < |T.to| && T.from[y] == T.to[k] && IsState(A, T.to[y]) && Nullable(g, SymbolOf(A, T, y))
  }

  /** k includes y: y's nonterminal has a rule in which k's stands before a
      nullable rest, and the walk from y's source over what precedes it ends in
      k's source. */
  ghost predicate IncludesVia(g: Grammar, A: Automaton, T: Gotos, k: int, y: int, r: int, i: int)
    requires WellFormed(g) && 0 <= k < |T.from| == |T.to|
  {
    && 0 <= y < |T.from| && IsState(A, T.to[y]) && IsState(A, T.to[k])
    && StartOf(g, r, SymbolOf(A, T, y)) && InRule(g, r, i) && 0 <= i < |g.ritem|
    && g.ritem[i] == SymbolOf(A, T, k)
    && NullSuffix(g, i + 1)
    && Follows(g, A, T.from[y], g.rrhs[r], i, T.from[k])
  }

  ghost predicate IncludesRel(g: Grammar, A: Automaton, T: Gotos, k: int, y: int)
    requires WellFormed(g) && 0 <= k < |T.from| == |T.to|
  {
    exists r, i :: IncludesVia(g, A, T, k, y, r, i)
  }

  /** The reduction by r in state q looks back to goto y. */
  ghost predicate LookbackRel(g: Grammar, A: Automaton, T: Gotos, q: int, r: int, y: int)
    requires WellFormed(g)
  {
    && 2 <= r < |g.rlhs| && 0 <= y < |T.from| && y < |T.to| && IsState(A, T.to[y])
    && SymbolOf(A, T, y) == g.rlhs[r]
    && r + 1 < |g.rrhs| && Follows(g, A, T.from[y], g.rrhs[r], g.rrhs[r + 1] - 1, q)
  }

  /** The inputs of the two runs of digraph. */
  ghost predicate InputsOk(g: Grammar, A: Automaton, T: Gotos, F0: seq<set<int>>, readsTo: seq<seq<int>>, includesTo: seq<seq<int>>)
    requires WellFormed(g)
  {
    && GotosOk(g, A, T)
    && |F0| == |readsTo| == |includesTo| == |T.from|
    && IsRelation(readsTo) && IsRelation(includesTo)
    && (forall k, t :: 0 <= k < |T.from| ==> (t in F0[k] <==> Reads0(g, A, T, k, t)))
    && (forall k, y :: 0 <= k < |T.from| ==> (y in readsTo[k] <==> ReadsRel(g, A, T, k, y)))
    && (forall k, y :: 0 <= k < |T.from| ==> (y in includesTo[k] <==> IncludesRel(g, A, T, k, y)))
  }

  /** F after the first run of digraph, and after the second. */
  ghost function ReadSets(F0: seq<set<int>>, readsTo: seq<seq<int>>): (F: seq<set<int>>)
    requires |F0| == |readsTo|
    ensures |F| == |F0|
  {
    seq(|F0|, k requires 0 <= k < |F0| => Union(GraphOf(readsTo), F0, k))
  }

  ghost function FollowSets(F0: seq<set<int>>, readsTo: seq<seq<int>>, includesTo: seq<seq<int>>): (F: seq<set<int>>)
    requires |F0| == |readsTo| == |includesTo|
    ensures |F| == |F0|
  {
    var F1 := ReadSets(F0, readsTo);
    seq(|F0|, k requires 0 <= k < |F0| => Union(GraphOf(includesTo), F1, k))
  }

  // ----- goto 0

  /** Goto number 0 is the transition from state 0 on the goal symbol, the only
      one after which $end may follow. */
  lemma GotoZero(g: Grammar, A: Automaton, T: Gotos)
    requires WellFormed(g) && Canonical(g, A) && GotosOk(g, A, T)
    ensures IsGotoNo(g, A, T, 0, 0, g.ntokens + 1)
  {
    StartItemOnce(g, A, 0);
    var u := TransExists(g, A, 0, 1);
    assert HasGoto(g, A, T, 0, g.ntokens + 1);
    var k :| IsGotoNo(g, A, T, k, 0, g.ntokens + 1);
    assert T.starts[1] == 0 by {
      assert T.starts[0] <= T.starts[1];
      if T.starts[1] > 0 {
        assert InColumn(T, 0, 0);
        TransKernel(g, A, T.from[0], g.ntokens, T.to[0]);
        ItemsAre(g, A, T.from[0]);
        var i :| i in Items(g, A, T.from[0]) && 0 <= i < |g.ritem| && g.ritem[i] == g.ntokens;
        ItemSymbol(g, i);
      }
    }
    if k > 0 {
      assert InColumn(T, 1, 0) && InColumn(T, 1, k);
    }
  }

  lemma EndInKernel(g: Grammar, A: Automaton, T: Gotos, k: int)
    requires WellFormed(g) && Canonical(g, A) && GotosOk(g, A, T) && 0 <= k < |T.from|
    requires IsState(A, T.to[k])
    ensures 2 in Kernel(A, T.to[k]) <==> k == 0
  {
    GotoIs(g, A, T, k);
    GotoZero(g, A, T);
    var s, X := T.from[k], SymbolOf(A, T, k);
    TransKernel(g, A, s, X, T.to[k]);
    StartItemOnce(g, A, s);
    if 2 in Kernel(A, T.to[k]) {
      assert 1 in Items(g, A, s);
      GotoUnique(g, A, T, k, 0, 0, g.ntokens + 1);
    }
    if k == 0 {
      assert 1 in Items(g, A, 0);
    }
  }

  /** Item 2, `$accept : goal . $end`, is in the target of goto 0 only. */
  lemma EndItem(g: Grammar, A: Automaton, T: Gotos, k: int)
    requires WellFormed(g) && Canonical(g, A) && GotosOk(g, A, T) && 0 <= k < |T.from|
    requires IsState(A, T.to[k])
    ensures 2 in Items(g, A, T.to[k]) <==> k == 0
  {
    EndInKernel(g, A, T, k);
    ItemsAre(g, A, T.to[k]);
    if k != 0 {
      NotStartItem(g, Kernel(A, T.to[k]));
    }
  }

  lemma NotStartItem(g: Grammar, K: set<int>)
    requires WellFormed(g) && IsKernel(g, K) && 2 !in K
    ensures 2 !in Closure(g, K)
  {
    var S := Closure(g, K) - {2};
    ClosureHasKernel(g, K);
    forall i, r | i in S && 0 <= i < |g.ritem| && IsVar(g, g.ritem[i]) && IsRule(g, r, g.ritem[i])
      ensures g.rrhs[r] in S
    {
      ClosureStep(g, K, i, r);
      RuleBounds(g, r);
      if r > 2 { RulesIncrease(g, 2, r); if r > 3 { RulesIncrease(g, 3, r); } }
    }
    if 2 in Closure(g, K) {
      ClosureInduction(g, K, S, 2);
    }
  }

  // ----- the first run: what can be read after a goto

  /** The token is in the FIRST of some kernel item of the target of goto k. */
  ghost predicate ReadSpec(g: Grammar, A: Automaton, T: Gotos, k: int, t: int)
    requires WellFormed(g) && 0 <= k < |T.to|
  {
    IsState(A, T.to[k]) && exists j :: j in Kernel(A, T.to[k]) && First(g, j, t)
  }

  lemma ReadItem(g: Grammar, A: Automaton, T: Gotos, k: int, i: int, t: int)
    requires WellFormed(g) && Canonical(g, A) && 0 <= k < |T.to| && IsState(A, T.to[k])
    requires i in Items(g, A, T.to[k]) && First(g, i, t)
    ensures ReadSpec(g, A, T, k, t)
  {
    var j := FirstInKernel(g, A, T.to[k], i, t);
  }

  /** Soundness, first step: a token read directly. */
  lemma Reads0Sound(g: Grammar, A: Automaton, T: Gotos, k: int, t: int)
    requires WellFormed(g) && Canonical(g, A) && GotosOk(g, A, T) && 0 <= k < |T.from|
    requires Reads0(g, A, T, k, t)
    ensures ReadSpec(g, A, T, k, t)
  {
    GotoIs(g, A, T, k);
    var q := T.to[k];
    ItemsAre(g, A, q);
    if t == 0 {
      EndInKernel(g, A, T, k);
      FirstToken(g, 2);
    } else {
      var u :| Trans(A, q, t, u);
      TransKernel(g, A, q, t, u);
      var i :| i in Items(g, A, q) && 0 <= i < |g.ritem| && g.ritem[i] == t;
      FirstToken(g, i);
      ReadItem(g, A, T, k, i, t);
    }
  }

  /** What can begin after a nullable nonterminal can begin before it. */
  lemma LookPast(g: Grammar, A: Automaton, q: int, C: int, u: int, j: int, t: int) returns (i: int)
    requires WellFormed(g) && Canonical(g, A) && Trans(A, q, C, u) && IsVar(g, C) && Nullable(g, C)
    requires j in Kernel(A, u) && First(g, j, t)
    ensures i in Items(g, A, q) && First(g, i, t)
  {
    TransKernel(g, A, q, C, u);
    ItemsAre(g, A, q);
    i := j - 1;
    FirstSkip(g, i, t);
  }

  /** Soundness, other steps: past a nullable nonterminal. */
  lemma ReadsSound(g: Grammar, A: Automaton, T: Gotos, k: int, y: int, t: int)
    requires WellFormed(g) && Canonical(g, A) && GotosOk(g, A, T) && 0 <= k < |T.from| && 0 <= y < |T.from|
    requires ReadsRel(g, A, T, k, y) && ReadSpec(g, A, T, y, t)
    ensures ReadSpec(g, A, T, k, t)
  {
    GotoIs(g, A, T, k);
    GotoIs(g, A, T, y);
    var j :| j in Kernel(A, T.to[y]) && First(g, j, t);
    var i := LookPast(g, A, T.to[k], SymbolOf(A, T, y), T.to[y], j, t);
    ReadItem(g, A, T, k, i, t);
  }

  lemma {:induction false} ReadWalkSound(g: Grammar, A: Automaton, T: Gotos, F0: seq<set<int>>, readsTo: seq<seq<int>>, includesTo: seq<seq<int>>, n: nat, k: int, y: int, t: int)
    requires WellFormed(g) && Canonical(g, A) && InputsOk(g, A, T, F0, readsTo, includesTo)
    requires Walk(GraphOf(readsTo), n, k, y) && 0 <= y < |F0| && t in F0[y]
    ensures 0 <= k < |T.from| && ReadSpec(g, A, T, k, t)
  {
    hide Canonical, GotosOk, ReadsRel, ReadSpec, IncludesRel, Reads0;
    if n == 0 {
      Reads0Sound(g, A, T, k, t);
    } else {
      var z :| z in GraphOf(readsTo)[k] && Walk(GraphOf(readsTo), n - 1, z, y);
      ReadWalkSound(g, A, T, F0, readsTo, includesTo, n - 1, z, y, t);
      assert z in readsTo[k];
      ReadsSound(g, A, T, k, z, t);
    }
  }

  lemma ReadHere(g: Grammar, A: Automaton, T: Gotos, F0: seq<set<int>>, readsTo: seq<seq<int>>, includesTo: seq<seq<int>>, k: int, j: int)
    requires WellFormed(g) && Canonical(g, A) && InputsOk(g, A, T, F0, readsTo, includesTo)
    requires 0 <= k < |T.from| && IsState(A, T.to[k])
    requires j in Items(g, A, T.to[k]) && 1 <= j < |g.ritem| && 0 <= g.ritem[j] < g.ntokens
    ensures g.ritem[j] in ReadSets(F0, readsTo)[k]
  {
    hide WellFormed, Canonical, GotosOk, Reads0;
    ReadToken(g, A, T, k, j);
    assert g.ritem[j] in F0[k];
    ReachSelf(GraphOf(readsTo), k);
  }

  lemma ReadThrough(g: Grammar, A: Automaton, T: Gotos, F0: seq<set<int>>, readsTo: seq<seq<int>>, includesTo: seq<seq<int>>, k: int, y: int, t: int)
    requires WellFormed(g) && InputsOk(g, A, T, F0, readsTo, includesTo)
    requires 0 <= k < |T.from| && 0 <= y < |T.from| && ReadsRel(g, A, T, k, y) && t in ReadSets(F0, readsTo)[y]
    ensures t in ReadSets(F0, readsTo)[k]
  {
    hide WellFormed, GotosOk, ReadsRel, Reads0, IncludesRel;
    var G := GraphOf(readsTo);
    assert y in readsTo[k];
    var z: int :| 0 <= z < |G| && Reach(G, y, z) && t in F0[z];
    ReachStep(G, k, y, z);
  }

  /** The goto on the symbol of item j, and where the dot goes. */
  lemma GotoOver(g: Grammar, A: Automaton, T: Gotos, k: int, j: int) returns (y: int)
    requires WellFormed(g) && Canonical(g, A) && GotosOk(g, A, T) && 0 <= k < |T.from| && IsState(A, T.to[k])
    requires j in Items(g, A, T.to[k]) && 1 <= j < |g.ritem| && g.ritem[j] >= g.ntokens && Nullable(g, g.ritem[j])
    ensures 0 <= y < |T.from| && ReadsRel(g, A, T, k, y) && IsState(A, T.to[y]) && j + 1 in Items(g, A, T.to[y])
  {
    var q := T.to[k];
    var u := TransExists(g, A, q, j);
    StepItem(g, A, q, j, u);
    ItemSymbol(g, j);
    assert HasGoto(g, A, T, q, g.ritem[j]);
    y :| IsGotoNo(g, A, T, y, q, g.ritem[j]);
    TransUnique(g, A, q, g.ritem[j], u, T.to[y]);
  }

  /** Completeness: every FIRST token of an item of the target is found. */
  lemma {:induction false} ReadComplete(g: Grammar, A: Automaton, T: Gotos, F0: seq<set<int>>, readsTo: seq<seq<int>>, includesTo: seq<seq<int>>, n: nat, k: int, j: int, t: int)
    requires WellFormed(g) && Canonical(g, A) && InputsOk(g, A, T, F0, readsTo, includesTo)
    requires 0 <= k < |T.from| && IsState(A, T.to[k]) && j in Items(g, A, T.to[k]) && FirstN(g, n, j, t)
    ensures t in ReadSets(F0, readsTo)[k]
  {
    hide Canonical, GotosOk, ReadsRel, Reads0, IncludesRel, ReadSets;
    GotosFit(g, A, T);
    var q := T.to[k];
    ItemsAre(g, A, q);
    if g.ritem[j] < g.ntokens {
      ReadHere(g, A, T, F0, readsTo, includesTo, k, j);
    } else if r :| StartOf(g, r, g.ritem[j]) && FirstN(g, n - 1, g.rrhs[r], t) {
      ItemSymbol(g, j);
      ClosureStep(g, Kernel(A, q), j, r);
      ReadComplete(g, A, T, F0, readsTo, includesTo, n - 1, k, g.rrhs[r], t);
    } else {
      var y := GotoOver(g, A, T, k, j);
      ReadComplete(g, A, T, F0, readsTo, includesTo, n - 1, y, j + 1, t);
      ReadThrough(g, A, T, F0, readsTo, includesTo, k, y, t);
    }
  }

  lemma ReadToken(g: Grammar, A: Automaton, T: Gotos, k: int, j: int)
    requires WellFormed(g) && Canonical(g, A) && GotosOk(g, A, T) && 0 <= k < |T.from| && IsState(A, T.to[k])
    requires j in Items(g, A, T.to[k]) && 1 <= j < |g.ritem| && 0 <= g.ritem[j] < g.ntokens
    ensures Reads0(g, A, T, k, g.ritem[j])
  {
    ItemSymbol(g, j);
    if g.ritem[j] == 0 {
      EndItem(g, A, T, k);
    } else {
      var u := TransExists(g, A, T.to[k], j);
    }
  }

  /** The first run of digraph leaves, for every goto, the tokens in the FIRST
      of the kernel items of its target. */
  lemma ReadSetsCorrect(g: Grammar, A: Automaton, T: Gotos, F0: seq<set<int>>, readsTo: seq<seq<int>>, includesTo: seq<seq<int>>, k: int, t: int)
    requires WellFormed(g) && Canonical(g, A) && InputsOk(g, A, T, F0, readsTo, includesTo)
    requires 0 <= k < |T.from|
    ensures t in ReadSets(F0, readsTo)[k] <==> ReadSpec(g, A, T, k, t)
  {
    var G := GraphOf(readsTo);
    if t in ReadSets(F0, readsTo)[k] {
      var y: int :| 0 <= y < |G| && Reach(G, k, y) && t in F0[y];
      var n: nat :| Walk(G, n, k, y);
      ReadWalkSound(g, A, T, F0, readsTo, includesTo, n, k, y, t);
    }
    if ReadSpec(g, A, T, k, t) {
      var j :| j in Kernel(A, T.to[k]) && First(g, j, t);
      var n: nat :| FirstN(g, n, j, t);
      ItemsAre(g, A, T.to[k]);
      ReadComplete(g, A, T, F0, readsTo, includesTo, n, k, j, t);
    }
  }

  // ----- the second run: what can follow a nonterminal

  /** Item i of state p has the dot before X, and t can come after X there. */
  ghost predicate FollowItem(g: Grammar, A: Automaton, p: int, X: int, i: int, t: int)
    requires WellFormed(g)
  {
    && IsState(A, p) && i in Items(g, A, p) && 0 <= i < |g.ritem| && g.ritem[i] == X
    && (First(g, i + 1, t) || (NullSuffix(g, i + 1) && Propagated(g, A, p, i, t)))
  }

  /** Token t can follow X in state p. */
  ghost predicate FollowSpec(g: Grammar, A: Automaton, p: int, X: int, t: int)
    requires WellFormed(g)
  {
    exists i :: FollowItem(g, A, p, X, i, t)
  }

  /** What follows a nonterminal is the lookahead of the start items of its rules. */
  lemma FollowIsStartLookahead(g: Grammar, A: Automaton, p: int, r: int, t: int)
    requires WellFormed(g) && Canonical(g, A) && IsState(A, p) && 2 <= r < |g.rlhs|
    ensures Propagated(g, A, p, g.rrhs[r], t) <==> FollowSpec(g, A, p, g.rlhs[r], t)
  {
    RuleBounds(g, r);
    if Propagated(g, A, p, g.rrhs[r], t) {
      var n: nat :| PropN(g, A, n, p, g.rrhs[r], t);
      var h := StartLookahead(g, A, n, p, r, t);
      assert FollowItem(g, A, p, g.rlhs[r], h, t);
    }
    if FollowSpec(g, A, p, g.rlhs[r], t) {
      var h :| FollowItem(g, A, p, g.rlhs[r], h, t);
      assert StartOf(g, r, g.ritem[h]);
      assert Expands(g, A, p, h, g.rrhs[r]);
      ClosureStep(g, Kernel(A, p), h, r);
      if First(g, h + 1, t) {
        assert PropN(g, A, 1, p, g.rrhs[r], t);
      } else {
        var n: nat :| PropN(g, A, n, p, h, t);
        assert PropN(g, A, n + 1, p, g.rrhs[r], t);
      }
    }
  }

  /** Reading after goto k is one way to follow its symbol. */
  lemma ReadIsFollow(g: Grammar, A: Automaton, T: Gotos, k: int, t: int)
    requires WellFormed(g) && Canonical(g, A) && GotosOk(g, A, T) && 0 <= k < |T.from| && ReadSpec(g, A, T, k, t)
    ensures FollowSpec(g, A, T.from[k], SymbolOf(A, T, k), t)
  {
    GotoIs(g, A, T, k);
    var p, X := T.from[k], SymbolOf(A, T, k);
    TransKernel(g, A, p, X, T.to[k]);
    var j :| j in Kernel(A, T.to[k]) && First(g, j, t);
    assert FollowItem(g, A, p, X, j - 1, t);
  }

  /** Soundness of one includes edge. */
  lemma IncludesSound(g: Grammar, A: Automaton, T: Gotos, k: int, y: int, t: int)
    requires WellFormed(g) && Canonical(g, A) && 0 <= k < |T.from| == |T.to| && 0 <= y < |T.from|
    requires IncludesRel(g, A, T, k, y) && IsState(A, T.to[y]) && IsState(A, T.to[k])
    requires FollowSpec(g, A, T.from[y], SymbolOf(A, T, y), t)
    ensures FollowSpec(g, A, T.from[k], SymbolOf(A, T, k), t)
  {
    var r, i :| IncludesVia(g, A, T, k, y, r, i);
    var p := T.from[y];
    FollowIsStartLookahead(g, A, p, r, t);
    CarryLookahead(g, A, p, g.rrhs[r], i, T.from[k], t);
    var n: nat :| PropN(g, A, n, T.from[k], i, t);
    assert FollowItem(g, A, T.from[k], SymbolOf(A, T, k), i, t);
  }

  /** What FollowSetsCorrect shows of goto k, from left to right. */
  ghost predicate FollowSound(g: Grammar, A: Automaton, T: Gotos, k: int, t: int)
    requires WellFormed(g)
  {
    0 <= k < |T.from| == |T.to| && IsState(A, T.to[k]) && FollowSpec(g, A, T.from[k], SymbolOf(A, T, k), t)
  }

  lemma FollowStart(g: Grammar, A: Automaton, T: Gotos, F0: seq<set<int>>, readsTo: seq<seq<int>>, includesTo: seq<seq<int>>, k: int, t: int)
    requires WellFormed(g) && Canonical(g, A) && InputsOk(g, A, T, F0, readsTo, includesTo)
    requires 0 <= k < |F0| && t in ReadSets(F0, readsTo)[k]
    ensures FollowSound(g, A, T, k, t)
  {
    GotoIs(g, A, T, k);
    ReadSetsCorrect(g, A, T, F0, readsTo, includesTo, k, t);
    ReadIsFollow(g, A, T, k, t);
  }

  lemma FollowEdge(g: Grammar, A: Automaton, T: Gotos, F0: seq<set<int>>, readsTo: seq<seq<int>>, includesTo: seq<seq<int>>, k: int, z: int, t: int)
    requires WellFormed(g) && Canonical(g, A) && InputsOk(g, A, T, F0, readsTo, includesTo)
    requires 0 <= k < |F0| && z in includesTo[k] && FollowSound(g, A, T, z, t)
    ensures FollowSound(g, A, T, k, t)
  {
    GotoIs(g, A, T, k);
    IncludesSound(g, A, T, k, z, t);
  }

  /** The gotos whose symbol t cannot follow. */
  ghost function Unfollowed(g: Grammar, A: Automaton, T: Gotos, t: int): set<int>
    requires WellFormed(g)
  {
    set k | 0 <= k < |T.from| && !FollowSound(g, A, T, k, t)
  }

  /** No includes edge leads from one of them to a goto that t can follow. */
  lemma UnfollowedClosed(g: Grammar, A: Automaton, T: Gotos, F0: seq<set<int>>, readsTo: seq<seq<int>>, includesTo: seq<seq<int>>, t: int)
    requires WellFormed(g) && Canonical(g, A) && InputsOk(g, A, T, F0, readsTo, includesTo)
    ensures Closed(GraphOf(includesTo), Unfollowed(g, A, T, t))
  {
    var G := GraphOf(includesTo);
    forall k, z | k in Unfollowed(g, A, T, t) && 0 <= k < |G| && z in G[k]
      ensures z in Unfollowed(g, A, T, t)
    {
      if FollowSound(g, A, T, z, t) {
        FollowEdge(g, A, T, F0, readsTo, includesTo, k, z, t);
      }
    }
  }

  lemma FollowWalkSound(g: Grammar, A: Automaton, T: Gotos, F0: seq<set<int>>, readsTo: seq<seq<int>>, includesTo: seq<seq<int>>, k: int, y: int, t: int)
    requires WellFormed(g) && Canonical(g, A) && InputsOk(g, A, T, F0, readsTo, includesTo)
    requires 0 <= k < |F0| && Reach(GraphOf(includesTo), k, y) && 0 <= y < |F0| && t in ReadSets(F0, readsTo)[y]
    ensures FollowSound(g, A, T, k, t)
  {
    FollowStart(g, A, T, F0, readsTo, includesTo, y, t);
    if !FollowSound(g, A, T, k, t) {
      UnfollowedClosed(g, A, T, F0, readsTo, includesTo, t);
      ReachStays(GraphOf(includesTo), Unfollowed(g, A, T, t), k, y);
    }
  }

  lemma ReadIntoFollow(g: Grammar, A: Automaton, T: Gotos, F0: seq<set<int>>, readsTo: seq<seq<int>>, includesTo: seq<seq<int>>, k: int, i: int, t: int)
    requires WellFormed(g) && Canonical(g, A) && InputsOk(g, A, T, F0, readsTo, includesTo)
    requires 0 <= k < |T.from| && IsState(A, T.to[k]) && IsState(A, T.from[k])
    requires i in Items(g, A, T.from[k]) && 0 <= i < |g.ritem| && g.ritem[i] == SymbolOf(A, T, k) && First(g, i + 1, t)
    ensures t in FollowSets(F0, readsTo, includesTo)[k]
  {
    GotoIs(g, A, T, k);
    TransKernel(g, A, T.from[k], SymbolOf(A, T, k), T.to[k]);
    assert i + 1 in Kernel(A, T.to[k]);
    ReadSetsCorrect(g, A, T, F0, readsTo, includesTo, k, t);
    ReachSelf(GraphOf(includesTo), k);
  }

  lemma IncludesIntoFollow(F0: seq<set<int>>, readsTo: seq<seq<int>>, includesTo: seq<seq<int>>, k: int, y: int, t: int)
    requires |F0| == |readsTo| == |includesTo| && IsRelation(includesTo)
    requires 0 <= k < |F0| && y in includesTo[k] && 0 <= y < |F0| && t in FollowSets(F0, readsTo, includesTo)[y]
    ensures t in FollowSets(F0, readsTo, includesTo)[k]
  {
    EdgeUnion(includesTo, ReadSets(F0, readsTo), k, y);
  }

  /** Where the lookahead of an item inside a rule was propagated from: a goto
      that the one on the item's symbol includes. */
  lemma IncludesFrom(g: Grammar, A: Automaton, T: Gotos, n: nat, k: int, i: int, t: int) returns (y: int, h: int, m: nat)
    requires WellFormed(g) && Canonical(g, A) && GotosOk(g, A, T)
    requires 0 <= k < |T.from| && IsState(A, T.to[k]) && IsState(A, T.from[k])
    requires i in Items(g, A, T.from[k]) && 0 <= i < |g.ritem| && g.ritem[i] == SymbolOf(A, T, k)
    requires NullSuffix(g, i + 1) && PropN(g, A, n, T.from[k], i, t)
    ensures m < n && 0 <= y < |T.from| && IsState(A, T.to[y]) && IsState(A, T.from[y])
    ensures IncludesRel(g, A, T, k, y)
    ensures h in Items(g, A, T.from[y]) && 0 <= h < |g.ritem| && g.ritem[h] == SymbolOf(A, T, y)
    ensures First(g, h + 1, t) || (NullSuffix(g, h + 1) && PropN(g, A, m, T.from[y], h, t))
  {
    ItemsAre(g, A, T.from[k]);
    var r := ItemRule(g, i);
    var p, l := TraceBack(g, A, n, T.from[k], r, i, t);
    h := StartLookahead(g, A, l, p, r, t);
    m := if l > 0 then l - 1 else 0;
    RuleBounds(g, r);
    var u := TransExists(g, A, p, h);
    assert HasGoto(g, A, T, p, g.rlhs[r]);
    y :| IsGotoNo(g, A, T, y, p, g.rlhs[r]);
    assert IncludesVia(g, A, T, k, y, r, i);
  }

  lemma {:induction false} FollowComplete(g: Grammar, A: Automaton, T: Gotos, F0: seq<set<int>>, readsTo: seq<seq<int>>, includesTo: seq<seq<int>>, n: nat, k: int, i: int, t: int)
    requires WellFormed(g) && Canonical(g, A) && InputsOk(g, A, T, F0, readsTo, includesTo)
    requires 0 <= k < |T.from| && IsState(A, T.to[k]) && IsState(A, T.from[k])
    requires i in Items(g, A, T.from[k]) && 0 <= i < |g.ritem| && g.ritem[i] == SymbolOf(A, T, k)
    requires First(g, i + 1, t) || (NullSuffix(g, i + 1) && PropN(g, A, n, T.from[k], i, t))
    ensures t in FollowSets(F0, readsTo, includesTo)[k]
  {
    if First(g, i + 1, t) {
      ReadIntoFollow(g, A, T, F0, readsTo, includesTo, k, i, t);
    } else {
      var y, h, m := IncludesFrom(g, A, T, n, k, i, t);
      FollowComplete(g, A, T, F0, readsTo, includesTo, m, y, h, t);
      assert y in includesTo[k];
      IncludesIntoFollow(F0, readsTo, includesTo, k, y, t);
    }
  }

  /** The second run of digraph leaves, for every goto, what can follow its
      nonterminal in its source state. */
  lemma FollowSetsCorrect(g: Grammar, A: Automaton, T: Gotos, F0: seq<set<int>>, readsTo: seq<seq<int>>, includesTo: seq<seq<int>>, k: int, t: int)
    requires WellFormed(g) && Canonical(g, A) && InputsOk(g, A, T, F0, readsTo, includesTo)
    requires 0 <= k < |T.from|
    ensures IsState(A, T.to[k])
    ensures t in FollowSets(F0, readsTo, includesTo)[k] <==> FollowSpec(g, A, T.from[k], SymbolOf(A, T, k), t)
  {
    GotoIs(g, A, T, k);
    var G := GraphOf(includesTo);
    if t in FollowSets(F0, readsTo, includesTo)[k] {
      var y: int :| 0 <= y < |G| && Reach(G, k, y) && t in ReadSets(F0, readsTo)[y];
      FollowWalkSound(g, A, T, F0, readsTo, includesTo, k, y, t);
    }
    if FollowSpec(g, A, T.from[k], SymbolOf(A, T, k), t) {
      var i :| FollowItem(g, A, T.from[k], SymbolOf(A, T, k), i, t);
      if First(g, i + 1, t) {
        FollowComplete(g, A, T, F0, readsTo, includesTo, 0, k, i, t);
      } else {
        var n: nat :| PropN(g, A, n, T.from[k], i, t);
        FollowComplete(g, A, T, F0, readsTo, includesTo, n, k, i, t);
      }
    }
  }

  // ----- lookaheads of reductions

  /** Token t is put on the reduction by r in state q by some lookback edge. */
  ghost predicate LookedBack(g: Grammar, A: Automaton, T: Gotos, F: seq<set<int>>, q: int, r: int, t: int)
    requires WellFormed(g) && |F| == |T.from|
  {
    exists y :: LookbackRel(g, A, T, q, r, y) && t in F[y]
  }

  /** A completed item's lookahead comes from a goto it looks back to. */
  lemma LookbackFrom(g: Grammar, A: Automaton, T: Gotos, q: int, r: int, t: int) returns (y: int)
    requires WellFormed(g) && Canonical(g, A) && GotosOk(g, A, T)
    requires 2 <= r < |g.rlhs| && Propagated(g, A, q, g.rrhs[r + 1] - 1, t)
    ensures LookbackRel(g, A, T, q, r, y)
    ensures FollowSpec(g, A, T.from[y], g.rlhs[r], t)
  {
    RuleBounds(g, r);
    var e := g.rrhs[r + 1] - 1;
    var n: nat :| PropN(g, A, n, q, e, t);
    var p, m := TraceBack(g, A, n, q, r, e, t);
    var h := StartLookahead(g, A, m, p, r, t);
    var u := TransExists(g, A, p, h);
    assert HasGoto(g, A, T, p, g.rlhs[r]);
    y :| IsGotoNo(g, A, T, y, p, g.rlhs[r]);
    FollowIsStartLookahead(g, A, p, r, t);
  }

  lemma LookbackSound(g: Grammar, A: Automaton, T: Gotos, q: int, r: int, y: int, t: int)
    requires WellFormed(g) && Canonical(g, A) && LookbackRel(g, A, T, q, r, y)
    requires FollowSpec(g, A, T.from[y], g.rlhs[r], t)
    ensures Propagated(g, A, q, g.rrhs[r + 1] - 1, t)
  {
    FollowIsStartLookahead(g, A, T.from[y], r, t);
    CarryLookahead(g, A, T.from[y], g.rrhs[r], g.rrhs[r + 1] - 1, q, t);
  }

  /** The end result: collecting the rows of all lookback gotos gives exactly
      the LALR(1) lookaheads of the completed item. */
  lemma LookaheadsCorrect(g: Grammar, A: Automaton, T: Gotos, F0: seq<set<int>>, readsTo: seq<seq<int>>, includesTo: seq<seq<int>>, q: int, r: int, t: int)
    requires WellFormed(g) && Canonical(g, A) && InputsOk(g, A, T, F0, readsTo, includesTo)
    requires 2 <= r < |g.rlhs|
    ensures LookedBack(g, A, T, FollowSets(F0, readsTo, includesTo), q, r, t) <==> Propagated(g, A, q, g.rrhs[r + 1] - 1, t)
  {
    var F := FollowSets(F0, readsTo, includesTo);
    if LookedBack(g, A, T, F, q, r, t) {
      var y :| LookbackRel(g, A, T, q, r, y) && t in F[y];
      FollowSetsCorrect(g, A, T, F0, readsTo, includesTo, y, t);
      LookbackSound(g, A, T, q, r, y, t);
    }
    if Propagated(g, A, q, g.rrhs[r + 1] - 1, t) {
      var y := LookbackFrom(g, A, T, q, r, t);
      FollowSetsCorrect(g, A, T, F0, readsTo, includesTo, y, t);
    }
  }
}
