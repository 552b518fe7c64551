/** lalr.c, build_relations: following every rule of every nonterminal
    transition, forwards for the lookback edges and backwards for the includes
    edges. */
module Includes {
  import opened Grammar
  import opened Nullability
  import opened ClosureTables
  import opened Automaton
  import opened Machine
  import opened Lookahead
  import opened Relations
  import opened GotoMap
  import opened InitialF

  /** The dot after the last symbol of rule r. */
  function EndOf(g: Grammar, r: int): int
    requires 0 <= r && r + 1 < |g.rrhs|
  {
    g.rrhs[r + 1] - 1
  }

  /** Rule r begins in the source of goto y, for the symbol of y. */
  ghost predicate RuleAt(g: Grammar, A: Automaton, T: Gotos, y: int, r: int)
    requires WellFormed(g)
  {
    && 0 <= y < |T.from| == |T.to| && IsState(A, T.from[y]) && IsState(A, T.to[y])
    && 3 <= r < |g.rlhs| && StartOf(g, r, SymbolOf(A, T, y))
    && g.rrhs[r] in Items(g, A, T.from[y])
  }

  /** A transition comes from an item. */
  lemma TransItem(g: Grammar, A: Automaton, s: int, X: int, t: int) returns (i: int)
    requires WellFormed(g) && Canonical(g, A) && Trans(A, s, X, t) && IsVar(g, X)
    ensures i in Items(g, A, s) && 1 <= i < |g.ritem| && g.ritem[i] == X && X != g.ntokens
  {
    hide Canonical;
    TransKernel(g, A, s, X, t);
    ItemsAre(g, A, s);
    i :| i in Items(g, A, s) && 0 <= i < |g.ritem| && g.ritem[i] == X;
    ItemSymbol(g, i);
  }

  lemma RulesAt(g: Grammar, A: Automaton, T: Gotos, y: int)
    requires WellFormed(g) && Canonical(g, A) && GotosOk(g, A, T) && 0 <= y < |T.from|
    ensures IsState(A, T.to[y]) && IsVar(g, SymbolOf(A, T, y))
    ensures forall r :: r in RulesFor(g, SymbolOf(A, T, y)) <==> RuleAt(g, A, T, y, r)
  {
    hide GotosOk, Canonical;
    GotosFit(g, A, T);
    GotoIs(g, A, T, y);
    var s, X := T.from[y], SymbolOf(A, T, y);
    var i := TransItem(g, A, s, X, T.to[y]);
    forall r ensures r in RulesFor(g, X) <==> RuleAt(g, A, T, y, r) {
      DerivesRules(g, X, r);
      if r in RulesFor(g, X) {
        ClosureStep(g, Kernel(A, s), i, r);
      }
    }
  }

  /** states[n] is where the walk from s over the first n symbols of r ends. */
  ghost predicate PathOk(g: Grammar, A: Automaton, s: int, r: int, states: seq<int>)
    requires WellFormed(g) && 3 <= r < |g.rlhs|
  {
    && 1 <= |states| && g.rrhs[r] + |states| - 1 <= EndOf(g, r)
    && forall n :: 0 <= n < |states| ==> Follows(g, A, s, g.rrhs[r], g.rrhs[r] + n, states[n])
  }

  ghost predicate Deterministic(A: Automaton) {
    forall s, X, t, u :: Trans(A, s, X, t) && Trans(A, s, X, u) ==> t == u
  }

  lemma IsDeterministic(g: Grammar, A: Automaton)
    requires WellFormed(g) && Canonical(g, A)
    ensures Deterministic(A)
  {
    forall s, X, t, u | Trans(A, s, X, t) && Trans(A, s, X, u) ensures t == u {
      TransUnique(g, A, s, X, t, u);
    }
  }

  /** A walk has one end. */
  lemma {:induction false} FollowsOnce(g: Grammar, A: Automaton, p: int, i: int, j: int, q: int, u: int)
    requires WellFormed(g) && Deterministic(A) && Follows(g, A, p, i, j, q) && Follows(g, A, p, i, j, u)
    ensures q == u
    decreases j - i
  {
    if i < j {
      var v :| Trans(A, p, g.ritem[i], v) && Follows(g, A, v, i + 1, j, q);
      var w :| Trans(A, p, g.ritem[i], w) && Follows(g, A, w, i + 1, j, u);
      FollowsOnce(g, A, v, i + 1, j, q, u);
    }
  }

  // ----- forwards

  /** The search for the shift on a symbol; it never runs off the list. */
  method FindShift(A: Automaton, s: int, symbol: int) returns (stateno: int)
    requires |A.shifts| == |A.states| && ShiftsInRange(A) && exists t :: Trans(A, s, symbol, t)
    ensures Trans(A, s, symbol, stateno)
  {
    ghost var t :| Trans(A, s, symbol, t);
    ghost var x :| 0 <= x < |A.shifts[s]| && A.shifts[s][x] == t;
    stateno := s;
    var j := 0;
    while j < |A.shifts[s]|
      invariant 0 <= j <= x
    {
      stateno := A.shifts[s][j];
      if A.states[stateno].accessing == symbol {
        return;
      }
      j := j + 1;
    }
  }

  /** Inside rule r the walk can go on. */
  lemma WalkOn(g: Grammar, A: Automaton, s: int, r: int, j: int, q: int) returns (u: int)
    requires WellFormed(g) && Canonical(g, A) && 3 <= r < |g.rlhs| && IsState(A, s) && g.rrhs[r] in Items(g, A, s)
    requires Follows(g, A, s, g.rrhs[r], j, q) && InRule(g, r, j) && g.ritem[j] >= 0
    ensures Trans(A, q, g.ritem[j], u)
    ensures j < EndOf(g, r) && Follows(g, A, s, g.rrhs[r], j + 1, u)
  {
    hide Canonical;
    RuleBounds(g, r);
    CarryItem(g, A, s, g.rrhs[r], j, q);
    assert RuleOk(g, r);
    u := TransExists(g, A, q, j);
    FollowsOn(g, A, s, g.rrhs[r], j, q, u);
  }

  method WalkStep(g: Grammar, A: Automaton, s: int, r: int, states: seq<int>) returns (states': seq<int>)
    requires WellFormed(g) && Canonical(g, A) && 3 <= r < |g.rlhs| && IsState(A, s) && g.rrhs[r] in Items(g, A, s)
    requires ShiftsInRange(A)
    requires PathOk(g, A, s, r, states) && InRule(g, r, g.rrhs[r] + |states| - 1) && 0 <= g.rrhs[r] + |states| - 1 < |g.ritem|
    requires g.ritem[g.rrhs[r] + |states| - 1] >= 0
    ensures PathOk(g, A, s, r, states') && |states'| == |states| + 1
  {
    hide Canonical;
    var rp := g.rrhs[r] + |states| - 1;
    var stateno := states[|states| - 1];
    ghost var u := WalkOn(g, A, s, r, rp, stateno);
    var next := FindShift(A, stateno, g.ritem[rp]);
    TransUnique(g, A, stateno, g.ritem[rp], u, next);
    states' := states + [next];
  }

  /** The walk over the right-hand side of r. */
  method WalkRule(g: Grammar, A: Automaton, s: int, r: int) returns (states: seq<int>)
    requires WellFormed(g) && Canonical(g, A) && 3 <= r < |g.rlhs| && IsState(A, s) && g.rrhs[r] in Items(g, A, s)
    requires ShiftsInRange(A)
    ensures PathOk(g, A, s, r, states) && g.rrhs[r] + |states| - 1 == EndOf(g, r)
  {
    RuleBounds(g, r);
    states := [s];
    var rp := g.rrhs[r];
    while g.ritem[rp] >= 0
      invariant PathOk(g, A, s, r, states) && rp == g.rrhs[r] + |states| - 1 && InRule(g, r, rp)
      decreases EndOf(g, r) - rp
    {
      states := WalkStep(g, A, s, r, states);
      rp := rp + 1;
    }
    assert RuleOk(g, r);
  }

  // ----- backwards

  /** Goto k is on symbol i of rule r along the path, before a nullable rest. */
  ghost predicate EdgeAt(g: Grammar, A: Automaton, T: Gotos, r: int, states: seq<int>, i: int, k: int)
    requires WellFormed(g) && 3 <= r < |g.rlhs|
  {
    && 0 <= g.rrhs[r] <= i < EndOf(g, r) < |g.ritem| && 0 <= i - g.rrhs[r] < |states|
    && IsVar(g, g.ritem[i]) && NullSuffix(g, i + 1)
    && IsGotoNo(g, A, T, k, states[i - g.rrhs[r]], g.ritem[i])
  }

  /** The edges found for positions from lo on. */
  ghost predicate EdgesFrom(g: Grammar, A: Automaton, T: Gotos, r: int, states: seq<int>, lo: int, edges: seq<int>)
    requires WellFormed(g) && 3 <= r < |g.rlhs|
  {
    forall k :: k in edges <==> exists i :: lo <= i && EdgeAt(g, A, T, r, states, i, k)
  }

  lemma EdgeUnique(g: Grammar, A: Automaton, T: Gotos, r: int, states: seq<int>, i: int, k: int, l: int)
    requires WellFormed(g) && GotosOk(g, A, T) && 3 <= r < |g.rlhs|
    requires EdgeAt(g, A, T, r, states, i, k) && EdgeAt(g, A, T, r, states, i, l)
    ensures k == l
  {
    hide GotosOk, IsGotoNo;
    GotoUnique(g, A, T, k, l, states[i - g.rrhs[r]], g.ritem[i]);
  }

  lemma EdgesBack(g: Grammar, A: Automaton, T: Gotos, r: int, states: seq<int>, i: int, edges: seq<int>, k: int)
    requires WellFormed(g) && GotosOk(g, A, T) && 3 <= r < |g.rlhs|
    requires EdgesFrom(g, A, T, r, states, i + 1, edges) && EdgeAt(g, A, T, r, states, i, k)
    ensures EdgesFrom(g, A, T, r, states, i, edges + [k])
  {
    hide GotosOk, WellFormed, EdgeAt;
    forall l ensures l in edges + [k] <==> exists j :: i <= j && EdgeAt(g, A, T, r, states, j, l) {
      if l in edges {
        var j :| i + 1 <= j && EdgeAt(g, A, T, r, states, j, l);
      }
      if j :| i <= j && EdgeAt(g, A, T, r, states, j, l) {
        if j == i { EdgeUnique(g, A, T, r, states, i, k, l); }
      }
    }
  }

  /** A nullable rest has nullable symbols only. */
  lemma {:induction false} SuffixThrough(g: Grammar, r: int, a: int, b: int)
    requires WellFormed(g) && 3 <= r < |g.rlhs| && g.rrhs[r] <= a <= b < EndOf(g, r) && NullSuffix(g, a)
    ensures b < |g.ritem| && Nullable(g, g.ritem[b])
    decreases b - a
  {
    assert RuleOk(g, r);
    if a < b { SuffixThrough(g, r, a + 1, b); }
  }

  /** Before a position that is not a nullable nonterminal there are no edges. */
  lemma EdgesEnd(g: Grammar, A: Automaton, T: Gotos, r: int, states: seq<int>, b: int, lo: int, edges: seq<int>)
    requires WellFormed(g) && 3 <= r < |g.rlhs| && EdgesFrom(g, A, T, r, states, lo, edges)
    requires b < EndOf(g, r) && 0 <= b < |g.ritem|
    requires b <= lo <= b + 1 && (lo == b + 1 ==> b < g.rrhs[r] || !IsVar(g, g.ritem[b]))
    requires b <= g.rrhs[r] || !Nullable(g, g.ritem[b])
    ensures EdgesFrom(g, A, T, r, states, g.rrhs[r], edges)
  {
    forall k ensures k in edges <==> exists i :: g.rrhs[r] <= i && EdgeAt(g, A, T, r, states, i, k) {
      if i :| g.rrhs[r] <= i && EdgeAt(g, A, T, r, states, i, k) && i < lo {
        if i < b { SuffixThrough(g, r, i + 1, b); }
      }
    }
  }

  /** What holds of goto y, rule r and the states its walk passed. */
  ghost predicate WalkOk(g: Grammar, A: Automaton, T: Gotos, y: int, r: int, states: seq<int>)
    requires WellFormed(g)
  {
    && RuleAt(g, A, T, y, r) && |g.rrhs| == |g.rlhs| + 1 && PathOk(g, A, T.from[y], r, states)
    && g.rrhs[r] + |states| - 1 == EndOf(g, r)
  }

  lemma ShiftExists(g: Grammar, A: Automaton, T: Gotos, y: int, r: int, states: seq<int>, i: int)
    requires WellFormed(g) && Canonical(g, A) && WalkOk(g, A, T, y, r, states)
    requires g.rrhs[r] <= i < EndOf(g, r)
    ensures 0 <= i < |g.ritem|
    ensures IsVar(g, g.ritem[i]) ==> Shifted(A, states[i - g.rrhs[r]], g.ritem[i])
  {
    hide Canonical;
    RuleBounds(g, r);
    var n := i - g.rrhs[r];
    assert Follows(g, A, T.from[y], g.rrhs[r], g.rrhs[r] + n, states[n]);
    if IsVar(g, g.ritem[i]) {
      var u := WalkOn(g, A, T.from[y], r, i, states[n]);
    }
  }

  lemma ShiftHasGoto(g: Grammar, A: Automaton, T: Gotos, s: int, X: int)
    requires WellFormed(g) && GotosOk(g, A, T) && IsVar(g, X) && Shifted(A, s, X)
    ensures HasGoto(g, A, T, s, X)
  {
  }

  /** One step back over a nonterminal. */
  method EdgeBack(g: Grammar, A: Automaton, T: Gotos, ghost y: int, r: int, states: seq<int>, i: int, edges: seq<int>) returns (edges': seq<int>)
    requires WellFormed(g) && Canonical(g, A) && GotosOk(g, A, T) && WalkOk(g, A, T, y, r, states)
    requires 0 <= g.rrhs[r] <= i < EndOf(g, r) < |g.ritem| && IsVar(g, g.ritem[i]) && NullSuffix(g, i + 1)
    requires EdgesFrom(g, A, T, r, states, i + 1, edges)
    ensures EdgesFrom(g, A, T, r, states, i, edges')
  {
    ShiftExists(g, A, T, y, r, states, i);
    ShiftHasGoto(g, A, T, states[i - g.rrhs[r]], g.ritem[i]);
    var k := MapGoto(g, A, T, states[i - g.rrhs[r]], g.ritem[i]);
    assert EdgeAt(g, A, T, r, states, i, k);
    EdgesBack(g, A, T, r, states, i, edges, k);
    edges' := edges + [k];
  }

  lemma NoEdges(g: Grammar, A: Automaton, T: Gotos, r: int, states: seq<int>)
    requires WellFormed(g) && 3 <= r < |g.rlhs|
    ensures 1 <= g.rrhs[r] <= EndOf(g, r) < |g.ritem| && g.ritem[EndOf(g, r)] < 0
    ensures NullSuffix(g, EndOf(g, r)) && EdgesFrom(g, A, T, r, states, EndOf(g, r), [])
    ensures g.ritem[g.rrhs[r] - 1] < 0
  {
    RuleBounds(g, r);
    BeforeStart(g, r);
  }

  lemma TokenNotNullable(g: Grammar, i: int)
    requires WellFormed(g) && 0 <= i < |g.ritem|
    ensures !IsVar(g, g.ritem[i]) ==> !Nullable(g, g.ritem[i])
  {
    if Nullable(g, g.ritem[i]) { NullableIsVar(g, g.ritem[i]); }
  }

  /** The walk back over the nullable end of the right-hand side. */
  method WalkBack(g: Grammar, A: Automaton, T: Gotos, nullable: seq<bool>, ghost y: int, r: int, states: seq<int>) returns (edges: seq<int>)
    requires WellFormed(g) && Canonical(g, A) && GotosOk(g, A, T) && NullableOk(g, nullable)
    requires WalkOk(g, A, T, y, r, states)
    ensures EdgesFrom(g, A, T, r, states, g.rrhs[r], edges)
  {
    NoEdges(g, A, T, r, states);
    edges := [];
    var length := |states| - 1;
    var rp := g.rrhs[r] + length;
    var done := false;
    while !done
      invariant !done ==> 0 <= length && rp == g.rrhs[r] + length <= EndOf(g, r) && NullSuffix(g, rp)
      invariant !done ==> (rp == EndOf(g, r) || length > 0) && EdgesFrom(g, A, T, r, states, rp, edges)
      invariant done ==> EdgesFrom(g, A, T, r, states, g.rrhs[r], edges)
      decreases !done, rp
    {
      done := true;
      rp := rp - 1;
      TokenNotNullable(g, rp);
      if IsVar(g, g.ritem[rp]) {
        length := length - 1;
        edges := EdgeBack(g, A, T, y, r, states, rp, edges);
        if nullable[g.ritem[rp]] && length > 0 {
          done := false;
        } else {
          EdgesEnd(g, A, T, r, states, rp, rp, edges);
        }
      } else {
        EdgesEnd(g, A, T, r, states, rp, rp + 1, edges);
      }
    }
  }
}
