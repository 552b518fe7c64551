/** lalr.c, build_relations: all edges of all nonterminal transitions. */
module BuildRelations {
  import opened Digraph
  import opened Grammar
  import opened ClosureTables
  import opened ClosurePass
  import opened Automaton
  import opened Machine
  import opened Lookahead
  import opened Relations
  import opened GotoMap
  import opened InitialF
  import opened LookaheadTable
  import opened Includes
  import opened Transpose

  // ----- includes edges

  ghost predicate IncludesBy(g: Grammar, A: Automaton, T: Gotos, k: int, y: int, r: int)
    requires WellFormed(g)
  {
    0 <= k < |T.from| == |T.to| && exists i :: IncludesVia(g, A, T, k, y, r, i)
  }

  lemma EdgeIsIncludes(g: Grammar, A: Automaton, T: Gotos, y: int, r: int, states: seq<int>, i: int, k: int)
    requires WellFormed(g) && WalkOk(g, A, T, y, r, states) && EdgeAt(g, A, T, r, states, i, k)
    ensures IncludesBy(g, A, T, k, y, r)
  {
    var n := i - g.rrhs[r];
    assert Follows(g, A, T.from[y], g.rrhs[r], g.rrhs[r] + n, states[n]);
    assert IncludesVia(g, A, T, k, y, r, i);
  }

  lemma PathAt(g: Grammar, A: Automaton, T: Gotos, y: int, r: int, states: seq<int>, i: int, q: int)
    requires WellFormed(g) && Deterministic(A) && WalkOk(g, A, T, y, r, states)
    requires g.rrhs[r] <= i < EndOf(g, r) && Follows(g, A, T.from[y], g.rrhs[r], i, q)
    ensures i - g.rrhs[r] < |states| && states[i - g.rrhs[r]] == q
  {
    var n := i - g.rrhs[r];
    assert Follows(g, A, T.from[y], g.rrhs[r], g.rrhs[r] + n, states[n]);
    FollowsOnce(g, A, T.from[y], g.rrhs[r], i, states[n], q);
  }

  lemma InsideRule(g: Grammar, r: int, i: int)
    requires WellFormed(g) && 3 <= r < |g.rlhs| && InRule(g, r, i)
    ensures 0 <= g.rrhs[r] <= i <= EndOf(g, r) < |g.ritem|
    ensures i == EndOf(g, r) ==> g.ritem[i] < 0
  {
    RuleBounds(g, r);
  }

  lemma IncludesIsEdge(g: Grammar, A: Automaton, T: Gotos, y: int, r: int, states: seq<int>, i: int, k: int)
    requires WellFormed(g) && Deterministic(A) && GotosOk(g, A, T) && WalkOk(g, A, T, y, r, states)
    requires 0 <= k < |T.from| && IncludesVia(g, A, T, k, y, r, i)
    ensures EdgeAt(g, A, T, r, states, i, k)
  {
    InsideRule(g, r, i);
    GotoIs(g, A, T, k);
    PathAt(g, A, T, y, r, states, i, T.from[k]);
  }

  /** The edges of one walk are the includes edges of its rule. */
  lemma WalkEdges(g: Grammar, A: Automaton, T: Gotos, y: int, r: int, states: seq<int>, edges: seq<int>)
    requires WellFormed(g) && Deterministic(A) && GotosOk(g, A, T) && WalkOk(g, A, T, y, r, states)
    requires EdgesFrom(g, A, T, r, states, g.rrhs[r], edges)
    ensures forall k :: k in edges <==> IncludesBy(g, A, T, k, y, r)
  {
    forall k ensures k in edges <==> IncludesBy(g, A, T, k, y, r) {
      if k in edges {
        var i :| g.rrhs[r] <= i && EdgeAt(g, A, T, r, states, i, k);
        EdgeIsIncludes(g, A, T, y, r, states, i, k);
      }
      if IncludesBy(g, A, T, k, y, r) {
        var i :| IncludesVia(g, A, T, k, y, r, i);
        IncludesIsEdge(g, A, T, y, r, states, i, k);
      }
    }
  }

  /** The includes edges of goto y that the rules listed give. */
  ghost predicate IncludesOf(g: Grammar, A: Automaton, T: Gotos, y: int, rules: seq<int>, edges: seq<int>)
    requires WellFormed(g)
  {
    forall k :: k in edges <==> IncludesByOne(g, A, T, k, y, rules)
  }

  ghost predicate IncludesByOne(g: Grammar, A: Automaton, T: Gotos, k: int, y: int, rules: seq<int>)
    requires WellFormed(g)
  {
    exists r :: r in rules && IncludesBy(g, A, T, k, y, r)
  }

  lemma IncludesNext(g: Grammar, A: Automaton, T: Gotos, y: int, rules: seq<int>, edges: seq<int>, r: int, more: seq<int>)
    requires WellFormed(g) && IncludesOf(g, A, T, y, rules, edges)
    requires forall k :: k in more <==> IncludesBy(g, A, T, k, y, r)
    ensures IncludesOf(g, A, T, y, rules + [r], edges + more)
  {
    forall k ensures k in edges + more <==> IncludesByOne(g, A, T, k, y, rules + [r]) {
      assert k in edges <==> IncludesByOne(g, A, T, k, y, rules);
      if IncludesByOne(g, A, T, k, y, rules) {
        var s :| s in rules && IncludesBy(g, A, T, k, y, s);
        assert s in rules + [r];
      }
      assert r in rules + [r];
    }
  }

  // ----- lookback edges

  /** The lookback lists hold the edges of the gotos before y, and those of y by
      the rules listed. */
  ghost predicate LookbackTo(g: Grammar, A: Automaton, T: Gotos, L: Slots, lookback: seq<seq<int>>, y: int, rules: seq<int>)
    requires WellFormed(g)
  {
    && |lookback| == |L.ruleno|
    && forall q, r, x, z :: IsSlot(L, q, r, x) ==> (z in lookback[x] <==> LookbackRel(g, A, T, q, r, z) && (z < y || (z == y && r in rules)))
  }

  lemma LookbackNext(g: Grammar, A: Automaton, T: Gotos, L: Slots, lookback: seq<seq<int>>, y: int, rules: seq<int>, r: int, states: seq<int>, x: int)
    requires WellFormed(g) && Deterministic(A) && WalkOk(g, A, T, y, r, states)
    requires SlotsOk(A.reds, L) && LookbackTo(g, A, T, L, lookback, y, rules)
    requires forall s :: 0 <= s < |A.reds| ==> Increasing(A.reds[s])
    requires IsSlot(L, states[|states| - 1], r, x)
    ensures LookbackTo(g, A, T, L, lookback[x := [y] + lookback[x]], y, rules + [r])
  {
    var p, n := states[|states| - 1], |states| - 1;
    assert Follows(g, A, T.from[y], g.rrhs[r], g.rrhs[r] + n, states[n]);
    assert LookbackRel(g, A, T, p, r, y);
    var lb := lookback[x := [y] + lookback[x]];
    forall q, s, v, z | IsSlot(L, q, s, v)
      ensures z in lb[v] <==> LookbackRel(g, A, T, q, s, z) && (z < y || (z == y && s in rules + [r]))
    {
      assert z in lookback[v] <==> LookbackRel(g, A, T, q, s, z) && (z < y || (z == y && s in rules));
      if v == x {
        SlotUnique(A.reds, L, p, q, r, s, x);
      } else if z == y && s == r && LookbackRel(g, A, T, q, s, z) {
        FollowsOnce(g, A, T.from[y], g.rrhs[r], EndOf(g, r), p, q);
        SlotOnce(A.reds, L, q, r, x, v);
      }
    }
  }

  // ----- the loops

  /** What build_relations starts from. */
  ghost predicate TablesOk(g: Grammar, A: Automaton, T: Gotos, nullable: seq<bool>, L: Slots)
    requires WellFormed(g)
  {
    && Canonical(g, A) && GotosOk(g, A, T) && NullableOk(g, nullable) && SlotsOk(A.reds, L)
    && ShiftsInRange(A) && Deterministic(A) && ReductionsOk(g, A)
  }

  ghost predicate ReductionsOk(g: Grammar, A: Automaton)
    requires WellFormed(g)
  {
    && (forall q :: 0 <= q < |A.reds| ==> Increasing(A.reds[q]))
    && (forall q, r :: 0 <= q < |A.reds| && IsState(A, q) ==> (r in A.reds[q] <==> CompletedIn(g, A, q, r)))
  }

  ghost predicate CompletedIn(g: Grammar, A: Automaton, q: int, r: int)
    requires WellFormed(g) && IsState(A, q)
  {
    2 <= r < |g.rlhs| && g.rrhs[r + 1] - 1 in Items(g, A, q)
  }

  lemma ReductionsAre(g: Grammar, A: Automaton)
    requires WellFormed(g) && Canonical(g, A)
    ensures ReductionsOk(g, A)
  {
    forall q | 0 <= q < |A.reds| ensures Increasing(A.reds[q]) {
      SlotItem(g, A, q, 0);
    }
    forall q, r | 0 <= q < |A.reds| && IsState(A, q) ensures r in A.reds[q] <==> CompletedIn(g, A, q, r) {
      SlotItem(g, A, q, r);
    }
  }

  lemma WalkEndsCompleted(g: Grammar, A: Automaton, T: Gotos, y: int, r: int, states: seq<int>)
    requires WellFormed(g) && Canonical(g, A) && WalkOk(g, A, T, y, r, states)
    ensures IsState(A, states[|states| - 1]) && CompletedIn(g, A, states[|states| - 1], r)
  {
    var n := |states| - 1;
    assert Follows(g, A, T.from[y], g.rrhs[r], g.rrhs[r] + n, states[n]);
    CarryItem(g, A, T.from[y], g.rrhs[r], EndOf(g, r), states[n]);
  }

  /** The body of the loop over the rules of a nonterminal. */
  method RelateRule(g: Grammar, A: Automaton, T: Gotos, nullable: seq<bool>, L: Slots, y: int, r: int, ghost rules: seq<int>, lookback: array<seq<int>>, edges: seq<int>) returns (edges': seq<int>)
    requires WellFormed(g) && TablesOk(g, A, T, nullable, L) && RuleAt(g, A, T, y, r)
    requires LookbackTo(g, A, T, L, lookback[..], y, rules) && IncludesOf(g, A, T, y, rules, edges)
    modifies lookback
    ensures LookbackTo(g, A, T, L, lookback[..], y, rules + [r])
    ensures IncludesOf(g, A, T, y, rules + [r], edges')
  {
    var states := WalkRule(g, A, T.from[y], r);
    WalkEndsCompleted(g, A, T, y, r, states);
    ghost var before := lookback[..];
    var x := AddLookbackEdge(A.reds, L, lookback, states[|states| - 1], r, y);
    LookbackNext(g, A, T, L, before, y, rules, r, states, x);
    var more := WalkBack(g, A, T, nullable, y, r, states);
    WalkEdges(g, A, T, y, r, states, more);
    IncludesNext(g, A, T, y, rules, edges, r, more);
    edges' := edges + more;
  }

  method RelateGoto(g: Grammar, A: Automaton, T: Gotos, nullable: seq<bool>, L: Slots, y: int, rules: seq<int>, lookback: array<seq<int>>) returns (edges: seq<int>)
    requires WellFormed(g) && TablesOk(g, A, T, nullable, L) && forall r :: r in rules ==> RuleAt(g, A, T, y, r)
    requires LookbackTo(g, A, T, L, lookback[..], y, [])
    modifies lookback
    ensures LookbackTo(g, A, T, L, lookback[..], y, rules)
    ensures IncludesOf(g, A, T, y, rules, edges)
  {
    edges := [];
    for m := 0 to |rules|
      invariant LookbackTo(g, A, T, L, lookback[..], y, rules[..m])
      invariant IncludesOf(g, A, T, y, rules[..m], edges)
    {
      assert rules[..m + 1] == rules[..m] + [rules[m]];
      edges := RelateRule(g, A, T, nullable, L, y, rules[m], rules[..m], lookback, edges);
    }
    assert rules[..|rules|] == rules;
  }

  /** All rules of y's nonterminal: nothing is left for y. */
  lemma LookbackRules(g: Grammar, A: Automaton, T: Gotos, L: Slots, lookback: seq<seq<int>>, y: int, rules: seq<int>)
    requires WellFormed(g) && LookbackTo(g, A, T, L, lookback, y, rules)
    requires forall q, r :: LookbackRel(g, A, T, q, r, y) ==> r in rules
    ensures LookbackTo(g, A, T, L, lookback, y + 1, [])
  {
  }

  lemma RulesCover(g: Grammar, A: Automaton, T: Gotos, y: int)
    requires WellFormed(g) && Canonical(g, A) && GotosOk(g, A, T) && 0 <= y < |T.from|
    ensures IsState(A, T.to[y]) && IsVar(g, SymbolOf(A, T, y))
    ensures forall r :: r in RulesFor(g, SymbolOf(A, T, y)) ==> RuleAt(g, A, T, y, r)
    ensures forall q, r :: LookbackRel(g, A, T, q, r, y) ==> r in RulesFor(g, SymbolOf(A, T, y))
    ensures forall k, r :: IncludesBy(g, A, T, k, y, r) ==> r in RulesFor(g, SymbolOf(A, T, y))
  {
    RulesAt(g, A, T, y);
    forall r ensures r in RulesFor(g, SymbolOf(A, T, y)) <==> IsRule(g, r, SymbolOf(A, T, y)) {
      DerivesRules(g, SymbolOf(A, T, y), r);
    }
    forall k, r | IncludesBy(g, A, T, k, y, r) ensures r in RulesFor(g, SymbolOf(A, T, y)) {
      var i :| IncludesVia(g, A, T, k, y, r, i);
    }
  }

  lemma IncludesAll(g: Grammar, A: Automaton, T: Gotos, y: int, rules: seq<int>, edges: seq<int>, k: int)
    requires WellFormed(g) && IncludesOf(g, A, T, y, rules, edges) && |T.from| == |T.to|
    requires forall l, r :: IncludesBy(g, A, T, l, y, r) ==> r in rules
    ensures k in edges <==> 0 <= k < |T.from| && IncludesRel(g, A, T, k, y)
  {
    assert k in edges <==> IncludesByOne(g, A, T, k, y, rules);
    if 0 <= k < |T.from| && IncludesRel(g, A, T, k, y) {
      var r, i :| IncludesVia(g, A, T, k, y, r, i);
      assert IncludesBy(g, A, T, k, y, r);
    }
    if IncludesByOne(g, A, T, k, y, rules) {
      var r :| r in rules && IncludesBy(g, A, T, k, y, r);
      var i :| IncludesVia(g, A, T, k, y, r, i);
    }
  }

  /** The lists before transposing: y holds every k that includes it. */
  ghost predicate IncludedLists(g: Grammar, A: Automaton, T: Gotos, lists: seq<seq<int>>)
    requires WellFormed(g) && |T.from| == |T.to|
  {
    forall y, k :: 0 <= y < |lists| ==> (k in lists[y] <==> 0 <= k < |T.from| && IncludesRel(g, A, T, k, y))
  }

  method RelateAll(g: Grammar, A: Automaton, T: Gotos, nullable: seq<bool>, derives: array<seq<int>>, L: Slots) returns (lists: seq<seq<int>>, lookback: array<seq<int>>)
    requires WellFormed(g) && TablesOk(g, A, T, nullable, L) && DerivesOk(g, derives)
    ensures fresh(lookback) && LookbackTo(g, A, T, L, lookback[..], |T.from|, [])
    ensures |lists| == |T.from| == |T.to| && IncludedLists(g, A, T, lists)
  {
    hide Canonical, LookbackTo, DerivesOk;
    lookback := new seq<int>[|L.ruleno|](_ => []);
    lists := [];
    NoLookback(g, A, T, L, lookback[..]);
    for y := 0 to |T.from|
      invariant LookbackTo(g, A, T, L, lookback[..], y, [])
      invariant |lists| == y && IncludedLists(g, A, T, lists)
      invariant DerivesOk(g, derives)
    {
      var edges := RelateOne(g, A, T, nullable, derives, L, y, lookback);
      lists := lists + [edges];
    }
  }

  method RelateOne(g: Grammar, A: Automaton, T: Gotos, nullable: seq<bool>, derives: array<seq<int>>, L: Slots, y: int, lookback: array<seq<int>>) returns (edges: seq<int>)
    requires WellFormed(g) && TablesOk(g, A, T, nullable, L) && DerivesOk(g, derives) && derives != lookback && 0 <= y < |T.from|
    requires LookbackTo(g, A, T, L, lookback[..], y, [])
    modifies lookback
    ensures LookbackTo(g, A, T, L, lookback[..], y + 1, [])
    ensures |T.from| == |T.to| && forall k :: k in edges <==> 0 <= k < |T.from| && IncludesRel(g, A, T, k, y)
  {
    RulesCover(g, A, T, y);
    var symbol1 := A.states[T.to[y]].accessing;
    var rules := derives[symbol1];
    edges := RelateGoto(g, A, T, nullable, L, y, rules, lookback);
    LookbackRules(g, A, T, L, lookback[..], y, rules);
    forall k ensures k in edges <==> 0 <= k < |T.from| && IncludesRel(g, A, T, k, y) {
      IncludesAll(g, A, T, y, rules, edges, k);
    }
  }

  lemma NoLookback(g: Grammar, A: Automaton, T: Gotos, L: Slots, lookback: seq<seq<int>>)
    requires WellFormed(g) && |lookback| == |L.ruleno| && forall x :: 0 <= x < |lookback| ==> lookback[x] == []
    ensures LookbackTo(g, A, T, L, lookback, 0, [])
  {
  }

  lemma IncludedIsRelation(g: Grammar, A: Automaton, T: Gotos, lists: seq<seq<int>>)
    requires WellFormed(g) && |lists| == |T.from| == |T.to| && IncludedLists(g, A, T, lists)
    ensures IsRelation(lists)
  {
    forall x, e | 0 <= x < |lists| && 0 <= e < |lists[x]| ensures 0 <= lists[x][e] < |lists| {
      assert lists[x][e] in lists[x];
    }
  }

  /** build_relations: the includes relation, turned round, and the lookback lists. */
  method Build(g: Grammar, A: Automaton, T: Gotos, nullable: seq<bool>, derives: array<seq<int>>, L: Slots) returns (includesTo: seq<seq<int>>, lookback: seq<seq<int>>)
    requires WellFormed(g) && TablesOk(g, A, T, nullable, L) && DerivesOk(g, derives)
    ensures LookbackTo(g, A, T, L, lookback, |T.from|, [])
    ensures |includesTo| == |T.from| == |T.to| && IsRelation(includesTo)
    ensures forall k, y :: 0 <= k < |T.from| ==> (y in includesTo[k] <==> IncludesRel(g, A, T, k, y))
  {
    var lists, lb := RelateAll(g, A, T, nullable, derives, L);
    IncludedIsRelation(g, A, T, lists);
    includesTo := Transpose.Transpose(lists);
    lookback := lb[..];
    forall k, y | 0 <= k < |T.from| ensures y in includesTo[k] <==> IncludesRel(g, A, T, k, y) {
      TransposedElems(lists, y, k);
    }
  }
}
