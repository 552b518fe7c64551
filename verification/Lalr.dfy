/** lr0.c and lalr.c from end to end: from a packed grammar to the bit rows LA. */
module Lalr {
  import opened Bits
  import opened Digraph
  import opened Grammar
  import opened Nullability
  import opened ClosureTables
  import opened Automaton
  import opened Lr0
  import opened Machine
  import opened Lookahead
  import opened Relations
  import opened GotoMap
  import opened InitialF
  import opened LookaheadTable
  import opened Includes
  import opened BuildRelations

  /** Row x of a completed item holds exactly its LALR(1) lookaheads. */
  ghost predicate LookaheadsOk(g: Grammar, A: Automaton, L: Slots, rows: seq<set<int>>)
    requires WellFormed(g)
  {
    && |rows| == |L.ruleno| && |g.rrhs| == |g.rlhs| + 1
    && forall q, r, x, t :: IsSlot(L, q, r, x) && 2 <= r < |g.rlhs| ==>
         (t in rows[x] <==> Propagated(g, A, q, g.rrhs[r + 1] - 1, t))
  }

  /** One slot for every completed item of every state, and no other. */
  ghost predicate SlotsComplete(g: Grammar, A: Automaton, L: Slots)
    requires WellFormed(g)
  {
    forall q, r :: HasSlot(L, q, r) <==> IsState(A, q) && CompletedIn(g, A, q, r)
  }

  ghost predicate HasSlot(L: Slots, q: int, r: int) {
    exists x :: IsSlot(L, q, r, x)
  }

  lemma SlotsAre(g: Grammar, A: Automaton, L: Slots)
    requires WellFormed(g) && Canonical(g, A) && SlotsOk(A.reds, L)
    ensures SlotsComplete(g, A, L)
  {
    ReductionsAre(g, A);
    forall q, r ensures HasSlot(L, q, r) <==> IsState(A, q) && CompletedIn(g, A, q, r) {
      if IsState(A, q) && CompletedIn(g, A, q, r) {
        var x := SlotExists(A.reds, L, q, r);
      }
      if x :| IsSlot(L, q, r, x) {
        SlotRule(A.reds, L, q, x);
        assert r in A.reds[q];
      }
    }
  }

  ghost predicate Gathers(lookback: seq<seq<int>>, F: seq<set<int>>, rows: seq<set<int>>) {
    && |rows| == |lookback| && ListsOk(lookback, |F|)
    && forall x, t :: 0 <= x < |lookback| ==>
         (t in rows[x] <==> exists j :: 0 <= j < |lookback[x]| && t in F[lookback[x][j]])
  }

  /** A slot's row gathers what its state and rule look back to. */
  lemma SlotGathers(g: Grammar, A: Automaton, T: Gotos, L: Slots, lookback: seq<seq<int>>, F: seq<set<int>>, rows: seq<set<int>>, q: int, r: int, x: int, t: int)
    requires WellFormed(g) && LookbackTo(g, A, T, L, lookback, |T.from|, []) && |F| == |T.from|
    requires Gathers(lookback, F, rows) && IsSlot(L, q, r, x)
    ensures t in rows[x] <==> LookedBack(g, A, T, F, q, r, t)
  {
    if LookedBack(g, A, T, F, q, r, t) {
      var y :| LookbackRel(g, A, T, q, r, y) && t in F[y];
      assert y in lookback[x];
      var j :| 0 <= j < |lookback[x]| && lookback[x][j] == y;
    }
    if t in rows[x] {
      var j :| 0 <= j < |lookback[x]| && t in F[lookback[x][j]];
      assert lookback[x][j] in lookback[x];
    }
  }

  lemma LookbackInRange(g: Grammar, A: Automaton, T: Gotos, L: Slots, lookback: seq<seq<int>>)
    requires WellFormed(g) && SlotsOk(A.reds, L) && LookbackTo(g, A, T, L, lookback, |T.from|, [])
    ensures ListsOk(lookback, |T.from|)
  {
    forall x, j | 0 <= x < |lookback| && 0 <= j < |lookback[x]| ensures 0 <= lookback[x][j] < |T.from| {
      var q := FindState(A.reds, L, x, |A.reds|);
      assert lookback[x][j] in lookback[x];
    }
  }

  lemma {:induction false} FindState(reds: seq<seq<int>>, L: Slots, x: int, n: nat) returns (q: int)
    requires SlotsOk(reds, L) && n <= |reds| && 0 <= x < |Flat(reds, n)| && x < |L.ruleno|
    ensures IsSlot(L, q, L.ruleno[x], x)
  {
    if |Flat(reds, n - 1)| <= x {
      q := n - 1;
    } else {
      q := FindState(reds, L, x, n - 1);
    }
  }

  lemma AllCorrect(g: Grammar, A: Automaton, T: Gotos, L: Slots, F0: seq<set<int>>, readsTo: seq<seq<int>>, includesTo: seq<seq<int>>, lookback: seq<seq<int>>, rows: seq<set<int>>)
    requires WellFormed(g) && Canonical(g, A) && InputsOk(g, A, T, F0, readsTo, includesTo)
    requires LookbackTo(g, A, T, L, lookback, |T.from|, [])
    requires Gathers(lookback, FollowSets(F0, readsTo, includesTo), rows)
    ensures LookaheadsOk(g, A, L, rows)
  {
    var F := FollowSets(F0, readsTo, includesTo);
    forall q, r, x, t | IsSlot(L, q, r, x) && 2 <= r < |g.rlhs|
      ensures t in rows[x] <==> Propagated(g, A, q, g.rrhs[r + 1] - 1, t)
    {
      SlotGathers(g, A, T, L, lookback, F, rows, q, r, x, t);
      LookaheadsCorrect(g, A, T, F0, readsTo, includesTo, q, r, t);
    }
  }

  /** compute_FOLLOWS */
  method ComputeFollows(includesTo: seq<seq<int>>, F: array2<bv32>, ghost F0: seq<set<int>>, ghost readsTo: seq<seq<int>>)
    requires |F0| == |readsTo| == |includesTo| == F.Length0 && IsRelation(includesTo)
    requires Rows(F) == ReadSets(F0, readsTo)
    modifies F
    ensures Rows(F) == FollowSets(F0, readsTo, includesTo)
  {
    Digraph.Digraph(includesTo, F);
  }

  /** lalr: the lookaheads of the automaton's reductions. */
  method Lookaheads(g: Grammar, A: Automaton, nullable: seq<bool>, derives: array<seq<int>>) returns (L: Slots, LA: array2<bv32>, T: Gotos)
    requires WellFormed(g) && Canonical(g, A) && NullableOk(g, nullable) && DerivesOk(g, derives)
    ensures fresh(LA) && SlotsOk(A.reds, L) && LA.Length1 == WordSize(g.ntokens)
    ensures LookaheadsOk(g, A, L, Rows(LA)) && GotosOk(g, A, T)
  {
    L := InitializeLA(A.reds);
    T := SetGotoMap(g, A);
    var F, F0, readsTo := InitializeF(g, A, T, nullable);
    InRange(g, A);
    IsDeterministic(g, A);
    ReductionsAre(g, A);
    var includesTo, lookback := Build(g, A, T, nullable, derives, L);
    ComputeFollows(includesTo, F, F0, readsTo);
    LookbackInRange(g, A, T, L, lookback);
    LA := ComputeLookaheads(lookback, F);
    AllCorrect(g, A, T, L, F0, readsTo, includesTo, lookback, Rows(LA));
  }

  /** The whole generator: the canonical collection, and for every completed
      item of every state one row that holds exactly the tokens propagated to it. */
  method Generate(g: Grammar) returns (A: Automaton, L: Slots, LA: array2<bv32>, T: Gotos)
    requires WellFormed(g)
    ensures Canonical(g, A) && fresh(LA) && SlotsOk(A.reds, L) && LA.Length1 == WordSize(g.ntokens)
    ensures SlotsComplete(g, A, L) && LookaheadsOk(g, A, L, Rows(LA)) && GotosOk(g, A, T)
  {
    var derives := SetDerives(g);
    var nullable := SetNullable(g);
    A := GenerateStates(g);
    L, LA, T := Lookaheads(g, A, nullable[..], derives);
    SlotsAre(g, A, L);
  }
}
