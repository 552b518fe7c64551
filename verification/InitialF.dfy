/** lalr.c, initialize_F: the tokens read directly after every nonterminal
    transition, and the first run of digraph. */
module InitialF {
  import opened Bits
  import opened Digraph
  import opened Grammar
  import opened Nullability
  import opened Automaton
  import opened Machine
  import opened Relations
  import opened GotoMap

  /** The nullable table agrees with nullability. */
  ghost predicate NullableOk(g: Grammar, nullable: seq<bool>)
    requires WellFormed(g)
  {
    |nullable| == g.nsyms && forall X :: 0 <= X < g.nsyms ==> (nullable[X] <==> Nullable(g, X))
  }

  // ----- the tokens shifted by a state

  ghost function Seen(A: Automaton, s: int, j: nat): set<int>
    requires ShiftsInRange(A) && 0 <= s < |A.shifts| && j <= |A.shifts[s]|
  {
    if j == 0 then {} else Seen(A, s, j - 1) + {Entered(A, s, j - 1)}
  }

  lemma {:induction false} SeenAre(A: Automaton, s: int, j: nat)
    requires ShiftsInRange(A) && 0 <= s < |A.shifts| && j <= |A.shifts[s]|
    ensures forall t :: t in Seen(A, s, j) <==> exists x :: 0 <= x < j && Entered(A, s, x) == t
  {
    if j > 0 {
      SeenAre(A, s, j - 1);
    }
  }

  ghost predicate Shifted(A: Automaton, s: int, t: int) {
    exists u :: Trans(A, s, t, u)
  }

  lemma ShiftedIs(A: Automaton, s: int, t: int)
    requires ShiftsInRange(A) && |A.shifts| == |A.states| && 0 <= s < |A.shifts|
    ensures Shifted(A, s, t) <==> exists x :: 0 <= x < |A.shifts[s]| && Entered(A, s, x) == t
  {
    if Shifted(A, s, t) {
      var u :| Trans(A, s, t, u);
      var x :| 0 <= x < |A.shifts[s]| && A.shifts[s][x] == u;
      assert Entered(A, s, x) == t;
    }
    if x :| 0 <= x < |A.shifts[s]| && Entered(A, s, x) == t {
      assert Trans(A, s, t, A.shifts[s][x]);
    }
  }

  /** row holds the tokens that state s shifts. */
  ghost predicate TokensOf(g: Grammar, A: Automaton, s: int, row: set<int>) {
    forall t :: t in row <==> 0 < t < g.ntokens && Shifted(A, s, t)
  }

  /** The tokens among the shifts of s end at shift j. */
  ghost predicate StopsAt(g: Grammar, A: Automaton, s: int, j: int)
    requires ShiftsInRange(A) && 0 <= s < |A.shifts|
  {
    && 0 <= j <= |A.shifts[s]|
    && (forall x :: 0 <= x < j ==> Entered(A, s, x) < g.ntokens)
    && (j < |A.shifts[s]| ==> Entered(A, s, j) >= g.ntokens)
  }

  /** Where the scan for tokens stops, all have been seen. */
  lemma TokensSeen(g: Grammar, A: Automaton, s: int, j: nat)
    requires Ordered(g, A) && 0 <= s < |A.shifts| && StopsAt(g, A, s, j)
    ensures TokensOf(g, A, s, Seen(A, s, j))
  {
    SeenAre(A, s, j);
    assert InOrder(A, s);
    forall t ensures t in Seen(A, s, j) <==> 0 < t < g.ntokens && Shifted(A, s, t) {
      ShiftedIs(A, s, t);
      if x :| 0 <= x < |A.shifts[s]| && Entered(A, s, x) == t && t < g.ntokens {
        assert x < j;
      }
    }
  }

  // ----- the nullable transitions out of a state

  /** Goto y leaves s on the nullable symbol of one of the shifts lo..j-1. */
  ghost predicate NullShift(g: Grammar, A: Automaton, T: Gotos, s: int, lo: int, j: int, y: int)
    requires WellFormed(g) && ShiftsInRange(A) && 0 <= s < |A.shifts| && 0 <= lo <= j <= |A.shifts[s]|
  {
    exists x :: lo <= x < j && NullStep(g, A, T, s, x, y)
  }

  ghost predicate NullStep(g: Grammar, A: Automaton, T: Gotos, s: int, x: int, y: int)
    requires WellFormed(g) && ShiftsInRange(A) && 0 <= s < |A.shifts| && 0 <= x < |A.shifts[s]|
  {
    Nullable(g, Entered(A, s, x)) && IsGotoNo(g, A, T, y, s, Entered(A, s, x))
  }

  ghost predicate EdgesAre(g: Grammar, A: Automaton, T: Gotos, s: int, lo: int, j: int, edges: seq<int>)
    requires WellFormed(g) && ShiftsInRange(A) && 0 <= s < |A.shifts| && 0 <= lo <= j <= |A.shifts[s]|
  {
    forall y :: y in edges <==> NullShift(g, A, T, s, lo, j, y)
  }

  /** y leaves s over a nullable nonterminal. */
  ghost predicate ReadsFrom(g: Grammar, A: Automaton, T: Gotos, s: int, y: int)
    requires WellFormed(g)
  {
    0 <= y < |T.from| && y < |T.to| && T.from[y] == s && IsState(A, T.to[y]) && Nullable(g, SymbolOf(A, T, y))
  }

  ghost predicate ReadsAre(g: Grammar, A: Automaton, T: Gotos, s: int, edges: seq<int>)
    requires WellFormed(g)
  {
    forall y :: y in edges <==> ReadsFrom(g, A, T, s, y)
  }

  lemma ReadsStep(g: Grammar, A: Automaton, T: Gotos, s: int, lo: int, y: int)
    requires WellFormed(g) && GotosOk(g, A, T) && Ordered(g, A) && 0 <= s < |A.shifts|
    requires 0 <= lo <= |A.shifts[s]| && forall x :: 0 <= x < lo ==> Entered(A, s, x) < g.ntokens
    requires ReadsFrom(g, A, T, s, y)
    ensures NullShift(g, A, T, s, lo, |A.shifts[s]|, y)
  {
    GotoIs(g, A, T, y);
    var X := SymbolOf(A, T, y);
    var x :| 0 <= x < |A.shifts[s]| && A.shifts[s][x] == T.to[y];
    assert Entered(A, s, x) == X;
    assert NullStep(g, A, T, s, x, y);
  }

  lemma EdgesComplete(g: Grammar, A: Automaton, T: Gotos, s: int, lo: int, edges: seq<int>)
    requires WellFormed(g) && GotosOk(g, A, T) && Ordered(g, A) && 0 <= s < |A.shifts|
    requires 0 <= lo <= |A.shifts[s]| && forall x :: 0 <= x < lo ==> Entered(A, s, x) < g.ntokens
    requires EdgesAre(g, A, T, s, lo, |A.shifts[s]|, edges)
    ensures ReadsAre(g, A, T, s, edges)
  {
    forall y ensures y in edges <==> ReadsFrom(g, A, T, s, y) {
      assert y in edges <==> NullShift(g, A, T, s, lo, |A.shifts[s]|, y);
      if ReadsFrom(g, A, T, s, y) { ReadsStep(g, A, T, s, lo, y); }
    }
  }

  lemma EdgesNext(g: Grammar, A: Automaton, T: Gotos, s: int, lo: int, j: int, edges: seq<int>, more: seq<int>)
    requires WellFormed(g) && ShiftsInRange(A) && 0 <= s < |A.shifts| && 0 <= lo <= j < |A.shifts[s]|
    requires EdgesAre(g, A, T, s, lo, j, edges)
    requires forall y :: y in more <==> NullStep(g, A, T, s, j, y)
    ensures EdgesAre(g, A, T, s, lo, j + 1, edges + more)
  {
    forall y ensures y in edges + more <==> NullShift(g, A, T, s, lo, j + 1, y) {
      assert y in edges <==> NullShift(g, A, T, s, lo, j, y);
      if NullShift(g, A, T, s, lo, j + 1, y) {
        var x :| lo <= x < j + 1 && NullStep(g, A, T, s, x, y);
      }
    }
  }

  // ----- the two scans of one row

  method AddBit(F: array2<bv32>, i: nat, t: nat, ghost rows: seq<set<int>>, ghost row: set<int>)
    requires i < F.Length0 == |rows| && t < 32 * F.Length1 && Rows(F) == rows[i := row]
    modifies F
    ensures Rows(F) == rows[i := row + {t}]
  {
    SetBit(F, i, t);
    UpdateTwice(rows, i, row, row + {t});
  }

  /** The first inner loop: SETBIT for every token, up to the first nonterminal. */
  method ReadTokens(g: Grammar, A: Automaton, s: int, F: array2<bv32>, i: nat) returns (j: int)
    requires WellFormed(g) && Ordered(g, A) && 0 <= s < |A.shifts|
    requires i < F.Length0 && F.Length1 == WordSize(g.ntokens) && Rows(F)[i] == {}
    modifies F
    ensures StopsAt(g, A, s, j)
    ensures Rows(F) == old(Rows(F))[i := Seen(A, s, j)]
  {
    hide Rows, WellFormed;
    ghost var rows := Rows(F);
    WordSizeFits(g.ntokens);
    UpdateTwice(rows, i, {}, {});
    j := 0;
    while j < |A.shifts[s]| && A.states[A.shifts[s][j]].accessing < g.ntokens
      invariant 0 <= j <= |A.shifts[s]| && forall x :: 0 <= x < j ==> Entered(A, s, x) < g.ntokens
      invariant Rows(F) == rows[i := Seen(A, s, j)]
    {
      var symbol := A.states[A.shifts[s][j]].accessing;
      assert 0 < Entered(A, s, j) == symbol;
      AddBit(F, i, symbol, rows, Seen(A, s, j));
      j := j + 1;
    }
  }

  method NullEdge(g: Grammar, A: Automaton, T: Gotos, nullable: seq<bool>, s: int, j: int) returns (more: seq<int>)
    requires WellFormed(g) && GotosOk(g, A, T) && Ordered(g, A) && NullableOk(g, nullable)
    requires 0 <= s < |A.shifts| == |A.states| && 0 <= j < |A.shifts[s]| && Entered(A, s, j) >= g.ntokens
    ensures forall y :: y in more <==> NullStep(g, A, T, s, j, y)
  {
    var symbol := A.states[A.shifts[s][j]].accessing;
    more := [];
    if nullable[symbol] {
      assert Trans(A, s, symbol, A.shifts[s][j]);
      var y := MapGoto(g, A, T, s, symbol);
      forall z | NullStep(g, A, T, s, j, z) ensures z == y {
        GotoUnique(g, A, T, y, z, s, symbol);
      }
      more := [y];
    }
  }

  /** The second inner loop: an edge for every nullable nonterminal. */
  method ReadNullables(g: Grammar, A: Automaton, T: Gotos, nullable: seq<bool>, s: int, lo: int) returns (edges: seq<int>)
    requires WellFormed(g) && GotosOk(g, A, T) && Ordered(g, A) && NullableOk(g, nullable)
    requires 0 <= s < |A.shifts| == |A.states| && StopsAt(g, A, s, lo)
    ensures ReadsAre(g, A, T, s, edges)
  {
    edges := [];
    assert InOrder(A, s);
    for j := lo to |A.shifts[s]|
      invariant EdgesAre(g, A, T, s, lo, j, edges)
    {
      assert Entered(A, s, j) >= Entered(A, s, lo);
      var more := NullEdge(g, A, T, nullable, s, j);
      EdgesNext(g, A, T, s, lo, j, edges, more);
      edges := edges + more;
    }
    EdgesComplete(g, A, T, s, lo, edges);
  }

  // ----- all rows

  /** The first n rows and edge lists are filled, the other rows are empty. */
  ghost predicate Done(g: Grammar, A: Automaton, T: Gotos, n: int, rows: seq<set<int>>, readTo: seq<seq<int>>)
    requires WellFormed(g)
  {
    && |readTo| == n <= |rows| == |T.to|
    && (forall k :: 0 <= k < n ==> TokensOf(g, A, T.to[k], rows[k]))
    && (forall k :: 0 <= k < n ==> ReadsAre(g, A, T, T.to[k], readTo[k]))
    && (forall k :: n <= k < |rows| ==> rows[k] == {})
  }

  lemma DoneNext(g: Grammar, A: Automaton, T: Gotos, n: int, rows: seq<set<int>>, readTo: seq<seq<int>>, row: set<int>, edges: seq<int>)
    requires WellFormed(g) && Done(g, A, T, n, rows, readTo) && n < |rows|
    requires TokensOf(g, A, T.to[n], row) && ReadsAre(g, A, T, T.to[n], edges)
    ensures Done(g, A, T, n + 1, rows[n := row], readTo + [edges])
  {
  }

  ghost predicate TargetsOk(A: Automaton, T: Gotos) {
    |A.shifts| == |A.states| && forall k :: 0 <= k < |T.to| ==> IsState(A, T.to[k])
  }

  method ReadRow(g: Grammar, A: Automaton, T: Gotos, nullable: seq<bool>, F: array2<bv32>, i: nat, readTo: seq<seq<int>>) returns (readTo': seq<seq<int>>)
    requires WellFormed(g) && GotosOk(g, A, T) && Ordered(g, A) && NullableOk(g, nullable) && TargetsOk(A, T)
    requires F.Length1 == WordSize(g.ntokens) && i < F.Length0 && Done(g, A, T, i, Rows(F), readTo)
    modifies F
    ensures Done(g, A, T, i + 1, Rows(F), readTo')
  {
    ghost var rows := Rows(F);
    var j := ReadTokens(g, A, T.to[i], F, i);
    TokensSeen(g, A, T.to[i], j);
    var edges := ReadNullables(g, A, T, nullable, T.to[i], j);
    DoneNext(g, A, T, i, rows, readTo, Seen(A, T.to[i], j), edges);
    readTo' := readTo + [edges];
  }

  method ReadAll(g: Grammar, A: Automaton, T: Gotos, nullable: seq<bool>) returns (F: array2<bv32>, readTo: seq<seq<int>>)
    requires WellFormed(g) && GotosOk(g, A, T) && Ordered(g, A) && NullableOk(g, nullable) && TargetsOk(A, T)
    ensures fresh(F) && F.Length0 == |T.to| && F.Length1 == WordSize(g.ntokens)
    ensures Done(g, A, T, |T.to|, Rows(F), readTo)
  {
    F := NewRows(|T.to|, WordSize(g.ntokens));
    readTo := [];
    for i := 0 to |T.to|
      invariant Done(g, A, T, i, Rows(F), readTo)
    {
      readTo := ReadRow(g, A, T, nullable, F, i, readTo);
    }
  }

  /** F0 and the edges are those of the theory. */
  ghost predicate ReadsOk(g: Grammar, A: Automaton, T: Gotos, F0: seq<set<int>>, readTo: seq<seq<int>>)
    requires WellFormed(g)
  {
    && |F0| == |readTo| == |T.from| == |T.to| && IsRelation(readTo)
    && (forall k, t :: 0 <= k < |T.from| ==> (t in F0[k] <==> Reads0(g, A, T, k, t)))
    && (forall k, y :: 0 <= k < |T.from| ==> (y in readTo[k] <==> ReadsRel(g, A, T, k, y)))
  }

  lemma DoneReads(g: Grammar, A: Automaton, T: Gotos, rows: seq<set<int>>, readTo: seq<seq<int>>)
    requires WellFormed(g) && |T.from| == |T.to| && |T.to| > 0 && Done(g, A, T, |T.to|, rows, readTo)
    ensures ReadsOk(g, A, T, rows[0 := rows[0] + {0}], readTo)
  {
    var F0 := rows[0 := rows[0] + {0}];
    forall k, t | 0 <= k < |T.from| ensures t in F0[k] <==> Reads0(g, A, T, k, t) {
      assert TokensOf(g, A, T.to[k], rows[k]);
    }
    forall k, y | 0 <= k < |T.from| ensures y in readTo[k] <==> ReadsRel(g, A, T, k, y) {
      assert ReadsAre(g, A, T, T.to[k], readTo[k]);
    }
    forall x, e | 0 <= x < |readTo| && 0 <= e < |readTo[x]| ensures 0 <= readTo[x][e] < |readTo| {
      assert readTo[x][e] in readTo[x];
      assert ReadsRel(g, A, T, x, readTo[x][e]);
    }
  }

  lemma TargetsAre(g: Grammar, A: Automaton, T: Gotos)
    requires WellFormed(g) && Canonical(g, A) && GotosOk(g, A, T)
    ensures TargetsOk(A, T) && |T.to| > 0
  {
    GotoZero(g, A, T);
    forall k | 0 <= k < |T.to| ensures IsState(A, T.to[k]) {
      GotoIs(g, A, T, k);
    }
  }

  /** initialize_F: the tokens read directly, $end after goto 0, and the unions
      digraph forms over the reads relation. */
  method InitializeF(g: Grammar, A: Automaton, T: Gotos, nullable: seq<bool>) returns (F: array2<bv32>, ghost F0: seq<set<int>>, ghost readsTo: seq<seq<int>>)
    requires WellFormed(g) && Canonical(g, A) && GotosOk(g, A, T) && NullableOk(g, nullable)
    ensures fresh(F) && F.Length0 == |T.to| && F.Length1 == WordSize(g.ntokens)
    ensures ReadsOk(g, A, T, F0, readsTo) && Rows(F) == ReadSets(F0, readsTo)
  {
    AllOrdered(g, A);
    TargetsAre(g, A, T);
    var readTo;
    F, readTo := ReadAll(g, A, T, nullable);
    DoneReads(g, A, T, Rows(F), readTo);
    F0 := CloseReads(F, g.ntokens, readTo);
    readsTo := readTo;
  }

  /** SETBIT(F, 0) and digraph. */
  method CloseReads(F: array2<bv32>, ntokens: nat, readTo: seq<seq<int>>) returns (ghost F0: seq<set<int>>)
    requires IsRelation(readTo) && F.Length0 == |readTo| > 0 && 0 < ntokens && F.Length1 == WordSize(ntokens)
    modifies F
    ensures F0 == old(Rows(F))[0 := old(Rows(F))[0] + {0}]
    ensures Rows(F) == ReadSets(F0, readTo)
  {
    WordSizeFits(ntokens);
    SetBit(F, 0, 0);
    F0 := Rows(F);
    Digraph.Digraph(readTo, F);
  }
}
