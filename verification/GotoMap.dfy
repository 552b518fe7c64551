/** lalr.c, set_goto_map and map_goto: numbering the nonterminal transitions. */
module GotoMap {
  import opened Grammar
  import opened ClosureTables
  import opened Automaton
  import opened Machine
  import opened Relations

  /** A transition: its source and its target. */
  datatype Edge = Edge(src: int, dst: int)

  /** States refer to states. */
  ghost predicate ShiftsInRange(A: Automaton) {
    |A.shifts| == |A.states| &&
    forall s, i :: 0 <= s < |A.shifts| && 0 <= i < |A.shifts[s]| ==> IsState(A, A.shifts[s][i])
  }

  /** The symbol that enters the i-th target of s. */
  ghost function Entered(A: Automaton, s: int, i: int): int
    requires ShiftsInRange(A) && 0 <= s < |A.shifts| && 0 <= i < |A.shifts[s]|
  {
    A.states[A.shifts[s][i]].accessing
  }

  /** The transitions of s on X among its shifts from number lo on. */
  ghost function Entries(A: Automaton, X: int, s: int, lo: nat): seq<Edge>
    requires ShiftsInRange(A) && 0 <= s < |A.shifts| && lo <= |A.shifts[s]|
    decreases |A.shifts[s]| - lo
  {
    if lo == |A.shifts[s]| then []
    else Entries(A, X, s, lo + 1) + if Entered(A, s, lo) == X then [Edge(s, A.shifts[s][lo])] else []
  }

  /** The transitions on X of the states below s. */
  ghost function Column(A: Automaton, X: int, s: nat): seq<Edge>
    requires ShiftsInRange(A) && s <= |A.shifts|
  {
    if s == 0 then [] else Column(A, X, s - 1) + Entries(A, X, s - 1, 0)
  }

  /** What a scan has met on X when it stands in state s before shift lo,
      shifts being scanned from the last to the first. */
  ghost function Met(A: Automaton, X: int, s: nat, lo: nat): seq<Edge>
    requires ShiftsInRange(A) && s < |A.shifts| && lo <= |A.shifts[s]|
  {
    Column(A, X, s) + Entries(A, X, s, lo)
  }

  /** All columns, nonterminal by nonterminal. */
  ghost function Columns(g: Grammar, A: Automaton): (cols: seq<seq<Edge>>)
    requires WellFormed(g) && ShiftsInRange(A)
    ensures |cols| == VarCount(g)
  {
    seq(VarCount(g), b requires 0 <= b < VarCount(g) => Column(A, g.ntokens + b, |A.shifts|))
  }

  /** What has been met on every nonterminal. */
  ghost function Mets(g: Grammar, A: Automaton, s: nat, lo: nat): (mets: seq<seq<Edge>>)
    requires WellFormed(g) && ShiftsInRange(A) && s < |A.shifts| && lo <= |A.shifts[s]|
    ensures |mets| == VarCount(g)
  {
    seq(VarCount(g), b requires 0 <= b < VarCount(g) => Met(A, g.ntokens + b, s, lo))
  }

  /** What the states below s hold on every nonterminal. */
  ghost function Parts(g: Grammar, A: Automaton, s: nat): (mets: seq<seq<Edge>>)
    requires WellFormed(g) && ShiftsInRange(A) && s <= |A.shifts|
    ensures |mets| == VarCount(g)
  {
    seq(VarCount(g), b requires 0 <= b < VarCount(g) => Column(A, g.ntokens + b, s))
  }

  /** The first number of column b. */
  ghost function Before(cols: seq<seq<Edge>>, b: nat): nat
    requires b <= |cols|
  {
    if b == 0 then 0 else Before(cols, b - 1) + |cols[b - 1]|
  }

  /** The shifts of s are in the order of their symbols. */
  ghost predicate InOrder(A: Automaton, s: int) {
    && ShiftsInRange(A) && 0 <= s < |A.shifts|
    && forall i, j :: 0 <= i < j < |A.shifts[s]| ==> Entered(A, s, i) < Entered(A, s, j)
  }

  /** The shifts of every state are in the order of their symbols. */
  ghost predicate Ordered(g: Grammar, A: Automaton) {
    && ShiftsInRange(A)
    && (forall s :: 0 <= s < |A.shifts| ==> InOrder(A, s))
    && (forall s, i :: 0 <= s < |A.shifts| && 0 <= i < |A.shifts[s]| ==> 0 < Entered(A, s, i) < g.nsyms)
  }

  lemma AllOrdered(g: Grammar, A: Automaton)
    requires WellFormed(g) && Canonical(g, A)
    ensures Ordered(g, A)
  {
    InRange(g, A);
    forall s | 0 <= s < |A.shifts|
      ensures InOrder(A, s)
      ensures forall i :: 0 <= i < |A.shifts[s]| ==> 0 < Entered(A, s, i) < g.nsyms
    {
      ShiftOrder(g, A, s);
    }
  }

  // ----- the shifts of a state are in order of their symbols

  lemma ShiftOrder(g: Grammar, A: Automaton, s: int)
    requires WellFormed(g) && Canonical(g, A) && 0 <= s < |A.shifts|
    ensures InOrder(A, s)
    ensures forall i :: 0 <= i < |A.shifts[s]| ==> 0 < Entered(A, s, i) < g.nsyms
  {
    InRange(g, A);
    assert ShiftsOk(g, A.states, s, A.shifts[s]);
    var syms := Symbols(g, ItemsAt(g, A.states, s));
    SymbolElems(g, ItemsAt(g, A.states, s));
    forall i | 0 <= i < |A.shifts[s]|
      ensures Entered(A, s, i) == syms[i] && 0 < syms[i] < g.nsyms
    {
      assert IsGoto(g, A.states, s, syms[i], A.shifts[s][i]);
      assert Trans(A, s, syms[i], A.shifts[s][i]);
      TransKernel(g, A, s, syms[i], A.shifts[s][i]);
    }
  }

  lemma InRange(g: Grammar, A: Automaton)
    requires WellFormed(g) && Canonical(g, A)
    ensures ShiftsInRange(A)
  {
    forall s, i | 0 <= s < |A.shifts| && 0 <= i < |A.shifts[s]|
      ensures IsState(A, A.shifts[s][i])
    {
      assert ShiftsOk(g, A.states, s, A.shifts[s]);
      assert IsGoto(g, A.states, s, Symbols(g, ItemsAt(g, A.states, s))[i], A.shifts[s][i]);
    }
  }

  /** Below a token shift there are only token shifts, so the scan may stop. */
  lemma {:induction false} TokensBelow(g: Grammar, A: Automaton, X: int, s: int, lo: nat, hi: nat)
    requires InOrder(A, s)
    requires lo <= hi <= |A.shifts[s]| && X >= g.ntokens
    requires hi > 0 ==> Entered(A, s, hi - 1) < g.ntokens
    ensures Entries(A, X, s, lo) == Entries(A, X, s, hi)
    decreases hi - lo
  {
    if lo < hi {
      TokensBelow(g, A, X, s, lo + 1, hi);
    }
  }

  // ----- what a column holds

  ghost predicate EnteredBy(A: Automaton, X: int, s: int, lo: nat)
    requires ShiftsInRange(A) && 0 <= s < |A.shifts| && lo <= |A.shifts[s]|
  {
    exists i :: lo <= i < |A.shifts[s]| && Entered(A, s, i) == X
  }

  lemma {:induction false} EntriesAre(A: Automaton, X: int, s: int, lo: nat)
    requires |A.states| == |A.shifts| && InOrder(A, s) && lo <= |A.shifts[s]|
    ensures |Entries(A, X, s, lo)| == if EnteredBy(A, X, s, lo) then 1 else 0
    ensures forall j :: 0 <= j < |Entries(A, X, s, lo)| ==>
      Entries(A, X, s, lo)[j].src == s && Trans(A, s, X, Entries(A, X, s, lo)[j].dst)
    decreases |A.shifts[s]| - lo
  {
    if lo < |A.shifts[s]| {
      EntriesAre(A, X, s, lo + 1);
      assert Entered(A, s, lo) == X ==> !EnteredBy(A, X, s, lo + 1);
      assert EnteredBy(A, X, s, lo) <==> Entered(A, s, lo) == X || EnteredBy(A, X, s, lo + 1);
    }
  }

  ghost predicate ColumnOk(A: Automaton, X: int, n: int, c: seq<Edge>) {
    && (forall j :: 0 <= j < |c| ==> 0 <= c[j].src < n && Trans(A, c[j].src, X, c[j].dst))
    && (forall j, l :: 0 <= j < l < |c| ==> c[j].src < c[l].src)
    && (forall s, t :: s < n && Trans(A, s, X, t) ==> Edge(s, t) in c)
  }

  /** e holds the transition of state n on X, if there is one. */
  ghost predicate EntryOk(A: Automaton, X: int, n: int, e: seq<Edge>) {
    && |e| <= 1
    && (forall j :: 0 <= j < |e| ==> e[j].src == n && Trans(A, n, X, e[j].dst))
    && (forall t :: Trans(A, n, X, t) ==> Edge(n, t) in e)
  }

  lemma ColumnHas(A: Automaton, X: int, n: int, c: seq<Edge>, s: int, t: int) returns (j: int)
    requires ColumnOk(A, X, n, c) && s < n && Trans(A, s, X, t)
    ensures 0 <= j < |c| && c[j] == Edge(s, t)
  {
    j :| 0 <= j < |c| && c[j] == Edge(s, t);
  }

  lemma ColumnNext(A: Automaton, X: int, n: nat, c: seq<Edge>, e: seq<Edge>)
    requires ColumnOk(A, X, n, c) && EntryOk(A, X, n, e)
    ensures ColumnOk(A, X, n + 1, c + e)
  {
  }

  lemma ColumnNone(A: Automaton, X: int)
    ensures ColumnOk(A, X, 0, [])
  {
  }

  lemma {:induction false} ColumnFrom(A: Automaton, X: int, n: nat)
    requires ShiftsInRange(A) && n <= |A.shifts|
    requires forall s :: 0 <= s < n ==> EntryOk(A, X, s, Entries(A, X, s, 0))
    ensures ColumnOk(A, X, n, Column(A, X, n))
  {
    hide ColumnOk, EntryOk, Entries, ShiftsInRange;
    if n == 0 {
      ColumnNone(A, X);
    } else {
      ColumnFrom(A, X, n - 1);
      ColumnNext(A, X, n - 1, Column(A, X, n - 1), Entries(A, X, n - 1, 0));
    }
  }

  /** Column X holds exactly the transitions on X, in order of their sources. */
  lemma ColumnIs(g: Grammar, A: Automaton, X: int)
    requires WellFormed(g) && Canonical(g, A) && ShiftsInRange(A)
    ensures ColumnOk(A, X, |A.shifts|, Column(A, X, |A.shifts|))
  {
    forall s | 0 <= s < |A.shifts| ensures EntryOk(A, X, s, Entries(A, X, s, 0)) {
      ShiftOrder(g, A, s);
      EntriesAre(A, X, s, 0);
      AllEntered(g, A, X, s);
    }
    ColumnFrom(A, X, |A.shifts|);
  }

  lemma LastEntry(g: Grammar, A: Automaton, X: int, s: int, t: int)
    requires WellFormed(g) && Canonical(g, A) && ShiftsInRange(A) && 0 <= s < |A.shifts| && Trans(A, s, X, t)
    ensures Entries(A, X, s, 0) == [Edge(s, t)]
  {
    var e := Entries(A, X, s, 0);
    ShiftOrder(g, A, s);
    EntriesAre(A, X, s, 0);
    var i :| 0 <= i < |A.shifts[s]| && A.shifts[s][i] == t;
    assert Entered(A, s, i) == X;
    assert e[0].src == s;
    TransUnique(g, A, s, X, t, e[0].dst);
  }

  lemma AllEntered(g: Grammar, A: Automaton, X: int, s: int)
    requires WellFormed(g) && Canonical(g, A) && ShiftsInRange(A) && 0 <= s < |A.shifts|
    ensures forall t :: Trans(A, s, X, t) ==> Edge(s, t) in Entries(A, X, s, 0)
  {
    forall t ensures Trans(A, s, X, t) ==> Edge(s, t) in Entries(A, X, s, 0) {
      if Trans(A, s, X, t) {
        LastEntry(g, A, X, s, t);
      }
    }
  }

  /** The region of a column holds its transitions. */
  ghost predicate Placed(start: int, met: seq<Edge>, from: seq<int>, to: seq<int>) {
    && 0 <= start && start + |met| <= |from| == |to|
    && forall j :: 0 <= j < |met| ==> met[j] == Edge(from[start + j], to[start + j])
  }

  /** The transitions laid out column by column. */
  ghost predicate Layout(cols: seq<seq<Edge>>, T: Gotos) {
    && |T.starts| == |cols| + 1 && |T.from| == |T.to| == Before(cols, |cols|)
    && (forall b :: 0 <= b <= |cols| ==> T.starts[b] == Before(cols, b))
    && (forall b :: 0 <= b < |cols| ==> Placed(T.starts[b], cols[b], T.from, T.to))
  }

  lemma LayoutWidth(cols: seq<seq<Edge>>, T: Gotos)
    requires Layout(cols, T)
    ensures |T.starts| == |cols| + 1
  {
  }

  lemma LayoutAt(cols: seq<seq<Edge>>, T: Gotos, b: int, k: int)
    requires Layout(cols, T) && InColumn(T, b, k)
    ensures 0 <= k < |T.from| && b < |cols|
    ensures 0 <= k - T.starts[b] < |cols[b]| && cols[b][k - T.starts[b]] == Edge(T.from[k], T.to[k])
  {
    hide Layout, Placed;
    LayoutWidth(cols, T);
    LayoutStarts(cols, T, b);
    PlacedAt(T.starts[b], cols[b], T.from, T.to, k - T.starts[b]);
  }

  lemma PlacedAt(start: int, met: seq<Edge>, from: seq<int>, to: seq<int>, j: int)
    requires Placed(start, met, from, to) && 0 <= j < |met|
    ensures 0 <= start + j < |from| == |to| && met[j] == Edge(from[start + j], to[start + j])
  {
  }

  lemma LayoutStarts(cols: seq<seq<Edge>>, T: Gotos, b: int)
    requires Layout(cols, T) && 0 <= b < |cols|
    ensures |T.starts| == |cols| + 1 && T.starts[b + 1] == T.starts[b] + |cols[b]|
    ensures Placed(T.starts[b], cols[b], T.from, T.to)
  {
    assert T.starts[b + 1] == Before(cols, b + 1);
  }

  lemma TransSource(A: Automaton, s: int, X: int, t: int)
    requires Trans(A, s, X, t)
    ensures s < |A.shifts|
  {
  }

  lemma LayoutPlace(cols: seq<seq<Edge>>, T: Gotos, b: int, j: int)
    requires Layout(cols, T) && 0 <= b < |cols| && 0 <= j < |cols[b]|
    ensures InColumn(T, b, T.starts[b] + j) && 0 <= T.starts[b] + j < |T.from| == |T.to|
    ensures cols[b][j] == Edge(T.from[T.starts[b] + j], T.to[T.starts[b] + j])
  {
    hide Layout, Placed;
    LayoutStarts(cols, T, b);
    PlacedAt(T.starts[b], cols[b], T.from, T.to, j);
  }

  lemma LayoutHas(g: Grammar, A: Automaton, cols: seq<seq<Edge>>, T: Gotos, s: int, X: int, t: int)
    requires Layout(cols, T) && Trans(A, s, X, t) && 0 <= X - g.ntokens < |cols|
    requires ColumnOk(A, X, |A.shifts|, cols[X - g.ntokens])
    ensures HasGoto(g, A, T, s, X)
  {
    hide Layout, ColumnOk, Trans;
    var b := X - g.ntokens;
    assert s < |A.shifts| by { TransSource(A, s, X, t); }
    var j := ColumnHas(A, X, |A.shifts|, cols[b], s, t);
    LayoutPlace(cols, T, b, j);
    assert IsGotoNo(g, A, T, T.starts[b] + j, s, X);
  }

  /** Such a layout is a goto table. */
  lemma LayoutOk(g: Grammar, A: Automaton, T: Gotos)
    requires WellFormed(g) && Canonical(g, A) && ShiftsInRange(A) && Layout(Columns(g, A), T)
    ensures GotosOk(g, A, T)
  {
    ColumnsAre(g, A);
    LayoutColumns(g, Columns(g, A), T);
    LayoutRows(g, A, Columns(g, A), T);
  }

  lemma ColumnsAre(g: Grammar, A: Automaton)
    requires WellFormed(g) && Canonical(g, A) && ShiftsInRange(A)
    ensures forall b :: 0 <= b < VarCount(g) ==> ColumnOk(A, g.ntokens + b, |A.shifts|, Columns(g, A)[b])
  {
    forall b | 0 <= b < VarCount(g) ensures ColumnOk(A, g.ntokens + b, |A.shifts|, Columns(g, A)[b]) {
      ColumnIs(g, A, g.ntokens + b);
      assert Columns(g, A)[b] == Column(A, g.ntokens + b, |A.shifts|);
    }
  }

  lemma LayoutColumns(g: Grammar, cols: seq<seq<Edge>>, T: Gotos)
    requires WellFormed(g) && |cols| == VarCount(g) && Layout(cols, T)
    ensures ColumnsOk(g, T)
  {
    forall b | 0 <= b < VarCount(g) ensures T.starts[b] <= T.starts[b + 1] {
      BeforeMono(cols, b, b + 1);
    }
  }

  lemma LayoutRows(g: Grammar, A: Automaton, cols: seq<seq<Edge>>, T: Gotos)
    requires WellFormed(g) && |cols| == VarCount(g) && Layout(cols, T)
    requires forall b :: 0 <= b < |cols| ==> ColumnOk(A, g.ntokens + b, |A.shifts|, cols[b])
    ensures forall b, k :: InColumn(T, b, k) ==> 0 <= k < |T.from| && Trans(A, T.from[k], g.ntokens + b, T.to[k])
    ensures forall b, k, l :: InColumn(T, b, k) && InColumn(T, b, l) && k < l ==> 0 <= k < |T.from| && 0 <= l < |T.from| && T.from[k] < T.from[l]
    ensures forall s, X, t :: Trans(A, s, X, t) && IsVar(g, X) ==> HasGoto(g, A, T, s, X)
  {
    forall b, k | InColumn(T, b, k)
      ensures 0 <= k < |T.from| && Trans(A, T.from[k], g.ntokens + b, T.to[k])
    {
      LayoutAt(cols, T, b, k);
    }
    forall b, k, l | InColumn(T, b, k) && InColumn(T, b, l) && k < l
      ensures 0 <= k < |T.from| && 0 <= l < |T.from| && T.from[k] < T.from[l]
    {
      LayoutAt(cols, T, b, k);
      LayoutAt(cols, T, b, l);
    }
    forall s, X, t
      ensures Trans(A, s, X, t) && IsVar(g, X) ==> HasGoto(g, A, T, s, X)
    {
      if Trans(A, s, X, t) && IsVar(g, X) {
        assert ColumnOk(A, g.ntokens + (X - g.ntokens), |A.shifts|, cols[X - g.ntokens]);
        LayoutHas(g, A, cols, T, s, X, t);
      }
    }
  }

  lemma {:induction false} BeforeMono(cols: seq<seq<Edge>>, a: nat, b: nat)
    requires a <= b <= |cols|
    ensures Before(cols, a) <= Before(cols, b)
  {
    if a < b { BeforeMono(cols, a, b - 1); }
  }

  // ----- the scans

  /** What a scan has met on X is a part of its column. */
  lemma MetBound(A: Automaton, X: int, s: nat, lo: nat)
    requires ShiftsInRange(A) && s < |A.shifts| && lo <= |A.shifts[s]|
    ensures |Met(A, X, s, lo)| <= |Column(A, X, |A.shifts|)|
  {
    EntriesBound(A, X, s, 0, lo);
    ColumnBound(A, X, s + 1, |A.shifts|);
  }

  lemma {:induction false} EntriesBound(A: Automaton, X: int, s: nat, lo: nat, hi: nat)
    requires ShiftsInRange(A) && s < |A.shifts| && lo <= hi <= |A.shifts[s]|
    ensures |Entries(A, X, s, hi)| <= |Entries(A, X, s, lo)|
    decreases hi - lo
  {
    if lo < hi { EntriesBound(A, X, s, lo + 1, hi); }
  }

  lemma {:induction false} ColumnBound(A: Automaton, X: int, s: nat, n: nat)
    requires ShiftsInRange(A) && s <= n <= |A.shifts|
    ensures |Column(A, X, s)| <= |Column(A, X, n)|
    decreases n - s
  {
    if s < n { ColumnBound(A, X, s, n - 1); }
  }

  lemma MetStep(A: Automaton, X: int, s: nat, i: nat)
    requires ShiftsInRange(A) && s < |A.shifts| && i < |A.shifts[s]|
    ensures Met(A, X, s, i) == if Entered(A, s, i) == X then Met(A, X, s, i + 1) + [Edge(s, A.shifts[s][i])] else Met(A, X, s, i + 1)
  {
  }

  lemma MetsBound(g: Grammar, A: Automaton, s: nat, i: nat)
    requires WellFormed(g) && ShiftsInRange(A) && s < |A.shifts| && i <= |A.shifts[s]|
    ensures forall b :: 0 <= b < VarCount(g) ==> |Mets(g, A, s, i)[b]| <= |Columns(g, A)[b]|
  {
    forall b | 0 <= b < VarCount(g) ensures |Mets(g, A, s, i)[b]| <= |Columns(g, A)[b]| {
      MetBound(A, g.ntokens + b, s, i);
    }
  }

  lemma MetsStep(g: Grammar, A: Automaton, s: nat, i: nat)
    requires WellFormed(g) && ShiftsInRange(A) && s < |A.shifts| && i < |A.shifts[s]|
    requires IsVar(g, Entered(A, s, i))
    ensures
      var m, c := Mets(g, A, s, i + 1), Entered(A, s, i) - g.ntokens;
      Mets(g, A, s, i) == m[c := m[c] + [Edge(s, A.shifts[s][i])]]
  {
    hide Met, WellFormed;
    var m, c := Mets(g, A, s, i + 1), Entered(A, s, i) - g.ntokens;
    var n := m[c := m[c] + [Edge(s, A.shifts[s][i])]];
    forall b | 0 <= b < |m| ensures Mets(g, A, s, i)[b] == n[b] {
      MetStep(A, g.ntokens + b, s, i);
    }
  }

  /** One shift adds one transition, to the column of its symbol. */
  lemma MetsNext(g: Grammar, A: Automaton, s: nat, i: nat)
    requires WellFormed(g) && ShiftsInRange(A) && s < |A.shifts| && i < |A.shifts[s]|
    requires IsVar(g, Entered(A, s, i))
    ensures
      var m, c := Mets(g, A, s, i + 1), Entered(A, s, i) - g.ntokens;
      && Mets(g, A, s, i) == m[c := m[c] + [Edge(s, A.shifts[s][i])]]
      && |m[c]| < |Columns(g, A)[c]|
      && forall b :: 0 <= b < |m| ==> |m[b]| <= |Columns(g, A)[b]|
  {
    hide Mets, WellFormed, ShiftsInRange, Columns;
    var m, c := Mets(g, A, s, i + 1), Entered(A, s, i) - g.ntokens;
    MetsStep(g, A, s, i);
    assert Mets(g, A, s, i)[c] == m[c] + [Edge(s, A.shifts[s][i])];
    MetsBound(g, A, s, i);
    MetsBound(g, A, s, i + 1);
  }

  /** A scan may stop at a token: it has met everything. */
  lemma MetsAll(g: Grammar, A: Automaton, s: nat, lo: nat)
    requires WellFormed(g) && InOrder(A, s) && lo <= |A.shifts[s]|
    requires lo > 0 ==> Entered(A, s, lo - 1) < g.ntokens
    ensures Mets(g, A, s, lo) == Parts(g, A, s + 1)
  {
    forall X | X >= g.ntokens ensures Met(A, X, s, lo) == Column(A, X, s + 1) {
      TokensBelow(g, A, X, s, 0, lo);
    }
  }

  lemma MetsNone(g: Grammar, A: Automaton, s: nat)
    requires WellFormed(g) && ShiftsInRange(A) && s < |A.shifts|
    ensures Mets(g, A, s, |A.shifts[s]|) == Parts(g, A, s)
  {
    forall X ensures Met(A, X, s, |A.shifts[s]|) == Column(A, X, s) {
      assert Entries(A, X, s, |A.shifts[s]|) == [];
    }
  }

  lemma PartsEnds(g: Grammar, A: Automaton)
    requires WellFormed(g) && ShiftsInRange(A)
    ensures Parts(g, A, |A.shifts|) == Columns(g, A)
    ensures forall b :: 0 <= b < VarCount(g) ==> Parts(g, A, 0)[b] == []
  {
    forall b | 0 <= b < VarCount(g) ensures Parts(g, A, 0)[b] == [] {
      assert Parts(g, A, 0)[b] == Column(A, g.ntokens + b, 0);
    }
  }

  ghost predicate Counted(mets: seq<seq<Edge>>, count: seq<int>) {
    |count| == |mets| + 1 && forall b :: 0 <= b < |mets| ==> count[b] == |mets[b]|
  }

  /** Counting the nonterminal transitions of one state. */
  method CountState(g: Grammar, A: Automaton, s: int, count: array<int>)
    requires WellFormed(g) && Ordered(g, A) && 0 <= s < |A.shifts|
    requires Counted(Parts(g, A, s), count[..])
    modifies count
    ensures Counted(Parts(g, A, s + 1), count[..])
  {
    var i := |A.shifts[s]|;
    MetsNone(g, A, s);
    while i > 0 && A.states[A.shifts[s][i - 1]].accessing >= g.ntokens
      invariant 0 <= i <= |A.shifts[s]|
      invariant Counted(Mets(g, A, s, i), count[..])
    {
      i := i - 1;
      var symbol := A.states[A.shifts[s][i]].accessing;
      MetsNext(g, A, s, i);
      count[symbol - g.ntokens] := count[symbol - g.ntokens] + 1;
    }
    MetsAll(g, A, s, i);
  }

  /** The first pass of set_goto_map. */
  method GotoCounts(g: Grammar, A: Automaton) returns (count: array<int>)
    requires WellFormed(g) && Ordered(g, A)
    ensures fresh(count) && Counted(Columns(g, A), count[..])
  {
    count := new int[VarCount(g) + 1](_ => 0);
    PartsEnds(g, A);
    for s := 0 to |A.shifts|
      invariant Counted(Parts(g, A, s), count[..])
    {
      CountState(g, A, s, count);
    }
  }

  /** The columns before b have their first numbers, the others their counts. */
  ghost predicate Summed(cols: seq<seq<Edge>>, b: nat, start: seq<int>) {
    && b <= |cols| && |start| == |cols| + 1
    && (forall c :: 0 <= c < b ==> start[c] == Before(cols, c))
    && (forall c :: b <= c < |cols| ==> start[c] == |cols[c]|)
  }

  method Store(a: array<int>, k: int, x: int)
    requires 0 <= k < a.Length
    modifies a
    ensures a[..] == old(a[..])[k := x]
  {
    a[k] := x;
  }

  lemma SummedStart(cols: seq<seq<Edge>>, start: seq<int>)
    requires Counted(cols, start)
    ensures Summed(cols, 0, start) && |start| == |cols| + 1 && Before(cols, 0) == 0
  {
  }

  lemma SummedNext(cols: seq<seq<Edge>>, b: nat, start: seq<int>, k: int)
    requires Summed(cols, b, start) && b < |cols| && k == Before(cols, b)
    ensures start[b] == |cols[b]| && k + start[b] == Before(cols, b + 1)
    ensures Summed(cols, b + 1, start[b := k])
  {
  }

  lemma SummedEnd(cols: seq<seq<Edge>>, start: seq<int>, k: int)
    requires Summed(cols, |cols|, start) && k == Before(cols, |cols|)
    ensures |start| == |cols| + 1
    ensures forall b :: 0 <= b <= |cols| ==> start[|cols| := k][b] == Before(cols, b)
  {
  }

  /** Counts become first numbers. */
  method RunningSums(start: array<int>, ghost cols: seq<seq<Edge>>) returns (k: int)
    requires Counted(cols, start[..])
    modifies start
    ensures start.Length == |cols| + 1
    ensures forall b :: 0 <= b <= |cols| ==> start[b] == Before(cols, b)
    ensures k == Before(cols, |cols|)
  {
    hide Counted, Summed, Before;
    k := 0;
    SummedStart(cols, start[..]);
    for b := 0 to start.Length - 1
      invariant k == Before(cols, b) && Summed(cols, b, start[..]) && start.Length == |cols| + 1
    {
      SummedNext(cols, b, start[..], k);
      var n := start[b];
      Store(start, b, k);
      k := k + n;
    }
    SummedEnd(cols, start[..], k);
    Store(start, start.Length - 1, k);
    assert forall b :: 0 <= b <= |cols| ==> start[b] == start[..][b];
  }

  // ----- filling

  lemma PlacedStays(start: int, met: seq<Edge>, from: seq<int>, to: seq<int>, k: int, s: int, t: int)
    requires Placed(start, met, from, to) && 0 <= k < |from| && (k < start || start + |met| <= k)
    ensures Placed(start, met, from[k := s], to[k := t])
  {
  }

  lemma PlacedNext(start: int, met: seq<Edge>, from: seq<int>, to: seq<int>, s: int, t: int)
    requires Placed(start, met, from, to) && start + |met| < |from|
    ensures Placed(start, met + [Edge(s, t)], from[start + |met| := s], to[start + |met| := t])
  {
  }

  /** The transitions met stand at the starts of the regions. */
  ghost predicate Filled(cols: seq<seq<Edge>>, mets: seq<seq<Edge>>, temp: seq<int>, from: seq<int>, to: seq<int>) {
    && |mets| == |cols| && |temp| == |cols| + 1
    && (forall b :: 0 <= b < |cols| ==> temp[b] == Before(cols, b) + |mets[b]|)
    && (forall b :: 0 <= b < |cols| ==> Placed(Before(cols, b), mets[b], from, to))
  }

  lemma PlacedElsewhere(cols: seq<seq<Edge>>, mets: seq<seq<Edge>>, from: seq<int>, to: seq<int>, c: int, b: int, k: int, e: Edge)
    requires 0 <= c < |cols| && 0 <= b < |cols| && b != c && |mets| == |cols|
    requires |mets[c]| < |cols[c]| && |mets[b]| <= |cols[b]| && k == Before(cols, c) + |mets[c]| < |from|
    requires Placed(Before(cols, b), mets[b], from, to)
    ensures Placed(Before(cols, b), mets[b], from[k := e.src], to[k := e.dst])
  {
    if b < c { BeforeMono(cols, b + 1, c); } else { BeforeMono(cols, c + 1, b); }
    PlacedStays(Before(cols, b), mets[b], from, to, k, e.src, e.dst);
  }

  /** Recording one transition leaves the other regions alone. */
  lemma FillNext(cols: seq<seq<Edge>>, mets: seq<seq<Edge>>, temp: seq<int>, from: seq<int>, to: seq<int>, c: int, e: Edge)
    requires Filled(cols, mets, temp, from, to) && |from| == |to| == Before(cols, |cols|)
    requires 0 <= c < |cols| && |mets[c]| < |cols[c]|
    requires forall b :: 0 <= b < |cols| ==> |mets[b]| <= |cols[b]|
    ensures 0 <= temp[c] < |from|
    ensures Filled(cols, mets[c := mets[c] + [e]], temp[c := temp[c] + 1], from[temp[c] := e.src], to[temp[c] := e.dst])
  {
    var k := temp[c];
    BeforeMono(cols, c + 1, |cols|);
    assert k == Before(cols, c) + |mets[c]| < Before(cols, c + 1);
    assert Placed(Before(cols, c), mets[c], from, to);
    PlacedNext(Before(cols, c), mets[c], from, to, e.src, e.dst);
    var next := mets[c := mets[c] + [e]];
    hide Before, Placed;
    forall b | 0 <= b < |cols|
      ensures Placed(Before(cols, b), next[b], from[k := e.src], to[k := e.dst])
    {
      if b != c { PlacedElsewhere(cols, mets, from, to, c, b, k, e); }
    }
  }

  method FillOne(ghost cols: seq<seq<Edge>>, ghost mets: seq<seq<Edge>>, temp: array<int>, from: array<int>, to: array<int>, c: int, e: Edge)
    requires temp != from && temp != to && from != to
    requires Filled(cols, mets, temp[..], from[..], to[..]) && from.Length == to.Length == Before(cols, |cols|)
    requires 0 <= c < |cols| && |mets[c]| < |cols[c]|
    requires forall b :: 0 <= b < |cols| ==> |mets[b]| <= |cols[b]|
    modifies temp, from, to
    ensures Filled(cols, mets[c := mets[c] + [e]], temp[..], from[..], to[..])
  {
    FillNext(cols, mets, temp[..], from[..], to[..], c, e);
    var k := temp[c];
    Store(temp, c, k + 1);
    Store(from, k, e.src);
    Store(to, k, e.dst);
  }

  method FillShift(g: Grammar, A: Automaton, s: int, i: int, temp: array<int>, from: array<int>, to: array<int>, ghost cols: seq<seq<Edge>>)
    requires WellFormed(g) && ShiftsInRange(A) && 0 <= s < |A.shifts| && 0 <= i < |A.shifts[s]|
    requires IsVar(g, Entered(A, s, i)) && cols == Columns(g, A)
    requires temp != from && temp != to && from != to
    requires from.Length == to.Length == Before(cols, |cols|)
    requires Filled(cols, Mets(g, A, s, i + 1), temp[..], from[..], to[..])
    modifies temp, from, to
    ensures Filled(cols, Mets(g, A, s, i), temp[..], from[..], to[..])
  {
    var state2 := A.shifts[s][i];
    var symbol := A.states[state2].accessing;
    MetsNext(g, A, s, i);
    FillOne(cols, Mets(g, A, s, i + 1), temp, from, to, symbol - g.ntokens, Edge(s, state2));
  }

  /** Recording the nonterminal transitions of one state. */
  method FillState(g: Grammar, A: Automaton, s: int, temp: array<int>, from: array<int>, to: array<int>, ghost cols: seq<seq<Edge>>)
    requires WellFormed(g) && Ordered(g, A) && 0 <= s < |A.shifts| && cols == Columns(g, A)
    requires temp != from && temp != to && from != to
    requires from.Length == to.Length == Before(cols, |cols|)
    requires Filled(cols, Parts(g, A, s), temp[..], from[..], to[..])
    modifies temp, from, to
    ensures Filled(cols, Parts(g, A, s + 1), temp[..], from[..], to[..])
  {
    var i := |A.shifts[s]|;
    MetsNone(g, A, s);
    while i > 0 && A.states[A.shifts[s][i - 1]].accessing >= g.ntokens
      invariant 0 <= i <= |A.shifts[s]|
      invariant Filled(cols, Mets(g, A, s, i), temp[..], from[..], to[..])
    {
      i := i - 1;
      FillShift(g, A, s, i, temp, from, to, cols);
    }
    MetsAll(g, A, s, i);
  }

  method Fill(g: Grammar, A: Automaton, temp: array<int>, from: array<int>, to: array<int>, ghost cols: seq<seq<Edge>>)
    requires WellFormed(g) && Ordered(g, A) && cols == Columns(g, A)
    requires temp != from && temp != to && from != to
    requires from.Length == to.Length == Before(cols, |cols|)
    requires Filled(cols, Parts(g, A, 0), temp[..], from[..], to[..])
    modifies temp, from, to
    ensures Filled(cols, cols, temp[..], from[..], to[..])
  {
    for s := 0 to |A.shifts|
      invariant Filled(cols, Parts(g, A, s), temp[..], from[..], to[..])
    {
      FillState(g, A, s, temp, from, to, cols);
    }
    PartsEnds(g, A);
  }

  /** set_goto_map: every nonterminal transition gets one number, numbers run
      nonterminal by nonterminal and in each by source state. */
  method SetGotoMap(g: Grammar, A: Automaton) returns (T: Gotos)
    requires WellFormed(g) && Canonical(g, A)
    ensures GotosOk(g, A, T)
  {
    AllOrdered(g, A);
    T := LayOut(g, A);
    LayoutOk(g, A, T);
  }

  method LayOut(g: Grammar, A: Automaton) returns (T: Gotos)
    requires WellFormed(g) && Ordered(g, A)
    ensures Layout(Columns(g, A), T)
  {
    var start := GotoCounts(g, A);
    var ngotos := RunningSums(start, Columns(g, A));
    T := Place(g, A, start[..], ngotos, Columns(g, A));
  }

  /** The second pass, on a copy of the first numbers. */
  method Place(g: Grammar, A: Automaton, starts: seq<int>, ngotos: int, ghost cols: seq<seq<Edge>>) returns (T: Gotos)
    requires WellFormed(g) && Ordered(g, A) && cols == Columns(g, A)
    requires |starts| == |cols| + 1 && ngotos == Before(cols, |cols|)
    requires forall b :: 0 <= b <= |cols| ==> starts[b] == Before(cols, b)
    ensures Layout(cols, T)
  {
    var temp := new int[|starts|](i requires 0 <= i < |starts| => starts[i]);
    var from := new int[ngotos];
    var to := new int[ngotos];
    PartsEnds(g, A);
    StartEmpty(cols, Parts(g, A, 0), temp[..], from[..], to[..]);
    Fill(g, A, temp, from, to, cols);
    T := Gotos(starts, from[..], to[..]);
    FilledLayout(cols, T, temp[..]);
  }

  lemma FilledLayout(cols: seq<seq<Edge>>, T: Gotos, temp: seq<int>)
    requires Filled(cols, cols, temp, T.from, T.to)
    requires |T.starts| == |cols| + 1 && |T.from| == |T.to| == Before(cols, |cols|)
    requires forall b :: 0 <= b <= |cols| ==> T.starts[b] == Before(cols, b)
    ensures Layout(cols, T)
  {
  }

  lemma StartEmpty(cols: seq<seq<Edge>>, mets: seq<seq<Edge>>, temp: seq<int>, from: seq<int>, to: seq<int>)
    requires |from| == |to| == Before(cols, |cols|) && |temp| == |cols| + 1 && |mets| == |cols|
    requires forall b :: 0 <= b < |cols| ==> mets[b] == [] && temp[b] == Before(cols, b)
    ensures Filled(cols, mets, temp, from, to)
  {
    forall b | 0 <= b < |cols| ensures Placed(Before(cols, b), mets[b], from, to) {
      BeforeMono(cols, b, |cols|);
    }
  }

  lemma ColumnOfGoto(g: Grammar, A: Automaton, T: Gotos, k: int, s: int, X: int)
    requires WellFormed(g) && IsGotoNo(g, A, T, k, s, X) && IsVar(g, X)
    ensures InColumn(T, X - g.ntokens, k) && T.from[k] == s
  {
  }

  /** map_goto: the binary search always ends on the transition's number,
      although its upper end starts one past the column. */
  method MapGoto(g: Grammar, A: Automaton, T: Gotos, state: int, symbol: int) returns (k: int)
    requires WellFormed(g) && GotosOk(g, A, T) && IsVar(g, symbol) && HasGoto(g, A, T, state, symbol)
    ensures IsGotoNo(g, A, T, k, state, symbol)
  {
    hide GotosOk, IsGotoNo, WellFormed;
    ghost var target :| IsGotoNo(g, A, T, target, state, symbol);
    ColumnOfGoto(g, A, T, target, state, symbol);
    var b := symbol - g.ntokens;
    var low, high := T.starts[b], T.starts[b + 1];
    while true
      invariant T.starts[b] <= low <= target <= high <= T.starts[b + 1]
      decreases high - low
    {
      k := (low + high) / 2;
      ColumnOrder(g, A, T, b, k, target);
      var s := T.from[k];
      if s == state {
        return;
      } else if s < state {
        low := k + 1;
      } else {
        high := k - 1;
      }
    }
  }
}
