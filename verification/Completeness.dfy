/** The parser finds every sentence: where the tables keep all actions, some choices
    at the conflicts steer it along the parse tree. If no state has two actions on a
    token there are no conflicts, and the parser accepts every sentence; with
    conflicts it does so if it comes to an end. */
module Completeness {
  import opened Grammar
  import opened ClosureTables
  import opened Automaton
  import opened Machine
  import opened Lookahead
  import opened Packing
  import opened Actions
  import opened Conflicts
  import opened TokenActions
  import opened ConflictTable
  import opened ConflictRows
  import opened OutputTables
  import opened TrialParse
  import opened TrialChoices
  import opened Derivation
  import opened Yields
  import opened StackPaths
  import opened ParserTables
  import opened Soundness

  ghost predicate HasAction(row: seq<Action>, t: int, code: Code, k: int) {
    exists i :: 0 <= i < |row| && row[i].symbol == t && row[i].code == code && row[i].number == k
  }

  /** One action a token, none of them ruled out or kept for trial. */
  ghost predicate OneAction(row: seq<Action>) {
    && (forall i :: 0 <= i < |row| ==> row[i].suppressed == 0)
    && (forall i, j :: 0 <= i < j < |row| ==> row[i].symbol != row[j].symbol)
  }

  ghost predicate Alone(row: seq<Action>, i: int)
    requires 0 <= i < |row|
  {
    forall j :: 0 <= j < |row| && row[j].symbol == row[i].symbol ==> j == i
  }

  /** No action is ruled out: one that is alone on its token is taken, and all others
      are kept for trial. */
  ghost predicate Kept(row: seq<Action>) {
    forall i :: 0 <= i < |row| ==> row[i].suppressed == if Alone(row, i) then 0 else 1
  }

  /** Every shift and every reduction on its lookaheads is there. */
  ghost predicate RowHas(g: Grammar, A: Automaton, s: int, row: seq<Action>)
    requires WellFormed(g)
  {
    && (forall t, u :: Trans(A, s, t, u) && 0 <= t < g.ntokens ==> HasAction(row, t, Shift, u))
    && (forall r, t :: Reducible(g, A, s, r, t) ==> HasAction(row, t, Reduce, r))
  }

  ghost predicate RowFull(g: Grammar, A: Automaton, s: int, row: seq<Action>)
    requires WellFormed(g)
  {
    OneAction(row) && RowHas(g, A, s, row)
  }

  ghost predicate RowKept(g: Grammar, A: Automaton, s: int, row: seq<Action>)
    requires WellFormed(g)
  {
    Kept(row) && RowHas(g, A, s, row)
  }

  ghost predicate Reducible(g: Grammar, A: Automaton, s: int, r: int, t: int)
    requires WellFormed(g)
  {
    3 <= r < |g.rlhs| && 0 <= t < g.ntokens && Propagated(g, A, s, g.rrhs[r + 1] - 1, t)
  }

  ghost predicate AllFull(b: Built)
    requires WellFormed(b.g)
  {
    forall s :: 0 <= s < |b.parser| ==> RowFull(b.g, b.A, s, b.parser[s])
  }

  ghost predicate AllKept(b: Built)
    requires WellFormed(b.g)
  {
    forall s :: 0 <= s < |b.parser| ==> RowKept(b.g, b.A, s, b.parser[s])
  }

  lemma FullIsKept(b: Built)
    requires WellFormed(b.g) && AllFull(b)
    ensures AllKept(b)
  {
    forall s | 0 <= s < |b.parser| ensures RowKept(b.g, b.A, s, b.parser[s]) {
      assert RowFull(b.g, b.A, s, b.parser[s]);
    }
  }

  /** No rule code ends the parse. */
  ghost predicate RunsThrough(p: Program) {
    forall r, stack :: p.verdict(r, stack) !in {Accept, Error, Abort}
  }

  // ----- the tables steer

  /** A state with a shift has no default reduction; one with a reduction has
      none or that one. */
  lemma DefaultFits(row: seq<Action>, dr: int, t: int, code: Code, k: int)
    requires Kept(row) && HasAction(row, t, code, k) && dr != 0 && OnlyReduces(row, dr)
    ensures code == Reduce && dr == k
  {
    var i :| 0 <= i < |row| && row[i].symbol == t && row[i].code == code && row[i].number == k;
    assert Live(row[i]);
  }

  /** An action alone on its token is the one taken; others are kept for trial. */
  lemma AloneOrTrial(row: seq<Action>, t: int, code: Code, k: int)
    requires Kept(row) && HasAction(row, t, code, k) && k != 0
    ensures if HasTrialOn(row, t, |row|) then exists i :: 0 <= i < |row| && IsTrial(row[i], t) && row[i].code == code && row[i].number == k
            else Takes(row, t, code, 0, k) && forall c, d, m :: Takes(row, t, c, d, m) ==> c == code && m == k
  {
    var i :| 0 <= i < |row| && row[i].symbol == t && row[i].code == code && row[i].number == k;
    if HasTrialOn(row, t, |row|) {
      var j :| 0 <= j < |row| && IsTrial(row[j], t);
      assert Alone(row, i) ==> j == i;
    } else {
      assert Alone(row, i) && Taken(row[i], t, code, 0);
      forall c, d, m | Takes(row, t, c, d, m) ensures c == code && m == k {
        var j :| 0 <= j < |row| && Taken(row[j], t, c, d) && row[j].number == m;
        assert j == i;
      }
    }
  }

  lemma StateHasRow(b: Built, s: int)
    requires BuiltOk(b) && IsState(b.A, s)
    ensures 0 <= s < |b.parser| == |b.defred| && RowSound(b.g, b.A, s, b.parser[s], b.defred[s])
  {
  }

  lemma RowInOrder(b: Built, s: int)
    requires BuiltOk(b) && IsState(b.A, s)
    ensures 0 <= s < |b.parser| == |b.defred| && Sorted(b.parser[s]) && NumbersOk(b.parser[s])
  {
    StateHasRow(b, s);
  }

  /** A token with an action kept for trial has a list. */
  lemma ListFound(b: Built, p: Program, s: int, t: int, c: nat) returns (start: int)
    requires BuiltOk(b) && TablesFor(b, p.t) && IsState(b.A, s) && TablesFit(p.t) && IsToken(b, t, c)
    requires 0 <= s < |b.parser| == |b.defred| && b.defred[s] == 0 && HasTrialOn(b.parser[s], t, |b.parser[s]|)
    ensures Find(p, p.t.cindex, s, c) == Some(start) && Reads(p.t.ctable, start, TrialWord(b.parser[s], 0, t, |b.parser[s]|) + [-1])
  {
    hide TrialWord, HasTrialOn, Find, RowSound, RuleTables, StateTables, GotoRead, ShiftsRead, ReducesRead, Reads;
    PartsFound(b, p, s, c);
    assert TokenRead(b.e, b.parser[s], b.defred[s], s, t, c);
    assert ConflictsRead(b.parser[s], 0, t, p.t.ctable, Find(p, p.t.cindex, s, c));
    start := Find(p, p.t.cindex, s, c).value;
  }

  /** Entry j of a list. */
  lemma ListEntries(p: Program, start: int, w: seq<int>, j: nat)
    requires Reads(p.t.ctable, start, w + [-1]) && j < |w| && forall l :: 0 < l < |w| ==> w[l] >= 0
    ensures Get(p.t.ctable, start + j) == w[j] && forall l :: start < l <= start + j ==> Get(p.t.ctable, l) >= 0
  {
    hide Reads, Get;
    ReadsEntry(p, start, w + [-1], j);
    forall l | start < l <= start + j ensures Get(p.t.ctable, l) >= 0 {
      ReadsEntry(p, start, w + [-1], l - start);
      assert (w + [-1])[l - start] == w[l - start];
    }
  }

  lemma TrialThere(row: seq<Action>, t: int, code: Code, k: int)
    requires exists j :: 0 <= j < |row| && IsTrial(row[j], t) && row[j].code == code && row[j].number == k
    ensures HasTrialOn(row, t, |row|)
  {
  }

  /** The list of a conflict has every shift and reduction kept for trial. */
  lemma ListHas(b: Built, p: Program, s: int, t: int, c: nat, code: Code, k: int) returns (start: int, i: int)
    requires BuiltOk(b) && TablesFor(b, p.t) && IsState(b.A, s) && TablesFit(p.t) && IsToken(b, t, c) && b.defred[s] == 0
    requires exists j :: 0 <= j < |b.parser[s]| && IsTrial(b.parser[s][j], t) && b.parser[s][j].code == code && b.parser[s][j].number == k
    ensures Find(p, p.t.cindex, s, c) == Some(start)
    ensures if code == Shift then i == start && Get(p.t.ctable, start) == k != -1
            else start < i && Get(p.t.ctable, i) == k - 2 && forall l :: start < l <= i ==> Get(p.t.ctable, l) >= 0
  {
    hide BuiltOk, TablesFor, TrialWord, HasTrialOn, Find, Get, IsTrial, Sorted, NumbersOk, Reads;
    RowInOrder(b, s);
    var row := b.parser[s];
    TrialThere(row, t, code, k);
    start := ListFound(b, p, s, t, c);
    var j := PlaceInWord(row, t, code, k);
    i := start + j;
    ListEntries(p, start, TrialWord(row, 0, t, |row|), j);
  }

  lemma PlaceInWord(row: seq<Action>, t: int, code: Code, k: int) returns (i: nat)
    requires Sorted(row) && NumbersOk(row)
    requires exists j :: 0 <= j < |row| && IsTrial(row[j], t) && row[j].code == code && row[j].number == k
    ensures var w := TrialWord(row, 0, t, |row|);
      i < |w| && (forall l :: 0 < l < |w| ==> w[l] >= 0) && if code == Shift then i == 0 && w[0] == k != -1 else i > 0 && w[i] == k - 2
  {
    var w := TrialWord(row, 0, t, |row|);
    var j :| 0 <= j < |row| && IsTrial(row[j], t) && row[j].code == code && row[j].number == k;
    WordTells(row, 0, t);
    LeadIs(row, t, |row|);
    if code == Shift {
      assert TrialShift(row, t, |row|, k);
      i := 0;
    } else {
      assert TrialRule(row, 0, t, |row|, k);
      assert k - 2 in w[1..];
      i :| 0 < i < |w| && w[i] == k - 2;
    }
  }

  lemma CanShiftOn(b: Built, p: Program, stack: seq<int>, pos: nat, t: int, u: int)
    requires Setting(b, p) && AllKept(b) && IsPath(b.A, stack)
    requires IsToken(b, t, TokenAt(p, pos)) && Trans(b.A, stack[|stack| - 1], t, u)
    ensures CanGo(p, Conf(stack, pos, Ready), Conf(stack + [u], pos + 1, Ready))
  {
    hide Canonical, Takes, Find, Reducible, Alone;
    PathTop(b.A, stack);
    var s, c := Top(stack), TokenAt(p, pos);
    var row := b.parser[s];
    assert RowKept(b.g, b.A, s, row);
    DefaultFound(b, p, s);
    if b.defred[s] != 0 { DefaultFits(row, b.defred[s], t, Shift, u); }
    AloneOrTrial(row, t, Shift, u);
    PartsFound(b, p, s, c);
    if HasTrialOn(row, t, |row|) {
      var start, i := ListHas(b, p, s, t, c, Shift, u);
      assert Offers(p, stack, pos, start, i, Conf(stack + [u], pos + 1, Ready));
    } else {
      assert ConflictsRead(row, 0, t, p.t.ctable, Find(p, p.t.cindex, s, c));
      assert ShiftsRead(row, t, Find(p, p.t.sindex, s, c));
    }
  }

  /** What is found for a token that has one action, a reduction. */
  lemma ReductionFound(b: Built, p: Program, s: int, t: int, c: nat, r: int)
    requires BuiltOk(b) && TablesFor(b, p.t) && IsState(b.A, s) && TablesFit(p.t) && IsToken(b, t, c) && b.defred[s] == 0
    requires !HasTrialOn(b.parser[s], t, |b.parser[s]|) && Takes(b.parser[s], t, Reduce, 0, r)
    requires forall code, d, m :: Takes(b.parser[s], t, code, d, m) ==> code == Reduce && m == r
    ensures Find(p, p.t.cindex, s, c) == None && Find(p, p.t.sindex, s, c) == None && Find(p, p.t.rindex, s, c) == Some(r - 2)
  {
    hide Takes, Find, HasTrialOn;
    PartsFound(b, p, s, c);
    var row := b.parser[s];
    assert ConflictsRead(row, 0, t, p.t.ctable, Find(p, p.t.cindex, s, c));
    NoShiftRead(row, t, Find(p, p.t.sindex, s, c));
    assert ReducesRead(row, 0, t, Find(p, p.t.rindex, s, c));
  }

  lemma CanReduceOn(b: Built, p: Program, stack: seq<int>, pos: nat, t: int, r: int)
    requires Setting(b, p) && AllKept(b) && IsPath(b.A, stack)
    requires IsToken(b, t, TokenAt(p, pos)) && Reducible(b.g, b.A, stack[|stack| - 1], r, t)
    ensures CanGo(p, Conf(stack, pos, Ready), Conf(stack, pos, Reducing(r - 2)))
  {
    hide Canonical, Propagated, Takes, Find, Alone, AllRead, RuleTables, StateTables, HasTrialOn;
    PathTop(b.A, stack);
    var s, c := Top(stack), TokenAt(p, pos);
    StateHasRow(b, s);
    var row := b.parser[s];
    assert RowKept(b.g, b.A, s, row);
    DefaultFound(b, p, s);
    if b.defred[s] != 0 {
      DefaultFits(row, b.defred[s], t, Reduce, r);
    } else {
      AloneOrTrial(row, t, Reduce, r);
      if HasTrialOn(row, t, |row|) {
        var start, i := ListHas(b, p, s, t, c, Reduce, r);
        assert Offers(p, stack, pos, start, i, Conf(stack, pos, Reducing(r - 2)));
      } else {
        ReductionFound(b, p, s, t, c, r);
      }
    }
  }

  lemma NoShiftRead(row: seq<Action>, t: int, x: Option<int>)
    requires ShiftsRead(row, t, x) && forall m :: !Takes(row, t, Shift, 0, m)
    ensures x == None
  {
  }

  // ----- following the parse tree

  ghost predicate AcceptsAt(p: Program, d: Conf) {
    d.at.Reducing? && AtGoal(p, d.stack, d.at.rule) && TokenAt(p, d.pos) == 0
  }

  lemma AcceptsAtHere(p: Program, d: Conf)
    requires TablesFit(p.t) && RunsThrough(p) && AcceptsAt(p, d)
    ensures CanAccept(p, d)
  {
    assert p.verdict(d.at.rule, d.stack) !in {Accept, Error, Abort};
    assert Way(p, 0, d, d) && AcceptsHere(p, d);
  }

  /** The tokens from pos on are x. */
  ghost predicate Ahead(b: Built, p: Program, pos: nat, x: seq<int>) {
    forall j: nat :: j < |x| ==> IsToken(b, x[j], TokenAt(p, pos + j))
  }

  lemma AheadParts(b: Built, p: Program, pos: nat, x: seq<int>, t: int, k: nat)
    requires Ahead(b, p, pos, x + [t]) && k <= |x|
    ensures Ahead(b, p, pos, x[..k] + [if k == |x| then t else x[k]]) && Ahead(b, p, pos + k, x[k..] + [t])
  {
    forall j: nat | j < |x[k..] + [t]| ensures IsToken(b, (x[k..] + [t])[j], TokenAt(p, pos + k + j)) {
      assert (x + [t])[k + j] == (x[k..] + [t])[j];
      assert IsToken(b, (x + [t])[k + j], TokenAt(p, pos + (k + j)));
    }
    var v := x[..k] + [if k == |x| then t else x[k]];
    forall j: nat | j < |v| ensures IsToken(b, v[j], TokenAt(p, pos + j)) {
      assert v[j] == (x + [t])[j];
    }
  }

  /** An item on top of the stack, with token t to follow its rule. */
  ghost predicate OnTop(b: Built, stack: seq<int>, r: int, i: int, t: int)
    requires WellFormed(b.g)
  {
    && IsPath(b.A, stack) && IsState(b.A, Top(stack)) && 3 <= r && InRule(b.g, r, i)
    && i in Items(b.g, b.A, Top(stack)) && Propagated(b.g, b.A, Top(stack), i, t)
  }

  /** From item i on the parser has come to the end of rule r. */
  ghost predicate CameTo(b: Built, p: Program, stack: seq<int>, pos: nat, r: int, i: int, x: seq<int>, t: int, s: seq<int>)
    requires WellFormed(b.g) && TablesFit(p.t) && InRule(b.g, r, i)
  {
    && OnTop(b, s, r, b.g.rrhs[r + 1] - 1, t)
    && |s| == |stack| + (b.g.rrhs[r + 1] - 1 - i) && s[..|stack|] == stack
    && Comes(p, Conf(stack, pos, Ready), Conf(s, pos + |x|, Ready))
  }

  /** Lookahead goes into a nonterminal after the dot. */
  lemma LooksInto(b: Built, q: int, r: int, i: int, t: int, s: int, n: nat, z: seq<int>)
    requires WellFormed(b.g) && Canonical(b.g, b.A) && IsState(b.A, q) && InRule(b.g, r, i) && InRule(b.g, r, i + 1)
    requires i in Items(b.g, b.A, q) && Propagated(b.g, b.A, q, i, t)
    requires IsRuleNo(b.g, s) && b.g.ritem[i] == b.g.rlhs[s] && YieldsN(b.g, n, Rest(b.g, r, i + 1), z)
    ensures b.g.rrhs[s] in Items(b.g, b.A, q)
    ensures Propagated(b.g, b.A, q, b.g.rrhs[s], if z == [] then t else z[0])
  {
    hide Canonical, YieldsN, RuleOk, Rest, Rhs;
    var g, j := b.g, b.g.rrhs[s];
    RuleBounds(g, s);
    ItemsAre(g, b.A, q);
    ClosureStep(g, Kernel(b.A, q), i, s);
    assert StartOf(g, s, g.ritem[i]);
    assert IsStart(g, g.ritem[i], j);
    assert Expands(g, b.A, q, i, j);
    if z == [] {
      NothingYielded(g, n, r, i + 1);
      var m: nat :| PropN(g, b.A, m, q, i, t);
      assert PropN(g, b.A, m + 1, q, j, t);
    } else {
      FirstYielded(g, n, r, i + 1, z);
      assert PropN(g, b.A, 1, q, j, z[0]);
    }
  }

  /** One symbol further in the rule. */
  lemma DotMoves(b: Built, stack: seq<int>, r: int, i: int, t: int, u: int)
    requires WellFormed(b.g) && Canonical(b.g, b.A) && OnTop(b, stack, r, i, t) && InRule(b.g, r, i + 1)
    requires 0 <= i < |b.g.ritem| && Trans(b.A, Top(stack), b.g.ritem[i], u)
    ensures OnTop(b, stack + [u], r, i + 1, t)
  {
    PathMore(b.A, stack, b.g.ritem[i], u);
    StepItem(b.g, b.A, Top(stack), i, u);
    StepLookahead(b.g, b.A, Top(stack), i, u, t);
  }

  ghost predicate RuleOnTop(b: Built, top: seq<int>, s: int, t: int)
    requires WellFormed(b.g)
  {
    3 <= s < |b.g.rlhs| && OnTop(b, top, s, b.g.rrhs[s + 1] - 1, t)
  }

  /** The right-hand side of rule s lies on top of stack. */
  ghost predicate RhsAbove(b: Built, stack: seq<int>, s: int, top: seq<int>)
    requires WellFormed(b.g)
  {
    && IsRuleNo(b.g, s) && stack != []
    && b.g.rrhs[s] < b.g.rrhs[s + 1] && |top| == |stack| + (b.g.rrhs[s + 1] - 1 - b.g.rrhs[s]) && top[..|stack|] == stack
  }

  /** A goal rule was begun in state 0, and the input ends. */
  ghost predicate GoalAtEnd(b: Built, p: Program, stack: seq<int>, pos: nat, s: int) {
    0 <= s < |b.g.rlhs| && stack == [0] && b.g.rlhs[s] == b.g.ntokens + 1 && TokenAt(p, pos) == 0
  }

  /** yyreduce goes back to the state the rule was begun in, unless it accepts. */
  lemma PopsBack(b: Built, p: Program, stack: seq<int>, pos: nat, s: int, t: int, top: seq<int>) returns (u: int)
    requires Setting(b, p) && RunsThrough(p) && RuleOnTop(b, top, s, t) && RhsAbove(b, stack, s, top)
    ensures Trans(b.A, Top(stack), b.g.rlhs[s], u)
    ensures var d := Conf(top, pos, Reducing(s - 2)); AcceptsAt(p, d) || (!GoalAtEnd(b, p, stack, pos, s) && Quiet(p, d) == Some(Conf(stack + [u], pos, Ready)))
  {
    hide Canonical, AllRead, RowSound, Propagated;
    u := ReducedIs(b, p, top, s);
    assert p.verdict(s - 2, top) !in {Accept, Error, Abort};
  }

  /** At the end of rule s the parser can reduce to where it came from, unless it
      can accept. */
  lemma Reduces(b: Built, p: Program, stack: seq<int>, pos: nat, s: int, t: int, top: seq<int>) returns (u: int)
    requires Setting(b, p) && AllKept(b) && RunsThrough(p) && RuleOnTop(b, top, s, t) && RhsAbove(b, stack, s, top)
    requires IsToken(b, t, TokenAt(p, pos))
    ensures Trans(b.A, Top(stack), b.g.rlhs[s], u)
    ensures CanAccept(p, Conf(top, pos, Ready)) || (!GoalAtEnd(b, p, stack, pos, s) && Comes(p, Conf(top, pos, Ready), Conf(stack + [u], pos, Ready)))
  {
    hide CanAccept, Comes, CanGo, AllKept, Setting;
    var c, d := Conf(top, pos, Ready), Conf(top, pos, Reducing(s - 2));
    SettingFits(b, p);
    assert Reducible(b.g, b.A, top[|top| - 1], s, t);
    CanReduceOn(b, p, top, pos, t, s);
    CanComes(p, c, d);
    u := PopsBack(b, p, stack, pos, s, t, top);
    if AcceptsAt(p, d) {
      AcceptsAtHere(p, d);
      CanAcceptOn(p, c, d);
    } else {
      QuietCan(p, d);
      ComesMore(p, c, d, Conf(stack + [u], pos, Ready));
    }
  }

  ghost predicate ShiftsHere(b: Built, p: Program, stack: seq<int>, pos: nat, t: int, u: int) {
    IsPath(b.A, stack) && IsToken(b, t, TokenAt(p, pos)) && Trans(b.A, Top(stack), t, u)
  }

  ghost predicate ReducesHere(b: Built, p: Program, stack: seq<int>, pos: nat, s: int, t: int, top: seq<int>)
    requires WellFormed(b.g)
  {
    IsToken(b, t, TokenAt(p, pos)) && RuleOnTop(b, top, s, t) && RhsAbove(b, stack, s, top)
  }

  ghost predicate ReducesTo(b: Built, p: Program, stack: seq<int>, pos: nat, s: int, top: seq<int>, u: int)
    requires WellFormed(b.g) && TablesFit(p.t)
  {
    && IsRuleNo(b.g, s) && Trans(b.A, Top(stack), b.g.rlhs[s], u)
    && (CanAccept(p, Conf(top, pos, Ready)) || Comes(p, Conf(top, pos, Ready), Conf(stack + [u], pos, Ready)))
    && (GoalAtEnd(b, p, stack, pos, s) ==> CanAccept(p, Conf(top, pos, Ready)))
  }

  /** What the parser can be relied on to do. */
  ghost predicate Steers(b: Built, p: Program) {
    && WellFormed(b.g) && TablesFit(p.t)
    && (forall stack, pos: nat, t, u :: ShiftsHere(b, p, stack, pos, t, u) ==> Comes(p, Conf(stack, pos, Ready), Conf(stack + [u], pos + 1, Ready)))
    && (forall stack, pos: nat, s, t, top :: ReducesHere(b, p, stack, pos, s, t, top) ==> exists u :: ReducesTo(b, p, stack, pos, s, top, u))
  }

  lemma SteersFit(b: Built, p: Program)
    requires Steers(b, p)
    ensures WellFormed(b.g) && TablesFit(p.t)
  {
  }

  lemma TablesSteer(b: Built, p: Program)
    requires Setting(b, p) && AllKept(b) && RunsThrough(p)
    ensures Steers(b, p)
  {
    forall stack, pos: nat, t, u | ShiftsHere(b, p, stack, pos, t, u)
      ensures Comes(p, Conf(stack, pos, Ready), Conf(stack + [u], pos + 1, Ready))
    {
      CanShiftOn(b, p, stack, pos, t, u);
      CanComes(p, Conf(stack, pos, Ready), Conf(stack + [u], pos + 1, Ready));
    }
    forall stack, pos: nat, s, t, top | ReducesHere(b, p, stack, pos, s, t, top) ensures exists u :: ReducesTo(b, p, stack, pos, s, top, u) {
      var u := Reduces(b, p, stack, pos, s, t, top);
      assert ReducesTo(b, p, stack, pos, s, top, u);
    }
  }

  // ----- the induction over the parse tree

  /** The parser follows what the rest of rule r yields. */
  lemma {:induction false} Follow(b: Built, p: Program, n: nat, stack: seq<int>, pos: nat, r: int, i: int, x: seq<int>, t: int) returns (s: seq<int>)
    requires Steers(b, p) && Canonical(b.g, b.A) && OnTop(b, stack, r, i, t)
    requires YieldsN(b.g, n, Rest(b.g, r, i), x) && Ahead(b, p, pos, x + [t])
    ensures CanAccept(p, Conf(stack, pos, Ready)) || CameTo(b, p, stack, pos, r, i, x, t, s)
    decreases n, 1
  {
    RestIs(b.g, r, i);
    if i == b.g.rrhs[r + 1] - 1 {
      s := stack;
      ComesSelf(p, Conf(stack, pos, Ready));
    } else if b.g.ritem[i] < b.g.ntokens {
      s := FollowToken(b, p, n, stack, pos, r, i, x, t);
    } else {
      s := FollowVar(b, p, n, stack, pos, r, i, x, t);
    }
  }

  lemma FollowToken(b: Built, p: Program, n: nat, stack: seq<int>, pos: nat, r: int, i: int, x: seq<int>, t: int) returns (s: seq<int>)
    requires Steers(b, p) && Canonical(b.g, b.A) && OnTop(b, stack, r, i, t)
    requires YieldsN(b.g, n, Rest(b.g, r, i), x) && Ahead(b, p, pos, x + [t])
    requires i != b.g.rrhs[r + 1] - 1 && 0 <= i < |b.g.ritem| && b.g.ritem[i] < b.g.ntokens
    ensures CanAccept(p, Conf(stack, pos, Ready)) || CameTo(b, p, stack, pos, r, i, x, t, s)
    decreases n, 0
  {
    hide Canonical, CanAccept, CameTo, Propagated, ReducesHere, ReducesTo;
    RestIs(b.g, r, i);
    var a := b.g.ritem[i];
    NotEnd(b.g, r, i);
    var u := TransExists(b.g, b.A, Top(stack), i);
    AheadParts(b, p, pos, x, t, 1);
    assert IsToken(b, (x + [t])[0], TokenAt(p, pos + 0));
    assert ShiftsHere(b, p, stack, pos, a, u);
    assert Rest(b.g, r, i)[1..] == Rest(b.g, r, i + 1);
    s := FollowAfter(b, p, n - 1, stack, pos, r, i, x, t, u, 1);
  }

  /** $end stands in rule 2 only. */
  lemma NotEnd(g: Grammar, r: int, i: int)
    requires WellFormed(g) && InRule(g, r, i) && 3 <= r && 0 <= i < |g.ritem| && g.ritem[i] >= 0
    ensures g.ritem[i] > 0
  {
    ItemSymbol(g, i);
    RulesFrom3(g, r);
  }

  lemma RulesFrom3(g: Grammar, r: int)
    requires WellFormed(g) && 3 <= r < |g.rlhs|
    ensures g.rrhs[r] >= 4
  {
    assert RuleOk(g, r);
  }

  /** One symbol, and then on to the end. */
  lemma StepThen(b: Built, p: Program, stack: seq<int>, pos: nat, r: int, i: int, x: seq<int>, t: int, u: int, k: nat, s: seq<int>)
    requires WellFormed(b.g) && TablesFit(p.t) && InRule(b.g, r, i) && InRule(b.g, r, i + 1) && k <= |x|
    requires Comes(p, Conf(stack, pos, Ready), Conf(stack + [u], pos + k, Ready))
    requires CanAccept(p, Conf(stack + [u], pos + k, Ready)) || CameTo(b, p, stack + [u], pos + k, r, i + 1, x[k..], t, s)
    ensures CanAccept(p, Conf(stack, pos, Ready)) || CameTo(b, p, stack, pos, r, i, x, t, s)
  {
    var c, d := Conf(stack, pos, Ready), Conf(stack + [u], pos + k, Ready);
    if CanAccept(p, d) {
      CanAcceptOn(p, c, d);
    } else {
      ComesOn(p, c, d, Conf(s, pos + |x|, Ready));
      assert s[..|stack|] == s[..|stack + [u]|][..|stack|];
    }
  }

  /** How the yield splits at a nonterminal after the dot. */
  ghost predicate Enters(b: Built, p: Program, n: nat, stack: seq<int>, pos: nat, r: int, i: int, x: seq<int>, t: int, q: int, k: int)
    requires WellFormed(b.g) && InRule(b.g, r, i)
  {
    && 3 <= q < |b.g.rlhs| && 0 <= i < |b.g.ritem| && b.g.ritem[i] == b.g.rlhs[q] && 0 <= k <= |x|
    && IsState(b.A, Top(stack)) && b.g.rrhs[q] in Items(b.g, b.A, Top(stack))
    && Propagated(b.g, b.A, Top(stack), b.g.rrhs[q], if k == |x| then t else x[k])
    && YieldsN(b.g, n, Rhs(b.g, q), x[..k]) && InRule(b.g, r, i + 1) && YieldsN(b.g, n, Rest(b.g, r, i + 1), x[k..])
  }

  lemma EnterVar(b: Built, p: Program, n: nat, stack: seq<int>, pos: nat, r: int, i: int, x: seq<int>, t: int) returns (q: int, k: nat)
    requires WellFormed(b.g) && Canonical(b.g, b.A) && OnTop(b, stack, r, i, t) && YieldsN(b.g, n, Rest(b.g, r, i), x)
    requires i != b.g.rrhs[r + 1] - 1 && 0 <= i < |b.g.ritem| && b.g.ritem[i] >= b.g.ntokens
    ensures n > 0 && Enters(b, p, n - 1, stack, pos, r, i, x, t, q, k)
  {
    RestIs(b.g, r, i);
    var a := Rest(b.g, r, i);
    q, k := YieldsParts(b.g, n, a, x);
    assert a[1..] == Rest(b.g, r, i + 1);
    LooksInto(b, Top(stack), r, i, t, q, n - 1, x[k..]);
    UserRule(b.g, r, i, q);
  }

  lemma FollowVar(b: Built, p: Program, n: nat, stack: seq<int>, pos: nat, r: int, i: int, x: seq<int>, t: int) returns (s: seq<int>)
    requires Steers(b, p) && Canonical(b.g, b.A) && OnTop(b, stack, r, i, t)
    requires YieldsN(b.g, n, Rest(b.g, r, i), x) && Ahead(b, p, pos, x + [t])
    requires i != b.g.rrhs[r + 1] - 1 && 0 <= i < |b.g.ritem| && b.g.ritem[i] >= b.g.ntokens
    ensures CanAccept(p, Conf(stack, pos, Ready)) || CameTo(b, p, stack, pos, r, i, x, t, s)
    decreases n, 0
  {
    hide Canonical, CanAccept, CameTo, Comes, Steers, Ahead, WellFormed, YieldsN, Propagated, Items, IsPath, Rest, Rhs;
    SteersFit(b, p);
    var q, k := EnterVar(b, p, n, stack, pos, r, i, x, t);
    AheadParts(b, p, pos, x, t, k);
    var u := FollowRule(b, p, n - 1, stack, pos, q, x[..k], if k == |x| then t else x[k]);
    s := FollowAfter(b, p, n - 1, stack, pos, r, i, x, t, u, k);
  }

  /** Once the nonterminal after the dot is on the stack. */
  lemma FollowAfter(b: Built, p: Program, n: nat, stack: seq<int>, pos: nat, r: int, i: int, x: seq<int>, t: int, u: int, k: nat) returns (s: seq<int>)
    requires Steers(b, p) && Canonical(b.g, b.A) && OnTop(b, stack, r, i, t) && InRule(b.g, r, i + 1)
    requires 0 <= i < |b.g.ritem| && Trans(b.A, Top(stack), b.g.ritem[i], u)
    requires k <= |x| && YieldsN(b.g, n, Rest(b.g, r, i + 1), x[k..]) && Ahead(b, p, pos + k, x[k..] + [t])
    requires CanAccept(p, Conf(stack, pos, Ready)) || Comes(p, Conf(stack, pos, Ready), Conf(stack + [u], pos + k, Ready))
    ensures CanAccept(p, Conf(stack, pos, Ready)) || CameTo(b, p, stack, pos, r, i, x, t, s)
    decreases n, 3
  {
    hide Canonical, CameTo, Ahead, YieldsN, CanAccept;
    if CanAccept(p, Conf(stack, pos, Ready)) {
      s := stack;
    } else {
      DotMoves(b, stack, r, i, t, u);
      s := Follow(b, p, n, stack + [u], pos + k, r, i + 1, x[k..], t);
      StepThen(b, p, stack, pos, r, i, x, t, u, k, s);
    }
  }

  /** $accept stands in no right-hand side. */
  lemma UserRule(g: Grammar, r: int, i: int, q: int)
    requires WellFormed(g) && InRule(g, r, i) && InRule(g, r, i + 1) && IsRuleNo(g, q) && 1 <= i < |g.ritem| && g.ritem[i] == g.rlhs[q]
    ensures 3 <= q
  {
    RuleBounds(g, q);
    ItemSymbol(g, i);
  }

  /** The parser follows what rule q yields, from its first item to the goto. */
  lemma FollowRule(b: Built, p: Program, n: nat, stack: seq<int>, pos: nat, q: int, y: seq<int>, t: int) returns (u: int)
    requires Steers(b, p) && Canonical(b.g, b.A) && IsPath(b.A, stack) && 3 <= q < |b.g.rlhs|
    requires IsState(b.A, Top(stack)) && b.g.rrhs[q] in Items(b.g, b.A, Top(stack)) && Propagated(b.g, b.A, Top(stack), b.g.rrhs[q], t)
    requires YieldsN(b.g, n, Rhs(b.g, q), y) && Ahead(b, p, pos, y + [t])
    ensures Trans(b.A, Top(stack), b.g.rlhs[q], u)
    ensures CanAccept(p, Conf(stack, pos, Ready)) || Comes(p, Conf(stack, pos, Ready), Conf(stack + [u], pos + |y|, Ready))
    decreases n, 2
  {
    RuleBounds(b.g, q);
    RestIs(b.g, q, b.g.rrhs[q]);
    var s := Follow(b, p, n, stack, pos, q, b.g.rrhs[q], y, t);
    if CanAccept(p, Conf(stack, pos, Ready)) {
      u := GotoThere(b.g, b.A, Top(stack), q);
    } else {
      assert IsToken(b, (y + [t])[|y|], TokenAt(p, pos + |y|));
      assert ReducesHere(b, p, stack, pos + |y|, q, t, s);
      u :| ReducesTo(b, p, stack, pos + |y|, q, s, u);
      var c, d := Conf(stack, pos, Ready), Conf(s, pos + |y|, Ready);
      if CanAccept(p, d) {
        CanAcceptOn(p, c, d);
      } else {
        ComesOn(p, c, d, Conf(stack + [u], pos + |y|, Ready));
      }
    }
  }

  // ----- every sentence

  /** Tokens with $end to follow goal: the start of every goal rule is on the
      lookahead $end in state 0. */
  lemma GoalOnEnd(b: Built, q: int)
    requires WellFormed(b.g) && Canonical(b.g, b.A) && IsRuleNo(b.g, q) && b.g.rlhs[q] == b.g.ntokens + 1
    ensures IsState(b.A, 0) && b.g.rrhs[q] in Items(b.g, b.A, 0) && Propagated(b.g, b.A, 0, b.g.rrhs[q], 0)
  {
    var g := b.g;
    RuleBounds(g, q);
    StartItemOnce(g, b.A, 0);
    ItemsAre(g, b.A, 0);
    ClosureStep(g, Kernel(b.A, 0), 1, q);
    FirstToken(g, 2);
    assert StartOf(g, q, g.ritem[1]);
    assert IsStart(g, g.ritem[1], g.rrhs[q]);
    assert Expands(g, b.A, 0, 1, g.rrhs[q]);
    assert PropN(g, b.A, 1, 0, g.rrhs[q], 0);
  }

  /** The rule for the goal that begins the derivation of a sentence. */
  lemma GoalYield(b: Built, w: seq<int>) returns (q: int, n: nat)
    requires WellFormed(b.g) && Sentence(b.g, w)
    ensures 3 <= q < |b.g.rlhs| && b.g.rlhs[q] == b.g.ntokens + 1 && YieldsN(b.g, n, Rhs(b.g, q), w)
  {
    var goal := [b.g.ntokens + 1];
    var m: nat :| DerivesN(b.g, m, goal, w);
    DerivedIsYielded(b.g, m, goal, w);
    var l: nat :| YieldsN(b.g, l, goal, w);
    var k;
    q, k := YieldsParts(b.g, l, goal, w);
    assert goal[1..] == [] && w[k..] == [] && w[..k] == w;
    UserRule(b.g, 2, 1, q);
    n := l - 1;
  }

  lemma SentenceAhead(b: Built, p: Program, w: seq<int>)
    requires b.values != [] && b.values[0] == 0 && Consumed(b, p, w) && TokenAt(p, |w|) == 0
    ensures Ahead(b, p, 0, w + [0])
  {
    forall j: nat | j < |w + [0]| ensures IsToken(b, (w + [0])[j], TokenAt(p, 0 + j)) {
      if j < |w| { assert IsToken(b, w[j], TokenAt(p, j)); }
    }
  }

  lemma SentenceCanAccept(b: Built, p: Program, w: seq<int>)
    requires Steers(b, p) && Canonical(b.g, b.A) && b.values != [] && b.values[0] == 0
    requires Sentence(b.g, w) && Consumed(b, p, w) && TokenAt(p, |w|) == 0
    ensures CanAccept(p, Conf([0], 0, Ready))
  {
    hide Canonical, Ahead, YieldsN, Derives, Consumed, Propagated;
    var q, n := GoalYield(b, w);
    GoalOnEnd(b, q);
    SentenceAhead(b, p, w);
    assert IsPath(b.A, [0]);
    RuleBounds(b.g, q);
    RestIs(b.g, q, b.g.rrhs[q]);
    var s := Follow(b, p, n, [0], 0, q, b.g.rrhs[q], w, 0);
    if !CanAccept(p, Conf([0], 0, Ready)) {
      assert ReducesHere(b, p, [0], |w|, q, 0, s);
      var u :| ReducesTo(b, p, [0], |w|, q, s, u);
      CanAcceptOn(p, Conf([0], 0, Ready), Conf(s, |w|, Ready));
    }
  }

  // ----- with conflicts

  /** Every sentence can be accepted, by some choices at the conflicts. */
  lemma SentenceHasWay(b: Built, p: Program, pos: nat)
    requires Setting(b, p) && AllKept(b) && RunsThrough(p) && b.values[0] == 0 && SentenceUpTo(b, p, pos)
    ensures CanAccept(p, Start.conf)
  {
    var w :| |w| == pos && Consumed(b, p, w) && Sentence(b.g, w);
    TablesSteer(b, p);
    SentenceCanAccept(b, p, w);
  }

  lemma ConflictState(b: Built, p: Program, stack: seq<int>, pos: nat)
    requires Setting(b, p) && ConflictAt(p, stack, pos).Some?
    ensures IsState(b.A, Top(stack)) && b.defred[Top(stack)] == 0
  {
    var s := Top(stack);
    assert Get(p.t.cindex, s) != 0;
    DefaultFound(b, p, s);
  }

  lemma ListsOfTables(b: Built, p: Program)
    requires Setting(b, p)
    ensures ListsHold(p)
  {
    forall stack, pos: nat | ConflictAt(p, stack, pos).Some?
      ensures var start := ConflictAt(p, stack, pos).value; Get(p.t.ctable, start) == -1 ==> Get(p.t.ctable, start + 1) >= 0
    {
      ListOfTables(b, p, stack, pos);
    }
  }

  lemma ListOfTables(b: Built, p: Program, stack: seq<int>, pos: nat)
    requires Setting(b, p) && ConflictAt(p, stack, pos).Some?
    ensures var start := ConflictAt(p, stack, pos).value; Get(p.t.ctable, start) == -1 ==> Get(p.t.ctable, start + 1) >= 0
  {
    hide Canonical;
    ConflictState(b, p, stack, pos);
    var s, start := Top(stack), ConflictAt(p, stack, pos).value;
    var t := WordOfToken(b, p, s, TokenAt(p, pos), start);
    var row := b.parser[s];
    assert RowSound(b.g, b.A, s, row, 0);
    TrialNotEmpty(row, t);
    WordTells(row, 0, t);
    var w := TrialWord(row, 0, t, |row|);
    ReadsEntry(p, start, w + [-1], 0);
    if |w| > 1 { ReadsEntry(p, start, w + [-1], 1); }
  }

  lemma OnlyTwoEnds(b: Built, p: Program, n: nat)
    requires Setting(b, p) && RunsThrough(p) && Run(p, n, Start).conf.at.Done?
    ensures Run(p, n, Start).conf.at in {Done(Accepted), Done(Rejected)}
  {
    hide Setting, BuiltOk, Good, RunsThrough;
    SettingFits(b, p);
    NeverMismatch(p, n);
    StackDerives(b, p, n);
    NeverAborts(p, n);
    match Run(p, n, Start).conf.at.outcome
    case Accepted =>
    case Rejected =>
    case _ => assert false;
  }

  lemma NeverAborts(p: Program, n: nat)
    requires TablesFit(p.t) && RunsThrough(p)
    ensures Run(p, n, Start).conf.at != Done(Aborted)
  {
    var inv := (x: State) => TablesFit(p.t) && RunsThrough(p) && x.conf.at != Done(Aborted);
    forall x: State | inv(x) ensures inv(Next(p, x)) {
      if x.conf.at.Reducing? { assert p.verdict(x.conf.at.rule, x.conf.stack) !in {Accept, Error, Abort}; }
    }
    RunKeeps(p, n, Start, inv);
  }

  /** A grammar none of whose actions are ruled out, with whatever conflicts: if the
      parser comes to an end, it has accepted exactly if the input begins with a
      sentence and ends there. */
  lemma TrialsFindSentences(b: Built, p: Program, n: nat)
    requires Setting(b, p) && AllKept(b) && RunsThrough(p) && NeverDeclares(p) && b.values[0] == 0
    requires Run(p, n, Start).conf.at.Done?
    ensures Run(p, n, Start).conf.at == Done(Accepted) <==> exists pos: nat :: SentenceUpTo(b, p, pos)
  {
    hide Setting, AllKept, RunsThrough, NeverDeclares, SentenceUpTo, CanAccept, ListsHold, BuiltOk;
    SettingFits(b, p);
    ListsOfTables(b, p);
    OnlyTwoEnds(b, p, n);
    SearchDecides(p, n);
    if Run(p, n, Start).conf.at == Done(Accepted) {
      NeverAcceptsEarly(p);
      AcceptsOnlySentences(b, p, n);
    }
    if pos: nat :| SentenceUpTo(b, p, pos) {
      SentenceHasWay(b, p, pos);
    }
  }

  // ----- without conflicts

  ghost predicate NoConflicts(p: Program)
    requires TablesFit(p.t)
  {
    forall stack, pos: nat :: ConflictAt(p, stack, pos) == None
  }

  /** A row with one action a token has nothing kept for trial. */
  lemma NothingOnTrial(b: Built, s: int, t: int)
    requires WellFormed(b.g) && AllFull(b) && 0 <= s < |b.parser|
    ensures !HasTrialOn(b.parser[s], t, |b.parser[s]|)
  {
    assert RowFull(b.g, b.A, s, b.parser[s]);
  }

  lemma NoConflictHere(b: Built, p: Program, stack: seq<int>, pos: nat)
    requires Setting(b, p) && AllFull(b)
    ensures ConflictAt(p, stack, pos) == None
  {
    hide AllFull, HasTrialOn;
    if ConflictAt(p, stack, pos).Some? {
      ConflictState(b, p, stack, pos);
      var t := WordOfToken(b, p, Top(stack), TokenAt(p, pos), ConflictAt(p, stack, pos).value);
      NothingOnTrial(b, Top(stack), t);
    }
  }

  lemma {:induction false} WayIsQuiet(p: Program, n: nat, c: Conf, d: Conf)
    requires TablesFit(p.t) && NoConflicts(p) && Way(p, n, c, d)
    ensures Quietly(p, n, c, d)
  {
    hide Quiet, ConflictAt;
    if n > 0 {
      var e :| CanGo(p, c, e) && Way(p, n - 1, e, d);
      WayIsQuiet(p, n - 1, e, d);
      assert Quiet(p, c) == Some(e);
    }
  }

  lemma QuietAccepts(p: Program) returns (n: nat)
    requires TablesFit(p.t) && RunsThrough(p) && NoConflicts(p) && CanAccept(p, Start.conf)
    ensures Run(p, n, Start).conf.at == Done(Accepted)
  {
    var m: nat, d :| Way(p, m, Start.conf, d) && AcceptsHere(p, d);
    WayIsQuiet(p, m, Start.conf, d);
    QuietRun(p, m, Start, d);
    RunOn(p, m, 1, Start);
    var c := Run(p, m, Start);
    assert p.verdict(d.at.rule, d.stack) !in {Accept, Error, Abort};
    assert Next(p, c).conf.at == Done(Accepted);
    assert Run(p, 1, c) == Run(p, 0, Next(p, c));
    n := m + 1;
  }

  /** Every sentence of an LALR(1) grammar is accepted. */
  lemma AcceptsSentence(b: Built, p: Program, pos: nat) returns (n: nat)
    requires Setting(b, p) && AllFull(b) && RunsThrough(p) && b.values[0] == 0
    requires SentenceUpTo(b, p, pos)
    ensures Run(p, n, Start).conf.at == Done(Accepted)
  {
    hide Canonical, BuiltOk, TablesFor, RunsThrough, SentenceUpTo, CanAccept, AllKept;
    SettingFits(b, p);
    FullIsKept(b);
    SentenceHasWay(b, p, pos);
    forall stack, i: nat ensures ConflictAt(p, stack, i) == None {
      NoConflictHere(b, p, stack, i);
    }
    n := QuietAccepts(p);
  }

  ghost predicate Accepts(p: Program)
    requires TablesFit(p.t)
  {
    exists n: nat :: Run(p, n, Start).conf.at == Done(Accepted)
  }

  /** An LALR(1) parser accepts an input exactly if it begins with a sentence and
      ends there. */
  lemma AcceptsExactlySentences(b: Built, p: Program)
    requires Setting(b, p) && AllFull(b) && RunsThrough(p) && b.values[0] == 0
    ensures Accepts(p) <==> exists pos: nat :: SentenceUpTo(b, p, pos)
  {
    if Accepts(p) {
      var n: nat :| Run(p, n, Start).conf.at == Done(Accepted);
      NeverAcceptsEarly(p);
      AcceptsOnlySentences(b, p, n);
    }
    if pos: nat :| SentenceUpTo(b, p, pos) {
      var n := AcceptsSentence(b, p, pos);
    }
  }

  lemma NeverAcceptsEarly(p: Program)
    requires RunsThrough(p)
    ensures NoEarlyAccept(p)
  {
    forall r, stack ensures p.verdict(r, stack) != Accept {
      assert p.verdict(r, stack) !in {Accept, Error, Abort};
    }
  }
}
