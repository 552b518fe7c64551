/** The parser accepts sentences only: whatever trials it goes through, its stack
    is always a walk of the automaton whose symbols derive the tokens read so far,
    so that no reduction takes more than there is, and what is accepted is
    derived from the goal. */
module Soundness {
  import opened Grammar
  import opened Automaton
  import opened Machine
  import opened Packing
  import opened OutputTables
  import opened TrialParse
  import opened Derivation
  import opened StackPaths
  import opened ParserTables

  /** The first tokens of the input, as symbols. */
  ghost predicate Consumed(b: Built, p: Program, w: seq<int>) {
    forall j :: 0 <= j < |w| ==> IsToken(b, w[j], TokenAt(p, j))
  }

  /** The stack is a walk, and its symbols derive the tokens read. */
  ghost predicate Good(b: Built, p: Program, stack: seq<int>, pos: nat)
    requires WellFormed(b.g)
  {
    IsPath(b.A, stack) && exists w :: DerivesTo(b, p, Word(b.A, stack), pos, w)
  }

  ghost predicate DerivesTo(b: Built, p: Program, word: seq<int>, pos: nat, w: seq<int>)
    requires WellFormed(b.g)
  {
    |w| == pos && Consumed(b, p, w) && Derives(b.g, word, w)
  }

  ghost predicate GoodConf(b: Built, p: Program, c: Conf)
    requires WellFormed(b.g)
  {
    && Good(b, p, c.stack, c.pos) && c.at != Done(Underflow)
    && (c.at.Reducing? ==> Completed(b.g, b.A, Top(c.stack), c.at.rule + 2))
  }

  ghost predicate GoodPoints(b: Built, p: Program, qs: seq<Point>)
    requires WellFormed(b.g)
  {
    forall k :: 0 <= k < |qs| ==> Good(b, p, qs[k].stack, qs[k].pos)
  }

  ghost predicate GoodState(b: Built, p: Program, a: State)
    requires WellFormed(b.g)
  {
    GoodConf(b, p, a.conf) && GoodPoints(b, p, a.trail) && GoodPoints(b, p, a.plan)
  }

  // ----- shift and reduce

  lemma ShiftGood(b: Built, p: Program, stack: seq<int>, pos: nat, t: int, q: int)
    requires WellFormed(b.g) && Good(b, p, stack, pos)
    requires IsToken(b, t, TokenAt(p, pos)) && Trans(b.A, Top(stack), t, q)
    ensures Good(b, p, stack + [q], pos + 1)
  {
    var w :| DerivesTo(b, p, Word(b.A, stack), pos, w);
    PathMore(b.A, stack, t, q);
    ShiftDerives(b.g, Word(b.A, stack), w, t);
    assert DerivesTo(b, p, Word(b.A, stack + [q]), pos + 1, w + [t]);
  }

  /** The right-hand side is on the stack, above a state with a goto. */
  lemma HandleOf(b: Built, stack: seq<int>, r: int) returns (u: int)
    requires WellFormed(b.g) && Canonical(b.g, b.A) && IsPath(b.A, stack) && Completed(b.g, b.A, stack[|stack| - 1], r)
    ensures var m := b.g.rrhs[r + 1] - b.g.rrhs[r] - 1;
      && 0 <= m < |stack| && IsPath(b.A, stack[..|stack| - m])
      && Trans(b.A, stack[|stack| - 1 - m], b.g.rlhs[r], u)
      && Word(b.A, stack) == Word(b.A, stack[..|stack| - m]) + Rhs(b.g, r)
  {
    hide Canonical, Items;
    var j := b.g.rrhs[r + 1] - 1;
    RuleBounds(b.g, r);
    Handle(b.g, b.A, stack, r, j);
    var m := j - b.g.rrhs[r];
    WordPrefix(b.A, stack, |stack| - m);
    u := GotoThere(b.g, b.A, stack[|stack| - 1 - m], r);
  }

  lemma RuleTable(b: Built, p: Program, r: int)
    requires TablesFor(b, p.t) && WellFormed(b.g) && 3 <= r < |b.g.rlhs|
    ensures Get(p.t.len, r - 2) == b.g.rrhs[r + 1] - b.g.rrhs[r] - 1
    ensures Get(p.t.lhs, r - 2) == b.g.rlhs[r] - (b.g.ntokens + 1)
    ensures b.g.ntokens < b.g.rlhs[r] < b.g.nsyms
  {
    assert RuleOk(b.g, r);
  }

  /** What yyreduce leaves: the goto on the left-hand side, also for the goal. */
  lemma ReducedIs(b: Built, p: Program, stack: seq<int>, r: int) returns (u: int)
    requires BuiltOk(b) && Canonical(b.g, b.A) && TablesFor(b, p.t) && TablesFit(p.t) && IsPath(b.A, stack)
    requires Completed(b.g, b.A, stack[|stack| - 1], r)
    ensures var m := b.g.rrhs[r + 1] - b.g.rrhs[r] - 1;
      && 0 <= m < |stack| && IsPath(b.A, stack[..|stack| - m])
      && Trans(b.A, stack[|stack| - 1 - m], b.g.rlhs[r], u)
      && Reduced(p, stack, r - 2) == Some(stack[..|stack| - m] + [u])
      && Word(b.A, stack) == Word(b.A, stack[..|stack| - m]) + Rhs(b.g, r)
      && (AtGoal(p, stack, r - 2) <==> m == |stack| - 1 && b.g.rlhs[r] == b.g.ntokens + 1)
  {
    hide Canonical, AllRead, RowSound;
    u := HandleOf(b, stack, r);
    RuleTable(b, p, r);
    var m := b.g.rrhs[r + 1] - b.g.rrhs[r] - 1;
    var rest := stack[..|stack| - m];
    OnlyBottom(b.g, b.A, rest);
    PathTop(b.A, rest);
    if Top(rest) == 0 && b.g.rlhs[r] == b.g.ntokens + 1 {
      TransUnique(b.g, b.A, 0, b.g.ntokens + 1, u, b.final);
    } else {
      GotoThrough(b, p, Top(rest), b.g.rlhs[r], u);
    }
  }

  lemma FoldedGood(b: Built, p: Program, stack: seq<int>, pos: nat, rest: seq<int>, r: int, u: int)
    requires WellFormed(b.g) && 3 <= r < |b.g.rlhs| && Good(b, p, stack, pos)
    requires IsPath(b.A, rest) && Trans(b.A, rest[|rest| - 1], b.g.rlhs[r], u)
    requires Word(b.A, stack) == Word(b.A, rest) + Rhs(b.g, r)
    ensures Good(b, p, rest + [u], pos) && Word(b.A, rest + [u]) == Word(b.A, rest) + [b.g.rlhs[r]]
  {
    var w :| DerivesTo(b, p, Word(b.A, stack), pos, w);
    ReduceDerives(b.g, Word(b.A, rest), r, w);
    PathTop(b.A, rest);
    PathMore(b.A, rest, b.g.rlhs[r], u);
    assert DerivesTo(b, p, Word(b.A, rest + [u]), pos, w);
  }

  lemma ReduceGood(b: Built, p: Program, stack: seq<int>, pos: nat, r: int)
    requires BuiltOk(b) && Canonical(b.g, b.A) && TablesFor(b, p.t) && TablesFit(p.t)
    requires Good(b, p, stack, pos) && Completed(b.g, b.A, Top(stack), r)
    ensures Reduced(p, stack, r - 2).Some? && Good(b, p, Reduced(p, stack, r - 2).value, pos)
    ensures AtGoal(p, stack, r - 2) ==> Word(b.A, Reduced(p, stack, r - 2).value) == [b.g.ntokens + 1]
  {
    hide Canonical, TablesFor, AllRead, AtGoal, Reduced, RowSound, DerivesTo, IsPath;
    TopIsState(b, p, stack, pos);
    var u := ReducedIs(b, p, stack, r);
    var m := b.g.rrhs[r + 1] - b.g.rrhs[r] - 1;
    FoldedGood(b, p, stack, pos, stack[..|stack| - m], r, u);
  }

  // ----- every step

  ghost predicate Setting(b: Built, p: Program) {
    BuiltOk(b) && Canonical(b.g, b.A) && TablesFor(b, p.t) && TablesFit(p.t)
  }

  lemma SettingFits(b: Built, p: Program)
    requires Setting(b, p)
    ensures WellFormed(b.g) && TablesFit(p.t) && |b.values| == b.g.ntokens
  {
  }

  lemma TopIsState(b: Built, p: Program, stack: seq<int>, pos: nat)
    requires WellFormed(b.g) && Good(b, p, stack, pos)
    ensures stack != [] && Top(stack) == stack[|stack| - 1] && IsState(b.A, Top(stack))
  {
    PathTop(b.A, stack);
  }

  lemma PlainGood(b: Built, p: Program, stack: seq<int>, pos: nat)
    requires Setting(b, p) && Good(b, p, stack, pos)
    ensures GoodConf(b, p, Plain(p, stack, pos))
  {
    TopIsState(b, p, stack, pos);
    var s := Top(stack);
    DefaultFound(b, p, s);
    if Get(p.t.defred, s) == 0 {
      if Find(p, p.t.sindex, s, TokenAt(p, pos)).Some? {
        var q := Find(p, p.t.sindex, s, TokenAt(p, pos)).value;
        var t := ShiftFound(b, p, s, TokenAt(p, pos), q);
        ShiftGood(b, p, stack, pos, t, q);
      } else if Find(p, p.t.rindex, s, TokenAt(p, pos)).Some? {
        ReduceFound(b, p, s, TokenAt(p, pos), Find(p, p.t.rindex, s, TokenAt(p, pos)).value);
      }
    }
  }

  lemma ChosenGood(b: Built, p: Program, q: Point)
    requires Setting(b, p) && Good(b, p, q.stack, q.pos) && AtConflict(p, q)
    ensures GoodConf(b, p, After(p, q))
  {
    TopIsState(b, p, q.stack, q.pos);
    var start := ConflictAt(p, q.stack, q.pos).value;
    var t := ChoiceFound(b, p, Top(q.stack), TokenAt(p, q.pos), start, q.choice);
    if q.choice == start {
      ShiftGood(b, p, q.stack, q.pos, t, Get(p.t.ctable, q.choice));
    }
  }

  lemma ReadyGood(b: Built, p: Program, a: State)
    requires Setting(b, p) && GoodState(b, p, a) && Sound(p, a) && a.conf.at == Ready
    ensures GoodState(b, p, Next(p, a))
  {
    hide BuiltOk, Canonical, TablesFor, Good, Completed, TrialOk;
    SettingFits(b, p);
    var c := a.conf;
    if ConflictAt(p, c.stack, c.pos).None? {
      PlainGood(b, p, c.stack, c.pos);
    } else if a.plan != [] {
      ReplayStep(p, a);
      ChosenGood(b, p, a.plan[0]);
    } else {
      ChosenGood(b, p, Point(c.stack, c.pos, FirstChoice(p, ConflictAt(p, c.stack, c.pos).value)));
    }
  }

  lemma CommitGood(b: Built, p: Program, a: State)
    requires WellFormed(b.g) && GoodState(b, p, a) && a.trail != []
    ensures GoodState(b, p, Commit(a))
  {
  }

  lemma PoppedGood(b: Built, p: Program, a: State, r: int)
    requires Setting(b, p) && GoodState(b, p, a) && a.conf.at == Reducing(r)
    ensures GoodState(b, p, Popped(p, a, r))
  {
    var c := a.conf;
    TopIsState(b, p, c.stack, c.pos);
    ReduceGood(b, p, c.stack, c.pos, r + 2);
    var d := Conf(Reduced(p, c.stack, r).value, c.pos, Ready);
    assert GoodState(b, p, a.(conf := d));
    if a.trail != [] { CommitGood(b, p, a.(conf := d)); }
  }

  lemma ReducingGood(b: Built, p: Program, a: State)
    requires Setting(b, p) && GoodState(b, p, a) && a.conf.at.Reducing?
    ensures GoodState(b, p, Next(p, a))
  {
    hide AllRead, Canonical, TablesFor, Good, Completed, Popped, Reduced;
    if a.trail != [] { CommitGood(b, p, a); }
    PoppedGood(b, p, a, a.conf.at.rule);
  }

  lemma PointsAfter(b: Built, p: Program, qs: seq<Point>, n: nat, choice: int)
    requires WellFormed(b.g) && GoodPoints(b, p, qs) && n < |qs|
    ensures GoodPoints(b, p, qs[..n]) && GoodPoints(b, p, qs[..n] + [qs[n].(choice := choice)])
  {
    assert qs[n].(choice := choice).stack == qs[n].stack;
  }

  lemma FailingGood(b: Built, p: Program, a: State)
    requires Setting(b, p) && GoodState(b, p, a) && a.conf.at == Failing && a.plan == []
    requires a.trail != [] ==> AtConflict(p, a.trail[|a.trail| - 1])
    ensures GoodState(b, p, Next(p, a))
  {
    hide BuiltOk, Canonical, TablesFor, Good, ConflictAt, Listed;
    SettingFits(b, p);
    if a.trail != [] {
      var n := |a.trail| - 1;
      var q := a.trail[n].(choice := a.trail[n].choice + 1);
      PointsAfter(b, p, a.trail, n, q.choice);
      if Get(p.t.ctable, q.choice) >= 0 {
        NextChoice(p, a.trail[n]);
        ChosenGood(b, p, q);
      }
    }
  }

  ghost predicate Holds(b: Built, p: Program, a: State) {
    Setting(b, p) && GoodState(b, p, a) && Sound(p, a)
  }

  lemma NextGood(b: Built, p: Program, a: State)
    requires Setting(b, p) && GoodState(b, p, a) && Sound(p, a)
    ensures GoodState(b, p, Next(p, a))
  {
    if a.conf.at == Failing && a.plan != [] { ReplayStep(p, a); }
    match a.conf.at
    case Ready => ReadyGood(b, p, a);
    case Reducing(_) => ReducingGood(b, p, a);
    case Failing => FailingGood(b, p, a);
    case Done(_) =>
  }

  lemma NextHolds(b: Built, p: Program, a: State)
    requires Holds(b, p, a)
    ensures Holds(b, p, Next(p, a))
  {
    NextGood(b, p, a);
    NextSound(p, a);
  }

  lemma StartGood(b: Built, p: Program)
    requires Setting(b, p)
    ensures GoodState(b, p, Start)
  {
    assert IsPath(b.A, [0]);
    assert DerivesN(b.g, 0, [], []);
    assert DerivesTo(b, p, Word(b.A, [0]), 0, []);
  }

  lemma RunGood(b: Built, p: Program, n: nat)
    requires Setting(b, p)
    ensures Holds(b, p, Run(p, n, Start))
  {
    StartGood(b, p);
    var inv := x => Holds(b, p, x);
    forall x | inv(x) ensures inv(Next(p, x)) {
      NextHolds(b, p, x);
    }
    RunKeeps(p, n, Start, inv);
  }

  /** In every run the stack spells symbols that derive the tokens read, and no
      reduction takes more from the stack than there is. */
  lemma StackDerives(b: Built, p: Program, n: nat)
    requires Setting(b, p)
    ensures var c := Run(p, n, Start).conf; c.at != Done(Underflow) && Good(b, p, c.stack, c.pos)
  {
    RunGood(b, p, n);
  }

  // ----- acceptance

  /** The tokens before position pos are a sentence, and the input ends there. */
  ghost predicate SentenceUpTo(b: Built, p: Program, pos: nat)
    requires WellFormed(b.g)
  {
    TokenAt(p, pos) == 0 && exists w :: |w| == pos && Consumed(b, p, w) && Sentence(b.g, w)
  }

  /** No rule code accepts by itself. */
  ghost predicate NoEarlyAccept(p: Program) {
    forall r, stack :: p.verdict(r, stack) != Accept
  }

  /** Acceptance comes with the reduction to the goal before the end. */
  lemma AcceptsAtGoal(p: Program, a: State)
    requires TablesFit(p.t) && NoEarlyAccept(p)
    requires a.conf.at != Done(Accepted) && Next(p, a).conf.at == Done(Accepted)
    ensures a.conf.at.Reducing? && AtGoal(p, a.conf.stack, a.conf.at.rule) && TokenAt(p, a.conf.pos) == 0
    ensures Next(p, a).conf.pos == a.conf.pos
  {
    assert a.conf.at.Reducing? ==> p.verdict(a.conf.at.rule, a.conf.stack) != Accept;
  }

  lemma GoalSentence(b: Built, p: Program, c: Conf)
    requires Setting(b, p) && GoodConf(b, p, c) && c.at.Reducing? && AtGoal(p, c.stack, c.at.rule)
    requires TokenAt(p, c.pos) == 0
    ensures SentenceUpTo(b, p, c.pos)
  {
    hide BuiltOk, Canonical, TablesFor, Reduced, Completed, IsPath, AtGoal, Derives;
    SettingFits(b, p);
    TopIsState(b, p, c.stack, c.pos);
    ReduceGood(b, p, c.stack, c.pos, c.at.rule + 2);
    var stack := Reduced(p, c.stack, c.at.rule).value;
    var w :| DerivesTo(b, p, Word(b.A, stack), c.pos, w);
    forall j | 0 <= j < |w| ensures 0 <= w[j] < b.g.ntokens {
      assert IsToken(b, w[j], TokenAt(p, j));
    }
  }

  lemma DoneStays(p: Program, a: State)
    requires TablesFit(p.t) && a.conf.at.Done?
    ensures Next(p, a) == a
  {
  }

  /** Only sentences are accepted. */
  lemma {:induction false} AcceptsOnlySentences(b: Built, p: Program, n: nat)
    requires Setting(b, p) && NoEarlyAccept(p)
    requires Run(p, n, Start).conf.at == Done(Accepted)
    ensures SentenceUpTo(b, p, Run(p, n, Start).conf.pos)
  {
    hide BuiltOk, Canonical, TablesFor, Next, AtGoal, Good, SentenceUpTo, Sound, NoEarlyAccept;
    SettingFits(b, p);
    if n > 0 {
      LastStep(p, n - 1);
      var a := Run(p, n - 1, Start);
      if a.conf.at == Done(Accepted) {
        DoneStays(p, a);
        AcceptsOnlySentences(b, p, n - 1);
      } else {
        RunGood(b, p, n - 1);
        AcceptsAtGoal(p, a);
        GoalSentence(b, p, a.conf);
      }
    }
  }

  lemma LastStep(p: Program, n: nat)
    requires TablesFit(p.t)
    ensures Run(p, n + 1, Start) == Next(p, Run(p, n, Start))
  {
    RunOn(p, n, 1, Start);
  }
}
