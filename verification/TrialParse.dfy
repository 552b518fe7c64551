/** The generated parser (skeleton.c, yyparse) as a state machine over its
    labels: at a conflict it saves its stack and token position and goes on with
    the first choice (a trial), an error takes the next choice of the latest
    conflict, and once the trial is declared valid, everything from the first
    conflict on is parsed again along the recorded choices. Token positions are
    counted from the start of the input here; how the parser gets by with a queue
    of lexemes is the subject of module ParserRuntime.
    Semantic values, text positions and recovery from a syntax error are left out. */
module TrialParse {
  import opened Packing

  /** The emitted tables. */
  datatype Tables = Tables(
    defred: seq<int>, sindex: seq<int>, rindex: seq<int>, cindex: seq<int>, gindex: seq<int>, dgoto: seq<int>,
    table: seq<int>, check: seq<int>, high: int, ctable: seq<int>, len: seq<int>, lhs: seq<int>, final: int)

  /** What the code of a rule does: run through, YYVALID, YYVALID_NESTED,
      YYACCEPT, YYERROR or YYABORT. */
  datatype Verdict = Go | Valid | ValidNested | Accept | Error | Abort

  /** Tables, rule code (told by the rule and the state stack) and the tokens
      yylex delivers, one after the other. */
  datatype Program = Program(t: Tables, verdict: (int, seq<int>) -> Verdict, input: nat -> int)

  ghost predicate TablesFit(t: Tables) {
    t.high < |t.table| == |t.check|
  }

  datatype Outcome = Accepted | Rejected | Aborted | Mismatch | Underflow

  /** Where the parser is: at yyloop, at yyreduce, at yyerrhandler, or done. */
  datatype Label = Ready | Reducing(rule: int) | Failing | Done(outcome: Outcome)

  datatype Conf = Conf(stack: seq<int>, pos: nat, at: Label)

  /** A conflict met: the stack and token position there and the choice, an
      index into the conflict table. */
  datatype Point = Point(stack: seq<int>, pos: nat, choice: int)

  /** trail is the list at yyps->save, plan the list at yypath; oldest first. */
  datatype State = State(conf: Conf, trail: seq<Point>, plan: seq<Point>)

  /** A table entry; 0 past the end. */
  function Get(s: seq<int>, i: int): int {
    if 0 <= i < |s| then s[i] else 0
  }

  function Top(stack: seq<int>): int {
    if stack == [] then 0 else stack[|stack| - 1]
  }

  /** The token at a position; anything negative is the end of input. */
  function TokenAt(p: Program, pos: nat): nat {
    if p.input(pos) < 0 then 0 else p.input(pos)
  }

  function Find(p: Program, index: seq<int>, row: int, key: int): Option<int>
    requires TablesFit(p.t)
  {
    Lookup(Get(index, row), p.t.table, p.t.check, p.t.high, key)
  }

  /** The list of choices of a conflict begins with a shift, or with -1 if there
      is none. */
  function FirstChoice(p: Program, start: int): int {
    if Get(p.t.ctable, start) == -1 then start + 1 else start
  }

  function Chosen(p: Program, stack: seq<int>, pos: nat, start: int, choice: int): Conf {
    var e := Get(p.t.ctable, choice);
    if choice == start then Conf(stack + [e], pos + 1, Ready) else Conf(stack, pos, Reducing(e))
  }

  function Goto(p: Program, s: int, lhs: int): int
    requires TablesFit(p.t)
  {
    match Find(p, p.t.gindex, lhs, s)
    case Some(q) => q
    case None => Get(p.t.dgoto, lhs)
  }

  // ----- one step

  /** The start of the list of choices, at a conflict. */
  function ConflictAt(p: Program, stack: seq<int>, pos: nat): Option<int>
    requires TablesFit(p.t)
  {
    if Get(p.t.defred, Top(stack)) != 0 then None else Find(p, p.t.cindex, Top(stack), TokenAt(p, pos))
  }

  /** yyloop, where there is no conflict. */
  function Plain(p: Program, stack: seq<int>, pos: nat): Conf
    requires TablesFit(p.t)
  {
    var s := Top(stack);
    if Get(p.t.defred, s) != 0 then Conf(stack, pos, Reducing(Get(p.t.defred, s)))
    else match Find(p, p.t.sindex, s, TokenAt(p, pos))
      case Some(q) => Conf(stack + [q], pos + 1, Ready)
      case None =>
        match Find(p, p.t.rindex, s, TokenAt(p, pos))
        case Some(r) => Conf(stack, pos, Reducing(r))
        case None => Conf(stack, pos, Failing)
  }

  function AtReady(p: Program, a: State): State
    requires TablesFit(p.t)
  {
    var c := a.conf;
    match ConflictAt(p, c.stack, c.pos)
    case None => a.(conf := Plain(p, c.stack, c.pos))
    case Some(start) =>
      if a.plan != [] then
        var next := a.plan[0];
        if Top(next.stack) != Top(c.stack) then State(c.(at := Done(Mismatch)), a.trail, a.plan[1..])
        else State(Chosen(p, c.stack, c.pos, start, next.choice), a.trail, a.plan[1..])
      else
        var choice := FirstChoice(p, start);
        State(Chosen(p, c.stack, c.pos, start, choice), a.trail + [Point(c.stack, c.pos, choice)], [])
  }

  /** The trial is good: start again from its first conflict. */
  function Commit(a: State): State
    requires a.trail != []
  {
    if a.plan != [] then a.(conf := a.conf.(at := Done(Mismatch)))
    else State(Conf(a.trail[0].stack, a.trail[0].pos, Ready), [], a.trail)
  }

  function AcceptNow(a: State): State {
    if a.trail != [] then Commit(a) else a.(conf := a.conf.(at := Done(Accepted)))
  }

  /** The stack after rule r, or nothing if it is too short. */
  function Reduced(p: Program, stack: seq<int>, r: int): Option<seq<int>>
    requires TablesFit(p.t)
  {
    var m := Get(p.t.len, r);
    if m < 0 || m >= |stack| then None
    else
      var rest := stack[..|stack| - m];
      var lhs := Get(p.t.lhs, r);
      if Top(rest) == 0 && lhs == 0 then Some(rest + [p.t.final])
      else Some(rest + [Goto(p, Top(rest), lhs)])
  }

  /** The goal is reduced to state 0. */
  predicate AtGoal(p: Program, stack: seq<int>, r: int) {
    var m := Get(p.t.len, r);
    0 <= m < |stack| && Top(stack[..|stack| - m]) == 0 && Get(p.t.lhs, r) == 0
  }

  /** The code of the rule ends the trial. */
  predicate Declares(p: Program, a: State, r: int) {
    var v := p.verdict(r, a.conf.stack);
    (v == Valid && a.trail != []) || (v == ValidNested && |a.trail| == 1)
  }

  /** The rule itself; the goal before the end of input accepts. */
  function Popped(p: Program, a: State, r: int): State
    requires TablesFit(p.t)
  {
    match Reduced(p, a.conf.stack, r)
    case None => a.(conf := a.conf.(at := Done(Underflow)))
    case Some(stack) =>
      var b := a.(conf := Conf(stack, a.conf.pos, Ready));
      if AtGoal(p, a.conf.stack, r) && TokenAt(p, a.conf.pos) == 0 then AcceptNow(b) else b
  }

  function AtReduce(p: Program, a: State, r: int): State
    requires TablesFit(p.t)
  {
    var c := a.conf;
    var v := p.verdict(r, c.stack);
    if Declares(p, a, r) then Commit(a)
    else if v == Accept then AcceptNow(a)
    else if v == Error then a.(conf := c.(at := Failing))
    else if v == Abort then a.(conf := c.(at := Done(Aborted)))
    else Popped(p, a, r)
  }

  /** Back to the latest conflict and its next choice, which is never a shift. */
  function AtFailing(p: Program, a: State): State {
    if a.trail == [] then a.(conf := a.conf.(at := Done(Rejected)))
    else
      var n := |a.trail| - 1;
      var last := a.trail[n];
      var choice := last.choice + 1;
      var e := Get(p.t.ctable, choice);
      if e >= 0 then State(Conf(last.stack, last.pos, Reducing(e)), a.trail[..n] + [last.(choice := choice)], a.plan)
      else State(Conf(last.stack, last.pos, Failing), a.trail[..n], a.plan)
  }

  function Next(p: Program, a: State): State
    requires TablesFit(p.t)
  {
    match a.conf.at
    case Ready => AtReady(p, a)
    case Reducing(r) => AtReduce(p, a, r)
    case Failing => AtFailing(p, a)
    case Done(_) => a
  }

  const Start: State := State(Conf([0], 0, Ready), [], [])

  /** n steps from a. */
  function Run(p: Program, n: nat, a: State): State
    requires TablesFit(p.t)
  {
    if n == 0 then a else Run(p, n - 1, Next(p, a))
  }

  // ----- what rule code can do

  /** Back to the first conflict, to parse along the recorded choices. */
  ghost predicate StartsOver(a: State, b: State) {
    a.trail != [] && b == State(Conf(a.trail[0].stack, a.trail[0].pos, Ready), [], a.trail)
  }

  /** YYVALID commits a trial however deep it is nested; YYVALID_NESTED only one with
      a single open conflict, and elsewhere both are as if the rule said nothing.
      YYACCEPT commits a trial or accepts, YYERROR is an error and YYABORT the end. */
  lemma VerdictsIn(p: Program, a: State, r: int)
    requires TablesFit(p.t) && a.conf.at == Reducing(r) && a.plan == []
    ensures
      var v, b := p.verdict(r, a.conf.stack), Next(p, a);
      && ((v == Valid && |a.trail| >= 1) || (v == ValidNested && |a.trail| == 1) || (v == Accept && |a.trail| >= 1) ==> StartsOver(a, b))
      && ((v == Valid && a.trail == []) || (v == ValidNested && |a.trail| != 1) ==> b == Next(p.(verdict := (q, stack) => Go), a))
      && (v == Accept && a.trail == [] ==> b == a.(conf := a.conf.(at := Done(Accepted))))
      && (v == Error ==> b == a.(conf := a.conf.(at := Failing)))
      && (v == Abort ==> b == a.(conf := a.conf.(at := Done(Aborted))))
  {
    var q := p.(verdict := (r, stack) => Go);
    assert forall s: int, lhs: int :: Goto(p, s, lhs) == Goto(q, s, lhs);
    assert Reduced(p, a.conf.stack, r) == Reduced(q, a.conf.stack, r) && AtGoal(p, a.conf.stack, r) == AtGoal(q, a.conf.stack, r);
  }

  // ----- steps in which nothing is decided

  /** A step that any pass over these tokens takes alike: no conflict, no error,
      no end. */
  function Quiet(p: Program, c: Conf): Option<Conf>
    requires TablesFit(p.t)
  {
    match c.at
    case Ready =>
      if ConflictAt(p, c.stack, c.pos).Some? || Plain(p, c.stack, c.pos).at == Failing then None
      else Some(Plain(p, c.stack, c.pos))
    case Reducing(r) =>
      if p.verdict(r, c.stack) in {Accept, Error, Abort} || Reduced(p, c.stack, r).None?
        || (AtGoal(p, c.stack, r) && TokenAt(p, c.pos) == 0) then None
      else Some(Conf(Reduced(p, c.stack, r).value, c.pos, Ready))
    case _ => None
  }

  /** n quiet steps lead from c to d. */
  ghost predicate Quietly(p: Program, n: nat, c: Conf, d: Conf)
    requires TablesFit(p.t)
  {
    if n == 0 then c == d else Quiet(p, c).Some? && Quietly(p, n - 1, Quiet(p, c).value, d)
  }

  lemma {:induction false} QuietlyMore(p: Program, n: nat, c: Conf, d: Conf)
    requires TablesFit(p.t) && Quietly(p, n, c, d) && Quiet(p, d).Some?
    ensures Quietly(p, n + 1, c, Quiet(p, d).value)
  {
    if n > 0 { QuietlyMore(p, n - 1, Quiet(p, c).value, d); }
  }

  ghost predicate Joined(p: Program, c: Conf, d: Conf)
    requires TablesFit(p.t)
  {
    exists n: nat :: Quietly(p, n, c, d)
  }

  // ----- what holds in every run

  function Before(q: Point): Conf {
    Conf(q.stack, q.pos, Ready)
  }

  /** The choice is one of the list at start: at start itself there is none if -1
      stands there, and behind the first no end mark comes before it. */
  ghost predicate Listed(p: Program, start: int, choice: int) {
    && start <= choice && (choice == start ==> Get(p.t.ctable, start) != -1)
    && forall k :: start < k <= choice && !(k == start + 1 && Get(p.t.ctable, start) == -1) ==> Get(p.t.ctable, k) >= 0
  }

  ghost predicate AtConflict(p: Program, q: Point)
    requires TablesFit(p.t)
  {
    q.stack != [] && ConflictAt(p, q.stack, q.pos).Some? && Listed(p, ConflictAt(p, q.stack, q.pos).value, q.choice)
  }

  /** Where the choice recorded in q leads. */
  function After(p: Program, q: Point): Conf
    requires TablesFit(p.t) && ConflictAt(p, q.stack, q.pos).Some?
  {
    Chosen(p, q.stack, q.pos, ConflictAt(p, q.stack, q.pos).value, q.choice)
  }

  ghost predicate Leads(p: Program, q: Point, c: Conf)
    requires TablesFit(p.t)
  {
    AtConflict(p, q) && Joined(p, After(p, q), c)
  }

  /** Each recorded choice leads to the next recorded conflict, and no other
      conflict lies between. */
  ghost predicate Linked(p: Program, qs: seq<Point>)
    requires TablesFit(p.t)
  {
    && (forall k :: 0 <= k < |qs| ==> AtConflict(p, qs[k]))
    && (forall k :: 0 <= k < |qs| - 1 ==> Leads(p, qs[k], Before(qs[k + 1])))
  }

  /** The last choice of the trail leads to where the trial is. */
  ghost predicate TrialOk(p: Program, a: State)
    requires TablesFit(p.t)
  {
    && Linked(p, a.trail)
    && (a.trail != [] && (a.conf.at.Ready? || a.conf.at.Reducing?) ==> Leads(p, a.trail[|a.trail| - 1], a.conf))
  }

  /** The second pass is on its way to the next recorded conflict. */
  ghost predicate ReplayOk(p: Program, a: State)
    requires TablesFit(p.t)
  {
    && Linked(p, a.plan)
    && (a.plan != [] ==> a.trail == [] && Joined(p, a.conf, Before(a.plan[0])))
  }

  ghost predicate Sound(p: Program, a: State)
    requires TablesFit(p.t)
  {
    a.conf.stack != [] && TrialOk(p, a) && ReplayOk(p, a) && a.conf.at != Done(Mismatch)
  }

  lemma LinkedParts(p: Program, qs: seq<Point>, n: nat)
    requires TablesFit(p.t) && Linked(p, qs) && n <= |qs|
    ensures Linked(p, qs[..n]) && (qs != [] ==> Linked(p, qs[1..]))
  {
    if qs != [] {
      var rs := qs[1..];
      forall k | 0 <= k < |rs| - 1 ensures Leads(p, rs[k], Before(rs[k + 1])) {
        assert Leads(p, qs[k + 1], Before(qs[k + 2]));
      }
    }
  }

  lemma LinkedMore(p: Program, qs: seq<Point>, q: Point)
    requires TablesFit(p.t) && Linked(p, qs) && AtConflict(p, q)
    requires qs != [] ==> Leads(p, qs[|qs| - 1], Before(q))
    ensures Linked(p, qs + [q])
  {
    var rs := qs + [q];
    forall k | 0 <= k < |rs| - 1 ensures Leads(p, rs[k], Before(rs[k + 1])) {
      if k < |qs| - 1 { assert Leads(p, qs[k], Before(qs[k + 1])); }
    }
  }

  lemma JoinedSelf(p: Program, c: Conf)
    requires TablesFit(p.t)
    ensures Joined(p, c, c)
  {
    assert Quietly(p, 0, c, c);
  }

  lemma JoinedMore(p: Program, c: Conf, d: Conf)
    requires TablesFit(p.t) && Joined(p, c, d) && Quiet(p, d).Some?
    ensures Joined(p, c, Quiet(p, d).value)
  {
    var n: nat :| Quietly(p, n, c, d);
    QuietlyMore(p, n, c, d);
  }

  /** A quiet step keeps the trial in line. */
  lemma QuietTrial(p: Program, a: State)
    requires TablesFit(p.t) && Sound(p, a) && a.plan == [] && Quiet(p, a.conf).Some?
    ensures TrialOk(p, a.(conf := Quiet(p, a.conf).value))
  {
    if a.trail != [] { JoinedMore(p, After(p, a.trail[|a.trail| - 1]), a.conf); }
  }

  lemma CommitSound(p: Program, a: State)
    requires TablesFit(p.t) && Sound(p, a) && a.trail != []
    ensures Sound(p, Commit(a)) && Commit(a).plan == a.trail
  {
    JoinedSelf(p, Before(a.trail[0]));
  }

  /** A second pass does what Quiet says. */
  lemma QuietReplay(p: Program, a: State)
    requires TablesFit(p.t) && a.trail == [] && Quiet(p, a.conf).Some?
    ensures Next(p, a) == a.(conf := Quiet(p, a.conf).value)
  {
  }

  /** It meets each recorded conflict with the recorded stack at the recorded
      token, and takes the recorded choice. */
  lemma ReplayStep(p: Program, a: State)
    requires TablesFit(p.t) && Sound(p, a) && a.plan != []
    ensures Sound(p, Next(p, a))
    ensures if a.conf == Before(a.plan[0]) then Next(p, a) == State(After(p, a.plan[0]), [], a.plan[1..])
            else Quiet(p, a.conf).Some? && Next(p, a) == a.(conf := Quiet(p, a.conf).value)
  {
    var n: nat :| Quietly(p, n, a.conf, Before(a.plan[0]));
    if a.conf == Before(a.plan[0]) {
      LinkedParts(p, a.plan, 0);
      assert Next(p, a) == State(After(p, a.plan[0]), [], a.plan[1..]);
      if |a.plan| > 1 { assert Leads(p, a.plan[0], Before(a.plan[1])); }
    } else {
      QuietReplay(p, a);
      assert Quietly(p, n - 1, Quiet(p, a.conf).value, Before(a.plan[0]));
    }
  }

  lemma ReadySound(p: Program, a: State)
    requires TablesFit(p.t) && Sound(p, a) && a.plan == [] && a.conf.at == Ready
    ensures Sound(p, Next(p, a))
  {
    var c := a.conf;
    if ConflictAt(p, c.stack, c.pos).Some? {
      var q := Point(c.stack, c.pos, FirstChoice(p, ConflictAt(p, c.stack, c.pos).value));
      LinkedMore(p, a.trail, q);
      JoinedSelf(p, After(p, q));
      assert Next(p, a) == State(After(p, q), a.trail + [q], []);
    } else if Quiet(p, c).Some? {
      QuietTrial(p, a);
    }
  }

  lemma ReduceSound(p: Program, a: State)
    requires TablesFit(p.t) && Sound(p, a) && a.plan == [] && a.conf.at.Reducing?
    ensures Sound(p, Next(p, a))
  {
    if a.trail != [] { CommitSound(p, a); }
    if Quiet(p, a.conf).Some? { QuietTrial(p, a); }
  }

  lemma NextChoice(p: Program, q: Point)
    requires TablesFit(p.t) && AtConflict(p, q) && Get(p.t.ctable, q.choice + 1) >= 0
    ensures AtConflict(p, q.(choice := q.choice + 1))
    ensures After(p, q.(choice := q.choice + 1)) == Conf(q.stack, q.pos, Reducing(Get(p.t.ctable, q.choice + 1)))
  {
  }

  /** Back to the latest conflict, with its next choice if there is one. */
  lemma BackSound(p: Program, a: State)
    requires TablesFit(p.t) && Sound(p, a) && a.plan == [] && a.conf.at == Failing && a.trail != []
    ensures Sound(p, AtFailing(p, a))
  {
    var n := |a.trail| - 1;
    var q := a.trail[n].(choice := a.trail[n].choice + 1);
    LinkedParts(p, a.trail, n);
    assert AtConflict(p, a.trail[n]) && a.trail[n].stack != [];
    if n > 0 { assert Leads(p, a.trail[n - 1], Before(a.trail[n])); }
    hide ConflictAt, AtConflict, Linked;
    if Get(p.t.ctable, q.choice) >= 0 {
      NextChoice(p, a.trail[n]);
      LinkedMore(p, a.trail[..n], q);
      JoinedSelf(p, After(p, q));
      LastLinked(p, a.trail[..n], q);
    }
    NothingLinked(p);
  }

  lemma LastLinked(p: Program, qs: seq<Point>, q: Point)
    requires TablesFit(p.t) && AtConflict(p, q) && Joined(p, After(p, q), After(p, q))
    ensures Leads(p, (qs + [q])[|qs|], After(p, q))
  {
  }

  lemma NothingLinked(p: Program)
    requires TablesFit(p.t)
    ensures Linked(p, [])
  {
  }

  lemma FailingSound(p: Program, a: State)
    requires TablesFit(p.t) && Sound(p, a) && a.plan == [] && a.conf.at == Failing
    ensures Sound(p, Next(p, a))
  {
    if a.trail != [] {
      BackSound(p, a);
    }
  }

  lemma NextSound(p: Program, a: State)
    requires TablesFit(p.t) && Sound(p, a)
    ensures Sound(p, Next(p, a))
  {
    if a.plan != [] {
      ReplayStep(p, a);
    } else {
      match a.conf.at
      case Ready => ReadySound(p, a);
      case Reducing(_) => ReduceSound(p, a);
      case Failing => FailingSound(p, a);
      case Done(_) =>
    }
  }

  lemma {:induction false} RunSound(p: Program, n: nat, a: State)
    requires TablesFit(p.t) && Sound(p, a)
    ensures Sound(p, Run(p, n, a))
  {
    hide Sound, Next;
    if n > 0 {
      NextSound(p, a);
      RunSound(p, n - 1, Next(p, a));
    }
  }

  /** The abort on a state mismatch, and the one on a trial within a second pass,
      are never reached. */
  lemma NeverMismatch(p: Program, n: nat)
    requires TablesFit(p.t)
    ensures Run(p, n, Start).conf.at != Done(Mismatch)
  {
    RunSound(p, n, Start);
  }

  /** Whenever the second pass has recorded choices left and meets a conflict, it
      stands at the stack and the token of the next one, and that is a choice of
      the list of that conflict. */
  lemma ReplayMeetsConflict(p: Program, n: nat)
    requires TablesFit(p.t)
    ensures var a := Run(p, n, Start);
      a.plan != [] && a.conf.at == Ready && ConflictAt(p, a.conf.stack, a.conf.pos).Some? ==>
        var q := a.plan[0];
        && a.conf == Before(q) && AtConflict(p, q)
        && Next(p, a) == State(After(p, q), [], a.plan[1..])
  {
    var a := Run(p, n, Start);
    RunSound(p, n, Start);
    if a.plan != [] { ReplayStep(p, a); }
  }

  // ----- the second pass gets where the trial got

  lemma {:induction false} RunOn(p: Program, m: nat, n: nat, a: State)
    requires TablesFit(p.t)
    ensures Run(p, m + n, a) == Run(p, n, Run(p, m, a))
  {
    if m > 0 { RunOn(p, m - 1, n, Next(p, a)); }
  }

  /** What every step keeps holds in every run. */
  lemma {:induction false} RunKeeps(p: Program, n: nat, a: State, inv: State -> bool)
    requires TablesFit(p.t) && inv(a)
    requires forall x :: inv(x) ==> inv(Next(p, x))
    ensures inv(Run(p, n, a))
  {
    if n > 0 { RunKeeps(p, n - 1, Next(p, a), inv); }
  }

  /** No trial is begun within n steps. */
  ghost predicate NoTrial(p: Program, n: nat, a: State)
    requires TablesFit(p.t)
  {
    a.trail == [] && (n > 0 ==> NoTrial(p, n - 1, Next(p, a)))
  }

  lemma {:induction false} NoTrialOn(p: Program, m: nat, n: nat, a: State)
    requires TablesFit(p.t) && NoTrial(p, m, a) && NoTrial(p, n, Run(p, m, a))
    ensures NoTrial(p, m + n, a)
  {
    if m > 0 { NoTrialOn(p, m - 1, n, Next(p, a)); }
  }

  lemma {:induction false} QuietRun(p: Program, n: nat, a: State, d: Conf)
    requires TablesFit(p.t) && a.trail == [] && Quietly(p, n, a.conf, d)
    ensures Run(p, n, a) == a.(conf := d) && NoTrial(p, n, a)
  {
    if n > 0 {
      QuietReplay(p, a);
      QuietRun(p, n - 1, Next(p, a), d);
    }
  }

  /** One recorded conflict after the other. */
  lemma {:induction false} Arrive(p: Program, a: State, d: Conf) returns (n: nat)
    requires TablesFit(p.t) && Sound(p, a) && a.trail == []
    requires if a.plan == [] then Joined(p, a.conf, d) else Leads(p, a.plan[|a.plan| - 1], d)
    ensures Run(p, n, a) == State(d, [], []) && NoTrial(p, n, a)
    decreases |a.plan|
  {
    hide Next, Linked, ConflictAt, Listed;
    if a.plan == [] {
      n :| Quietly(p, n, a.conf, d);
      QuietRun(p, n, a, d);
    } else {
      var m: nat :| Quietly(p, m, a.conf, Before(a.plan[0]));
      QuietRun(p, m, a, Before(a.plan[0]));
      var b := Run(p, m, a);
      RunSound(p, m, a);
      ReplayStep(p, b);
      var k := Arrive(p, Next(p, b), d);
      RunOn(p, m, k + 1, a);
      NoTrialOn(p, m, k + 1, a);
      n := m + (k + 1);
    }
  }

  /** Whenever a trial is committed, the second pass reaches the stack, token and
      label at which the trial was declared good, with no trial on the way and no
      recorded choice left. */
  lemma ReplayArrives(p: Program, n: nat) returns (k: nat)
    requires TablesFit(p.t)
    ensures var a := Run(p, n, Start); var b := Next(p, a);
      a.trail != [] && b.plan != [] ==>
        b == Commit(a) && NoTrial(p, k, b) && Run(p, k, b) == State(a.conf, [], [])
  {
    var a := Run(p, n, Start);
    RunSound(p, n, Start);
    k := 0;
    if a.trail != [] && Next(p, a).plan != [] {
      CommitSound(p, a);
      k := Arrive(p, Commit(a), a.conf);
    }
  }
}
