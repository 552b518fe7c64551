/** The trial parse as a search: seen as a machine that may take any choice of the
    list at each conflict, the parser finds a way to accept if there is one. What it
    has rejected cannot be accepted by any choices. */
module TrialChoices {
  import opened Packing
  import opened TrialParse

  // ----- free choices

  /** Entry i of the list at start, and where it leads: the entry at start is a shift,
      unless it is -1; those behind it, up to the next negative one, are reductions. */
  ghost predicate Offers(p: Program, stack: seq<int>, pos: nat, start: int, i: int, d: Conf) {
    if i == start then Get(p.t.ctable, start) != -1 && d == Conf(stack + [Get(p.t.ctable, start)], pos + 1, Ready)
    else start < i && (forall k :: start < k <= i ==> Get(p.t.ctable, k) >= 0) && d == Conf(stack, pos, Reducing(Get(p.t.ctable, i)))
  }

  ghost predicate Offered(p: Program, c: Conf, d: Conf)
    requires TablesFit(p.t) && ConflictAt(p, c.stack, c.pos).Some?
  {
    exists i :: Offers(p, c.stack, c.pos, ConflictAt(p, c.stack, c.pos).value, i, d)
  }

  /** A step of the machine that chooses freely at conflicts. */
  ghost predicate CanGo(p: Program, c: Conf, d: Conf)
    requires TablesFit(p.t)
  {
    if c.at == Ready && ConflictAt(p, c.stack, c.pos).Some? then Offered(p, c, d) else Quiet(p, c) == Some(d)
  }

  ghost predicate Way(p: Program, n: nat, c: Conf, d: Conf)
    requires TablesFit(p.t)
  {
    if n == 0 then c == d else exists e :: CanGo(p, c, e) && Way(p, n - 1, e, d)
  }

  /** The rule accepts: by its code, or as the goal before the end of the input. */
  ghost predicate AcceptsHere(p: Program, c: Conf)
    requires TablesFit(p.t)
  {
    c.at.Reducing? &&
    var v := p.verdict(c.at.rule, c.stack);
    v == Accept || (v !in {Error, Abort} && AtGoal(p, c.stack, c.at.rule) && TokenAt(p, c.pos) == 0)
  }

  /** Some choices lead from c to acceptance. */
  ghost predicate CanAccept(p: Program, c: Conf)
    requires TablesFit(p.t)
  {
    exists n: nat, d :: Way(p, n, c, d) && AcceptsHere(p, d)
  }

  lemma FirstStep(p: Program, c: Conf)
    requires TablesFit(p.t) && CanAccept(p, c)
    ensures AcceptsHere(p, c) || exists e :: CanGo(p, c, e) && CanAccept(p, e)
  {
    hide CanGo, AcceptsHere;
    var n: nat, d :| Way(p, n, c, d) && AcceptsHere(p, d);
    if n > 0 {
      var e :| CanGo(p, c, e) && Way(p, n - 1, e, d);
      assert CanAccept(p, e);
    }
  }

  lemma NoWayOn(p: Program, c: Conf)
    requires TablesFit(p.t) && !AcceptsHere(p, c) && forall d :: CanGo(p, c, d) ==> !CanAccept(p, d)
    ensures !CanAccept(p, c)
  {
    hide CanGo, AcceptsHere, CanAccept;
    if CanAccept(p, c) { FirstStep(p, c); }
  }

  // ----- stretches of a run

  /** For n steps the parser neither goes back behind qs nor commits a trial. */
  ghost predicate Stays(p: Program, n: nat, a: State, qs: seq<Point>)
    requires TablesFit(p.t)
  {
    qs <= a.trail && a.plan == [] && (n > 0 ==> Stays(p, n - 1, Next(p, a), qs))
  }

  lemma {:induction false} StaysLater(p: Program, m: nat, n: nat, a: State, qs: seq<Point>)
    requires TablesFit(p.t) && Stays(p, m + n, a, qs)
    ensures Stays(p, n, Run(p, m, a), qs)
  {
    if m > 0 { StaysLater(p, m - 1, n, Next(p, a), qs); }
  }

  lemma {:induction false} DoneEver(p: Program, n: nat, a: State)
    requires TablesFit(p.t) && a.conf.at.Done?
    ensures Run(p, n, a) == a
  {
    if n > 0 { DoneEver(p, n - 1, a); }
  }

  /** A step that gives up the choice of q without a commit is an error with q as the
      latest conflict. */
  lemma GivesUp(p: Program, a: State, qs: seq<Point>, q: Point)
    requires TablesFit(p.t) && a.plan == [] && qs + [q] <= a.trail
    requires Next(p, a).plan == [] && !(qs + [q] <= Next(p, a).trail)
    ensures a.conf.at == Failing && a.trail == qs + [q]
  {
    if a.conf.at == Failing { StaysPrefix(a.trail, qs + [q]); }
  }

  lemma StaysPrefix(s: seq<Point>, t: seq<Point>)
    requires t <= s && t != []
    ensures s == t || t <= s[..|s| - 1]
  {
    assert s[..|t|] == t;
  }

  /** Where the choice of q is given up. */
  lemma {:induction false} GivenUp(p: Program, n: nat, a: State, qs: seq<Point>, q: Point) returns (m: nat)
    requires TablesFit(p.t) && Stays(p, n, a, qs) && qs + [q] <= a.trail && !(qs + [q] <= Run(p, n, a).trail)
    ensures m < n && Stays(p, m, a, qs + [q]) && Run(p, m, a).trail == qs + [q] && Run(p, m, a).conf.at == Failing
  {
    if qs + [q] <= Next(p, a).trail {
      m := GivenUp(p, n - 1, Next(p, a), qs, q);
      m := m + 1;
    } else {
      GivesUp(p, a, qs, q);
      m := 0;
    }
  }

  // ----- everything is tried

  /** The parser has come back to qs with an error. */
  ghost predicate BackAt(p: Program, n: nat, a: State, qs: seq<Point>)
    requires TablesFit(p.t)
  {
    Stays(p, n, a, qs) && Run(p, n, a).trail == qs && Run(p, n, a).conf.at == Failing
  }

  lemma NotDone(p: Program, n: nat, a: State, qs: seq<Point>)
    requires TablesFit(p.t) && BackAt(p, n, a, qs)
    ensures !a.conf.at.Done?
  {
    if a.conf.at.Done? { DoneEver(p, n, a); }
  }

  lemma BackNext(p: Program, n: nat, a: State, qs: seq<Point>)
    requires TablesFit(p.t) && BackAt(p, n, a, qs) && a.conf.at != Failing
    ensures n > 0 && BackAt(p, n - 1, Next(p, a), qs) && Next(p, a).plan == []
  {
  }

  /** Away from conflicts there is one step, or an error. */
  lemma OneStep(p: Program, a: State)
    requires TablesFit(p.t) && a.plan == [] && Next(p, a).plan == [] && !Next(p, a).conf.at.Done?
    requires a.conf.at.Reducing? || (a.conf.at == Ready && ConflictAt(p, a.conf.stack, a.conf.pos).None?)
    ensures Next(p, a).trail == a.trail && !AcceptsHere(p, a.conf)
    ensures Quiet(p, a.conf) == if Next(p, a).conf.at == Failing then None else Some(Next(p, a).conf)
  {
  }

  /** Whatever choices are made from a on, none leads to acceptance, if the parser
      has come back from there with an error. */
  lemma {:induction false} Explored(p: Program, n: nat, a: State, qs: seq<Point>)
    requires TablesFit(p.t) && BackAt(p, n, a, qs) && a.trail == qs
    ensures !CanAccept(p, a.conf)
    decreases n, 1
  {
    hide ConflictAt, Next, AcceptsHere, Way, Quiet, Stays, BackAt;
    NotDone(p, n, a, qs);
    if a.conf.at == Failing {
      FailingStops(p, a.conf);
    } else {
      BackNext(p, n, a, qs);
      var b := Next(p, a);
      NotDone(p, n - 1, b, qs);
      if a.conf.at == Ready && ConflictAt(p, a.conf.stack, a.conf.pos).Some? {
        ConflictExplored(p, n, a, qs);
      } else {
        StaysPlan(p, n, a, qs);
        OneStep(p, a);
        Explored(p, n - 1, b, qs);
        assert forall d :: CanGo(p, a.conf, d) ==> d == b.conf;
      }
      NoWayOn(p, a.conf);
    }
  }

  lemma StaysPlan(p: Program, n: nat, a: State, qs: seq<Point>)
    requires TablesFit(p.t) && BackAt(p, n, a, qs)
    ensures a.plan == [] && qs <= a.trail
  {
  }

  lemma FailingStops(p: Program, c: Conf)
    requires TablesFit(p.t) && c.at == Failing
    ensures !CanAccept(p, c)
  {
    NoWayOn(p, c);
  }

  /** At a conflict, all that its list offers. */
  lemma ConflictExplored(p: Program, n: nat, a: State, qs: seq<Point>)
    requires TablesFit(p.t) && BackAt(p, n, a, qs) && a.trail == qs
    requires a.conf.at == Ready && ConflictAt(p, a.conf.stack, a.conf.pos).Some?
    ensures !AcceptsHere(p, a.conf) && forall d :: CanGo(p, a.conf, d) ==> !CanAccept(p, d)
    decreases n, 0
  {
    var c, start := a.conf, ConflictAt(p, a.conf.stack, a.conf.pos).value;
    var q := Point(c.stack, c.pos, FirstChoice(p, start));
    BackNext(p, n, a, qs);
    hide ConflictAt, Way, CanAccept, BackAt;
    ListExplored(p, n - 1, Next(p, a), qs, q, start);
    forall d | CanGo(p, a.conf, d) ensures !CanAccept(p, d) {
      var i :| Offers(p, c.stack, c.pos, start, i, d);
    }
  }

  /** From the choice of q on. */
  lemma {:induction false} ListExplored(p: Program, n: nat, a: State, qs: seq<Point>, q: Point, start: int)
    requires TablesFit(p.t) && BackAt(p, n, a, qs) && start <= q.choice
    requires a == State(Chosen(p, q.stack, q.pos, start, q.choice), qs + [q], [])
    ensures forall i, d :: q.choice <= i && Offers(p, q.stack, q.pos, start, i, d) ==> !CanAccept(p, d)
    decreases n, 0
  {
    hide ConflictAt, Way, CanAccept, BackAt;
    var m := ChoiceGivenUp(p, n, a, qs, q);
    Explored(p, m, a, qs + [q]);
    var b := Run(p, m, a);
    NextAfter(p, n, m, a, qs);
    if Get(p.t.ctable, q.choice + 1) >= 0 {
      var r := q.(choice := q.choice + 1);
      assert Next(p, b) == State(Chosen(p, r.stack, r.pos, start, r.choice), qs + [r], []) by {
        assert (qs + [q])[..|qs|] == qs;
      }
      ListExplored(p, n - m - 1, Next(p, b), qs, r, start);
    }
    forall i, d | q.choice <= i && Offers(p, q.stack, q.pos, start, i, d) ensures !CanAccept(p, d) {
      if i == q.choice { assert d == a.conf; }
    }
  }

  lemma ChoiceGivenUp(p: Program, n: nat, a: State, qs: seq<Point>, q: Point) returns (m: nat)
    requires TablesFit(p.t) && BackAt(p, n, a, qs) && a.trail == qs + [q]
    ensures m < n && BackAt(p, m, a, qs + [q]) && Run(p, m, a).plan == []
  {
    m := GivenUp(p, n, a, qs, q);
    StaysLater(p, m, n - m, a, qs);
  }

  lemma NextAfter(p: Program, n: nat, m: nat, a: State, qs: seq<Point>)
    requires TablesFit(p.t) && BackAt(p, n, a, qs) && m < n
    ensures BackAt(p, n - m - 1, Next(p, Run(p, m, a)), qs)
  {
    hide Next;
    StaysLater(p, m, n - m, a, qs);
    RunOn(p, m, n - m, a);
  }

  // ----- a run that is rejected

  /** No trial is committed within n steps. */
  ghost predicate NoCommit(p: Program, n: nat, a: State)
    requires TablesFit(p.t)
  {
    Stays(p, n, a, [])
  }

  lemma {:induction false} RejectedAfterError(p: Program, n: nat, a: State) returns (m: nat)
    requires TablesFit(p.t) && NoCommit(p, n, a) && !a.conf.at.Done? && Run(p, n, a).conf.at == Done(Rejected)
    ensures BackAt(p, m, a, [])
  {
    if Next(p, a).conf.at == Done(Rejected) {
      m := 0;
    } else {
      if Next(p, a).conf.at.Done? { DoneEver(p, n - 1, Next(p, a)); }
      m := RejectedAfterError(p, n - 1, Next(p, a));
      m := m + 1;
    }
  }

  /** If a run is rejected without a commit, no choices would have led to
      acceptance. */
  lemma RejectedExplored(p: Program, n: nat, c: Conf)
    requires TablesFit(p.t) && !c.at.Done? && NoCommit(p, n, State(c, [], []))
    requires Run(p, n, State(c, [], [])).conf.at == Done(Rejected)
    ensures !CanAccept(p, c)
  {
    var m := RejectedAfterError(p, n, State(c, [], []));
    Explored(p, m, State(c, [], []), []);
  }

  // ----- runs with committed trials

  /** A rule declares the trial good here. */
  ghost predicate DeclaredAt(p: Program, c: Conf) {
    c.at.Reducing? && p.verdict(c.at.rule, c.stack) in {Valid, ValidNested}
  }

  /** Where the first trial is committed. */
  lemma {:induction false} FirstCommit(p: Program, n: nat, a: State) returns (m: nat)
    requires TablesFit(p.t) && a.plan == [] && !NoCommit(p, n, a)
    ensures m < n && Run(p, m, a).plan == [] && Next(p, Run(p, m, a)).plan != []
  {
    if Next(p, a).plan != [] {
      m := 0;
    } else {
      m := FirstCommit(p, n - 1, Next(p, a));
      m := m + 1;
    }
  }

  /** What is committed is a trial that was declared good, or that accepts. */
  lemma CommitIs(p: Program, a: State)
    requires TablesFit(p.t) && a.plan == [] && Next(p, a).plan != []
    ensures a.trail != [] && Next(p, a) == Commit(a) && a.conf.at.Reducing?
    ensures DeclaredAt(p, a.conf) || Next(p, State(a.conf, [], [])).conf.at == Done(Accepted)
  {
  }

  /** After a commit the parser stands where the trial stood, with nothing left open. */
  lemma Recommenced(p: Program, m: nat, a: State) returns (k: nat)
    requires TablesFit(p.t) && Sound(p, a) && Run(p, m, a).plan == [] && Next(p, Run(p, m, a)).plan != []
    ensures Run(p, m + 1 + k, a) == State(Run(p, m, a).conf, [], [])
  {
    hide Next, Sound;
    RunSound(p, m, a);
    var b := Run(p, m, a);
    CommitIs(p, b);
    CommitSound(p, b);
    CommitLeads(p, b);
    k := Arrive(p, Commit(b), b.conf);
    RunOn(p, m, 1 + k, a);
    assert m + (1 + k) == m + 1 + k;
  }

  lemma CommitLeads(p: Program, b: State)
    requires TablesFit(p.t) && Sound(p, b) && b.trail != [] && b.plan == [] && b.conf.at.Reducing?
    ensures Commit(b).plan == b.trail && Commit(b).trail == [] && Leads(p, b.trail[|b.trail| - 1], b.conf)
  {
  }

  lemma NotBefore(p: Program, n: nat, k: nat, a: State)
    requires TablesFit(p.t) && Run(p, n, a).conf.at.Done? && !Run(p, k, a).conf.at.Done?
    ensures k < n && Run(p, n, a) == Run(p, n - k, Run(p, k, a))
  {
    if n <= k {
      RunOn(p, n, k - n, a);
      DoneEver(p, k - n, Run(p, n, a));
    } else {
      RunOn(p, k, n - k, a);
    }
  }

  ghost predicate LeftAt(p: Program, k: nat, c: Conf, d: Conf)
    requires TablesFit(p.t)
  {
    Run(p, k, State(c, [], [])) == State(d, [], []) && !CanAccept(p, d) && (k == 0 || DeclaredAt(p, d))
  }

  lemma {:induction false} RejectedFrom(p: Program, n: nat, c: Conf) returns (k: nat, d: Conf)
    requires TablesFit(p.t) && Sound(p, State(c, [], [])) && !c.at.Done? && Run(p, n, State(c, [], [])).conf.at == Done(Rejected)
    ensures LeftAt(p, k, c, d)
    decreases n
  {
    hide Next, Sound, CanAccept, DeclaredAt;
    var a := State(c, [], []);
    if NoCommit(p, n, a) {
      RejectedExplored(p, n, c);
      k, d := 0, c;
    } else {
      var m := FirstCommit(p, n, a);
      var j := Recommenced(p, m, a);
      var e := Run(p, m, a).conf;
      CommitIs(p, Run(p, m, a));
      RunSound(p, m + 1 + j, a);
      NotBefore(p, n, m + 1 + j, a);
      NotAccepted(p, n - (m + 1 + j), State(e, [], []));
      k, d := RejectedFrom(p, n - (m + 1 + j), e);
      RunOn(p, m + 1 + j, k, a);
      k := m + 1 + j + k;
    }
  }

  lemma NotAccepted(p: Program, n: nat, a: State)
    requires TablesFit(p.t) && n > 0 && Run(p, n, a).conf.at == Done(Rejected)
    ensures Next(p, a).conf.at != Done(Accepted)
  {
    if Next(p, a).conf.at.Done? { DoneEver(p, n - 1, Next(p, a)); }
  }

  /** A run that ends in rejection leaves no way to acceptance: none from the start, or
      none from where the last trial was declared good, if a rule declares one so. */
  lemma RejectedRun(p: Program, n: nat) returns (k: nat, d: Conf)
    requires TablesFit(p.t) && Run(p, n, Start).conf.at == Done(Rejected)
    ensures Run(p, k, Start) == State(d, [], []) && !CanAccept(p, d)
    ensures k == 0 || DeclaredAt(p, d)
  {
    k, d := RejectedFrom(p, n, Start.conf);
  }

  // ----- what is accepted can be accepted

  ghost predicate Comes(p: Program, c: Conf, d: Conf)
    requires TablesFit(p.t)
  {
    exists n: nat :: Way(p, n, c, d)
  }

  lemma {:induction false} WayMore(p: Program, n: nat, c: Conf, d: Conf, e: Conf)
    requires TablesFit(p.t) && Way(p, n, c, d) && CanGo(p, d, e)
    ensures Way(p, n + 1, c, e)
  {
    hide CanGo;
    if n == 0 {
      assert Way(p, 0, e, e);
    } else {
      var x :| CanGo(p, c, x) && Way(p, n - 1, x, d);
      WayMore(p, n - 1, x, d, e);
    }
  }

  lemma ComesMore(p: Program, c: Conf, d: Conf, e: Conf)
    requires TablesFit(p.t) && Comes(p, c, d) && CanGo(p, d, e)
    ensures Comes(p, c, e)
  {
    var n: nat :| Way(p, n, c, d);
    WayMore(p, n, c, d, e);
  }

  lemma ComesSelf(p: Program, c: Conf)
    requires TablesFit(p.t)
    ensures Comes(p, c, c)
  {
    assert Way(p, 0, c, c);
  }

  lemma CanComes(p: Program, c: Conf, d: Conf)
    requires TablesFit(p.t) && CanGo(p, c, d)
    ensures Comes(p, c, d)
  {
    ComesSelf(p, c);
    ComesMore(p, c, c, d);
  }

  lemma QuietCan(p: Program, c: Conf)
    requires TablesFit(p.t) && Quiet(p, c).Some?
    ensures CanGo(p, c, Quiet(p, c).value)
  {
  }

  lemma {:induction false} WayOn(p: Program, m: nat, n: nat, c: Conf, d: Conf, e: Conf)
    requires TablesFit(p.t) && Way(p, m, c, d) && Way(p, n, d, e)
    ensures Way(p, m + n, c, e)
  {
    hide CanGo;
    if m > 0 {
      var x :| CanGo(p, c, x) && Way(p, m - 1, x, d);
      WayOn(p, m - 1, n, x, d, e);
    }
  }

  lemma ComesOn(p: Program, c: Conf, d: Conf, e: Conf)
    requires TablesFit(p.t) && Comes(p, c, d) && Comes(p, d, e)
    ensures Comes(p, c, e)
  {
    var m: nat :| Way(p, m, c, d);
    var n: nat :| Way(p, n, d, e);
    WayOn(p, m, n, c, d, e);
  }

  lemma CanAcceptOn(p: Program, c: Conf, d: Conf)
    requires TablesFit(p.t) && Comes(p, c, d) && CanAccept(p, d)
    ensures CanAccept(p, c)
  {
    var m: nat :| Way(p, m, c, d);
    var n: nat, e :| Way(p, n, d, e) && AcceptsHere(p, e);
    WayOn(p, m, n, c, d, e);
  }

  /** Every list has an entry. */
  ghost predicate ListsHold(p: Program)
    requires TablesFit(p.t)
  {
    forall stack, pos: nat :: ConflictAt(p, stack, pos).Some? ==>
      var start := ConflictAt(p, stack, pos).value;
      Get(p.t.ctable, start) == -1 ==> Get(p.t.ctable, start + 1) >= 0
  }

  lemma ListedOffered(p: Program, q: Point)
    requires TablesFit(p.t) && ListsHold(p) && AtConflict(p, q)
    ensures CanGo(p, Before(q), After(p, q))
  {
    var start := ConflictAt(p, q.stack, q.pos).value;
    assert Offers(p, q.stack, q.pos, start, q.choice, After(p, q));
  }

  /** All that is on the stack or saved is on a way from the start. */
  ghost predicate OnWays(p: Program, a: State)
    requires TablesFit(p.t)
  {
    && Sound(p, a) && (a.conf.at == Ready || a.conf.at.Reducing? ==> Comes(p, Start.conf, a.conf))
    && (forall k :: 0 <= k < |a.trail| ==> Comes(p, Start.conf, Before(a.trail[k])))
    && (a.conf.at == Done(Accepted) ==> CanAccept(p, Start.conf))
  }

  lemma OnWaysReady(p: Program, a: State)
    requires TablesFit(p.t) && ListsHold(p) && OnWays(p, a) && a.conf.at == Ready
    ensures OnWays(p, Next(p, a))
  {
    hide Sound, ListsHold, Way;
    NextSound(p, a);
    var c, b := a.conf, Next(p, a);
    if ConflictAt(p, c.stack, c.pos).Some? {
      var q := TakenNext(p, a);
      ListedOffered(p, q);
      ComesMore(p, Start.conf, c, b.conf);
    } else if b.conf.at != Failing {
      ComesMore(p, Start.conf, c, b.conf);
    }
  }

  /** The choice taken at a conflict is a listed one. */
  lemma TakenNext(p: Program, a: State) returns (q: Point)
    requires TablesFit(p.t) && Sound(p, a) && a.conf.at == Ready && ConflictAt(p, a.conf.stack, a.conf.pos).Some?
    ensures AtConflict(p, q) && Before(q) == a.conf && Next(p, a).conf == After(p, q)
    ensures Next(p, a).trail == a.trail || Next(p, a).trail == a.trail + [q]
  {
    if a.plan != [] {
      q := a.plan[0];
      ReplayStep(p, a);
    } else {
      q := Point(a.conf.stack, a.conf.pos, FirstChoice(p, ConflictAt(p, a.conf.stack, a.conf.pos).value));
    }
  }

  lemma AcceptedHere(p: Program, c: Conf)
    requires TablesFit(p.t) && Comes(p, Start.conf, c) && AcceptsHere(p, c)
    ensures CanAccept(p, Start.conf)
  {
    var n: nat :| Way(p, n, Start.conf, c);
  }

  lemma OnWaysReducing(p: Program, a: State)
    requires TablesFit(p.t) && OnWays(p, a) && a.conf.at.Reducing?
    ensures OnWays(p, Next(p, a))
  {
    hide Sound, Way;
    NextSound(p, a);
    if AcceptsHere(p, a.conf) { AcceptedHere(p, a.conf); }
    if Quiet(p, a.conf).Some? { ComesMore(p, Start.conf, a.conf, Quiet(p, a.conf).value); }
  }

  lemma OnWaysFailing(p: Program, a: State)
    requires TablesFit(p.t) && ListsHold(p) && OnWays(p, a) && a.conf.at == Failing
    ensures OnWays(p, Next(p, a))
  {
    hide ListsHold, Way, Comes, ConflictAt, Listed, Offered;
    NextSound(p, a);
    if a.plan != [] { ReplayStep(p, a); }
    if a.trail != [] {
      var n := |a.trail| - 1;
      var q := a.trail[n].(choice := a.trail[n].choice + 1);
      assert AtConflict(p, a.trail[n]) && Before(q) == Before(a.trail[n]);
      if Get(p.t.ctable, q.choice) >= 0 {
        NextChoice(p, a.trail[n]);
        ListedOffered(p, q);
        ComesMore(p, Start.conf, Before(q), After(p, q));
      }
    }
  }

  lemma NextOnWays(p: Program, a: State)
    requires TablesFit(p.t) && ListsHold(p) && OnWays(p, a)
    ensures OnWays(p, Next(p, a))
  {
    match a.conf.at
    case Ready => OnWaysReady(p, a);
    case Reducing(_) => OnWaysReducing(p, a);
    case Failing => OnWaysFailing(p, a);
    case Done(_) =>
  }

  /** What the parser accepts, some choices lead to. */
  lemma AcceptedIsWay(p: Program, n: nat)
    requires TablesFit(p.t) && ListsHold(p) && Run(p, n, Start).conf.at == Done(Accepted)
    ensures CanAccept(p, Start.conf)
  {
    hide ListsHold, OnWays;
    StartOnWays(p);
    var inv := x => TablesFit(p.t) && OnWays(p, x);
    forall x | inv(x) ensures inv(Next(p, x)) {
      NextOnWays(p, x);
    }
    RunKeeps(p, n, Start, inv);
    AcceptedOnWay(p, Run(p, n, Start));
  }

  lemma AcceptedOnWay(p: Program, a: State)
    requires TablesFit(p.t) && OnWays(p, a) && a.conf.at == Done(Accepted)
    ensures CanAccept(p, Start.conf)
  {
  }

  lemma StartOnWays(p: Program)
    requires TablesFit(p.t)
    ensures OnWays(p, Start)
  {
    assert Way(p, 0, Start.conf, Start.conf);
  }

  /** No rule declares a trial good before it has come to its end. */
  ghost predicate NeverDeclares(p: Program) {
    forall r, stack :: p.verdict(r, stack) !in {Valid, ValidNested}
  }

  /** If no rule declares a trial good early, a run that ends by accepting or rejecting
      accepts exactly if some choices lead to acceptance. */
  lemma SearchDecides(p: Program, n: nat)
    requires TablesFit(p.t) && ListsHold(p) && NeverDeclares(p) && Run(p, n, Start).conf.at in {Done(Accepted), Done(Rejected)}
    ensures Run(p, n, Start).conf.at == Done(Accepted) <==> CanAccept(p, Start.conf)
  {
    hide ListsHold, CanAccept;
    if Run(p, n, Start).conf.at == Done(Accepted) {
      AcceptedIsWay(p, n);
    } else {
      var k, d := RejectedRun(p, n);
      assert !DeclaredAt(p, d) by {
        if d.at.Reducing? { assert p.verdict(d.at.rule, d.stack) !in {Valid, ValidNested}; }
      }
    }
  }
}
