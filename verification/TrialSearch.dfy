/** In which order the parser of module TrialParse tries the choices of its
    conflicts: a choice is passed over only after every way of going on from it
    has ended in an error. */
module TrialSearch {
  import opened TrialParse

  /** The trial with the choice of q just taken, after the conflicts of outer. */
  function Begin(p: Program, outer: seq<Point>, q: Point): State
    requires TablesFit(p.t) && ConflictAt(p, q.stack, q.pos).Some?
  {
    State(After(p, q), outer + [q], [])
  }

  /** For n steps the parser does not go back behind the choices of qs, nor is
      the trial committed. */
  ghost predicate Within(p: Program, n: nat, a: State, qs: seq<Point>)
    requires TablesFit(p.t)
  {
    qs <= a.trail && (n > 0 ==> Within(p, n - 1, Next(p, a), qs))
  }

  ghost predicate ComesTo(p: Program, n: nat, outer: seq<Point>, q: Point, a: State)
    requires TablesFit(p.t) && ConflictAt(p, q.stack, q.pos).Some?
  {
    Within(p, n, Begin(p, outer, q), outer + [q]) && Run(p, n, Begin(p, outer, q)) == a
  }

  /** a lies on the way from the choice of q. */
  ghost predicate OnTheWay(p: Program, outer: seq<Point>, q: Point, a: State)
    requires TablesFit(p.t)
  {
    ConflictAt(p, q.stack, q.pos).Some? && exists n: nat :: ComesTo(p, n, outer, q, a)
  }

  ghost predicate Stuck(a: State, outer: seq<Point>, q: Point) {
    a.trail == outer + [q] && a.conf.at == Failing
  }

  /** With the choice of q every trial ends in an error: the parser comes back to
      the conflict with nothing left of what it tried. */
  ghost predicate DeadEnd(p: Program, outer: seq<Point>, q: Point)
    requires TablesFit(p.t)
  {
    exists a :: OnTheWay(p, outer, q, a) && Stuck(a, outer, q)
  }

  /** The choices before that of q are dead ends: all from the start of the list on,
      but for a -1 there. */
  ghost predicate EarlierDead(p: Program, outer: seq<Point>, q: Point)
    requires TablesFit(p.t) && ConflictAt(p, q.stack, q.pos).Some?
  {
    var start := ConflictAt(p, q.stack, q.pos).value;
    forall c :: start <= c < q.choice && (c == start ==> Get(p.t.ctable, start) != -1) ==> DeadEnd(p, outer, q.(choice := c))
  }

  ghost predicate PointTried(p: Program, a: State, k: nat)
    requires TablesFit(p.t) && k < |a.trail|
  {
    OnTheWay(p, a.trail[..k], a.trail[k], a) && EarlierDead(p, a.trail[..k], a.trail[k])
  }

  ghost predicate Tried(p: Program, a: State)
    requires TablesFit(p.t)
  {
    forall k :: 0 <= k < |a.trail| ==> PointTried(p, a, k)
  }

  lemma {:induction false} WithinMore(p: Program, n: nat, a: State, qs: seq<Point>)
    requires TablesFit(p.t) && Within(p, n, a, qs) && qs <= Next(p, Run(p, n, a)).trail
    ensures Within(p, n + 1, a, qs)
  {
    if n > 0 { WithinMore(p, n - 1, Next(p, a), qs); }
  }

  /** One step further on the way. */
  lemma Further(p: Program, outer: seq<Point>, q: Point, a: State)
    requires TablesFit(p.t) && OnTheWay(p, outer, q, a) && outer + [q] <= Next(p, a).trail
    ensures OnTheWay(p, outer, q, Next(p, a))
  {
    var n: nat :| ComesTo(p, n, outer, q, a);
    var b := Begin(p, outer, q);
    WithinMore(p, n, b, outer + [q]);
    RunOn(p, n, 1, b);
    assert ComesTo(p, n + 1, outer, q, Next(p, a));
  }

  /** A conflict that stays on the trail with its choice stays accounted for. */
  lemma StaysTried(p: Program, a: State, k: nat)
    requires TablesFit(p.t) && k < |a.trail| && PointTried(p, a, k)
    requires a.trail[..k + 1] <= Next(p, a).trail
    ensures PointTried(p, Next(p, a), k)
  {
    var b := Next(p, a);
    assert a.trail[..k + 1] == a.trail[..k] + [a.trail[k]];
    assert b.trail[..k + 1][..k] == b.trail[..k];
    assert b.trail[..k] == a.trail[..k] && b.trail[k] == a.trail[k];
    Further(p, a.trail[..k], a.trail[k], a);
  }

  lemma JustBegun(p: Program, a: State, outer: seq<Point>, q: Point)
    requires TablesFit(p.t) && ConflictAt(p, q.stack, q.pos).Some? && a == Begin(p, outer, q)
    requires EarlierDead(p, outer, q)
    ensures PointTried(p, a, |outer|)
  {
    assert ComesTo(p, 0, outer, q, a);
    assert a.trail[..|outer|] == outer;
  }

  /** After an error the choice last taken is a dead end. */
  lemma LastIsDead(p: Program, a: State)
    requires TablesFit(p.t) && Tried(p, a) && a.trail != [] && a.conf.at == Failing
    ensures var n := |a.trail| - 1; DeadEnd(p, a.trail[..n], a.trail[n])
  {
    var n := |a.trail| - 1;
    assert PointTried(p, a, n);
    assert a.trail == a.trail[..n] + [a.trail[n]];
    assert Stuck(a, a.trail[..n], a.trail[n]);
  }

  lemma RetryTried(p: Program, a: State)
    requires TablesFit(p.t) && Sound(p, a) && Tried(p, a) && a.trail != [] && a.conf.at == Failing
    requires var q := a.trail[|a.trail| - 1]; Get(p.t.ctable, q.choice + 1) >= 0
    ensures Tried(p, Next(p, a))
  {
    var n := |a.trail| - 1;
    var outer, last := a.trail[..n], a.trail[n];
    var q := last.(choice := last.choice + 1);
    var b := Next(p, a);
    LastIsDead(p, a);
    assert AtConflict(p, last) && PointTried(p, a, n);
    var start := ConflictAt(p, q.stack, q.pos).value;
    forall c | start <= c < q.choice && (c == start ==> Get(p.t.ctable, start) != -1) ensures DeadEnd(p, outer, q.(choice := c)) {
      assert q.(choice := c) == last.(choice := c);
    }
    JustBegun(p, b, outer, q);
    forall k | 0 <= k < n ensures PointTried(p, b, k) {
      assert outer[..k + 1] == a.trail[..k + 1];
      StaysTried(p, a, k);
    }
  }

  lemma SaveTried(p: Program, a: State)
    requires TablesFit(p.t) && Tried(p, a) && a.plan == [] && a.conf.at == Ready
    requires ConflictAt(p, a.conf.stack, a.conf.pos).Some?
    ensures Tried(p, Next(p, a))
  {
    var q := Point(a.conf.stack, a.conf.pos, FirstChoice(p, ConflictAt(p, a.conf.stack, a.conf.pos).value));
    var b := Next(p, a);
    JustBegun(p, b, a.trail, q);
    forall k | 0 <= k < |a.trail| ensures PointTried(p, b, k) {
      StaysTried(p, a, k);
    }
  }

  /** Every other step keeps the trail, cuts off its end or commits it. */
  lemma KeptTried(p: Program, a: State)
    requires TablesFit(p.t) && Tried(p, a) && Next(p, a).trail <= a.trail
    ensures Tried(p, Next(p, a))
  {
    var b := Next(p, a);
    forall k | 0 <= k < |b.trail| ensures PointTried(p, b, k) {
      assert b.trail[k] == a.trail[k];
      assert a.trail[..k + 1] == b.trail[..k + 1];
      StaysTried(p, a, k);
    }
  }

  lemma NextTried(p: Program, a: State)
    requires TablesFit(p.t) && Sound(p, a) && Tried(p, a)
    ensures Tried(p, Next(p, a))
  {
    if a.plan == [] && a.conf.at == Ready && ConflictAt(p, a.conf.stack, a.conf.pos).Some? {
      SaveTried(p, a);
    } else if a.conf.at == Failing && a.trail != [] && Get(p.t.ctable, a.trail[|a.trail| - 1].choice + 1) >= 0 {
      RetryTried(p, a);
    } else {
      KeptTried(p, a);
    }
  }

  lemma {:induction false} RunTried(p: Program, n: nat, a: State)
    requires TablesFit(p.t) && Sound(p, a) && Tried(p, a)
    ensures Tried(p, Run(p, n, a))
  {
    if n > 0 {
      NextSound(p, a);
      NextTried(p, a);
      RunTried(p, n - 1, Next(p, a));
    }
  }

  /** The first way that works is taken: when a trial is committed, every choice
      listed before a recorded one is a dead end. */
  lemma FirstWayTaken(p: Program, n: nat, k: nat)
    requires TablesFit(p.t)
    ensures var a := Run(p, n, Start); k < |a.trail| ==> AtConflict(p, a.trail[k]) && EarlierDead(p, a.trail[..k], a.trail[k])
  {
    RunSound(p, n, Start);
    RunTried(p, n, Start);
    var a := Run(p, n, Start);
    if k < |a.trail| { assert PointTried(p, a, k); }
  }

  lemma StartTried(p: Program)
    requires TablesFit(p.t)
    ensures Sound(p, Start) && Tried(p, Start)
  {
  }

  /** A conflict is given up only when all its listed choices are dead ends. */
  lemma AllWaysTried(p: Program, n: nat)
    requires TablesFit(p.t)
    ensures var a := Run(p, n, Start); var m := |a.trail| - 1;
      |Next(p, a).trail| < |a.trail| && Next(p, a).plan == [] ==>
        && AtConflict(p, a.trail[m]) && Get(p.t.ctable, a.trail[m].choice + 1) < 0
        && EarlierDead(p, a.trail[..m], a.trail[m]) && DeadEnd(p, a.trail[..m], a.trail[m])
  {
    hide ConflictAt, Listed, ReplayOk, AtConflict;
    StartTried(p);
    RunSound(p, n, Start);
    RunTried(p, n, Start);
    var a := Run(p, n, Start);
    if |Next(p, a).trail| < |a.trail| && Next(p, a).plan == [] {
      LastIsDead(p, a);
      assert PointTried(p, a, |a.trail| - 1);
    }
  }
}
