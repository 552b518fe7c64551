/** The parser of module TrialParse as skeleton.c runs it: tokens read during a
    trial are kept in a growing queue, a look-ahead token may sit in `yychar`, and
    going back to a conflict moves the queue pointer instead of the input. Every
    step here is a step there: no token is lost or read twice. */
module ParserRuntime {
  import opened Packing
  import opened TrialParse

  /** yyparsestate, as it is saved at a conflict; lexeme is an index into the
      queue. */
  datatype Saved = Saved(state: int, stack: seq<int>, lexeme: nat, ctry: int)

  /** YYSTACKGROWTH */
  const GROWTH := 16

  function Normal(c: int): nat {
    if c < 0 then 0 else c
  }

  ghost predicate SavedAt(s: Saved, q: Point) {
    s.stack == q.stack && s.ctry == q.choice && s.state == Top(q.stack)
  }

  class Parser {
    const p: Program
    var stack: seq<int>
    var at: Label
    var yychar: int
    /** yylexemes, yylvp and yylve; the queue is empty as long as it has no room. */
    var lexemes: array<int>
    var lvp: nat
    var lve: nat
    /** How many tokens yylex has delivered. */
    var lexed: nat
    /** yyps->save and yypath, oldest first. */
    var save: seq<Saved>
    var path: seq<Saved>

    /** The points that save and path stand for. */
    ghost var trail: seq<Point>
    ghost var plan: seq<Point>
    /** From here on the queue holds the latest tokens. */
    ghost var lo: nat

    /** The position of the next token not in yychar. */
    ghost function Front(): int
      reads this
    {
      lexed - (lve - lvp)
    }

    ghost function Position(): int
      reads this
    {
      if yychar >= 0 then Front() - 1 else Front()
    }

    ghost predicate QueueOk()
      reads this, lexemes
    {
      && lo <= lvp <= lve <= lexemes.Length && lve - lo <= lexed
      && forall i :: lo <= i < lve ==> Normal(lexemes[i]) == TokenAt(p, lexed - lve + i)
    }

    ghost predicate PendingOk()
      reads this
    {
      yychar >= 0 ==>
        && Front() >= 1 && yychar == TokenAt(p, Front() - 1)
        && (save != [] || lvp < lve ==> lo < lvp)
    }

    ghost predicate SavesOk()
      reads this
    {
      && |save| == |trail| && |path| == |plan|
      && (save != [] ==> path == [])
      && (forall i :: 0 <= i < |save| ==> SavedAt(save[i], trail[i]) && lo <= save[i].lexeme <= lve)
      && (forall i :: 0 <= i < |save| ==> trail[i].pos == lexed - lve + save[i].lexeme)
      && (forall i :: 0 <= i < |path| ==> SavedAt(path[i], plan[i]))
    }

    ghost predicate Valid()
      reads this, lexemes
    {
      TablesFit(p.t) && lvp <= lve && QueueOk() && PendingOk() && SavesOk()
    }

    /** The state of the machine of TrialParse. */
    ghost function Abstract(): State
      reads this, lexemes
      requires Valid()
    {
      State(Conf(stack, Position(), at), trail, plan)
    }

    constructor (p: Program)
      requires TablesFit(p.t)
      ensures Valid() && Abstract() == Start && this.p == p && fresh(lexemes)
    {
      this.p := p;
      stack, at, yychar := [0], Ready, -1;
      lexemes, lvp, lve, lexed, lo := new int[0], 0, 0, 0, 0;
      save, path, trail, plan := [], [], [], [];
    }

    /** yyexpand */
    method Expand()
      requires Valid() && lvp == lve == lexemes.Length
      modifies this`lexemes
      ensures fresh(lexemes) && lexemes.Length == old(lexemes.Length) + GROWTH
      ensures Valid() && Abstract() == old(Abstract())
    {
      var more := new int[lexemes.Length + GROWTH];
      var i := 0;
      while i < lexemes.Length
        invariant i <= lexemes.Length && lexemes == old(lexemes)
        invariant forall j :: 0 <= j < i ==> more[j] == lexemes[j]
      {
        more[i] := lexemes[i];
        i := i + 1;
      }
      lexemes := more;
    }

    /** YYLex1, at the end of the queue during a trial. */
    method Record() returns (c: int)
      requires Valid() && yychar < 0 && lvp == lve && save != []
      modifies this`lexemes, this`lvp, this`lve, this`lexed, lexemes
      ensures lexemes == old(lexemes) || fresh(lexemes)
      ensures Valid() && Normal(c) == TokenAt(p, old(Front())) && Front() == old(Front()) + 1
      ensures lo < lvp
    {
      if lvp == lexemes.Length {
        Expand();
      }
      c := p.input(lexed);
      lexemes[lvp] := c;
      lvp, lve, lexed := lvp + 1, lve + 1, lexed + 1;
    }

    /** YYLex1: the next token of the queue, or else of yylex; during a trial it is
        put into the queue. */
    method Lex1() returns (c: int)
      requires Valid() && yychar < 0
      modifies this`lexemes, this`lvp, this`lve, this`lexed, this`lo, lexemes
      ensures lexemes == old(lexemes) || fresh(lexemes)
      ensures Valid() && Normal(c) == TokenAt(p, old(Front())) && Front() == old(Front()) + 1
      ensures save != [] || lvp < lve ==> lo < lvp
    {
      if lvp < lve {
        c := lexemes[lvp];
        lvp := lvp + 1;
      } else if save != [] {
        c := Record();
      } else {
        c := p.input(lexed);
        lexed := lexed + 1;
        lo := lvp;
      }
    }

    /** Make sure that yychar holds a token. */
    method Peek()
      requires Valid()
      modifies this`yychar, this`lexemes, this`lvp, this`lve, this`lexed, this`lo, lexemes
      ensures lexemes == old(lexemes) || fresh(lexemes)
      ensures Valid() && Abstract() == old(Abstract())
      ensures Position() >= 0 && yychar == TokenAt(p, Position())
    {
      if yychar < 0 {
        var c := Lex1();
        yychar := if c < 0 then 0 else c;
      }
    }

    /** The first conflict of a trial: an empty queue starts over with the
        conflict token. */
    method StartQueue()
      requires Valid() && yychar >= 0 && save == []
      modifies this`yychar, this`lexemes, this`lvp, this`lve, this`lo, lexemes
      ensures lexemes == old(lexemes) || fresh(lexemes)
      ensures Valid() && Abstract() == old(Abstract())
      ensures if yychar >= 0 then lo < lvp else lo <= lvp < lve
    {
      hide TokenAt, TablesFit;
      if lexemes.Length == 0 {
        lexemes := new int[GROWTH];
      }
      if lvp == lve {
        lvp, lve, lo := 0, 1, 0;
        lexemes[0] := yychar;
        yychar := -1;
      }
    }

    /** Put the conflict token back. */
    method Unread()
      requires Valid() && yychar >= 0
      modifies this`yychar, this`lexemes, this`lvp, this`lve, this`lo, lexemes
      ensures lexemes == old(lexemes) || fresh(lexemes)
      ensures Valid() && Abstract() == old(Abstract())
      ensures yychar < 0 && lvp < lve
    {
      hide TokenAt, TablesFit, Normal;
      if save == [] {
        StartQueue();
      }
      if yychar >= 0 {
        lvp, yychar := lvp - 1, -1;
      }
    }

    /** A conflict outside a second pass: save where the parser is, with the
        conflict token unread. */
    method SaveConflict(start: int) returns (ctry: int)
      requires Valid() && yychar >= 0 && path == []
      modifies this`yychar, this`lexemes, this`lvp, this`lve, this`lo, this`save, this`trail, lexemes
      ensures lexemes == old(lexemes) || fresh(lexemes)
      ensures Valid() && ctry == FirstChoice(p, start)
      ensures Abstract() == old(State(Abstract().conf, trail + [Point(stack, Position(), FirstChoice(p, start))], []))
      ensures yychar < 0 && lvp < lve
    {
      hide TokenAt, TablesFit, Normal;
      ctry := start;
      if Get(p.t.ctable, ctry) == -1 {
        ctry := ctry + 1;
      }
      Unread();
      trail := trail + [Point(stack, Position(), ctry)];
      save := save + [Saved(Top(stack), stack, lvp, ctry)];
    }

    /** What the chosen entry of the conflict table says. */
    method TakeChoice(start: int, ctry: int)
      requires Valid() && (yychar < 0 ==> lvp < lve)
      modifies this`yychar, this`lvp, this`stack, this`at
      ensures Valid() && Abstract() == old(State(Chosen(p, stack, Position(), start, ctry), trail, plan))
    {
      hide TokenAt, TablesFit, Normal;
      if start == ctry {
        if yychar < 0 {
          lvp := lvp + 1;
        }
        yychar := -1;
        stack, at := stack + [Get(p.t.ctable, ctry)], Ready;
      } else {
        at := Reducing(Get(p.t.ctable, ctry));
      }
    }

    /** A conflict whose list of choices begins at start. */
    method Conflict(start: int)
      requires Valid() && at == Ready && yychar >= 0
      requires ConflictAt(p, stack, Position()) == Some(start)
      modifies this, lexemes
      ensures lexemes == old(lexemes) || fresh(lexemes)
      ensures Valid() && Abstract() == Next(p, old(Abstract()))
    {
      hide TokenAt, TablesFit, Normal, ConflictAt, Chosen, Find;
      if path != [] {
        var next := path[0];
        path, plan := path[1..], plan[1..];
        if next.state != Top(stack) {
          at := Done(Mismatch);
        } else {
          TakeChoice(start, next.ctry);
        }
      } else {
        var ctry := SaveConflict(start);
        TakeChoice(start, ctry);
      }
    }

    /** yyloop, past the question of a conflict. */
    method Act()
      requires Valid() && at == Ready && Position() >= 0 && yychar == TokenAt(p, Position())
      requires Get(p.t.defred, Top(stack)) == 0 && ConflictAt(p, stack, Position()).None?
      modifies this`yychar, this`stack, this`at
      ensures Valid() && Abstract() == Next(p, old(Abstract()))
    {
      var q := Find(p, p.t.sindex, Top(stack), yychar);
      if q.Some? {
        yychar := -1;
        stack := stack + [q.value];
        return;
      }
      var d := Find(p, p.t.rindex, Top(stack), yychar);
      at := if d.Some? then Reducing(d.value) else Failing;
    }

    /** yyloop */
    method Loop()
      requires Valid() && at == Ready
      modifies this, lexemes
      ensures lexemes == old(lexemes) || fresh(lexemes)
      ensures Valid() && Abstract() == Next(p, old(Abstract()))
    {
      var s := Top(stack);
      var r := Get(p.t.defred, s);
      if r != 0 {
        at := Reducing(r);
        return;
      }
      Peek();
      var c := Find(p, p.t.cindex, s, yychar);
      if c.Some? {
        Conflict(c.value);
      } else {
        Act();
      }
    }

    /** Turn the list of saved states around. */
    method Turn()
      requires Valid() && path == []
      modifies this`save, this`path, this`trail, this`plan
      ensures save == [] && path == old(save) && trail == [] && plan == old(trail)
    {
      while save != []
        invariant save + path == old(save)
        invariant trail + plan == old(trail) && |save| == |trail|
        decreases |save|
      {
        var n := |save| - 1;
        save, path := save[..n], [save[n]] + path;
        trail, plan := trail[..n], [trail[n]] + plan;
      }
    }

    /** yyvalid: start again from the first of the saved states. */
    method Declare()
      requires Valid() && save != []
      modifies this`save, this`path, this`trail, this`plan, this`yychar, this`at, this`stack, this`lvp
      ensures Valid() && Abstract() == Commit(old(Abstract()))
    {
      Turn();
      yychar, at := -1, Ready;
      stack, lvp := path[0].stack, path[0].lexeme;
    }

    /** yyaccept */
    method Finish()
      requires Valid()
      modifies this`save, this`path, this`trail, this`plan, this`yychar, this`at, this`stack, this`lvp
      ensures Valid() && Abstract() == AcceptNow(old(Abstract()))
    {
      if save != [] {
        Declare();
      } else {
        at := Done(Accepted);
      }
    }

    /** The goal is on the stack: accept at the end of input. */
    method AtEnd()
      requires Valid()
      modifies this, lexemes
      ensures lexemes == old(lexemes) || fresh(lexemes)
      ensures Valid()
      ensures var a := old(Abstract()); Abstract() == if TokenAt(p, a.conf.pos) == 0 then AcceptNow(a) else a
    {
      Peek();
      if yychar == 0 {
        Finish();
      }
    }

    /** Pop the right-hand side of r and push the left-hand side. */
    method Pop(r: int)
      requires Valid() && Reduced(p, stack, r).Some?
      modifies this`stack, this`at
      ensures Valid() && Abstract() == old(State(Conf(Reduced(p, stack, r).value, Position(), Ready), trail, plan))
    {
      hide TokenAt, TablesFit, Normal;
      stack := stack[..|stack| - Get(p.t.len, r)];
      var s, lhs := Top(stack), Get(p.t.lhs, r);
      if s == 0 && lhs == 0 {
        stack := stack + [p.t.final];
      } else {
        stack := stack + [Goto(p, s, lhs)];
      }
      at := Ready;
    }

    /** yyreduce, after the code of the rule. */
    method ReduceStack(r: int)
      requires Valid()
      modifies this, lexemes
      ensures lexemes == old(lexemes) || fresh(lexemes)
      ensures Valid() && Abstract() == Popped(p, old(Abstract()), r)
    {
      hide TokenAt, TablesFit, Normal, Find;
      var m := Get(p.t.len, r);
      if m < 0 || m >= |stack| {
        at := Done(Underflow);
        return;
      }
      var goal := AtGoal(p, stack, r);
      Pop(r);
      if goal {
        AtEnd();
      }
    }

    /** yyreduce: run the code of the rule, then reduce. */
    method Reduce(r: int)
      requires Valid() && at == Reducing(r)
      modifies this, lexemes
      ensures lexemes == old(lexemes) || fresh(lexemes)
      ensures Valid() && Abstract() == Next(p, old(Abstract()))
    {
      hide TokenAt, TablesFit, Normal, Popped, Reduced, AtGoal, Find;
      var v := p.verdict(r, stack);
      if (v == TrialParse.Valid && save != []) || (v == ValidNested && |save| == 1) {
        Declare();
      } else if v == Accept {
        Finish();
      } else if v == Error {
        at := Failing;
      } else if v == Abort {
        at := Done(Aborted);
      } else {
        ReduceStack(r);
      }
    }

    /** Take stack and token position from the latest saved state. */
    method Restore()
      requires Valid() && save != []
      modifies this`lvp, this`yychar, this`stack
      ensures Valid()
      ensures var q := trail[|trail| - 1]; Abstract() == State(Conf(q.stack, q.pos, at), trail, plan)
    {
      var last := save[|save| - 1];
      lvp, yychar, stack := last.lexeme, -1, last.stack;
    }

    /** The next choice of the latest conflict. */
    method Retry(rule: int)
      requires Valid() && save != []
      modifies this`save, this`trail, this`at
      ensures Valid()
      ensures var n := |old(trail)| - 1; var q := old(trail)[n];
        Abstract() == old(State(Conf(stack, Position(), Reducing(rule)), trail[..n] + [q.(choice := q.choice + 1)], plan))
    {
      var n := |save| - 1;
      save := save[..n] + [save[n].(ctry := save[n].ctry + 1)];
      trail := trail[..n] + [trail[n].(choice := trail[n].choice + 1)];
      at := Reducing(rule);
    }

    /** No choice is left for the latest conflict. */
    method Drop()
      requires Valid() && save != []
      modifies this`save, this`trail
      ensures Valid()
      ensures Abstract() == old(State(Conf(stack, Position(), at), trail[..|trail| - 1], plan))
    {
      save, trail := save[..|save| - 1], trail[..|trail| - 1];
    }

    /** yyerrhandler: back to the latest conflict. */
    method Backtrack()
      requires Valid() && at == Failing
      modifies this`lvp, this`yychar, this`stack, this`save, this`trail, this`at
      ensures Valid() && Abstract() == Next(p, old(Abstract()))
    {
      if save == [] {
        at := Done(Rejected);
        return;
      }
      Restore();
      var e := Get(p.t.ctable, save[|save| - 1].ctry + 1);
      if e >= 0 {
        Retry(e);
      } else {
        Drop();
      }
    }

    /** On to the next label. */
    method Step()
      requires Valid()
      modifies this, lexemes
      ensures lexemes == old(lexemes) || fresh(lexemes)
      ensures Valid() && Abstract() == Next(p, old(Abstract()))
    {
      match at
      case Ready => Loop();
      case Reducing(r) => Reduce(r);
      case Failing => Backtrack();
      case Done(_) =>
    }
  }

  lemma {:induction false} DoneStays(p: Program, n: nat, a: State)
    requires TablesFit(p.t) && a.conf.at.Done?
    ensures Run(p, n, a) == a
  {
    if n > 0 { DoneStays(p, n - 1, a); }
  }

  /** yyparse, stopped after n steps if it is still running. */
  method Parse(p: Program, n: nat) returns (result: Label)
    requires TablesFit(p.t)
    ensures result == Run(p, n, Start).conf.at
    ensures result != Done(Mismatch)
  {
    hide Next, Sound;
    var parser := new Parser(p);
    var i := 0;
    while i < n && !parser.at.Done?
      invariant i <= n && fresh(parser) && fresh(parser.lexemes) && parser.p == p && parser.Valid()
      invariant Run(p, n - i, parser.Abstract()) == Run(p, n, Start)
    {
      parser.Step();
      i := i + 1;
    }
    result := parser.at;
    if i < n { DoneStays(p, n - i, parser.Abstract()); }
    NeverMismatch(p, n);
  }
}
