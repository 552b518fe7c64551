/** From the grammar to the language: the generator's tables make a parser that
    accepts sentences only; all of them if the grammar is LALR(1), and if it declares
    no precedences, all of them with which the parser comes to an end. */
module ParserCorrectness {
  import opened Grammar
  import opened Automaton
  import opened Machine
  import opened Lookahead
  import opened Actions
  import opened Conflicts
  import opened Vectors
  import opened OutputTables
  import opened TrialParse
  import opened TrialChoices
  import opened ParserRuntime
  import opened StackPaths
  import opened ParserTables
  import opened Soundness
  import opened Completeness
  import opened Generator

  /** A rule with a lookahead is a user's rule, completed in the state. */
  lemma LookaheadCompleted(g: Grammar, A: Automaton, s: int, r: int, t: int)
    requires WellFormed(g) && Canonical(g, A) && IsState(A, s) && 2 <= r < |g.rlhs|
    requires Propagated(g, A, s, g.rrhs[r + 1] - 1, t)
    ensures Completed(g, A, s, r)
  {
    hide Canonical, Propagated, Items;
    PropagatedCompleted(g, A, s, r, t);
    AcceptNotCompleted(g, A, s);
  }

  lemma ActionIsOk(g: Grammar, P: Precedence, A: Automaton, s: int, a: Action)
    requires WellFormed(g) && Canonical(g, A) && PrecedenceOk(g, P) && IsState(A, s)
    requires CanShift(g, A, P, s, a) || CanReduce(g, A, P, s, a)
    ensures ActionOk(g, A, s, a)
  {
    if CanReduce(g, A, P, s, a) {
      LookaheadCompleted(g, A, s, a.number, a.symbol);
    }
  }

  lemma RowIsSound(g: Grammar, P: Precedence, A: Automaton, s: int, row0: seq<Action>, final: bool, row: seq<Action>, dr: int)
    requires WellFormed(g) && Canonical(g, A) && PrecedenceOk(g, P) && IsState(A, s)
    requires RowOk(g, A, P, s, row0) && Resolves(row0, final, row) && (dr != 0 ==> OnlyReduces(row, dr))
    ensures RowSound(g, A, s, row, dr)
  {
    var sr, rr :| ResolvedRow(row0, final, row, sr, rr);
    RowNumbers(g, A, P, s, row0);
    MarkedSorted(row0, Resolve(row0, final, |row0|).marks);
    forall i | 0 <= i < |row| ensures ActionOk(g, A, s, row[i]) {
      assert row0[i] in row0;
      ActionIsOk(g, P, A, s, row0[i]);
    }
  }

  // ----- LALR(1) grammars

  /** No state has two things to do on a token. */
  ghost predicate IsLALR1(g: Grammar, A: Automaton)
    requires WellFormed(g)
  {
    forall s, r, t :: IsState(A, s) && Reducible(g, A, s, r, t) ==>
      (forall u :: !Trans(A, s, t, u)) && (forall q :: Reducible(g, A, s, q, t) ==> q == r)
  }

  lemma RuleIsUsers(g: Grammar, P: Precedence, A: Automaton, s: int, a: Action)
    requires WellFormed(g) && Canonical(g, A) && PrecedenceOk(g, P) && IsState(A, s)
    ensures CanReduce(g, A, P, s, a) ==> Reducible(g, A, s, a.number, a.symbol)
  {
    if CanReduce(g, A, P, s, a) { ActionIsOk(g, P, A, s, a); }
  }

  /** Then all actions of a row are on different tokens. */
  lemma RowDistinct(g: Grammar, P: Precedence, A: Automaton, s: int, row: seq<Action>, i: int, j: int)
    requires WellFormed(g) && Canonical(g, A) && PrecedenceOk(g, P) && IsState(A, s) && IsLALR1(g, A)
    requires RowOk(g, A, P, s, row) && 0 <= i < j < |row|
    ensures row[i].symbol != row[j].symbol
  {
    var a, b := row[i], row[j];
    assert a in row && b in row && Less(a, b);
    RuleIsUsers(g, P, A, s, a);
    RuleIsUsers(g, P, A, s, b);
    if CanShift(g, A, P, s, a) && CanShift(g, A, P, s, b) && a.symbol == b.symbol {
      TransUnique(g, A, s, a.symbol, a.number, b.number);
    }
  }

  lemma NothingMarked(row0: seq<Action>, final: bool, row: seq<Action>, i: nat)
    requires Sorted(row0) && (forall i, j :: 0 <= i < j < |row0| ==> row0[i].symbol != row0[j].symbol)
    requires Resolves(row0, final, row) && i < |row0|
    ensures |row| == |row0| && row[i] == row0[i].(suppressed := 0)
  {
    var sr, rr :| ResolvedRow(row0, final, row, sr, rr);
    LoneAction(row0, final, i);
  }

  lemma RowIsFull(g: Grammar, P: Precedence, A: Automaton, s: int, row0: seq<Action>, final: bool, row: seq<Action>)
    requires WellFormed(g) && Canonical(g, A) && PrecedenceOk(g, P) && IsState(A, s) && IsLALR1(g, A)
    requires RowOk(g, A, P, s, row0) && Resolves(row0, final, row)
    ensures RowFull(g, A, s, row)
  {
    forall i, j | 0 <= i < j < |row0| ensures row0[i].symbol != row0[j].symbol {
      RowDistinct(g, P, A, s, row0, i, j);
    }
    var sr, rr :| ResolvedRow(row0, final, row, sr, rr);
    forall i | 0 <= i < |row| ensures row[i] == row0[i].(suppressed := 0) {
      NothingMarked(row0, final, row, i);
    }
    RowHasAll(g, P, A, s, row0, row);
  }

  // ----- grammars without precedences to compare

  /** No token that has a precedence can meet a rule that has one. */
  ghost predicate NoneCompared(P: Precedence) {
    forall t, r :: 0 <= t < |P.symbolPrec| && 0 <= r < |P.rulePrec| ==> P.symbolPrec[t] <= 0 || P.rulePrec[r] <= 0
  }

  ghost predicate RowUndecided(row: seq<Action>) {
    forall i, j :: 0 <= i < j < |row| && row[i].code == Shift && row[j].code == Reduce ==> row[i].prec <= 0 || row[j].prec <= 0
  }

  ghost predicate AloneTo(row: seq<Action>, n: nat, i: nat)
    requires i < n <= |row|
  {
    forall j :: 0 <= j < n && row[j].symbol == row[i].symbol ==> j == i
  }

  ghost predicate KeptTo(row: seq<Action>, n: nat, s: Scan)
    requires n <= |row|
  {
    && |s.marks| == n && (n > 0 ==> s.pref == FirstOn(row, n - 1))
    && forall i: nat :: i < n ==> s.marks[i] == if AloneTo(row, n, i) then 0 else 1
  }

  lemma KeptNew(row: seq<Action>, final: bool, s: Scan, n: nat)
    requires Sorted(row) && n < |row| && KeptTo(row, n, s) && FirstOn(row, n) == n && -1 <= s.pref < n
    ensures KeptTo(row, n + 1, Step(row, final, s))
  {
    if n > 0 { NewSymbol(row, n); }
    var t, m := Step(row, final, s), n + 1;
    assert t.marks == s.marks + [0] && t.pref == n;
    forall i: nat | i < m ensures t.marks[i] == if AloneTo(row, m, i) then 0 else 1 {
      if i < n { AloneMore(row, n, i); }
    }
  }

  lemma ClashAt(marks: seq<int>, pref: nat, i: nat)
    requires pref < |marks| && i <= |marks|
    ensures Clash(marks, pref)[i] == if i == |marks| || (i == pref && marks[pref] == 0) then 1 else marks[i]
  {
  }

  lemma KeptSame(row: seq<Action>, s: Scan, t: Scan, n: nat)
    requires n < |row| && KeptTo(row, n, s) && FirstOn(row, n) < n && t.marks == Clash(s.marks, s.pref) && t.pref == s.pref
    ensures KeptTo(row, n + 1, t)
  {
    hide Clash;
    var f, m := FirstOn(row, n), n + 1;
    FirstAgain(row, n);
    forall i: nat | i < m ensures t.marks[i] == if AloneTo(row, m, i) then 0 else 1 {
      ClashAt(s.marks, s.pref, i);
      if i < n {
        AloneMore(row, n, i);
        if row[i].symbol == row[n].symbol && i != f { assert row[f].symbol == row[i].symbol; }
      }
    }
  }

  lemma FirstAgain(row: seq<Action>, n: nat)
    requires n < |row| && FirstOn(row, n) < n
    ensures n > 0 && FirstOn(row, n - 1) == FirstOn(row, n) && row[FirstOn(row, n)].symbol == row[n].symbol && !AloneTo(row, n + 1, n)
  {
  }

  lemma AloneMore(row: seq<Action>, n: nat, i: nat)
    requires i < n < |row|
    ensures AloneTo(row, n + 1, i) <==> AloneTo(row, n, i) && row[i].symbol != row[n].symbol
  {
  }

  lemma StepClashes(row: seq<Action>, final: bool, s: Scan)
    requires RowUndecided(row) && Sorted(row) && |s.marks| < |row| && 0 <= s.pref < |s.marks|
    requires row[s.pref].symbol == row[|s.marks|].symbol
    ensures Step(row, final, s).marks == Clash(s.marks, s.pref) && Step(row, final, s).pref == s.pref
  {
    assert Less(row[s.pref], row[|s.marks|]);
  }

  lemma KeptPref(row: seq<Action>, n: nat, s: Scan)
    requires 0 < n < |row| && KeptTo(row, n, s) && FirstOn(row, n - 1) == FirstOn(row, n)
    ensures |s.marks| == n && s.pref == FirstOn(row, n)
  {
  }

  lemma {:induction false} UndecidedKept(row: seq<Action>, final: bool, n: nat)
    requires Sorted(row) && RowUndecided(row) && n <= |row|
    ensures KeptTo(row, n, Resolve(row, final, n))
  {
    hide Step, KeptTo, Sorted, RowUndecided, Resolve;
    if n == 0 {
      NothingKept(row, final);
    } else {
      UndecidedKept(row, final, n - 1);
      ResolveStep(row, final, n);
      var s := Resolve(row, final, n - 1);
      if FirstOn(row, n - 1) == n - 1 {
        KeptNew(row, final, s, n - 1);
      } else {
        FirstAgain(row, n - 1);
        KeptPref(row, n - 1, s);
        StepClashes(row, final, s);
        KeptSame(row, s, Step(row, final, s), n - 1);
      }
    }
  }

  lemma NothingKept(row: seq<Action>, final: bool)
    ensures KeptTo(row, 0, Resolve(row, final, 0))
  {
  }

  lemma RowIsUndecided(g: Grammar, P: Precedence, A: Automaton, s: int, row: seq<Action>)
    requires WellFormed(g) && PrecedenceOk(g, P) && RowOk(g, A, P, s, row) && NoneCompared(P)
    ensures RowUndecided(row)
  {
    forall i, j | 0 <= i < j < |row| && row[i].code == Shift && row[j].code == Reduce ensures row[i].prec <= 0 || row[j].prec <= 0 {
      assert row[i] in row && row[j] in row;
    }
  }

  lemma KeptHas(g: Grammar, P: Precedence, A: Automaton, s: int, row0: seq<Action>, row: seq<Action>, a: Action)
    requires WellFormed(g) && PrecedenceOk(g, P) && RowOk(g, A, P, s, row0) && |row| == |row0|
    requires forall i :: 0 <= i < |row| ==> row[i].symbol == row0[i].symbol && row[i].code == row0[i].code && row[i].number == row0[i].number
    requires CanShift(g, A, P, s, a) || CanReduce(g, A, P, s, a)
    ensures HasAction(row, a.symbol, a.code, a.number)
  {
    assert a in row0;
    var i :| 0 <= i < |row0| && row0[i] == a;
    assert row[i].symbol == a.symbol;
  }

  lemma RowHasAll(g: Grammar, P: Precedence, A: Automaton, s: int, row0: seq<Action>, row: seq<Action>)
    requires WellFormed(g) && Canonical(g, A) && PrecedenceOk(g, P) && IsState(A, s) && RowOk(g, A, P, s, row0) && |row| == |row0|
    requires forall i :: 0 <= i < |row| ==> row[i].symbol == row0[i].symbol && row[i].code == row0[i].code && row[i].number == row0[i].number
    ensures RowHas(g, A, s, row)
  {
    forall t, u | Trans(A, s, t, u) && 0 <= t < g.ntokens ensures HasAction(row, t, Shift, u) {
      KeptHas(g, P, A, s, row0, row, ShiftOn(P, t, u));
    }
    forall r, t | Reducible(g, A, s, r, t) ensures HasAction(row, t, Reduce, r) {
      KeptHas(g, P, A, s, row0, row, ReduceOn(P, t, r));
    }
  }

  lemma MarksKeep(row0: seq<Action>, final: bool, row: seq<Action>, i: nat)
    requires Resolves(row0, final, row) && Sorted(row0) && RowUndecided(row0) && i < |row0|
    ensures |row| == |row0| && row[i] == row0[i].(suppressed := if Alone(row0, i) then 0 else 1)
  {
    var sr, rr :| ResolvedRow(row0, final, row, sr, rr);
    UndecidedKept(row0, final, |row0|);
    assert AloneTo(row0, |row0|, i) <==> Alone(row0, i);
  }

  lemma ResolvedLength(row0: seq<Action>, final: bool, row: seq<Action>)
    requires Resolves(row0, final, row)
    ensures |row| == |row0|
  {
  }

  lemma SameSymbolsAlone(row0: seq<Action>, row: seq<Action>, i: nat)
    requires |row| == |row0| && i < |row| && forall j :: 0 <= j < |row| ==> row[j].symbol == row0[j].symbol
    ensures Alone(row, i) <==> Alone(row0, i)
  {
  }

  /** Then all actions of a row are kept. */
  lemma RowIsKept(g: Grammar, P: Precedence, A: Automaton, s: int, row0: seq<Action>, final: bool, row: seq<Action>)
    requires WellFormed(g) && Canonical(g, A) && PrecedenceOk(g, P) && IsState(A, s) && NoneCompared(P)
    requires RowOk(g, A, P, s, row0) && Resolves(row0, final, row)
    ensures RowKept(g, A, s, row)
  {
    RowIsUndecided(g, P, A, s, row0);
    ResolvedLength(row0, final, row);
    hide WellFormed, Canonical, PrecedenceOk, Alone, NoneCompared, RowUndecided, Resolves;
    forall i: nat | i < |row0| ensures |row| == |row0| && row[i] == row0[i].(suppressed := if Alone(row0, i) then 0 else 1) {
      MarksKeep(row0, final, row, i);
    }
    forall i: nat | i < |row| ensures row[i].suppressed == if Alone(row, i) then 0 else 1 {
      SameSymbolsAlone(row0, row, i);
    }
    RowHasAll(g, P, A, s, row0, row);
  }

  // ----- everything together

  lemma BuiltIsOk(b: Built, P: Precedence, rows: seq<seq<Action>>)
    requires WellFormed(b.g) && PrecedenceOk(b.g, P) && Canonical(b.g, b.A) && |b.values| == b.g.ntokens
    requires RowsFor(b.g, P, b.A, rows, b.parser, b.defred, b.final) && AllRead(b.g, b.A, b.e, b.parser, b.defred, b.values)
    ensures BuiltOk(b)
    ensures IsLALR1(b.g, b.A) ==> AllFull(b)
    ensures NoneCompared(P) ==> AllKept(b)
  {
    if NoneCompared(P) {
      forall s | 0 <= s < |b.parser| ensures RowKept(b.g, b.A, s, b.parser[s]) {
        RowIsKept(b.g, P, b.A, s, rows[s], s == b.final, b.parser[s]);
      }
    }
    forall s | 0 <= s < |b.parser| ensures RowSound(b.g, b.A, s, b.parser[s], b.defred[s]) {
      RowIsSound(b.g, P, b.A, s, rows[s], s == b.final, b.parser[s], b.defred[s]);
    }
    if IsLALR1(b.g, b.A) {
      forall s | 0 <= s < |b.parser| ensures RowFull(b.g, b.A, s, b.parser[s]) {
        RowIsFull(b.g, P, b.A, s, rows[s], s == b.final, b.parser[s]);
      }
    }
  }

  /** The generator has more states than a number can tell, or a table with no
      room for the next vector of the rows. */
  ghost predicate TooLarge(b: Built)
    requires WellFormed(b.g)
  {
    |b.A.states| > MAXSHORT || OutOfRoom(b.g, b.A, b.e, b.parser, b.defred, b.values)
  }

  /** The generator, up to the tables of the parser. */
  method GenerateTables(g: Grammar, P: Precedence, values: seq<int>) returns (b: Built, t: Tables, fatal: bool)
    requires WellFormed(g) && PrecedenceOk(g, P)
    requires |values| == g.ntokens && ValuesOk(values) && DistinctValues(values)
    ensures b.g == g && b.values == values && Canonical(g, b.A)
    ensures exists rows :: RowsFor(g, P, b.A, rows, b.parser, b.defred, b.final)
    ensures fatal ==> TooLarge(b)
    ensures !fatal ==> BuiltOk(b) && TablesFor(b, t) && TablesFit(t)
    ensures !fatal && IsLALR1(g, b.A) ==> AllFull(b)
    ensures !fatal && NoneCompared(P) ==> AllKept(b)
  {
    var A, parser, defred, finalState, e;
    ghost var rows;
    A, parser, defred, finalState, e, fatal, rows := GenerateParser(g, P, values);
    b := Built(g, A, e, parser, defred, finalState, values);
    t := Tables([], [], [], [], [], [], [], [], -1, [], [], [], 0);
    if !fatal {
      t := WriteTables(g, A, e, parser, defred, finalState, values);
      BuiltIsOk(b, P, rows);
    }
  }

  /** Generate the tables of a grammar and parse with them: what is accepted is a
      sentence, no reduction finds too short a stack, and no second pass goes
      astray. */
  method GenerateAndParse(g: Grammar, P: Precedence, values: seq<int>, verdict: (int, seq<int>) -> Verdict, input: nat -> int, n: nat)
    returns (result: Label, fatal: bool, ghost b: Built, ghost p: Program)
    requires WellFormed(g) && PrecedenceOk(g, P)
    requires |values| == g.ntokens && ValuesOk(values) && DistinctValues(values)
    requires forall r, stack :: verdict(r, stack) != Accept
    ensures b.g == g && b.values == values && p.verdict == verdict && p.input == input
    ensures exists rows :: RowsFor(g, P, b.A, rows, b.parser, b.defred, b.final)
    ensures fatal ==> TooLarge(b)
    ensures !fatal ==> result != Done(Underflow) && result != Done(Mismatch)
    ensures !fatal && result == Done(Accepted) ==> exists pos: nat :: SentenceUpTo(b, p, pos)
    ensures !fatal && values[0] == 0 && NoneCompared(P) && RunsThrough(p) && NeverDeclares(p) && result.Done? ==>
      (result == Done(Accepted) <==> exists pos: nat :: SentenceUpTo(b, p, pos))
  {
    var built, t;
    built, t, fatal := GenerateTables(g, P, values);
    var program := Program(t, verdict, input);
    b, p := built, program;
    result := Ready;
    if !fatal {
      result := Parse(program, n);
      StackDerives(b, p, n);
      if result == Done(Accepted) { AcceptsOnlySentences(b, p, n); }
      if values[0] == 0 && NoneCompared(P) && RunsThrough(p) && NeverDeclares(p) && result.Done? { TrialsFindSentences(b, p, n); }
    }
  }
}
