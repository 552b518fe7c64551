/** The tables as output.c writes them into the parser: rules count from 0, so
    that rule 2 becomes rule 0, and nonterminals from the goal on. */
module ParserTables {
  import opened Grammar
  import opened ClosureTables
  import opened Automaton
  import opened Machine
  import opened Packing
  import opened Actions
  import opened Conflicts
  import opened ConflictTable
  import opened TokenActions
  import opened ConflictRows
  import opened OutputTables
  import opened TrialParse

  /** Everything the generator has computed. */
  datatype Built = Built(g: Grammar, A: Automaton, e: Emitted, parser: seq<seq<Action>>, defred: seq<int>, final: int, values: seq<int>)

  ghost predicate RuleTables(g: Grammar, t: Tables) {
    && |g.rrhs| == |g.rlhs| + 1 && |t.len| == |t.lhs| == |g.rlhs| - 2
    && forall r :: 2 <= r < |g.rlhs| ==> t.lhs[r - 2] == g.rlhs[r] - (g.ntokens + 1) && t.len[r - 2] == g.rrhs[r + 1] - g.rrhs[r] - 1
  }

  ghost predicate StateTables(e: Emitted, defred: seq<int>, t: Tables) {
    var n := e.nstates;
    && 0 <= 3 * n <= |e.base| && |defred| == n && |t.defred| == |t.sindex| == |t.rindex| == |t.cindex| == n
    && forall s :: 0 <= s < n ==>
      && t.defred[s] == (if defred[s] != 0 then defred[s] - 2 else 0)
      && t.sindex[s] == e.base[s] && t.rindex[s] == e.base[n + s] && t.cindex[s] == e.base[2 * n + s]
  }

  /** The tables of the parser. */
  ghost predicate TablesFor(b: Built, t: Tables) {
    && RuleTables(b.g, t) && StateTables(b.e, b.defred, t)
    && t.gindex == b.e.base[3 * b.e.nstates..] && t.dgoto == b.e.dgoto
    && t.table == b.e.table && t.check == b.e.check && t.high == b.e.high && t.ctable == b.e.ctable && t.final == b.final
  }

  /** output_rule_data */
  method RuleData(g: Grammar) returns (lhs: seq<int>, len: seq<int>)
    requires WellFormed(g)
    ensures |len| == |lhs| == |g.rlhs| - 2
    ensures forall r :: 2 <= r < |g.rlhs| ==> lhs[r - 2] == g.rlhs[r] - (g.ntokens + 1) && len[r - 2] == g.rrhs[r + 1] - g.rrhs[r] - 1
  {
    lhs, len := [-1], [2];
    for i := 3 to |g.rlhs|
      invariant |len| == |lhs| == i - 2
      invariant forall r :: 2 <= r < i ==> lhs[r - 2] == g.rlhs[r] - (g.ntokens + 1) && len[r - 2] == g.rrhs[r + 1] - g.rrhs[r] - 1
    {
      lhs := lhs + [g.rlhs[i] - (g.ntokens + 1)];
      len := len + [g.rrhs[i + 1] - g.rrhs[i] - 1];
    }
  }

  /** output_yydefred */
  method DefredData(defred: seq<int>) returns (d: seq<int>)
    ensures |d| == |defred| && forall s :: 0 <= s < |d| ==> d[s] == if defred[s] != 0 then defred[s] - 2 else 0
  {
    d := [];
    for i := 0 to |defred|
      invariant |d| == i && forall s :: 0 <= s < i ==> d[s] == if defred[s] != 0 then defred[s] - 2 else 0
    {
      d := d + [if defred[i] != 0 then defred[i] - 2 else 0];
    }
  }

  method WriteTables(g: Grammar, ghost A: Automaton, e: Emitted, ghost parser: seq<seq<Action>>, defred: seq<int>, final: int, ghost values: seq<int>)
    returns (t: Tables)
    requires WellFormed(g) && EmittedOk(e, VarCount(g)) && |defred| == e.nstates
    ensures TablesFor(Built(g, A, e, parser, defred, final, values), t)
  {
    var lhs, len := RuleData(g);
    var d := DefredData(defred);
    var n := e.nstates;
    t := Tables(d, e.base[..n], e.base[n..2 * n], e.base[2 * n..3 * n], e.base[3 * n..], e.dgoto, e.table, e.check, e.high, e.ctable, len, lhs, final);
  }

  // ----- what the parser finds in them

  /** State s holds the completed item of a user's rule r. */
  ghost predicate Completed(g: Grammar, A: Automaton, s: int, r: int) {
    IsState(A, s) && 3 <= r < |g.rlhs| && r + 1 < |g.rrhs| && g.rrhs[r + 1] - 1 in Items(g, A, s)
  }

  ghost predicate ActionOk(g: Grammar, A: Automaton, s: int, a: Action) {
    && 0 <= a.symbol < g.ntokens
    && (a.code == Shift ==> Trans(A, s, a.symbol, a.number))
    && (a.code == Reduce ==> Completed(g, A, s, a.number))
  }

  ghost predicate RowSound(g: Grammar, A: Automaton, s: int, row: seq<Action>, dr: int) {
    && Sorted(row) && NumbersOk(row)
    && (forall i :: 0 <= i < |row| ==> ActionOk(g, A, s, row[i]))
    && (dr != 0 ==> OnlyReduces(row, dr))
  }

  ghost predicate BuiltOk(b: Built)
  {
    && WellFormed(b.g) && |b.values| == b.g.ntokens && Trans(b.A, 0, b.g.ntokens + 1, b.final)
    && AllRead(b.g, b.A, b.e, b.parser, b.defred, b.values)
    && forall s :: 0 <= s < |b.parser| ==> RowSound(b.g, b.A, s, b.parser[s], b.defred[s])
  }

  ghost predicate IsToken(b: Built, t: int, c: int) {
    0 <= t < |b.values| && b.values[t] == c
  }

  lemma TokenOf(b: Built, c: int) returns (t: int)
    requires c in b.values
    ensures IsToken(b, t, c)
  {
    t :| 0 <= t < |b.values| && b.values[t] == c;
  }

  lemma PartsFound(b: Built, p: Program, s: int, c: int)
    requires BuiltOk(b) && TablesFor(b, p.t) && IsState(b.A, s)
    ensures TablesFit(p.t)
    ensures Find(p, p.t.sindex, s, c) == PartLookup(b.e, ShiftPart, s, c)
    ensures Find(p, p.t.rindex, s, c) == PartLookup(b.e, ReducePart, s, c)
    ensures Find(p, p.t.cindex, s, c) == PartLookup(b.e, ConflictPart, s, c)
    ensures c >= 0 && c !in b.values ==> PartLookup(b.e, ShiftPart, s, c) == PartLookup(b.e, ReducePart, s, c) == PartLookup(b.e, ConflictPart, s, c) == None
    ensures forall t :: IsToken(b, t, c) ==> TokenRead(b.e, b.parser[s], b.defred[s], s, t, c)
  {
  }

  /** A shift found is a transition on a token. */
  lemma ShiftFound(b: Built, p: Program, s: int, c: nat, q: int) returns (t: int)
    requires BuiltOk(b) && TablesFor(b, p.t) && IsState(b.A, s) && TablesFit(p.t)
    requires Find(p, p.t.sindex, s, c) == Some(q)
    ensures IsToken(b, t, c) && Trans(b.A, s, t, q)
  {
    PartsFound(b, p, s, c);
    t := TokenOf(b, c);
    var row := b.parser[s];
    assert Takes(row, t, Shift, 0, q);
    var i :| 0 <= i < |row| && Taken(row[i], t, Shift, 0) && row[i].number == q;
    assert ActionOk(b.g, b.A, s, row[i]);
  }

  /** A reduction found is by a rule completed in the state. */
  lemma ReduceFound(b: Built, p: Program, s: int, c: nat, k: int)
    requires BuiltOk(b) && TablesFor(b, p.t) && IsState(b.A, s) && TablesFit(p.t)
    requires Find(p, p.t.rindex, s, c) == Some(k)
    ensures Completed(b.g, b.A, s, k + 2)
  {
    PartsFound(b, p, s, c);
    var t := TokenOf(b, c);
    var row := b.parser[s];
    assert Takes(row, t, Reduce, b.defred[s], k + 2);
    var i :| 0 <= i < |row| && Taken(row[i], t, Reduce, b.defred[s]) && row[i].number == k + 2;
    assert ActionOk(b.g, b.A, s, row[i]);
  }

  lemma DefaultFound(b: Built, p: Program, s: int)
    requires BuiltOk(b) && TablesFor(b, p.t) && IsState(b.A, s)
    ensures if b.defred[s] == 0 then Get(p.t.defred, s) == 0
            else Get(p.t.defred, s) == b.defred[s] - 2 != 0 && Completed(b.g, b.A, s, b.defred[s])
  {
    var row := b.parser[s];
    assert RowSound(b.g, b.A, s, row, b.defred[s]);
    if b.defred[s] != 0 {
      var i :| 0 <= i < |row| && Live(row[i]) && row[i].symbol != 1;
      assert ActionOk(b.g, b.A, s, row[i]);
    }
  }

  lemma WordOfToken(b: Built, p: Program, s: int, c: nat, start: int) returns (t: int)
    requires BuiltOk(b) && TablesFor(b, p.t) && IsState(b.A, s) && TablesFit(p.t)
    requires b.defred[s] == 0 && Find(p, p.t.cindex, s, c) == Some(start)
    ensures IsToken(b, t, c) && HasTrialOn(b.parser[s], t, |b.parser[s]|)
    ensures Reads(p.t.ctable, start, TrialWord(b.parser[s], 0, t, |b.parser[s]|) + [-1])
  {
    PartsFound(b, p, s, c);
    t := TokenOf(b, c);
  }

  lemma TrialNotEmpty(row: seq<Action>, t: int)
    requires Sorted(row) && NumbersOk(row) && HasTrialOn(row, t, |row|)
    ensures TrialWord(row, 0, t, |row|) != []
  {
    WordTells(row, 0, t);
    var i :| 0 <= i < |row| && IsTrial(row[i], t);
    if row[i].code == Shift {
      assert TrialShift(row, t, |row|, row[i].number);
    } else {
      assert TrialRule(row, 0, t, |row|, row[i].number);
    }
  }

  lemma ReadsEntry(p: Program, start: int, v: seq<int>, i: int)
    requires Reads(p.t.ctable, start, v) && 0 <= i < |v|
    ensures Get(p.t.ctable, start + i) == v[i]
  {
    assert p.t.ctable[start..start + |v|][i] == p.t.ctable[start + i];
  }

  /** A listed choice lies within the list. */
  lemma ListedWithin(p: Program, start: int, choice: int, w: seq<int>)
    requires Reads(p.t.ctable, start, w + [-1]) && IsOpen(w) && w != [] && Listed(p, start, choice)
    ensures 0 <= choice - start < |w| && Get(p.t.ctable, choice) == w[choice - start]
    ensures choice == start ==> w[0] != -1
  {
    var v := w + [-1];
    ReadsEntry(p, start, v, 0);
    ReadsEntry(p, start, v, |w|);
    assert FirstChoice(p, start) < start + |w|;
    assert choice < start + |w|;
    ReadsEntry(p, start, v, choice - start);
  }

  /** A listed choice is a transition on the token or a completed rule. */
  lemma ChoiceFound(b: Built, p: Program, s: int, c: nat, start: int, choice: int) returns (t: int)
    requires BuiltOk(b) && TablesFor(b, p.t) && IsState(b.A, s) && TablesFit(p.t)
    requires Get(p.t.defred, s) == 0 && Find(p, p.t.cindex, s, c) == Some(start) && Listed(p, start, choice)
    ensures IsToken(b, t, c)
    ensures if choice == start then Trans(b.A, s, t, Get(p.t.ctable, choice)) else Completed(b.g, b.A, s, Get(p.t.ctable, choice) + 2)
  {
    DefaultFound(b, p, s);
    t := WordOfToken(b, p, s, c, start);
    var row := b.parser[s];
    assert RowSound(b.g, b.A, s, row, 0);
    TrialNotEmpty(row, t);
    WordIsSound(b.g, b.A, s, row, t);
    ListedWithin(p, start, choice, TrialWord(row, 0, t, |row|));
  }

  lemma WordIsSound(g: Grammar, A: Automaton, s: int, row: seq<Action>, t: int)
    requires RowSound(g, A, s, row, 0)
    ensures var w := TrialWord(row, 0, t, |row|); IsOpen(w) && (w != [] ==>
      && (w[0] == -1 || Trans(A, s, t, w[0]))
      && (forall k :: 1 <= k < |w| ==> Completed(g, A, s, w[k] + 2)))
  {
    hide TrialWord, Completed;
    var w := TrialWord(row, 0, t, |row|);
    WordTells(row, 0, t);
    if w != [] && w[0] != -1 {
      var i :| 0 <= i < |row| && IsTrial(row[i], t) && row[i].code == Shift && row[i].number == w[0];
      assert ActionOk(g, A, s, row[i]);
    }
    forall k | 1 <= k < |w| ensures Completed(g, A, s, w[k] + 2) {
      assert w[k] == w[1..][k - 1] && w[1..][k - 1] in w[1..];
      assert TrialRule(row, 0, t, |row|, w[k] + 2);
      var i :| 0 <= i < |row| && IsTrial(row[i], t) && row[i].code == Reduce && row[i].number == w[k] + 2;
      assert ActionOk(g, A, s, row[i]);
    }
  }

  /** The goto found is the transition. */
  lemma GotoThrough(b: Built, p: Program, s: int, X: int, u: int)
    requires BuiltOk(b) && TablesFor(b, p.t) && TablesFit(p.t) && IsState(b.A, s)
    requires Trans(b.A, s, X, u) && b.g.ntokens < X < b.g.nsyms
    ensures Goto(p, s, X - b.g.ntokens - 1) == u
  {
    assert GotoRead(b.e, s, X - b.g.ntokens) == u;
  }
}
