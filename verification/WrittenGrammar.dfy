/** The language of the grammar as it is written, and that of the rules as they were
    read, with a marker for every action inside a rule: they are the same. */
module WrittenGrammar {
  import opened Actions
  import opened Words
  import opened Markers
  import opened Reader
  import opened GrammarReader
  import opened SymbolPacking
  import opened TrialParse
  import opened TrialChoices
  import opened ParserTables
  import opened Soundness
  import opened Completeness
  import opened Vectors
  import opened ParserCorrectness
  import opened GrammarPacking
  import opened SourceGrammar

  // ----- leaving out markers

  ghost predicate IsRule(u: Source, r: int) {
    3 <= r < |u.lhs| && r - 3 < |u.rules|
  }

  /** Rule r of u, its markers left out, is rule i of v. */
  ghost predicate SameRule(u: Source, M: set<int>, v: Source, r: int, i: int) {
    && IsRule(u, r) && u.lhs[r] !in M && IsRule(v, i)
    && v.lhs[i] == u.lhs[r] && v.rules[i - 3] == Erase(u.rules[r - 3], M)
  }

  /** The rules of v are those of u but those of markers, without markers. */
  ghost predicate Leaves(u: Source, M: set<int>, v: Source) {
    && v.bs == u.bs && v.goal == u.goal && |u.lhs| == |u.rules| + 3 && |v.lhs| == |v.rules| + 3
    && (forall r :: IsRule(u, r) && u.lhs[r] !in M ==> exists i :: SameRule(u, M, v, r, i))
    && (forall i :: IsRule(v, i) ==> exists r :: SameRule(u, M, v, r, i))
  }

  /** Markers have rules, all of them empty. */
  ghost predicate MarkersEmpty(u: Source, M: set<int>) {
    && u.goal !in M
    && (forall m :: m in M ==> exists r :: IsRule(u, r) && u.lhs[r] == m)
    && (forall r :: IsRule(u, r) && u.lhs[r] in M ==> u.rules[r - 3] == [])
    && forall b :: 0 < b < |u.bs| && u.bs[b].term ==> b !in M
  }

  lemma EraseAround(a: seq<int>, k: nat, r: seq<int>, M: set<int>)
    requires k < |a|
    ensures Erase(a[..k] + r + a[k + 1..], M) == Erase(a[..k], M) + Erase(r, M) + Erase(a[k + 1..], M)
    ensures Erase(a, M) == Erase(a[..k], M) + Erase([a[k]], M) + Erase(a[k + 1..], M)
  {
    hide Erase;
    EraseAppend(a[..k] + r, a[k + 1..], M);
    EraseAppend(a[..k], r, M);
    EraseAppend(a[..k] + [a[k]], a[k + 1..], M);
    EraseAppend(a[..k], [a[k]], M);
    assert a == a[..k] + [a[k]] + a[k + 1..];
  }

  // ----- from the rules as read to those written

  /** A step of u is a step of v or none. */
  lemma StepLeft(u: Source, M: set<int>, v: Source, a: seq<int>, b: seq<int>)
    requires Leaves(u, M, v) && MarkersEmpty(u, M) && SourceRewrites(u, a, b)
    ensures Erase(a, M) == Erase(b, M) || SourceRewrites(v, Erase(a, M), Erase(b, M))
  {
    hide Erase;
    var k, r :| SourceRewritesAt(u, a, b, k, r);
    assert IsRule(u, r);
    EraseAround(a, k, u.rules[r - 3], M);
    EraseOne(a[k], M);
    if u.lhs[r] in M {
      EraseNone([], M);
    } else {
      var i :| SameRule(u, M, v, r, i);
      RewritesInside(v, Erase(a[..k], M), a[k], Erase(a[k + 1..], M), i);
    }
  }

  lemma RewritesInside(v: Source, x: seq<int>, s: int, y: seq<int>, i: int)
    requires IsRule(v, i) && v.lhs[i] == s
    ensures SourceRewrites(v, x + [s] + y, x + v.rules[i - 3] + y)
  {
    var a, b, k := x + [s] + y, x + v.rules[i - 3] + y, |x|;
    assert a[..k] == x && a[k + 1..] == y && a[k] == s;
    assert SourceRewritesAt(v, a, b, k, i);
  }

  lemma {:induction false} DerivesLeft(u: Source, M: set<int>, v: Source, n: nat, a: seq<int>, w: seq<int>)
    requires Leaves(u, M, v) && MarkersEmpty(u, M) && SourceDerivesN(u, n, a, w)
    ensures SourceDerives(v, Erase(a, M), Erase(w, M))
  {
    hide Leaves, MarkersEmpty, Erase, SourceRewrites;
    if n == 0 {
      assert SourceDerivesN(v, 0, Erase(a, M), Erase(w, M));
    } else {
      var c :| SourceRewrites(u, a, c) && SourceDerivesN(u, n - 1, c, w);
      StepLeft(u, M, v, a, c);
      DerivesLeft(u, M, v, n - 1, c, w);
      if Erase(a, M) != Erase(c, M) {
        StepFirst(v, Erase(a, M), Erase(c, M), Erase(w, M));
      }
    }
  }

  lemma StepFirst(v: Source, a: seq<int>, c: seq<int>, w: seq<int>)
    requires SourceRewrites(v, a, c) && SourceDerives(v, c, w)
    ensures SourceDerives(v, a, w)
  {
    var n: nat :| SourceDerivesN(v, n, c, w);
    assert SourceDerivesN(v, n + 1, a, w);
  }

  // ----- and back

  /** Symbol k of the string without markers, in the string. */
  lemma {:induction false} UnErase(a: seq<int>, M: set<int>, k: nat) returns (j: nat)
    requires k < |Erase(a, M)|
    ensures j < |a| && a[j] == Erase(a, M)[k] && a[j] !in M
    ensures Erase(a[..j], M) == Erase(a, M)[..k] && Erase(a[j + 1..], M) == Erase(a, M)[k + 1..]
  {
    hide Erase;
    EraseNone([], M);
    var n := |a| - 1;
    var e := Erase(a[..n], M);
    var x := if a[n] in M then [] else [a[n]];
    EraseLast(a, M);
    if k < |e| {
      j := UnErase(a[..n], M, k);
      UnEraseMore(a, M, k, j);
    } else {
      j := n;
      EraseNone([], M);
      LastMore(e, a[n]);
      assert a[j + 1..] == [];
    }
  }

  lemma EraseLast(a: seq<int>, M: set<int>)
    requires a != []
    ensures Erase(a, M) == Erase(a[..|a| - 1], M) + if a[|a| - 1] in M then [] else [a[|a| - 1]]
  {
  }

  /** The last symbol is at the end of the rest. */
  lemma TailErase(a: seq<int>, M: set<int>, j: nat)
    requires j < |a| - 1
    ensures Erase(a[j + 1..], M) == Erase(a[..|a| - 1][j + 1..], M) + if a[|a| - 1] in M then [] else [a[|a| - 1]]
    ensures a[..|a| - 1][..j] == a[..j]
  {
    hide Erase;
    var n := |a| - 1;
    SliceParts(a, n, j);
    EraseAppend(a[..n][j + 1..], [a[n]], M);
    EraseOne(a[n], M);
  }

  lemma UnEraseMore(a: seq<int>, M: set<int>, k: nat, j: nat)
    requires j < |a| - 1 && k < |Erase(a[..|a| - 1], M)| && Erase(a[..|a| - 1][..j], M) == Erase(a[..|a| - 1], M)[..k]
    requires Erase(a[..|a| - 1][j + 1..], M) == Erase(a[..|a| - 1], M)[k + 1..]
    ensures k < |Erase(a, M)| && Erase(a, M)[k] == Erase(a[..|a| - 1], M)[k]
    ensures Erase(a[..j], M) == Erase(a, M)[..k] && Erase(a[j + 1..], M) == Erase(a, M)[k + 1..]
  {
    hide Erase;
    EraseLast(a, M);
    TailErase(a, M, j);
    TailMore(Erase(a[..|a| - 1], M), k, if a[|a| - 1] in M then [] else [a[|a| - 1]]);
  }

  lemma SliceParts(a: seq<int>, n: nat, j: nat)
    requires j < n == |a| - 1
    ensures a[..n][..j] == a[..j] && a[j + 1..] == a[..n][j + 1..] + [a[n]]
  {
  }

  lemma LastMore(e: seq<int>, x: int)
    ensures (e + [x])[|e|] == x && (e + [x])[..|e|] == e && (e + [x])[|e| + 1..] == []
  {
  }

  lemma TailMore(e: seq<int>, k: nat, x: seq<int>)
    requires k < |e|
    ensures (e + x)[k] == e[k] && (e + x)[..k] == e[..k] && (e + x)[k + 1..] == e[k + 1..] + x
  {
  }

  /** The markers can all be removed. */
  lemma {:induction false} RemoveMarkers(u: Source, M: set<int>, x: seq<int>, a: seq<int>)
    requires MarkersEmpty(u, M) && |u.lhs| == |u.rules| + 3
    ensures SourceDerives(u, x + a, x + Erase(a, M))
    decreases |a|
  {
    hide Erase, SourceRewrites, SourceDerives;
    if a == [] {
      EraseNone([], M);
      DerivesSelf(u, x + a);
    } else {
      var s, y := a[0], a[1..];
      EraseFirst(a, M);
      if s in M {
        MarkerStep(u, M, x, s, y);
        RemoveMarkers(u, M, x, y);
        assert x + a == x + [s] + y && [] + Erase(y, M) == Erase(y, M);
        StepFirst(u, x + a, x + y, x + Erase(a, M));
      } else {
        RemoveMarkers(u, M, x + [s], y);
        assert x + a == (x + [s]) + y && x + Erase(a, M) == (x + [s]) + Erase(y, M);
      }
    }
  }

  lemma DerivesSelf(u: Source, a: seq<int>)
    ensures SourceDerives(u, a, a)
  {
    assert SourceDerivesN(u, 0, a, a);
  }

  lemma EraseFirst(a: seq<int>, M: set<int>)
    requires a != []
    ensures Erase(a, M) == (if a[0] in M then [] else [a[0]]) + Erase(a[1..], M)
  {
    assert a == [a[0]] + a[1..];
    EraseAppend([a[0]], a[1..], M);
    EraseOne(a[0], M);
  }

  lemma MarkerStep(u: Source, M: set<int>, x: seq<int>, m: int, y: seq<int>)
    requires MarkersEmpty(u, M) && m in M
    ensures SourceRewrites(u, x + [m] + y, x + y)
  {
    var r :| IsRule(u, r) && u.lhs[r] == m;
    RewritesInside(u, x, m, y, r);
    assert x + [] + y == x + y;
  }

  lemma StepRight(u: Source, M: set<int>, v: Source, a: seq<int>, c: seq<int>) returns (b: seq<int>)
    requires Leaves(u, M, v) && SourceRewrites(v, Erase(a, M), c)
    ensures SourceRewrites(u, a, b) && Erase(b, M) == c
  {
    hide Erase;
    var k, i :| SourceRewritesAt(v, Erase(a, M), c, k, i);
    assert IsRule(v, i);
    var r :| SameRule(u, M, v, r, i);
    var j := UnErase(a, M, k);
    b := a[..j] + u.rules[r - 3] + a[j + 1..];
    assert SourceRewritesAt(u, a, b, j, r);
    EraseAround(a, j, u.rules[r - 3], M);
  }

  lemma MarkersFit(u: Source, M: set<int>, v: Source)
    requires Leaves(u, M, v)
    ensures |u.lhs| == |u.rules| + 3
  {
  }

  lemma {:induction false} DerivesRight(u: Source, M: set<int>, v: Source, n: nat, a: seq<int>, w: seq<int>)
    requires Leaves(u, M, v) && MarkersEmpty(u, M) && SourceDerivesN(v, n, Erase(a, M), w)
    ensures SourceDerives(u, a, w)
  {
    hide Leaves, MarkersEmpty, Erase, SourceRewrites, SourceDerives;
    MarkersFit(u, M, v);
    if n == 0 {
      RemoveMarkers(u, M, [], a);
      assert [] + a == a && [] + Erase(a, M) == Erase(a, M);
    } else {
      var c :| SourceRewrites(v, Erase(a, M), c) && SourceDerivesN(v, n - 1, c, w);
      var b := StepRight(u, M, v, a, c);
      DerivesRight(u, M, v, n - 1, b, w);
      StepFirst(u, a, b, w);
    }
  }

  /** Actions inside rules, and arguments, do not change the language. */
  lemma SameSentences(u: Source, M: set<int>, v: Source, w: seq<int>)
    requires Leaves(u, M, v) && MarkersEmpty(u, M)
    ensures SourceSentence(u, w) <==> SourceSentence(v, w)
  {
    EraseOne(u.goal, M);
    if SourceSentence(u, w) {
      var n: nat :| SourceDerivesN(u, n, [u.goal as int], w);
      EraseNone(w, M);
      DerivesLeft(u, M, v, n, [u.goal as int], w);
    }
    if SourceSentence(v, w) {
      var n: nat :| SourceDerivesN(v, n, [v.goal as int], w);
      DerivesRight(u, M, v, n, [u.goal as int], w);
    }
  }

  // ----- the rules that were read

  /** A list of rules as a grammar. */
  ghost function AsSource(bs: seq<Bucket>, goal: nat, w: seq<WrittenRule<int>>): (v: Source)
    ensures |v.rules| == |w| && |v.lhs| == |w| + 3
    ensures forall i :: 3 <= i < |v.lhs| ==> v.lhs[i] == w[i - 3].lhs && v.rules[i - 3] == w[i - 3].rhs
  {
    Source(bs, goal, seq(|w|, i requires 0 <= i < |w| => w[i].rhs), [0, 0, 0] + seq(|w|, i requires 0 <= i < |w| => w[i].lhs))
  }

  /** check_symbols: an unknown symbol becomes a token. */
  method CheckSymbols(entries: seq<Entry>) returns (bs: seq<Bucket>)
    ensures Checked(entries, bs)
  {
    bs := seq(|entries|, b requires 0 <= b < |entries| =>
      Bucket(entries[b].kind == Term || entries[b].kind == Unclassed, entries[b].value, entries[b].prec, entries[b].assoc));
  }

  ghost predicate Checked(entries: seq<Entry>, bs: seq<Bucket>) {
    && |bs| == |entries|
    && forall b :: 0 <= b < |bs| ==>
      bs[b] == Bucket(entries[b].kind == Term || entries[b].kind == Unclassed, entries[b].value, entries[b].prec, entries[b].assoc)
  }

  /** The rules without markers are those that Ordinary lists. */
  lemma OrdinaryLeaves(u: Source, M: set<int>, prec: seq<int>, assoc: seq<Assoc>)
    requires |u.lhs| == |u.rules| + 3 && |prec| == |assoc| == |u.rules|
    ensures Leaves(u, M, AsSource(u.bs, u.goal, Ordinary(u.rules, u.lhs[3..], prec, assoc, M)))
  {
    hide Ordinary, Erase;
    var w := Ordinary(u.rules, u.lhs[3..], prec, assoc, M);
    var v := AsSource(u.bs, u.goal, w);
    forall r | IsRule(u, r) && u.lhs[r] !in M ensures exists i :: SameRule(u, M, v, r, i) {
      OrdinaryHas(u.rules, u.lhs[3..], prec, assoc, M, r - 3);
      var i :| 0 <= i < |w| && w[i] == WrittenRule(u.lhs[r], Erase(u.rules[r - 3], M), prec[r - 3], assoc[r - 3]);
      assert SameRule(u, M, v, r, i + 3);
    }
    forall i | IsRule(v, i) ensures exists r :: SameRule(u, M, v, r, i) {
      var k := OrdinaryFrom(u.rules, u.lhs[3..], prec, assoc, M, w[i - 3]);
      assert SameRule(u, M, v, k + 3, i);
    }
  }

  /** What was read without errors is a grammar, with the markers as they should be. */
  lemma ReadIsSource(bs: seq<Bucket>, goal: nat, done: seq<seq<int>>, lhs: seq<int>, t: Names)
    requires Checked(t.entries, bs) && |lhs| == |done| + 3 && Finished(done, lhs[3..], t.markers, t.entries, t.errors) && t.errors == 0
    requires 2 <= |t.entries| && t.entries[1].kind == Term && 0 < goal < |t.entries| && t.entries[goal].kind == Nonterm
    ensures SourceOk(Source(bs, goal, done, lhs)) && MarkersEmpty(Source(bs, goal, done, lhs), t.markers)
  {
    var u := Source(bs, goal, done, lhs);
    forall k | 3 <= k < |lhs| ensures 0 < lhs[k] < |bs| && !bs[lhs[k]].term {
      assert lhs[k] == lhs[3..][k - 3] && EndKind(lhs[3..], t.markers, t.entries, t.errors, lhs[k]);
    }
    forall m | m in t.markers ensures exists r :: IsRule(u, r) && u.lhs[r] == m {
      var i :| 0 <= i < |lhs[3..]| && lhs[3..][i] == m;
      assert IsRule(u, i + 3);
    }
    forall b | 0 < b < |bs| && bs[b].term ensures b !in t.markers {
      assert EndKind(lhs[3..], t.markers, t.entries, t.errors, b);
    }
    assert EndKind(lhs[3..], t.markers, t.entries, t.errors, goal);
    forall r | IsRule(u, r) && u.lhs[r] in t.markers ensures u.rules[r - 3] == [] {
      assert lhs[3..][r - 3] == lhs[r];
    }
    forall k | 0 <= k < |done| ensures Known(bs, done[k]) {
      assert InTable(done[k], |t.entries|);
    }
  }

  /** The name is the left-hand side of a rule. */
  ghost predicate HasWritten(w: seq<WrittenRule<string>>, n: string) {
    exists i :: 0 <= i < |w| && w[i].lhs == n
  }

  /** A name is a token exactly if it has no rule. */
  lemma TokenIfNoRule(bs: seq<Bucket>, done: seq<seq<int>>, lhs: seq<int>, prec: seq<int>, assoc: seq<Assoc>, t: Names, w: seq<WrittenRule<string>>, m: seq<WrittenRule<int>>, n: string)
    requires Checked(t.entries, bs) && Finished(done, lhs, t.markers, t.entries, t.errors) && t.errors == 0 && NamesApart(t)
    requires |done| == |lhs| == |prec| == |assoc| && m == Ordinary(done, lhs, prec, assoc, t.markers) && Says(t.table, w, m) && n in t.table
    ensures 0 < t.table[n] < |bs| && (bs[t.table[n]].term <==> !HasWritten(w, n))
  {
    hide Ordinary, Erase;
    var x := t.table[n];
    assert EndKind(lhs, t.markers, t.entries, t.errors, x);
    if HasWritten(w, n) {
      var i :| 0 <= i < |w| && w[i].lhs == n;
      assert RuleSays(t.table, w[i], m[i]) && m[i] in m;
      var k := OrdinaryFrom(done, lhs, prec, assoc, t.markers, m[i]);
      assert lhs[k] == x;
    }
    if x in lhs {
      var k :| 0 <= k < |lhs| && lhs[k] == x;
      OrdinaryHas(done, lhs, prec, assoc, t.markers, k);
      LhsIsName(t, w, m, n, WrittenRule(lhs[k], Erase(done[k], t.markers), prec[k], assoc[k]));
    }
  }

  lemma LhsIsName(t: Names, w: seq<WrittenRule<string>>, m: seq<WrittenRule<int>>, n: string, r: WrittenRule<int>)
    requires NamesApart(t) && Says(t.table, w, m) && n in t.table && r in m && r.lhs == t.table[n]
    ensures HasWritten(w, n)
  {
    var i :| 0 <= i < |m| && m[i] == r;
    assert RuleSays(t.table, w[i], m[i]);
  }

  // ----- the parser of the grammar as it is written

  lemma UpToSame(u: Source, M: set<int>, v: Source, S: Symbols, values: seq<int>, p: Program, pos: nat)
    requires Leaves(u, M, v) && MarkersEmpty(u, M)
    ensures SourceUpTo(u, S, values, p, pos) <==> SourceUpTo(v, S, values, p, pos)
  {
    hide Leaves, MarkersEmpty, SourceSentence;
    forall w ensures SourceSentence(u, w) <==> SourceSentence(v, w) {
      SameSentences(u, M, v, w);
    }
  }

  /** The parser of an LALR(1) grammar, actions inside its rules and all, accepts
      exactly the sentences of the grammar as it is written. */
  lemma AcceptsExactlyWritten(u: Source, M: set<int>, v: Source, S: Symbols, b: Built, p: Program)
    requires Leaves(u, M, v) && MarkersEmpty(u, M)
    requires Corresponds(u, S, b.g) && Setting(b, p) && AllFull(b) && RunsThrough(p) && b.values[0] == 0 && Positive(b.values)
    ensures Accepts(p) <==> exists pos: nat :: SourceUpTo(v, S, b.values, p, pos)
  {
    hide Leaves, MarkersEmpty, Corresponds, SourceUpTo, AllFull, RunsThrough;
    AcceptsExactlySource(u, S, b, p);
    forall pos: nat ensures SourceUpTo(u, S, b.values, p, pos) <==> SourceUpTo(v, S, b.values, p, pos) {
      UpToSame(u, M, v, S, b.values, p, pos);
    }
  }

  /** The parser of a grammar without precedences, if it comes to an end, has accepted
      exactly them as well, whatever its conflicts. */
  lemma TrialsFindWritten(u: Source, M: set<int>, v: Source, S: Symbols, b: Built, p: Program, n: nat)
    requires Leaves(u, M, v) && MarkersEmpty(u, M) && Corresponds(u, S, b.g)
    requires Setting(b, p) && AllKept(b) && RunsThrough(p) && NeverDeclares(p) && b.values[0] == 0 && Positive(b.values)
    requires Run(p, n, TrialParse.Start).conf.at.Done?
    ensures Run(p, n, TrialParse.Start).conf.at == Done(Accepted) <==> exists pos: nat :: SourceUpTo(v, S, b.values, p, pos)
  {
    hide Leaves, MarkersEmpty, Corresponds, SourceUpTo, AllKept, RunsThrough, NeverDeclares;
    TrialsFindSource(u, S, b, p, n);
    forall pos: nat ensures SourceUpTo(u, S, b.values, p, pos) <==> SourceUpTo(v, S, b.values, p, pos) {
      UpToSame(u, M, v, S, b.values, p, pos);
    }
  }

  /** The rules section with the checks after it: the rules without errors, for a goal
      that has one. The grammar is that of the rules as written, in the numbers of
      the symbol table. */
  method ReadSection(table: map<string, int>, entries: seq<Entry>, goal0: nat, ghost d: Declarations, first: Word, events: seq<Event>)
    returns (ok: bool, R: Rules, bs: seq<Bucket>, goal: int, ghost t: Names, ghost m: seq<WrittenRule<int>>)
    requires DeclarationsOk(table, entries, d) && !IsLiteral(first.text) && goal0 < |entries|
    requires "error" in table && table["error"] == 1 && "error" in d.terms && AllSpelled(events)
    ensures fresh(R) && Says(t.table, AllWritten(d, first.text, events), m) && (t.errors == 0 <==> Clean(d, first.text, events))
    ensures first.text in t.table && goal == if goal0 != 0 then goal0 else t.table[first.text]
    ensures NamesAsDeclared(t, d) && Classed(t, d) && Numbered(t, events)
    ensures ok <==> t.errors == 0 && 0 < goal < |t.entries| && t.entries[goal].kind == Nonterm
    ensures ok ==> R.Valid() && R.cur == [] && R.nrules <= R.plhs.Length && Checked(t.entries, bs)
    ensures ok ==> SourceOk(Source(bs, goal, R.done, R.plhs[..R.nrules])) && MarkersEmpty(Source(bs, goal, R.done, R.plhs[..R.nrules]), t.markers)
    ensures ok ==> Leaves(Source(bs, goal, R.done, R.plhs[..R.nrules]), t.markers, AsSource(bs, goal, m))
    ensures ok ==> forall n :: n in t.table ==> 0 < t.table[n] < |bs| && (bs[t.table[n]].term <==> !HasWritten(AllWritten(d, first.text, events), n))
  {
    hide DeclarationsOk, Says, AllWritten, Clean, Leaves, SourceOk, MarkersEmpty, Finished, Ordinary, NamesAsDeclared, NamesApart, Numbered, Checked, HasWritten;
    var names;
    R, names, goal := ReadGrammar(table, entries, goal0, d, first, events);
    t := names;
    m := Ordinary(R.done, R.plhs[3..R.nrules], R.rprec[3..R.nrules], R.rassoc[3..R.nrules], t.markers);
    bs := CheckSymbols(names.entries);
    ok := names.errors == 0 && 0 < goal < |names.entries| && names.entries[goal].kind == Nonterm;
    if ok {
      ghost var u := Source(bs, goal, R.done, R.plhs[..R.nrules]);
      assert u.lhs[3..] == R.plhs[3..R.nrules] && t.table["error"] == 1;
      ReadIsSource(bs, goal, R.done, u.lhs, t);
      OrdinaryLeaves(u, t.markers, R.rprec[3..R.nrules], R.rassoc[3..R.nrules]);
      forall n | n in t.table
        ensures 0 < t.table[n] < |bs| && (bs[t.table[n]].term <==> !HasWritten(AllWritten(d, first.text, events), n))
      {
        TokenIfNoRule(bs, R.done, R.plhs[3..R.nrules], R.rprec[3..R.nrules], R.rassoc[3..R.nrules], t, AllWritten(d, first.text, events), m, n);
      }
    }
  }

  lemma TablesOfSetting(b: Built, t: Tables)
    requires forall verdict, input :: Setting(b, Program(t, verdict, input))
    ensures TablesFit(t)
  {
    var p := Program(t, (r, stack) => Go, n => 0);
    assert Setting(b, p);
  }

  /** The tokens of the grammar have the values that the lexical analyzer returns for
      them: a literal of one character that character, unless another value was
      declared for it, and every name the value declared for it. */
  ghost predicate ValuesOfNames(d: Declarations, t: Names, S: Symbols, values: seq<int>) {
    && (forall n :: n in t.table && TokenName(d, n) && n in d.values ==> HasNumber(t, S, values, n) && values[S.index[t.table[n]]] == d.values[n])
    && forall c :: IsByte(c) && LiteralText([c]) in t.table && LiteralText([c]) !in d.values ==>
        HasNumber(t, S, values, LiteralText([c])) && values[S.index[t.table[LiteralText([c])]]] == c
  }

  ghost predicate HasNumber(t: Names, S: Symbols, values: seq<int>, n: string) {
    n in t.table && 0 < t.table[n] < |S.index| && 0 < S.index[t.table[n]] < |values|
  }

  lemma ValuesAreOfNames(d: Declarations, t: Names, bs: seq<Bucket>, S: Symbols, values: seq<int>)
    requires NamesAsDeclared(t, d) && Classed(t, d) && t.errors == 0 && Checked(t.entries, bs)
    requires forall n :: n in d.values ==> d.values[n] != UNDEFINED
    requires forall e: nat :: 1 <= e < |bs| && bs[e].term ==> TokenHas(bs, S, values, e)
    ensures ValuesOfNames(d, t, S, values)
  {
    hide LiteralText;
    forall n | n in t.table && TokenName(d, n) ensures HasNumber(t, S, values, n) && TokenHas(bs, S, values, t.table[n]) {
      assert bs[t.table[n]].term;
    }
  }

  /** The parser has come to an end within n steps, and no rule code has had a say. */
  ghost predicate EndsByItself(p: Program, n: nat)
    requires TablesFit(p.t)
  {
    RunsThrough(p) && NeverDeclares(p) && Run(p, n, TrialParse.Start).conf.at.Done?
  }

  ghost predicate AcceptedBy(p: Program, n: nat)
    requires TablesFit(p.t)
  {
    Run(p, n, TrialParse.Start).conf.at == Done(Accepted)
  }

  /** From the rules as they are written to the parser. */
  method GenerateFromRules(bs: seq<Bucket>, goal: nat, R: Rules, ghost M: set<int>, ghost m: seq<WrittenRule<int>>, ghost d: Declarations, ghost names: Names)
    returns (b: Built, t: Tables, fatal: bool, ghost S: Symbols)
    requires R.Valid() && R.cur == [] && SourceOk(Source(bs, goal, R.done, R.plhs[..R.nrules]))
    requires MarkersEmpty(Source(bs, goal, R.done, R.plhs[..R.nrules]), M) && Leaves(Source(bs, goal, R.done, R.plhs[..R.nrules]), M, AsSource(bs, goal, m))
    requires |bs| + 256 <= MAXSHORT && DeclaredFit(bs)
    requires NamesAsDeclared(names, d) && Classed(names, d) && names.errors == 0 && Checked(names.entries, bs)
    requires forall n :: n in d.values ==> d.values[n] != UNDEFINED
    ensures ValuesOfNames(d, names, S, b.values)
    ensures Corresponds(Source(bs, goal, R.done, R.plhs[..R.nrules]), S, b.g) && (fatal ==> TooLarge(b))
    ensures !fatal ==> TablesFit(t) && forall verdict, input :: Setting(b, Program(t, verdict, input))
    ensures !fatal && IsLALR1(b.g, b.A) ==> forall verdict, input :: RunsThrough(Program(t, verdict, input)) ==>
      (Accepts(Program(t, verdict, input)) <==> exists pos: nat :: SourceUpTo(AsSource(bs, goal, m), S, b.values, Program(t, verdict, input), pos))
    ensures !fatal && Unranked(bs) ==> forall verdict, input, n: nat :: EndsByItself(Program(t, verdict, input), n) ==>
      (AcceptedBy(Program(t, verdict, input), n) <==> exists pos: nat :: SourceUpTo(AsSource(bs, goal, m), S, b.values, Program(t, verdict, input), pos))
  {
    hide SourceOk, MarkersEmpty, Leaves, Corresponds, DeclaredFit, AllFull, AllKept, Unranked, RunsThrough, SourceUpTo, Accepts, Setting, TooLarge, TablesFit, TokenHas, NamesAsDeclared, Classed, ValuesOfNames, Checked;
    ghost var Q;
    ghost var u := Source(bs, goal, R.done, R.plhs[..R.nrules]);
    b, t, fatal, S, Q := GenerateFromSource(bs, goal, R);
    CorrespondsFits(u, S, b.g);
    ValuesAreOfNames(d, names, bs, S, b.values);
    if !fatal { TablesOfSetting(b, t); }
    if !fatal && IsLALR1(b.g, b.A) {
      forall verdict, input | RunsThrough(Program(t, verdict, input))
        ensures Accepts(Program(t, verdict, input)) <==> exists pos: nat :: SourceUpTo(AsSource(bs, goal, m), S, b.values, Program(t, verdict, input), pos)
      {
        AcceptsExactlyWritten(u, M, AsSource(bs, goal, m), S, b, Program(t, verdict, input));
      }
    }
    if !fatal && Unranked(bs) {
      forall verdict, input, n: nat | EndsByItself(Program(t, verdict, input), n)
        ensures AcceptedBy(Program(t, verdict, input), n) <==> exists pos: nat :: SourceUpTo(AsSource(bs, goal, m), S, b.values, Program(t, verdict, input), pos)
      {
        TrialsFindWritten(u, M, AsSource(bs, goal, m), S, b, Program(t, verdict, input), n);
      }
    }
  }
}
