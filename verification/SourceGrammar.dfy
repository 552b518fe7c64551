/** reader.c as a whole: from the symbol table and the rules as they were read to
    the parser. What the parser accepts is what the grammar as read derives. */
module SourceGrammar {
  import opened Grammar
  import opened Derivation
  import opened Actions
  import opened Vectors
  import opened OutputTables
  import opened Words
  import opened Reader
  import opened GrammarPacking
  import opened SymbolPacking
  import opened TrialParse
  import opened TrialChoices
  import opened ParserTables
  import opened Soundness
  import opened Completeness
  import opened Generator
  import opened ParserCorrectness

  /** The grammar as read: the symbol table, the entry of the goal, and the rules
      from number 3 on. */
  datatype Source = Source(bs: seq<Bucket>, goal: nat, rules: seq<seq<int>>, lhs: seq<int>)

  /** a is a string of entries. */
  ghost predicate Known(bs: seq<Bucket>, a: seq<int>) {
    forall j :: 0 <= j < |a| ==> 0 < a[j] < |bs|
  }

  ghost predicate SourceOk(u: Source) {
    && TableOk(u.bs, u.goal) && |u.lhs| == |u.rules| + 3
    && (forall k :: 0 <= k < |u.rules| ==> Known(u.bs, u.rules[k]))
    && (forall k :: 3 <= k < |u.lhs| ==> 0 < u.lhs[k] < |u.bs| && !u.bs[u.lhs[k]].term)
  }

  // ----- what the grammar as read derives

  ghost predicate SourceRewritesAt(u: Source, a: seq<int>, b: seq<int>, k: int, r: int) {
    && 3 <= r < |u.lhs| && r - 3 < |u.rules| && 0 <= k < |a| && a[k] == u.lhs[r]
    && b == a[..k] + u.rules[r - 3] + a[k + 1..]
  }

  ghost predicate SourceRewrites(u: Source, a: seq<int>, b: seq<int>) {
    exists k, r :: SourceRewritesAt(u, a, b, k, r)
  }

  ghost predicate SourceDerivesN(u: Source, n: nat, a: seq<int>, w: seq<int>) {
    if n == 0 then a == w else exists c :: SourceRewrites(u, a, c) && SourceDerivesN(u, n - 1, c, w)
  }

  ghost predicate SourceDerives(u: Source, a: seq<int>, w: seq<int>) {
    exists n: nat :: SourceDerivesN(u, n, a, w)
  }

  /** A string of tokens derived from the goal. */
  ghost predicate SourceSentence(u: Source, w: seq<int>) {
    && (forall j :: 0 <= j < |w| ==> 0 < w[j] < |u.bs| && u.bs[w[j]].term)
    && SourceDerives(u, [u.goal as int], w)
  }

  // ----- the packed grammar derives the same

  /** The packed grammar has the numbers of the symbols in place of their entries. */
  ghost predicate Corresponds(u: Source, S: Symbols, g: Grammar) {
    && SourceOk(u) && SymbolsOk(S) && |S.index| == |u.bs| && S.index[u.goal] == S.ntokens + 1
    && (forall b: nat :: 1 <= b < |u.bs| ==> SymbolIs(u.bs, u.goal, S, b))
    && WellFormed(g) && g.ntokens == S.ntokens && g.nsyms == S.nsyms && SpellsAll(S, g, u.rules, u.lhs)
  }

  ghost function Numbers(S: Symbols, a: seq<int>): (v: seq<int>)
    requires RhsKnown(S, a)
    ensures |v| == |a|
  {
    seq(|a|, j requires 0 <= j < |a| => S.index[a[j]])
  }

  /** Different entries have different numbers; tokens have those of tokens. */
  lemma IndexTells(u: Source, S: Symbols, g: Grammar, x: int, y: int)
    requires Corresponds(u, S, g) && 0 < x < |u.bs| && 0 < y < |u.bs|
    ensures S.index[x] == S.index[y] <==> x == y
    ensures S.index[x] != g.ntokens && (S.index[x] < g.ntokens <==> u.bs[x].term) && S.index[x] > 0
  {
    hide WellFormed, SpellsRule, Number;
    assert SymbolIs(u.bs, u.goal, S, x) && SymbolIs(u.bs, u.goal, S, y);
    if x < y { NumbersApart(u.bs, u.goal, x, y); }
    if y < x { NumbersApart(u.bs, u.goal, y, x); }
  }

  lemma RuleNumbered(u: Source, S: Symbols, g: Grammar, r: int)
    requires Corresponds(u, S, g) && 3 <= r < |u.lhs|
    ensures IsRuleNo(g, r) && RhsKnown(S, u.rules[r - 3]) && Rhs(g, r) == Numbers(S, u.rules[r - 3])
    ensures 0 < u.lhs[r] < |u.bs| && g.rlhs[r] == S.index[u.lhs[r]]
  {
    hide SymbolIs;
    assert g.rlhs[r] == S.index[u.lhs[r]] && SpellsRule(S, g, r, u.rules[r - 3]);
    assert Rhs(g, r) == Numbers(S, u.rules[r - 3]);
  }

  lemma NumbersOfRewritten(S: Symbols, a: seq<int>, k: nat, r: seq<int>)
    requires RhsKnown(S, a) && RhsKnown(S, r) && k < |a|
    ensures RhsKnown(S, a[..k] + r + a[k + 1..])
    ensures Numbers(S, a[..k] + r + a[k + 1..]) == Numbers(S, a)[..k] + Numbers(S, r) + Numbers(S, a)[k + 1..]
  {
  }

  lemma PackStep(u: Source, S: Symbols, g: Grammar, a: seq<int>, b: seq<int>)
    requires Corresponds(u, S, g) && RhsKnown(S, a) && SourceRewrites(u, a, b)
    ensures RhsKnown(S, b) && Rewrites(g, Numbers(S, a), Numbers(S, b))
  {
    hide WellFormed, RhsKnown, Rhs;
    var k, r :| SourceRewritesAt(u, a, b, k, r);
    RuleNumbered(u, S, g, r);
    NumbersOfRewritten(S, a, k, u.rules[r - 3]);
    NumberAt(S, a, k);
    assert RewritesAt(g, Numbers(S, a), Numbers(S, b), k, r);
  }

  lemma NumberAt(S: Symbols, a: seq<int>, k: nat)
    requires RhsKnown(S, a) && k < |a|
    ensures 0 < a[k] < |S.index| && Numbers(S, a)[k] == S.index[a[k]]
  {
  }

  lemma UnpackStep(u: Source, S: Symbols, g: Grammar, a: seq<int>, c: seq<int>) returns (b: seq<int>)
    requires Corresponds(u, S, g) && RhsKnown(S, a) && Rewrites(g, Numbers(S, a), c)
    ensures RhsKnown(S, b) && SourceRewrites(u, a, b) && c == Numbers(S, b)
  {
    hide RhsKnown, Rhs, SymbolIs, SpellsRule;
    var k, r :| RewritesAt(g, Numbers(S, a), c, k, r);
    NumberAt(S, a, k);
    IndexTells(u, S, g, a[k], a[k]);
    assert r >= 3;
    RuleNumbered(u, S, g, r);
    IndexTells(u, S, g, a[k], u.lhs[r]);
    b := a[..k] + u.rules[r - 3] + a[k + 1..];
    NumbersOfRewritten(S, a, k, u.rules[r - 3]);
    assert SourceRewritesAt(u, a, b, k, r);
  }

  lemma {:induction false} PackDerives(u: Source, S: Symbols, g: Grammar, n: nat, a: seq<int>, w: seq<int>)
    requires Corresponds(u, S, g) && RhsKnown(S, a) && SourceDerivesN(u, n, a, w)
    ensures RhsKnown(S, w) && DerivesN(g, n, Numbers(S, a), Numbers(S, w))
  {
    hide Corresponds, Rewrites, SourceRewrites, Numbers, RhsKnown;
    CorrespondsFits(u, S, g);
    if n > 0 {
      var c :| SourceRewrites(u, a, c) && SourceDerivesN(u, n - 1, c, w);
      PackStep(u, S, g, a, c);
      PackDerives(u, S, g, n - 1, c, w);
    }
  }

  lemma CorrespondsFits(u: Source, S: Symbols, g: Grammar)
    requires Corresponds(u, S, g)
    ensures WellFormed(g) && |S.index| == |u.bs| && TableOk(u.bs, u.goal) && RhsKnown(S, [u.goal as int])
    ensures Numbers(S, [u.goal as int]) == [g.ntokens + 1]
  {
    hide WellFormed;
  }

  lemma {:induction false} UnpackDerives(u: Source, S: Symbols, g: Grammar, n: nat, a: seq<int>, v: seq<int>) returns (w: seq<int>)
    requires Corresponds(u, S, g) && RhsKnown(S, a) && DerivesN(g, n, Numbers(S, a), v)
    ensures RhsKnown(S, w) && SourceDerivesN(u, n, a, w) && v == Numbers(S, w)
  {
    hide Corresponds, Rewrites, SourceRewrites, Numbers, RhsKnown;
    CorrespondsFits(u, S, g);
    if n == 0 {
      w := a;
    } else {
      var c :| Rewrites(g, Numbers(S, a), c) && DerivesN(g, n - 1, c, v);
      var b := UnpackStep(u, S, g, a, c);
      w := UnpackDerives(u, S, g, n - 1, b, v);
    }
  }

  /** A sentence of the grammar as read is packed to one of the packed grammar. */
  lemma PackSentence(u: Source, S: Symbols, g: Grammar, w: seq<int>)
    requires Corresponds(u, S, g) && SourceSentence(u, w)
    ensures RhsKnown(S, w) && Sentence(g, Numbers(S, w))
  {
    CorrespondsFits(u, S, g);
    var n: nat :| SourceDerivesN(u, n, [u.goal as int], w);
    PackDerives(u, S, g, n, [u.goal as int], w);
    hide Corresponds, WellFormed, DerivesN;
    forall j | 0 <= j < |w| ensures 0 <= Numbers(S, w)[j] < g.ntokens {
      IndexTells(u, S, g, w[j], w[j]);
    }
  }

  /** Every sentence of the packed grammar comes from one of the grammar as read. */
  lemma UnpackSentence(u: Source, S: Symbols, g: Grammar, v: seq<int>) returns (w: seq<int>)
    requires Corresponds(u, S, g) && Sentence(g, v)
    ensures SourceSentence(u, w) && RhsKnown(S, w) && v == Numbers(S, w)
  {
    CorrespondsFits(u, S, g);
    var n: nat :| DerivesN(g, n, [g.ntokens + 1], v);
    w := UnpackDerives(u, S, g, n, [u.goal as int], v);
    hide Corresponds, WellFormed, SourceDerivesN;
    forall j | 0 <= j < |w| ensures 0 < w[j] < |u.bs| && u.bs[w[j]].term {
      NumberAt(S, w, j);
      IndexTells(u, S, g, w[j], w[j]);
    }
  }

  // ----- the language of the parser

  /** What yylex delivers before position pos are the values of a sentence of the
      grammar as read, and there it delivers the end, 0 or anything negative. */
  ghost predicate SourceUpTo(u: Source, S: Symbols, values: seq<int>, p: Program, pos: nat) {
    p.input(pos) <= 0 && exists w :: |w| == pos && SourceSentence(u, w) && HasValues(S, values, p, w)
  }

  ghost predicate HasValues(S: Symbols, values: seq<int>, p: Program, w: seq<int>) {
    forall j :: 0 <= j < |w| ==>
      0 < w[j] < |S.index| && 0 <= S.index[w[j]] < |values| && values[S.index[w[j]]] == p.input(j)
  }

  /** Only $end has a value that is not positive. */
  ghost predicate Positive(values: seq<int>) {
    forall t :: 1 <= t < |values| ==> values[t] > 0
  }

  lemma PackedPositive(u: Source, S: Symbols, g: Grammar, values: seq<int>, x: int)
    requires Corresponds(u, S, g) && Positive(values) && 0 < x < |u.bs| && S.index[x] < |values|
    ensures 0 < S.index[x] && values[S.index[x]] > 0
  {
    IndexTells(u, S, g, x, x);
  }

  lemma UpToAgrees(u: Source, S: Symbols, b: Built, p: Program, pos: nat)
    requires Corresponds(u, S, b.g) && |b.values| == b.g.ntokens && Positive(b.values)
    ensures SentenceUpTo(b, p, pos) <==> SourceUpTo(u, S, b.values, p, pos)
  {
    hide Corresponds, SourceSentence, Sentence, WellFormed;
    CorrespondsFits(u, S, b.g);
    if SentenceUpTo(b, p, pos) {
      var v :| |v| == pos && Consumed(b, p, v) && Sentence(b.g, v);
      var w := UnpackSentence(u, S, b.g, v);
      forall j | 0 <= j < |w|
        ensures 0 < w[j] < |S.index| && 0 <= S.index[w[j]] < |b.values| && b.values[S.index[w[j]]] == p.input(j)
      {
        NumberAt(S, w, j);
        assert IsToken(b, v[j], TokenAt(p, j));
        PackedPositive(u, S, b.g, b.values, w[j]);
      }
      assert HasValues(S, b.values, p, w);
    }
    if SourceUpTo(u, S, b.values, p, pos) {
      var w :| |w| == pos && SourceSentence(u, w) && HasValues(S, b.values, p, w);
      PackSentence(u, S, b.g, w);
      var v := Numbers(S, w);
      forall j | 0 <= j < |v| ensures IsToken(b, v[j], TokenAt(p, j)) {
        NumberAt(S, w, j);
        PackedPositive(u, S, b.g, b.values, w[j]);
      }
      assert Consumed(b, p, v);
    }
  }

  /** The parser of an LALR(1) grammar accepts exactly the inputs that begin with
      the token values of a sentence of the grammar as read and end there. */
  lemma AcceptsExactlySource(u: Source, S: Symbols, b: Built, p: Program)
    requires Corresponds(u, S, b.g) && Setting(b, p) && AllFull(b) && RunsThrough(p) && b.values[0] == 0 && Positive(b.values)
    ensures Accepts(p) <==> exists pos: nat :: SourceUpTo(u, S, b.values, p, pos)
  {
    hide Corresponds, SentenceUpTo, SourceUpTo, AllFull, RunsThrough;
    AcceptsExactlySentences(b, p);
    forall pos: nat ensures SentenceUpTo(b, p, pos) <==> SourceUpTo(u, S, b.values, p, pos) {
      UpToAgrees(u, S, b, p, pos);
    }
  }

  /** The parser of a grammar none of whose actions are ruled out, if it comes to an
      end, has accepted exactly such an input. */
  lemma TrialsFindSource(u: Source, S: Symbols, b: Built, p: Program, n: nat)
    requires Corresponds(u, S, b.g) && Setting(b, p) && AllKept(b) && RunsThrough(p) && NeverDeclares(p) && b.values[0] == 0 && Positive(b.values)
    requires Run(p, n, TrialParse.Start).conf.at.Done?
    ensures Run(p, n, TrialParse.Start).conf.at == Done(Accepted) <==> exists pos: nat :: SourceUpTo(u, S, b.values, p, pos)
  {
    hide Corresponds, SentenceUpTo, SourceUpTo, AllKept, RunsThrough, NeverDeclares;
    TrialsFindSentences(b, p, n);
    forall pos: nat ensures SentenceUpTo(b, p, pos) <==> SourceUpTo(u, S, b.values, p, pos) {
      UpToAgrees(u, S, b, p, pos);
    }
  }

  /** The parser of any grammar accepts nothing else. */
  lemma AcceptsOnlySource(u: Source, S: Symbols, b: Built, p: Program, n: nat)
    requires Corresponds(u, S, b.g) && Setting(b, p) && NoEarlyAccept(p) && Positive(b.values)
    requires Run(p, n, TrialParse.Start).conf.at == Done(Accepted)
    ensures SourceUpTo(u, S, b.values, p, Run(p, n, TrialParse.Start).conf.pos)
  {
    hide Corresponds, SentenceUpTo, SourceUpTo;
    AcceptsOnlySentences(b, p, n);
    UpToAgrees(u, S, b, p, Run(p, n, TrialParse.Start).conf.pos);
  }

  // ----- reading and packing

  /** No precedences are declared. */
  ghost predicate Unranked(bs: seq<Bucket>) {
    forall b :: 1 <= b < |bs| ==> bs[b].prec <= 0
  }

  /** symbol_prec and symbol_assoc, by packed number. */
  method PackPrecedences(bs: seq<Bucket>, goal: nat, S: Symbols) returns (prec: seq<int>, assoc: seq<Assoc>)
    requires TableOk(bs, goal) && SymbolsOk(S) && |S.index| == |bs| && forall b: nat :: 1 <= b < |bs| ==> SymbolIs(bs, goal, S, b)
    ensures |prec| == |assoc| == S.nsyms
    ensures forall b :: 1 <= b < |bs| ==> prec[S.index[b]] == bs[b].prec && assoc[S.index[b]] == bs[b].assoc
    ensures Unranked(bs) ==> forall X :: 0 <= X < |prec| ==> prec[X] <= 0
  {
    hide Number;
    prec, assoc := seq(S.nsyms, _ => 0), seq(S.nsyms, _ => Token);
    for i := 1 to |bs|
      invariant |prec| == |assoc| == S.nsyms && (Unranked(bs) ==> forall X :: 0 <= X < |prec| ==> prec[X] <= 0)
      invariant forall b :: 1 <= b < i ==> prec[S.index[b]] == bs[b].prec && assoc[S.index[b]] == bs[b].assoc
    {
      forall b | 1 <= b < i ensures S.index[b] != S.index[i] {
        NumbersApart(bs, goal, b, i);
        assert SymbolIs(bs, goal, S, b) && SymbolIs(bs, goal, S, i);
      }
      prec, assoc := prec[S.index[i] := bs[i].prec], assoc[S.index[i] := bs[i].assoc];
    }
  }

  /** pack_symbols and pack_grammar. */
  method ReadSource(bs: seq<Bucket>, goal: nat, R: Rules)
    returns (S: Symbols, g: Grammar, P: Precedence, values: seq<int>, ghost v: seq<int>, ghost vals: seq<int>)
    requires R.Valid() && R.cur == [] && SourceOk(Source(bs, goal, R.done, R.plhs[..R.nrules]))
    ensures Corresponds(Source(bs, goal, R.done, R.plhs[..R.nrules]), S, g) && PrecedenceOk(g, P)
    ensures forall b :: 1 <= b < |bs| ==> P.symbolPrec[S.index[b]] == bs[b].prec && P.symbolAssoc[S.index[b]] == bs[b].assoc
    ensures Unranked(bs) ==> NoneCompared(P)
    ensures forall k :: 3 <= k < R.nrules ==> PrecIs(S, R.done[k - 3], R.rprec[k], R.rassoc[k], P.rulePrec[k], P.ruleAssoc[k])
    ensures TokensFirst(bs, g.ntokens, v) && TokenDeclarations(bs, g.ntokens, v, vals)
    ensures |values| == g.ntokens == |vals| && Valued(vals, values, |vals|) && values[0] == 0
  {
    hide SpellsAll, WellFormed, Valued, TokenDeclarations, TokensFirst, SymbolIs, PrecIs, Corresponds, SourceOk, AllKnown;
    SourceFits(Source(bs, goal, R.done, R.plhs[..R.nrules]));
    ghost var u := Source(bs, goal, R.done, R.plhs[..R.nrules]);
    var all;
    S, all, v, vals := PackSymbols(bs, goal);
    KnownToBoth(u, S);
    var rprec, rassoc;
    g, rprec, rassoc := PackGrammar(S, goal, R);
    SourceCorresponds(u, S, g);
    var prec, assoc := PackPrecedences(bs, goal, S);
    P := Precedence(prec, assoc, rprec, rassoc);
    values := all[..S.ntokens];
    EndValue(bs, S.ntokens, v, vals, values);
  }

  lemma SourceFits(u: Source)
    requires SourceOk(u)
    ensures TableOk(u.bs, u.goal) && |u.lhs| == |u.rules| + 3
  {
  }

  lemma SourceCorresponds(u: Source, S: Symbols, g: Grammar)
    requires SourceOk(u) && SymbolsOk(S) && |S.index| == |u.bs| && S.index[u.goal] == S.ntokens + 1
    requires forall b: nat :: 1 <= b < |u.bs| ==> SymbolIs(u.bs, u.goal, S, b)
    requires WellFormed(g) && g.ntokens == S.ntokens && g.nsyms == S.nsyms && SpellsAll(S, g, u.rules, u.lhs)
    ensures Corresponds(u, S, g)
  {
  }

  lemma KnownToBoth(u: Source, S: Symbols)
    requires SourceOk(u) && |S.index| == |S.term| == |u.bs| && forall b: nat :: 1 <= b < |u.bs| ==> SymbolIs(u.bs, u.goal, S, b)
    ensures AllKnown(S, u.rules, u.lhs)
  {
    forall k | 3 <= k < |u.lhs| ensures 0 < u.lhs[k] < |S.index| && !S.term[u.lhs[k]] {
      assert SymbolIs(u.bs, u.goal, S, u.lhs[k]);
    }
    forall k | 0 <= k < |u.rules| ensures RhsKnown(S, u.rules[k]) {
      assert Known(u.bs, u.rules[k]);
    }
  }

  lemma EndValue(bs: seq<Bucket>, ntokens: int, v: seq<int>, vals: seq<int>, values: seq<int>)
    requires TokenDeclarations(bs, ntokens, v, vals) && Valued(vals, values, |vals|)
    ensures |vals| == ntokens == |values| && vals[0] == values[0] == 0
  {
    assert Declared(vals, 0) == 0;
  }

  // ----- values of tokens

  /** The value a token is declared with; error has 256 unless declared otherwise. */
  function ValueOf(bs: seq<Bucket>, b: nat): int
    requires 1 <= b < |bs|
  {
    if b == 1 && bs[1].value == UNDEFINED then 256 else bs[b].value
  }

  predicate HasValue(bs: seq<Bucket>, b: nat)
    requires 1 <= b < |bs|
  {
    bs[b].term && ValueOf(bs, b) != UNDEFINED
  }

  /** The declared values are above that of $end, fit the tables and are distinct. */
  predicate DeclaredFit(bs: seq<Bucket>) {
    && (forall b: nat :: 1 <= b < |bs| && HasValue(bs, b) ==> 0 < ValueOf(bs, b) <= MAXSHORT)
    && forall a: nat, b: nat :: 1 <= a < b < |bs| && HasValue(bs, a) && HasValue(bs, b) ==> ValueOf(bs, a) != ValueOf(bs, b)
  }

  lemma DeclaredAt(bs: seq<Bucket>, goal: int, ntokens: int, v: seq<int>, vals: seq<int>, i: nat)
    requires TableOk(bs, goal) && TokensFirst(bs, ntokens, v) && TokenDeclarations(bs, ntokens, v, vals) && 1 <= i < ntokens
    ensures i < |v| && 1 <= v[i] < |bs| && bs[v[i]].term && Place(bs, ntokens, v[i]) == i && Declared(vals, i) == ValueOf(bs, v[i])
    ensures Declared(vals, i) != UNDEFINED <==> HasValue(bs, v[i])
  {
    assert Taken(bs, ntokens, v, i) && PlacedAt(bs, ntokens, v, 1);
    PlaceOfToken(bs, ntokens, v[i]);
  }

  lemma TokensCount(bs: seq<Bucket>, ntokens: int, v: seq<int>)
    requires 2 <= |bs| && bs[1].term && TokensFirst(bs, ntokens, v)
    ensures ntokens >= 2
  {
    TermsGrow(bs, 1, 2);
    TermsGrow(bs, 2, |bs|);
  }

  lemma TokenPlaced(bs: seq<Bucket>, goal: int, ntokens: int, v: seq<int>, b: nat) returns (i: nat)
    requires TableOk(bs, goal) && TokensFirst(bs, ntokens, v) && 1 <= b < |bs| && bs[b].term
    ensures 1 <= i < ntokens && i < |v| && v[i] == b && i == Place(bs, ntokens, b)
  {
    i := Place(bs, ntokens, b);
    assert PlacedAt(bs, ntokens, v, b);
    PlaceOfToken(bs, ntokens, b);
    PlaceFits(bs, b, b);
  }

  /** Then all values are distinct and fit the tables. */
  lemma ValuesFit(bs: seq<Bucket>, goal: int, ntokens: int, v: seq<int>, vals: seq<int>, values: seq<int>)
    requires TableOk(bs, goal) && TokensFirst(bs, ntokens, v) && TokenDeclarations(bs, ntokens, v, vals)
    requires Valued(vals, values, |vals|) && |vals| >= 2 && |bs| + 256 <= MAXSHORT && DeclaredFit(bs)
    ensures ValuesOk(values) && DistinctValues(values)
  {
    hide TokensFirst, TokenDeclarations, Valued;
    EndValue(bs, ntokens, v, vals, values);
    forall t | 0 <= t < |values| ensures 0 <= values[t] <= MAXSHORT {
      if t > 0 {
        DeclaredAt(bs, goal, ntokens, v, vals, t);
        TokenValue(bs, ntokens, v, vals, values, t);
      }
    }
    forall i: nat, l: nat | i < l < |vals| && Declared(vals, i) != UNDEFINED && Declared(vals, l) != UNDEFINED
      ensures Declared(vals, i) != Declared(vals, l)
    {
      DeclaredAt(bs, goal, ntokens, v, vals, l);
      if i > 0 { DeclaredAt(bs, goal, ntokens, v, vals, i); }
    }
    ValuesDiffer(vals, values);
  }

  lemma TokenValue(bs: seq<Bucket>, ntokens: int, v: seq<int>, vals: seq<int>, values: seq<int>, i: nat)
    requires 1 <= |bs| && TokensFirst(bs, ntokens, v) && TokenDeclarations(bs, ntokens, v, vals)
    requires Valued(vals, values, |vals|) && |vals| >= 2 && 1 <= i < ntokens
    ensures |values| == ntokens && if Declared(vals, i) != UNDEFINED then values[i] == Declared(vals, i) else 256 < values[i] <= 256 + |bs|
  {
    TermsGrow(bs, 1, |bs|);
    if Declared(vals, i) == UNDEFINED { NewValueBound(vals, values, i); }
  }

  /** The values of the tokens are distinct and fit the tables exactly if the
      declared ones are and do. */
  lemma ValuesFitIff(bs: seq<Bucket>, goal: int, ntokens: int, v: seq<int>, vals: seq<int>, values: seq<int>)
    requires TableOk(bs, goal) && TokensFirst(bs, ntokens, v) && TokenDeclarations(bs, ntokens, v, vals)
    requires Valued(vals, values, |vals|) && |vals| >= 2 && |bs| + 256 <= MAXSHORT
    ensures ValuesOk(values) && DistinctValues(values) <==> DeclaredFit(bs)
  {
    hide TokensFirst, TokenDeclarations, Valued;
    if DeclaredFit(bs) {
      ValuesFit(bs, goal, ntokens, v, vals, values);
    } else if ValuesOk(values) && DistinctValues(values) {
      EndValue(bs, ntokens, v, vals, values);
      forall b: nat | 1 <= b < |bs| && HasValue(bs, b) ensures 0 < ValueOf(bs, b) <= MAXSHORT {
        var i := DeclaredGiven(bs, goal, ntokens, v, vals, values, b);
        assert values[0] != values[i];
      }
      forall a: nat, b: nat | 1 <= a < b < |bs| && HasValue(bs, a) && HasValue(bs, b) ensures ValueOf(bs, a) != ValueOf(bs, b) {
        var i := DeclaredGiven(bs, goal, ntokens, v, vals, values, a);
        var l := DeclaredGiven(bs, goal, ntokens, v, vals, values, b);
        assert values[i] != values[l];
      }
      assert false;
    }
  }

  /** The token at b has the value declared for it. */
  lemma DeclaredGiven(bs: seq<Bucket>, goal: int, ntokens: int, v: seq<int>, vals: seq<int>, values: seq<int>, b: nat) returns (i: nat)
    requires TableOk(bs, goal) && TokensFirst(bs, ntokens, v) && TokenDeclarations(bs, ntokens, v, vals)
    requires Valued(vals, values, |vals|) && |vals| >= 2 && 1 <= b < |bs| && HasValue(bs, b)
    ensures 1 <= i < |values| == ntokens && i < |v| && v[i] == b && values[i] == ValueOf(bs, b)
  {
    hide TokensFirst, TokenDeclarations, Valued;
    i := TokenPlaced(bs, goal, ntokens, v, b);
    DeclaredAt(bs, goal, ntokens, v, vals, i);
    TokenValue(bs, ntokens, v, vals, values, i);
  }

  /** The token at e is packed with the value in its entry, or with a new one above
      256; error alone has 256 without being declared so. */
  ghost predicate TokenHas(bs: seq<Bucket>, S: Symbols, values: seq<int>, e: nat)
    requires 1 <= e < |bs|
  {
    && e < |S.index| && 0 < S.index[e] < |values|
    && if bs[e].value != UNDEFINED then values[S.index[e]] == bs[e].value else if e == 1 then values[S.index[e]] == 256 else values[S.index[e]] > 256
  }

  lemma TokenKeeps(u: Source, S: Symbols, g: Grammar, v: seq<int>, vals: seq<int>, values: seq<int>, e: nat)
    requires Corresponds(u, S, g) && TokensFirst(u.bs, g.ntokens, v) && TokenDeclarations(u.bs, g.ntokens, v, vals)
    requires Valued(vals, values, |vals|) && |vals| >= 2 && 1 <= e < |u.bs| && u.bs[e].term
    ensures TokenHas(u.bs, S, values, e)
  {
    hide TokensFirst, TokenDeclarations, Valued, WellFormed, SpellsAll;
    var i := TokenPlaced(u.bs, u.goal, g.ntokens, v, e);
    DeclaredAt(u.bs, u.goal, g.ntokens, v, vals, i);
    TokenValue(u.bs, g.ntokens, v, vals, values, i);
    assert SymbolIs(u.bs, u.goal, S, e);
  }

  /** The precedence of a rule: its own if it has one, else that of the last token of
      its right-hand side, and if there is no token, none. */
  ghost predicate RulePrecIs(bs: seq<Bucket>, r: seq<int>, own: int, ownAssoc: Assoc, prec: int, assoc: Assoc)
  {
    && Known(bs, r)
    && (own != UNDEFINED ==> prec == own && assoc == ownAssoc)
    && (own == UNDEFINED && (forall j :: 0 <= j < |r| ==> !bs[r[j]].term) ==> prec == 0 && assoc == Token)
    && (own == UNDEFINED ==> forall j :: 0 <= j < |r| && bs[r[j]].term && (forall l :: j < l < |r| ==> !bs[r[l]].term) ==>
         prec == bs[r[j]].prec && assoc == bs[r[j]].assoc)
  }

  lemma {:induction false} LastPrecIs(S: Symbols, r: seq<int>)
    requires SymbolsOk(S) && RhsKnown(S, r)
    ensures (forall j :: 0 <= j < |r| ==> !S.term[r[j]]) ==> LastPrec(S, r) == (0, Token)
    ensures forall j :: 0 <= j < |r| && S.term[r[j]] && (forall l :: j < l < |r| ==> !S.term[r[l]]) ==> LastPrec(S, r) == (S.prec[r[j]], S.assoc[r[j]])
  {
    if r != [] && !S.term[r[|r| - 1]] { LastPrecIs(S, r[..|r| - 1]); }
  }

  lemma RulePrecOf(u: Source, S: Symbols, g: Grammar, r: seq<int>, own: int, ownAssoc: Assoc, prec: int, assoc: Assoc)
    requires Corresponds(u, S, g) && Known(u.bs, r) && PrecIs(S, r, own, ownAssoc, prec, assoc)
    ensures RulePrecIs(u.bs, r, own, ownAssoc, prec, assoc)
  {
    hide WellFormed, SpellsAll, Number;
    LastPrecIs(S, r);
    forall j | 0 <= j < |r| ensures S.term[r[j]] == u.bs[r[j]].term && S.prec[r[j]] == u.bs[r[j]].prec && S.assoc[r[j]] == u.bs[r[j]].assoc {
      assert SymbolIs(u.bs, u.goal, S, r[j]);
    }
  }

  /** From the grammar as read to the tables of its parser. */
  method GenerateFromSource(bs: seq<Bucket>, goal: nat, R: Rules) returns (b: Built, t: Tables, fatal: bool, ghost S: Symbols, ghost Q: Precedence)
    requires R.Valid() && R.cur == [] && SourceOk(Source(bs, goal, R.done, R.plhs[..R.nrules]))
    requires |bs| + 256 <= MAXSHORT && DeclaredFit(bs)
    ensures Corresponds(Source(bs, goal, R.done, R.plhs[..R.nrules]), S, b.g) && b.values != [] && b.values[0] == 0 && Positive(b.values)
    ensures PrecedenceOk(b.g, Q) && exists rows :: RowsFor(b.g, Q, b.A, rows, b.parser, b.defred, b.final)
    ensures forall e :: 1 <= e < |bs| ==> Q.symbolPrec[S.index[e]] == bs[e].prec && Q.symbolAssoc[S.index[e]] == bs[e].assoc
    ensures forall k :: 3 <= k < R.nrules ==> RulePrecIs(bs, R.done[k - 3], R.rprec[k], R.rassoc[k], Q.rulePrec[k], Q.ruleAssoc[k])
    ensures forall e: nat :: 1 <= e < |bs| && bs[e].term ==> TokenHas(bs, S, b.values, e)
    ensures fatal ==> TooLarge(b)
    ensures !fatal ==> forall verdict, input :: Setting(b, Program(t, verdict, input))
    ensures !fatal && IsLALR1(b.g, b.A) ==> AllFull(b)
    ensures !fatal && Unranked(bs) ==> AllKept(b)
  {
    hide BuiltOk, TablesFor, TablesFit, AllFull, AllKept, NoneCompared, Unranked, IsLALR1, Valued, TokenDeclarations, TokensFirst, PrecIs, SpellsRule;
    var syms, g, P, values;
    ghost var v, vals;
    syms, g, P, values, v, vals := ReadSource(bs, goal, R);
    S, Q := syms, P;
    TokensCount(bs, g.ntokens, v);
    ValuesFit(bs, goal, g.ntokens, v, vals, values);
    forall e: nat | 1 <= e < |bs| && bs[e].term ensures TokenHas(bs, S, values, e) {
      TokenKeeps(Source(bs, goal, R.done, R.plhs[..R.nrules]), S, g, v, vals, values, e);
    }
    EndValue(bs, g.ntokens, v, vals, values);
    assert Positive(values) by {
      forall i | 1 <= i < |values| ensures values[i] > 0 { assert values[i] != values[0] && values[i] >= 0; }
    }
    forall k | 3 <= k < R.nrules ensures RulePrecIs(bs, R.done[k - 3], R.rprec[k], R.rassoc[k], P.rulePrec[k], P.ruleAssoc[k]) {
      RulePrecOf(Source(bs, goal, R.done, R.plhs[..R.nrules]), S, g, R.done[k - 3], R.rprec[k], R.rassoc[k], P.rulePrec[k], P.ruleAssoc[k]);
    }
    b, t, fatal := GenerateTables(g, P, values);
  }
}
