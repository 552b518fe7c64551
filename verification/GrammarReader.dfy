/** reader.c, read_grammar: the rules section, as names, actions and marks. Whatever
    markers are made on the way, what has been read says the rules as written. */
module GrammarReader {
  import opened Actions
  import opened Words
  import opened Markers
  import opened Reader

  /** The symbol table, the markers in it, the argument codes that have one, and the
      state of reading. */
  datatype Names = Names(table: map<string, int>, entries: seq<Entry>, markers: set<int>, cache: map<string, int>, lastWasAction: bool, errors: nat)

  ghost function BookOf(R: Rules, t: Names): (b: Book)
    requires R.Valid()
    reads R, R.pitem, R.plhs, R.rprec, R.rassoc
    ensures |b.lhs| == |b.prec| == |b.assoc| == |b.done| + 1
  {
    Book(R.done, R.cur, R.Lhs(), R.Precs(), R.Assocs(), t.cache, t.markers, t.table, t.entries, t.errors)
  }

  ghost predicate Reads(R: Rules, t: Names, d: Declarations): (v: bool)
    reads R, R.pitem, R.plhs, R.rprec, R.rassoc
    ensures v ==> R.Valid()
  {
    R.Valid() && BookOk(BookOf(R, t), d)
  }

  /** Only markers were added. */
  ghost predicate MoreMarkers(t: Names, t': Names) {
    && t'.table == t.table && t'.errors == t.errors && |t'.entries| >= |t.entries|
    && forall x :: x in t'.markers && x < |t.entries| ==> x in t.markers
  }

  /** There are n more markers, and one for each of the argument codes that had none;
      those have one now. */
  ghost predicate Counts(t: Names, t': Names, n: nat, args: set<string>) {
    t'.cache.Keys == t.cache.Keys + args && |t'.markers| == |t.markers| + n + |args - t.cache.Keys|
  }

  lemma CountsNone(t: Names, t': Names)
    requires t'.markers == t.markers && t'.cache == t.cache
    ensures Counts(t, t', 0, {})
  {
  }

  lemma CountsOne(t: Names, t': Names, x: int)
    requires t'.markers == t.markers + {x} && x !in t.markers && t'.cache == t.cache
    ensures Counts(t, t', 1, {})
  {
    assert t'.cache.Keys == t.cache.Keys + {} && {} - t.cache.Keys == {};
  }

  lemma CountsCode(t: Names, u: Names, t': Names, code: string, rule: int)
    requires Counts(t, u, 1, {}) && code !in t.cache && t'.markers == u.markers && t'.cache == u.cache[code := rule]
    ensures Counts(t, t', 0, {code})
  {
    assert {} - t.cache.Keys == {} && {code} - t.cache.Keys == {code};
  }

  lemma CountsOld(t: Names, code: string)
    requires code in t.cache
    ensures Counts(t, t, 0, {code})
  {
    assert {code} - t.cache.Keys == {} && t.cache.Keys + {code} == t.cache.Keys;
  }

  lemma CountsTwo(t: Names, u: Names, t': Names, n: nat, x: set<string>, y: set<string>)
    requires Counts(t, u, n, x) && Counts(u, t', 0, y)
    ensures Counts(t, t', n, x + y)
  {
    NewOnes(t.cache.Keys, u.cache.Keys, x, y);
  }

  lemma NewOnes(k: set<string>, l: set<string>, x: set<string>, y: set<string>)
    requires l == k + x
    ensures l + y == k + (x + y) && |(x + y) - k| == |x - k| + |y - l|
  {
    assert (x + y) - k == (x - k) + (y - l);
  }

  lemma MoreMarkersOn(t: Names, u: Names, v: Names)
    requires MoreMarkers(t, u) && MoreMarkers(u, v)
    ensures MoreMarkers(t, v)
  {
  }

  lemma ArgSetMore(args: seq<string>, n: nat)
    requires n < |args|
    ensures ArgSet(args[..n + 1]) == ArgSet(args[..n]) + {args[n]}
  {
    assert args[..n + 1] == args[..n] + [args[n]];
  }

  lemma CountsMore(t: Names, u: Names, v: Names, t': Names, n: nat, x: set<string>)
    requires Counts(t, u, 0, {}) && Counts(u, v, n, {}) && Counts(v, t', 0, x)
    ensures Counts(t, t', n, x)
  {
    assert {} - t.cache.Keys == {} && {} - u.cache.Keys == {};
    assert v.cache.Keys == t.cache.Keys;
  }

  function ArgSet(args: seq<string>): set<string> {
    set a | a in args
  }

  // ----- the steps of reading

  /** insert_empty_rule, with a new entry for its marker. */
  method InsertMarker(R: Rules, t: Names, ghost d: Declarations) returns (t': Names)
    requires Reads(R, t, d)
    modifies R, R.pitem, R.plhs, R.rprec, R.rassoc
    ensures Reads(R, t', d) && R.Renewed() && t'.lastWasAction == t.lastWasAction
    ensures BookOf(R, t') == MarkerIn(old(BookOf(R, t))) && R.nrules == old(R.nrules) + 1 && MoreMarkers(t, t')
    ensures Meaning(BookOf(R, t')) == Meaning(old(BookOf(R, t)))
    ensures t'.markers == t.markers + {|t.entries|} && |t.entries| !in t.markers && t'.cache == t.cache
  {
    ghost var b := BookOf(R, t);
    MarkerKeeps(b, d);
    TableHasEntries(b, d);
    hide BookOk, Meaning, MarkerIn, BeforeLast;
    var bp := |t.entries|;
    R.InsertRule(bp);
    t' := t.(entries := t.entries + [Entry(Marker, UNDEFINED, 0, Token)], markers := t.markers + {bp});
    BookMarkerIs(b, BookOf(R, t'));
  }

  /** get_name or get_literal. */
  method GetWord(R: Rules, t: Names, ghost d: Declarations, w: Word) returns (t': Names, bp: int)
    requires Reads(R, t, d) && Spelled(w)
    ensures Reads(R, t', d) && NamesOk(BookOf(R, t), d) && BookOf(R, t') == WordIn(BookOf(R, t), d, w)
    ensures t'.table == t.table[w.text := bp] && t'.errors == t.errors
    ensures t'.lastWasAction == t.lastWasAction && bp == Found(t.table, t.entries, w.text) && 1 <= bp < |t'.entries| && bp !in t'.markers
    ensures Meaning(BookOf(R, t')) == Meaning(BookOf(R, t))
    ensures t'.markers == t.markers && t'.cache == t.cache
  {
    ghost var b := BookOf(R, t);
    WordKeeps(b, d, w);
    BookNames(b, d);
    hide BookOk, Meaning;
    bp := Found(t.table, t.entries, w.text);
    var entries := EntriesFor(t.table, t.entries, w.text);
    if IsLiteral(w.text) {
      entries := entries[bp := AsLiteral(entries[bp], w.code)];
    }
    t' := t.(table := t.table[w.text := bp], entries := entries);
  }

  /** One item of the open rule. */
  method PutItem(R: Rules, t: Names, ghost d: Declarations, x: int)
    requires Reads(R, t, d) && 0 < x < |t.entries|
    modifies R, R.pitem
    ensures Reads(R, t, d) && R.Renewed()
    ensures Meaning(BookOf(R, t)) == if x in t.markers then Meaning(old(BookOf(R, t))) else WithSymbol(Meaning(old(BookOf(R, t))), x)
  {
    hide BookOk, Meaning, WithSymbol, ItemIn;
    ItemKeeps(BookOf(R, t), d, x);
    AppendItem(R, t, x);
  }

  method AppendItem(R: Rules, ghost t: Names, x: int)
    requires R.Valid() && 0 < x
    modifies R, R.pitem
    ensures R.Valid() && R.Renewed() && BookOf(R, t) == ItemIn(old(BookOf(R, t)), x)
  {
    hide ItemIn;
    ghost var b := BookOf(R, t);
    R.AddItem(x);
    BookItemIs(b, BookOf(R, t), x);
  }

  /** The marker of an argument seen before. */
  method PutCached(R: Rules, t: Names, ghost d: Declarations, code: string)
    requires Reads(R, t, d) && code in t.cache
    modifies R, R.pitem
    ensures Reads(R, t, d) && R.Renewed()
    ensures Meaning(BookOf(R, t)) == Meaning(old(BookOf(R, t)))
  {
    var rule := t.cache[code];
    CachedRule(BookOf(R, t), d, code);
    hide BookOk, Meaning;
    assert R.plhs[rule] == R.Lhs()[rule - 3];
    PutItem(R, t, d, R.plhs[rule]);
  }

  /** insert_arg_rule: an argument seen before has its marker already. */
  method InsertArgRule(R: Rules, t: Names, ghost d: Declarations, code: string) returns (t': Names)
    requires Reads(R, t, d)
    modifies R, R.pitem, R.plhs, R.rprec, R.rassoc
    ensures Reads(R, t', d) && R.Renewed() && MoreMarkers(t, t') && t'.lastWasAction == t.lastWasAction
    ensures Meaning(BookOf(R, t')) == Meaning(old(BookOf(R, t)))
    ensures Counts(t, t', 0, {code})
  {
    hide BookOk, Meaning;
    if code in t.cache {
      PutCached(R, t, d, code);
      t' := t;
      CountsOld(t, code);
    } else {
      ghost var b := BookOf(R, t);
      var rule := R.nrules;
      t' := InsertMarker(R, t, d);
      ghost var u := t';
      CountsOne(t, u, |t.entries|);
      ghost var c := BookOf(R, t');
      MarkerPlace(b);
      CacheKeeps(c, d, code, rule);
      hide MarkerIn;
      t' := t'.(cache := t'.cache[code := rule]);
      assert BookOf(R, t') == CacheIn(c, code, rule);
      CountsCode(t, u, t', code, rule);
    }
  }

  method InsertArgRules(R: Rules, t: Names, ghost d: Declarations, args: seq<string>) returns (t': Names)
    requires Reads(R, t, d)
    modifies R, R.pitem, R.plhs, R.rprec, R.rassoc
    ensures Reads(R, t', d) && R.Renewed() && MoreMarkers(t, t') && t'.lastWasAction == t.lastWasAction
    ensures Meaning(BookOf(R, t')) == Meaning(old(BookOf(R, t)))
    ensures Counts(t, t', 0, ArgSet(args))
  {
    hide BookOk, Meaning, Reads, BookOf, ArgsDone;
    t' := t;
    NoArgsDone(t, args);
    for i := 0 to |args|
      invariant Reads(R, t', d) && R.Renewed() && ArgsDone(t, t', args, i)
      invariant Meaning(BookOf(R, t')) == Meaning(old(BookOf(R, t)))
    {
      ghost var u := t';
      t' := InsertArgRule(R, t', d, args[i]);
      OneArgDone(t, u, t', args, i);
    }
    AllArgsDone(t, t', args);
  }

  /** The first n arguments have their markers. */
  ghost predicate ArgsDone(t: Names, t': Names, args: seq<string>, n: nat) {
    n <= |args| && MoreMarkers(t, t') && t'.lastWasAction == t.lastWasAction && Counts(t, t', 0, ArgSet(args[..n]))
  }

  lemma NoArgsDone(t: Names, args: seq<string>)
    ensures ArgsDone(t, t, args, 0)
  {
    assert ArgSet(args[..0]) == {};
    CountsNone(t, t);
  }

  lemma OneArgDone(t: Names, u: Names, t': Names, args: seq<string>, n: nat)
    requires ArgsDone(t, u, args, n) && n < |args| && MoreMarkers(u, t') && t'.lastWasAction == u.lastWasAction && Counts(u, t', 0, {args[n]})
    ensures ArgsDone(t, t', args, n + 1)
  {
    hide Counts, ArgSet, MoreMarkers;
    CountsTwo(t, u, t', 0, ArgSet(args[..n]), {args[n]});
    MoreMarkersOn(t, u, t');
    ArgSetMore(args, n);
  }

  lemma AllArgsDone(t: Names, t': Names, args: seq<string>)
    requires ArgsDone(t, t', args, |args|)
    ensures MoreMarkers(t, t') && t'.lastWasAction == t.lastWasAction && Counts(t, t', 0, ArgSet(args))
  {
    assert args[..|args|] == args;
  }

  /** An action that is not the last of its rule becomes a marker; next tells whether
      an action follows. */
  method FlushAction(R: Rules, t: Names, ghost d: Declarations, next: bool) returns (t': Names)
    requires Reads(R, t, d)
    modifies R, R.pitem, R.plhs, R.rprec, R.rassoc
    ensures Reads(R, t', d) && R.Renewed() && MoreMarkers(t, t') && t'.lastWasAction == next
    ensures Meaning(BookOf(R, t')) == Meaning(old(BookOf(R, t)))
    ensures Counts(t, t', if t.lastWasAction then 1 else 0, {})
  {
    hide BookOk, Meaning, MarkerIn;
    t' := t;
    if t.lastWasAction {
      t' := InsertMarker(R, t', d);
    }
    t' := t'.(lastWasAction := next);
    if t.lastWasAction { CountsOne(t, t', |t.entries|); } else { CountsNone(t, t'); }
  }

  /** add_symbol for a symbol of the open rule: an action before it, and its
      arguments, become markers. */
  method AddSymbol(R: Rules, t: Names, ghost d: Declarations, w: Word, args: seq<string>) returns (t': Names)
    requires Reads(R, t, d) && Spelled(w)
    modifies R, R.pitem, R.plhs, R.rprec, R.rassoc
    ensures Reads(R, t', d) && R.Renewed() && !t'.lastWasAction && t'.errors == t.errors
    ensures t'.table == t.table[w.text := Found(t.table, t.entries, w.text)]
    ensures Meaning(BookOf(R, t')) == WithSymbol(Meaning(old(BookOf(R, t))), Found(t.table, t.entries, w.text))
    ensures Counts(t, t', if t.lastWasAction then 1 else 0, ArgSet(args))
  {
    hide BookOk, Meaning, NamesOk, Found, Reads, BookOf, WordIn, WithSymbol, Counts, ArgSet;
    var bp;
    t', bp := GetWord(R, t, d, w);
    ghost var u := t';
    t' := FlushAction(R, t', d, false);
    ghost var v := t';
    t' := InsertArgRules(R, t', d, args);
    PutItem(R, t', d, bp);
    CountsNone(t, u);
    CountsMore(t, u, v, t', if t.lastWasAction then 1 else 0, ArgSet(args));
  }

  /** copy_action */
  method AddAction(R: Rules, t: Names, ghost d: Declarations) returns (t': Names)
    requires Reads(R, t, d)
    modifies R, R.pitem, R.plhs, R.rprec, R.rassoc
    ensures Reads(R, t', d) && R.Renewed() && t'.lastWasAction && t'.errors == t.errors && t'.table == t.table
    ensures Meaning(BookOf(R, t')) == Meaning(old(BookOf(R, t)))
    ensures Counts(t, t', if t.lastWasAction then 1 else 0, {})
  {
    t' := FlushAction(R, t, d, true);
  }

  /** mark_symbol: the open rule takes the precedence of a symbol; another one than it
      has is an error. */
  method MarkPrec(R: Rules, t: Names, ghost d: Declarations, w: Word) returns (t': Names)
    requires Reads(R, t, d) && Spelled(w)
    modifies R.rprec, R.rassoc
    ensures Reads(R, t', d) && t'.lastWasAction == t.lastWasAction
    ensures t'.table == t.table[w.text := Found(t.table, t.entries, w.text)]
    ensures var p, last := PrecOf(d, w.text), Meaning(old(BookOf(R, t)));
      && Meaning(BookOf(R, t')) == WithPrec(last, p.0, p.1)
      && t'.errors == t.errors + if last[|last| - 1].prec != UNDEFINED && p.0 != last[|last| - 1].prec then 1 else 0
    ensures t'.markers == t.markers && t'.cache == t.cache
  {
    hide BookOk, Meaning, Reads, BookOf, WordIn, WithPrec;
    var bp;
    t', bp := GetWord(R, t, d, w);
    t' := TakePrec(R, t', d, w.text);
  }

  method TakePrec(R: Rules, t: Names, ghost d: Declarations, text: string) returns (t': Names)
    requires Reads(R, t, d) && text in t.table
    modifies R.rprec, R.rassoc
    ensures Reads(R, t', d) && t'.lastWasAction == t.lastWasAction && t'.table == t.table
    ensures var p, last := PrecOf(d, text), Meaning(old(BookOf(R, t)));
      && Meaning(BookOf(R, t')) == WithPrec(last, p.0, p.1)
      && t'.errors == t.errors + if last[|last| - 1].prec != UNDEFINED && p.0 != last[|last| - 1].prec then 1 else 0
    ensures t'.markers == t.markers && t'.cache == t.cache
  {
    hide BookOk, Meaning, WithPrec, PrecIn;
    ghost var c := BookOf(R, t);
    NamedPrec(c, d, text);
    var e := t.entries[t.table[text]];
    PrecKeeps(c, d, e.prec, e.assoc);
    LastOf(c);
    t' := PutPrec(R, t, e.prec, e.assoc);
  }

  method PutPrec(R: Rules, t: Names, prec: int, assoc: Assoc) returns (t': Names)
    requires R.Valid()
    modifies R.rprec, R.rassoc
    ensures R.Valid() && BookOf(R, t') == PrecIn(old(BookOf(R, t)), prec, assoc)
    ensures var was := old(R.Precs())[|R.done|]; t' == t.(errors := t.errors + if was != UNDEFINED && prec != was then 1 else 0)
  {
    hide PrecIn;
    ghost var c := BookOf(R, t);
    assert R.rprec[R.nrules] == R.Precs()[R.nrules - 3];
    t' := t;
    if R.rprec[R.nrules] != UNDEFINED && prec != R.rprec[R.nrules] {
      t' := t.(errors := t.errors + 1);
    }
    R.SetPrec(prec, assoc);
    BookPrecIs(c, BookOf(R, t'), prec, assoc);
  }

  /** end_rule and start_rule. A token on the left-hand side is an error, and is made
      a nonterminal all the same. */
  method NextRule(R: Rules, t: Names, ghost d: Declarations, lhs: int) returns (t': Names)
    requires Reads(R, t, d) && 0 < lhs < |t.entries| && lhs !in t.markers
    modifies R, R.pitem, R.plhs, R.rprec, R.rassoc
    ensures Reads(R, t', d) && R.Renewed() && !t'.lastWasAction && t'.table == t.table
    ensures t'.errors == t.errors + if t.entries[lhs].kind == Term then 1 else 0
    ensures Meaning(BookOf(R, t')) == Meaning(old(BookOf(R, t))) + [WrittenRule(lhs, [], UNDEFINED, Token)]
    ensures t'.markers == t.markers && t'.cache == t.cache
  {
    ghost var b := BookOf(R, t);
    RuleKeeps(b, d, lhs);
    hide BookOk, Meaning, RuleIn;
    R.NextRule(lhs);
    t' := t.(lastWasAction := false, errors := t.errors + if t.entries[lhs].kind == Term then 1 else 0,
      entries := t.entries[lhs := t.entries[lhs].(kind := Nonterm)]);
    BookRuleIs(b, BookOf(R, t'), lhs);
  }

  // ----- the rules section

  /** What the scanner meets: a left-hand side, a bar, a symbol with its arguments, an
      action, or a mark that names a symbol. */
  datatype Event = Head(w: Word) | Bar | Item(w: Word, args: seq<string>) | Act | Prec(w: Word)

  /** The names are as get_name and get_literal spell them. */
  ghost predicate SpelledEvent(e: Event) {
    match e
    case Head(w) => Spelled(w)
    case Item(w, _) => Spelled(w)
    case Prec(w) => Spelled(w)
    case _ => true
  }

  ghost predicate AllSpelled(events: seq<Event>) {
    forall i :: 0 <= i < |events| ==> SpelledEvent(events[i])
  }

  /** The rules as written, one event more. */
  ghost function Written(d: Declarations, w: seq<WrittenRule<string>>, e: Event): (r: seq<WrittenRule<string>>)
    requires |w| > 0
    ensures |r| > 0
  {
    match e
    case Head(x) => w + [WrittenRule(x.text, [], UNDEFINED, Token)]
    case Bar => w + [WrittenRule(w[|w| - 1].lhs, [], UNDEFINED, Token)]
    case Item(x, _) => WithSymbol(w, x.text)
    case Act => w
    case Prec(x) => WithPrec(w, PrecOf(d, x.text).0, PrecOf(d, x.text).1)
  }

  /** The rules as they are written, actions and arguments left out. */
  ghost function AllWritten(d: Declarations, first: string, events: seq<Event>): (w: seq<WrittenRule<string>>)
    ensures |w| > 0
  {
    if events == [] then [WrittenRule(first, [], UNDEFINED, Token)]
    else Written(d, AllWritten(d, first, events[..|events| - 1]), events[|events| - 1])
  }

  ghost function Items(x: seq<Word>, args: seq<seq<string>>): (e: seq<Event>)
    requires |x| == |args|
    ensures |e| == |x| && forall i :: 0 <= i < |x| ==> e[i] == Item(x[i], args[i])
  {
    seq(|x|, i requires 0 <= i < |x| => Item(x[i], args[i]))
  }

  ghost function Texts(x: seq<Word>): (t: seq<string>)
    ensures |t| == |x| && forall i :: 0 <= i < |x| ==> t[i] == x[i].text
  {
    seq(|x|, i requires 0 <= i < |x| => x[i].text)
  }

  lemma OneMoreEvent(d: Declarations, first: string, events: seq<Event>, e: Event)
    ensures AllWritten(d, first, events + [e]) == Written(d, AllWritten(d, first, events), e)
  {
    assert (events + [e])[..|events|] == events;
  }

  /** The last rule has the symbols t more. */
  ghost function Longer(w: seq<WrittenRule<string>>, t: seq<string>): (r: seq<WrittenRule<string>>)
    requires |w| > 0
    ensures |r| == |w|
  {
    w[..|w| - 1] + [w[|w| - 1].(rhs := w[|w| - 1].rhs + t)]
  }

  lemma LongerNone(w: seq<WrittenRule<string>>)
    requires |w| > 0
    ensures Longer(w, []) == w
  {
    assert w[|w| - 1].rhs + [] == w[|w| - 1].rhs;
  }

  lemma LongerMore(w: seq<WrittenRule<string>>, t: seq<string>, x: string)
    requires |w| > 0
    ensures WithSymbol(Longer(w, t), x) == Longer(w, t + [x])
  {
    var n := |w| - 1;
    assert (w[n].rhs + t) + [x] == w[n].rhs + (t + [x]);
  }

  lemma LongerNew(w: seq<WrittenRule<string>>, r: WrittenRule<string>, t: seq<string>)
    requires r.rhs == []
    ensures Longer(w + [r], t) == w + [r.(rhs := t)]
  {
    assert [] + t == t;
  }

  lemma PrecNew(w: seq<WrittenRule<string>>, r: WrittenRule<string>, prec: int, assoc: Assoc)
    ensures WithPrec(w + [r], prec, assoc) == w + [r.(prec := prec, assoc := assoc)]
  {
  }

  lemma ItemsMore(events: seq<Event>, x: seq<Word>, args: seq<seq<string>>)
    requires |x| == |args| > 0
    ensures var k := |x| - 1;
      && events + Items(x, args) == (events + Items(x[..k], args[..k])) + [Item(x[k], args[k])]
      && Texts(x) == Texts(x[..k]) + [x[k].text]
  {
  }

  /** Symbols are appended to the last rule in their order. */
  lemma {:induction false} ItemsRead(d: Declarations, first: string, events: seq<Event>, x: seq<Word>, args: seq<seq<string>>)
    requires |x| == |args|
    ensures AllWritten(d, first, events + Items(x, args)) == Longer(AllWritten(d, first, events), Texts(x))
    decreases |x|
  {
    hide AllWritten, Longer, WithSymbol;
    if x == [] {
      LongerNone(AllWritten(d, first, events));
      assert events + Items(x, args) == events && Texts(x) == [];
    } else {
      var k := |x| - 1;
      ItemsRead(d, first, events, x[..k], args[..k]);
      ItemsMore(events, x, args);
      OneMoreEvent(d, first, events + Items(x[..k], args[..k]), Item(x[k], args[k]));
      LongerMore(AllWritten(d, first, events), Texts(x[..k]), x[k].text);
    }
  }

  /** A rule that is written out, with a mark or without one, is read as that rule
      after those before it; a bar repeats the left-hand side, and an action changes
      nothing. */
  lemma RuleRead(d: Declarations, first: string, events: seq<Event>, head: Event, x: seq<Word>, args: seq<seq<string>>, marked: bool, mark: Word)
    requires |x| == |args| && (head.Head? || head.Bar?)
    ensures
      var w := AllWritten(d, first, events);
      var lhs := if head.Head? then head.w.text else w[|w| - 1].lhs;
      AllWritten(d, first, events + [head] + Items(x, args) + if marked then [Prec(mark)] else []) ==
        w + [if marked then WrittenRule(lhs, Texts(x), PrecOf(d, mark.text).0, PrecOf(d, mark.text).1) else WrittenRule(lhs, Texts(x), UNDEFINED, Token)]
    ensures AllWritten(d, first, events + [Act]) == AllWritten(d, first, events)
  {
    hide AllWritten, Longer, WithPrec;
    var w := AllWritten(d, first, events);
    var all := events + [head] + Items(x, args);
    var r := WrittenRule(if head.Head? then head.w.text else w[|w| - 1].lhs, [], UNDEFINED, Token);
    OneMoreEvent(d, first, events, head);
    OneMoreEvent(d, first, events, Act);
    ItemsRead(d, first, events + [head], x, args);
    LongerNew(w, r, Texts(x));
    if marked {
      OneMoreEvent(d, first, all, Prec(mark));
      PrecNew(w, r.(rhs := Texts(x)), PrecOf(d, mark.text).0, PrecOf(d, mark.text).1);
    } else {
      assert all + [] == all;
    }
  }

  /** The event is an error: a token as left-hand side, or a second precedence. */
  ghost predicate Fault(d: Declarations, w: seq<WrittenRule<string>>, e: Event)
    requires |w| > 0
  {
    match e
    case Head(x) => TokenName(d, x.text)
    case Prec(x) => w[|w| - 1].prec != UNDEFINED && PrecOf(d, x.text).0 != w[|w| - 1].prec
    case _ => false
  }

  ghost predicate Clean(d: Declarations, first: string, events: seq<Event>) {
    !TokenName(d, first) && forall i :: 0 <= i < |events| ==> !Fault(d, AllWritten(d, first, events[..i]), events[i])
  }

  lemma CleanNext(d: Declarations, first: string, events: seq<Event>, n: nat)
    requires n < |events|
    ensures AllWritten(d, first, events[..n + 1]) == Written(d, AllWritten(d, first, events[..n]), events[n])
    ensures Clean(d, first, events[..n + 1]) <==> Clean(d, first, events[..n]) && !Fault(d, AllWritten(d, first, events[..n]), events[n])
  {
    hide AllWritten, Written, Fault, TokenName;
    var e := events[..n + 1];
    assert e == events[..n] + [events[n]];
    OneMoreEvent(d, first, events[..n], events[n]);
    forall i | 0 <= i <= n ensures e[..i] == events[..i] && e[i] == events[i] && events[..n][..i] == events[..i] {
    }
    assert forall i :: 0 <= i < n ==> events[..n][i] == events[i];
  }

  // ----- how many markers

  /** An action was met last, marks aside. */
  ghost predicate Pending(events: seq<Event>) {
    exists k :: PendingAt(events, k)
  }

  ghost predicate PendingAt(events: seq<Event>, k: int) {
    0 <= k < |events| && events[k].Act? && forall l :: k < l < |events| ==> events[l].Prec?
  }

  /** Action k is not the last of its rule: a symbol or another action follows. */
  ghost predicate Inner(events: seq<Event>, k: int) {
    0 <= k < |events| && events[k].Act? && exists j :: FollowedBy(events, k, j)
  }

  ghost predicate FollowedBy(events: seq<Event>, k: int, j: int)
    requires 0 <= k < |events|
  {
    k < j < |events| && (events[j].Act? || events[j].Item?) && forall l :: k < l < j ==> events[l].Prec?
  }

  ghost function InnerActions(events: seq<Event>): set<int> {
    set k | 0 <= k < |events| && Inner(events, k)
  }

  ghost predicate IsArg(events: seq<Event>, a: string) {
    exists k :: 0 <= k < |events| && events[k].Item? && a in events[k].args
  }

  /** One marker for every action that is not the last of its rule, and one for every
      argument code, however often it occurs. */
  ghost predicate Numbered(t: Names, events: seq<Event>) {
    && (t.lastWasAction <==> Pending(events)) && (forall a :: a in t.cache <==> IsArg(events, a))
    && |t.markers| == |InnerActions(events)| + |t.cache.Keys|
  }

  /** What an event does to the markers. */
  ghost predicate Tally(t: Names, t': Names, e: Event) {
    var n := if t.lastWasAction then 1 else 0;
    match e
    case Item(_, args) => Counts(t, t', n, ArgSet(args)) && !t'.lastWasAction
    case Act => Counts(t, t', n, {}) && t'.lastWasAction
    case Prec(_) => Counts(t, t', 0, {}) && t'.lastWasAction == t.lastWasAction
    case _ => Counts(t, t', 0, {}) && !t'.lastWasAction
  }

  lemma PendingNext(events: seq<Event>, e: Event)
    ensures Pending(events + [e]) <==> e.Act? || (e.Prec? && Pending(events))
  {
    var more := events + [e];
    if e.Act? {
      assert PendingAt(more, |events|);
    } else if k :| PendingAt(more, k) {
      assert more[|events|] == e && forall l :: 0 <= l < |events| ==> more[l] == events[l];
      assert PendingAt(events, k);
    }
    if e.Prec? && Pending(events) {
      var k :| PendingAt(events, k);
      assert PendingAt(more, k);
    }
  }

  lemma InnerMore(events: seq<Event>, e: Event, k: int)
    ensures Inner(events + [e], k) <==> Inner(events, k) || ((e.Act? || e.Item?) && PendingAt(events, k))
  {
    var more := events + [e];
    assert more[|events|] == e && forall l :: 0 <= l < |events| ==> more[l] == events[l];
    if Inner(events, k) {
      var j :| FollowedBy(events, k, j);
      assert FollowedBy(more, k, j);
    }
    if (e.Act? || e.Item?) && PendingAt(events, k) {
      assert FollowedBy(more, k, |events|);
    }
    if Inner(more, k) {
      var j :| FollowedBy(more, k, j);
      assert if j < |events| then FollowedBy(events, k, j) else PendingAt(events, k);
    }
  }

  lemma InnerNext(events: seq<Event>, e: Event)
    ensures |InnerActions(events + [e])| == |InnerActions(events)| + if (e.Act? || e.Item?) && Pending(events) then 1 else 0
  {
    hide Inner, PendingAt;
    var a, b := InnerActions(events), InnerActions(events + [e]);
    forall k ensures k in b <==> k in a || ((e.Act? || e.Item?) && PendingAt(events, k)) {
      InnerMore(events, e, k);
      InnerRange(events, k);
      InnerRange(events + [e], k);
    }
    if (e.Act? || e.Item?) && Pending(events) {
      var k :| PendingAt(events, k);
      forall l | PendingAt(events, l) ensures l == k && l !in a {
        OnePending(events, k, l);
      }
      assert b == a + {k};
    } else {
      assert b == a;
    }
  }

  lemma InnerRange(events: seq<Event>, k: int)
    ensures Inner(events, k) ==> 0 <= k < |events|
  {
  }

  lemma OnePending(events: seq<Event>, k: int, l: int)
    requires PendingAt(events, k) && PendingAt(events, l)
    ensures l == k && !Inner(events, k)
  {
  }

  lemma ArgsNext(events: seq<Event>, e: Event, a: string)
    ensures IsArg(events + [e], a) <==> IsArg(events, a) || (e.Item? && a in e.args)
  {
    var more := events + [e];
    assert more[|events|] == e && forall l :: 0 <= l < |events| ==> more[l] == events[l];
  }

  lemma UnionSize(x: set<string>, y: set<string>)
    ensures |x + y| == |x| + |y - x|
  {
    assert x + y == x + (y - x);
  }

  lemma NumberedNext(t: Names, t': Names, events: seq<Event>, e: Event)
    requires Numbered(t, events) && Tally(t, t', e)
    ensures Numbered(t', events + [e])
  {
    hide Pending, InnerActions, IsArg, ArgSet;
    PendingNext(events, e);
    InnerNext(events, e);
    ArgsCached(t, t', events, e);
    UnionSize(t.cache.Keys, ArgsOf(e));
  }

  ghost function ArgsOf(e: Event): set<string> {
    if e.Item? then ArgSet(e.args) else {}
  }

  lemma ArgsCached(t: Names, t': Names, events: seq<Event>, e: Event)
    requires (forall a :: a in t.cache <==> IsArg(events, a)) && t'.cache.Keys == t.cache.Keys + ArgsOf(e)
    ensures forall a :: a in t'.cache <==> IsArg(events + [e], a)
  {
    hide IsArg;
    forall a ensures a in t'.cache <==> IsArg(events + [e], a) {
      ArgsNext(events, e, a);
      assert a in t'.cache <==> a in t'.cache.Keys;
      assert a in t.cache <==> a in t.cache.Keys;
    }
  }

  lemma NoneNumbered(t: Names)
    requires !t.lastWasAction && t.markers == {} && t.cache == map[]
    ensures Numbered(t, [])
  {
    assert InnerActions([]) == {};
  }

  // ----- names and numbers

  /** m has the entries of the names in w. */
  ghost predicate RuleSays(table: map<string, int>, w: WrittenRule<string>, m: WrittenRule<int>) {
    && w.lhs in table && table[w.lhs] == m.lhs && |w.rhs| == |m.rhs| && w.prec == m.prec && w.assoc == m.assoc
    && forall j :: 0 <= j < |w.rhs| ==> w.rhs[j] in table && table[w.rhs[j]] == m.rhs[j]
  }

  ghost predicate Says(table: map<string, int>, w: seq<WrittenRule<string>>, m: seq<WrittenRule<int>>) {
    |w| == |m| && forall i :: 0 <= i < |w| ==> RuleSays(table, w[i], m[i])
  }

  lemma SaysMore(table: map<string, int>, w: seq<WrittenRule<string>>, m: seq<WrittenRule<int>>, text: string, x: int)
    requires Says(table, w, m) && (text in table ==> table[text] == x)
    ensures Says(table[text := x], w, m)
  {
    forall i | 0 <= i < |w| ensures RuleSays(table[text := x], w[i], m[i]) {
      assert RuleSays(table, w[i], m[i]);
    }
  }

  lemma SaysRule(table: map<string, int>, w: seq<WrittenRule<string>>, m: seq<WrittenRule<int>>, text: string)
    requires Says(table, w, m) && text in table
    ensures Says(table, w + [WrittenRule(text, [], UNDEFINED, Token)], m + [WrittenRule(table[text], [], UNDEFINED, Token)])
  {
  }

  lemma SaysSymbol(table: map<string, int>, w: seq<WrittenRule<string>>, m: seq<WrittenRule<int>>, text: string)
    requires Says(table, w, m) && text in table && |w| > 0
    ensures Says(table, WithSymbol(w, text), WithSymbol(m, table[text]))
  {
    var n := |w| - 1;
    assert RuleSays(table, w[n], m[n]);
    assert RuleSays(table, w[n].(rhs := w[n].rhs + [text]), m[n].(rhs := m[n].rhs + [table[text]]));
  }

  lemma SaysPrec(table: map<string, int>, w: seq<WrittenRule<string>>, m: seq<WrittenRule<int>>, prec: int, assoc: Assoc)
    requires Says(table, w, m) && |w| > 0
    ensures Says(table, WithPrec(w, prec, assoc), WithPrec(m, prec, assoc))
  {
    var n := |w| - 1;
    assert RuleSays(table, w[n], m[n]);
    assert RuleSays(table, w[n].(prec := prec, assoc := assoc), m[n].(prec := prec, assoc := assoc));
  }

  lemma HeadSaid(table: map<string, int>, w: seq<WrittenRule<string>>, m: seq<WrittenRule<int>>, text: string, x: int)
    requires Says(table, w, m) && (text in table ==> table[text] == x)
    ensures Says(table[text := x], w + [WrittenRule(text, [], UNDEFINED, Token)], m + [WrittenRule(x, [], UNDEFINED, Token)])
  {
    SaysMore(table, w, m, text, x);
    SaysRule(table[text := x], w, m, text);
  }

  lemma PrecSaid(d: Declarations, table: map<string, int>, w: seq<WrittenRule<string>>, m: seq<WrittenRule<int>>, x: Word, bp: int)
    requires Says(table, w, m) && |w| > 0 && (x.text in table ==> table[x.text] == bp)
    ensures |m| == |w| && Says(table[x.text := bp], Written(d, w, Prec(x)), WithPrec(m, PrecOf(d, x.text).0, PrecOf(d, x.text).1))
    ensures Fault(d, w, Prec(x)) <==> m[|m| - 1].prec != UNDEFINED && PrecOf(d, x.text).0 != m[|m| - 1].prec
  {
    assert RuleSays(table, w[|w| - 1], m[|m| - 1]);
    SaysMore(table, w, m, x.text, bp);
    SaysPrec(table[x.text := bp], w, m, PrecOf(d, x.text).0, PrecOf(d, x.text).1);
  }

  /** Names keep their entries. */
  ghost predicate MoreNames(table: map<string, int>, table': map<string, int>) {
    forall n :: n in table ==> n in table' && table'[n] == table[n]
  }

  lemma FoundKeeps(table: map<string, int>, entries: seq<Entry>, text: string)
    ensures MoreNames(table, table[text := Found(table, entries, text)]) && (text in table ==> table[text] == Found(table, entries, text))
  {
  }

  /** What was read says what was written, and there were no errors exactly if it is
      clean. */
  ghost predicate Tells(R: Rules, t: Names, d: Declarations, w: seq<WrittenRule<string>>, clean: bool): (v: bool)
    reads R, R.pitem, R.plhs, R.rprec, R.rassoc
    ensures v ==> R.Valid() && Reads(R, t, d)
  {
    Reads(R, t, d) && Says(t.table, w, Meaning(BookOf(R, t))) && (t.errors == 0 <==> clean)
  }

  lemma TermRead(R: Rules, t: Names, d: Declarations, text: string)
    requires Reads(R, t, d) && text in t.table
    ensures 0 < t.table[text] < |t.entries|
    ensures t.errors == 0 ==> (t.entries[t.table[text]].kind == Term <==> TokenName(d, text))
  {
    TermIs(BookOf(R, t), d, text);
  }

  /** The symbol of a left-hand side, and whether it is a token. */
  method GetHead(R: Rules, t: Names, ghost d: Declarations, w: Word) returns (t': Names, bp: int)
    requires Reads(R, t, d) && Spelled(w)
    ensures Reads(R, t', d) && Meaning(BookOf(R, t')) == Meaning(BookOf(R, t)) && bp == Found(t.table, t.entries, w.text)
    ensures t'.table == t.table[w.text := bp] && t'.errors == t.errors && 0 < bp < |t'.entries| && bp !in t'.markers
    ensures t'.errors == 0 ==> (t'.entries[bp].kind == Term <==> TokenName(d, w.text))
    ensures t'.markers == t.markers && t'.cache == t.cache
  {
    hide BookOk, Meaning, Reads, BookOf, WordIn, NamesOk, TokenName, Found;
    t', bp := GetWord(R, t, d, w);
    TermRead(R, t', d, w.text);
  }

  /** A left-hand side after the first. */
  method ReadHead(R: Rules, t: Names, ghost d: Declarations, w: Word, ghost said: seq<WrittenRule<string>>, ghost clean: bool) returns (t': Names)
    requires Tells(R, t, d, said, clean) && |said| > 0 && Spelled(w)
    modifies R, R.pitem, R.plhs, R.rprec, R.rassoc
    ensures R.Renewed() && MoreNames(t.table, t'.table)
    ensures Tells(R, t', d, said + [WrittenRule(w.text, [], UNDEFINED, Token)], clean && !TokenName(d, w.text))
    ensures t'.markers == t.markers && t'.cache == t.cache && !t'.lastWasAction
  {
    hide BookOk, Meaning, Reads, BookOf, WordIn, Says, NamesOk, TokenName, Found, MoreNames, Spelled;
    FoundKeeps(t.table, t.entries, w.text);
    HeadSaid(t.table, said, Meaning(BookOf(R, t)), w.text, Found(t.table, t.entries, w.text));
    var bp;
    t', bp := GetHead(R, t, d, w);
    t' := NextRule(R, t', d, bp);
  }

  /** Another right-hand side for the same left-hand side. */
  method ReadBar(R: Rules, t: Names, ghost d: Declarations, ghost said: seq<WrittenRule<string>>, ghost clean: bool) returns (t': Names)
    requires Tells(R, t, d, said, clean) && |said| > 0
    modifies R, R.pitem, R.plhs, R.rprec, R.rassoc
    ensures R.Renewed() && MoreNames(t.table, t'.table)
    ensures Tells(R, t', d, said + [WrittenRule(said[|said| - 1].lhs, [], UNDEFINED, Token)], clean)
    ensures t'.markers == t.markers && t'.cache == t.cache && !t'.lastWasAction
  {
    ghost var b, m := BookOf(R, t), Meaning(BookOf(R, t));
    LastOf(b);
    OpenRule(b, d);
    assert R.plhs[R.nrules] == R.Lhs()[R.nrules - 3];
    assert RuleSays(t.table, said[|said| - 1], m[|m| - 1]);
    SaysRule(t.table, said, m, said[|said| - 1].lhs);
    hide BookOk, Meaning, Reads, BookOf, Says;
    t' := NextRule(R, t, d, R.plhs[R.nrules]);
  }

  method ReadItem(R: Rules, t: Names, ghost d: Declarations, w: Word, args: seq<string>, ghost said: seq<WrittenRule<string>>, ghost clean: bool) returns (t': Names)
    requires Tells(R, t, d, said, clean) && |said| > 0 && Spelled(w)
    modifies R, R.pitem, R.plhs, R.rprec, R.rassoc
    ensures R.Renewed() && MoreNames(t.table, t'.table)
    ensures Tells(R, t', d, WithSymbol(said, w.text), clean)
    ensures Counts(t, t', if t.lastWasAction then 1 else 0, ArgSet(args)) && !t'.lastWasAction
  {
    ghost var m, bp := Meaning(BookOf(R, t)), Found(t.table, t.entries, w.text);
    SaysMore(t.table, said, m, w.text, bp);
    SaysSymbol(t.table[w.text := bp], said, m, w.text);
    FoundKeeps(t.table, t.entries, w.text);
    hide BookOk, Meaning, Reads, BookOf, Says, WithSymbol, Found, MoreNames;
    t' := AddSymbol(R, t, d, w, args);
  }

  method ReadPrec(R: Rules, t: Names, ghost d: Declarations, w: Word, ghost said: seq<WrittenRule<string>>, ghost clean: bool) returns (t': Names)
    requires Tells(R, t, d, said, clean) && |said| > 0 && Spelled(w)
    modifies R.rprec, R.rassoc
    ensures MoreNames(t.table, t'.table)
    ensures Tells(R, t', d, Written(d, said, Prec(w)), clean && !Fault(d, said, Prec(w)))
    ensures t'.markers == t.markers && t'.cache == t.cache && t'.lastWasAction == t.lastWasAction
  {
    PrecSaid(d, t.table, said, Meaning(BookOf(R, t)), w, Found(t.table, t.entries, w.text));
    FoundKeeps(t.table, t.entries, w.text);
    hide BookOk, Meaning, Reads, BookOf, Says, WithPrec, Written, Fault, Found, MoreNames;
    t' := MarkPrec(R, t, d, w);
  }

  /** One event. */
  method ReadEvent(R: Rules, t: Names, ghost d: Declarations, e: Event, ghost said: seq<WrittenRule<string>>, ghost clean: bool) returns (t': Names)
    requires Tells(R, t, d, said, clean) && |said| > 0 && SpelledEvent(e)
    modifies R, R.pitem, R.plhs, R.rprec, R.rassoc
    ensures R.Renewed() && MoreNames(t.table, t'.table)
    ensures Tells(R, t', d, Written(d, said, e), clean && !Fault(d, said, e))
    ensures Tally(t, t', e)
  {
    hide BookOk, Meaning, Reads, BookOf, Says, WithPrec, WithSymbol, Counts, ArgSet;
    match e
    case Head(w) =>
      t' := ReadHead(R, t, d, w, said, clean);
      CountsNone(t, t');
    case Bar =>
      t' := ReadBar(R, t, d, said, clean);
      CountsNone(t, t');
    case Item(w, args) => t' := ReadItem(R, t, d, w, args, said, clean);
    case Act => t' := AddAction(R, t, d);
    case Prec(w) =>
      t' := ReadPrec(R, t, d, w, said, clean);
      CountsNone(t, t');
  }

  // ----- the whole section

  /** The first rule, with its left-hand side. */
  method FirstRules(x: int) returns (R: Rules)
    requires x > 0
    ensures fresh(R) && fresh(R.pitem) && fresh(R.plhs) && fresh(R.rprec) && fresh(R.rassoc)
    ensures R.Valid() && R.done == [] && R.cur == [] && R.Lhs() == [x] && R.Precs() == [UNDEFINED] && R.Assocs() == [Token]
  {
    R := new Rules();
    R.StartRule(x);
    FirstBook(R);
  }

  /** advance_to_start, without the declarations: the first rule begins, and its
      left-hand side is the goal if none was declared. */
  method BeginRules(table: map<string, int>, entries: seq<Entry>, goal0: int, ghost d: Declarations, first: Word) returns (R: Rules, t: Names, goal: int)
    requires DeclarationsOk(table, entries, d) && !IsLiteral(first.text)
    ensures fresh(R) && fresh(R.pitem) && fresh(R.plhs) && fresh(R.rprec) && fresh(R.rassoc)
    ensures Tells(R, t, d, AllWritten(d, first.text, []), !TokenName(d, first.text)) && MoreNames(table, t.table)
    ensures first.text in t.table && goal == if goal0 != 0 then goal0 else t.table[first.text]
    ensures Numbered(t, [])
  {
    FirstFound(table, entries, d, first.text);
    var x, e := Found(table, entries, first.text), EntriesFor(table, entries, first.text);
    goal := if goal0 != 0 then goal0 else x;
    var errors := if e[x].kind != Term then 0 else if goal0 != 0 then 1 else 2;
    FirstKeeps(table, entries, d, first.text, errors);
    FirstSaid(d, table, first.text, x);
    FoundKeeps(table, entries, first.text);
    hide BookOk, Meaning, DeclarationsOk, TokenName, FirstRule, Found, EntriesFor, Says, AllWritten, MoreNames;
    R := FirstRules(x);
    t := Names(table[first.text := x], e[x := e[x].(kind := Nonterm)], {}, map[], false, errors);
    BookFirstIs(table, entries, first.text, errors, BookOf(R, t));
    NoneNumbered(t);
  }

  lemma FirstSaid(d: Declarations, table: map<string, int>, text: string, x: int)
    ensures Says(table[text := x], AllWritten(d, text, []), [WrittenRule(x, [], UNDEFINED, Token)])
  {
  }

  lemma FirstBook(R: Rules)
    requires R.nrules == 3 < R.plhs.Length == R.rprec.Length == R.rassoc.Length
    ensures R.Lhs() == [R.plhs[3]] && R.Precs() == [R.rprec[3]] && R.Assocs() == [R.rassoc[3]]
  {
  }

  /** The loop over the events. */
  method ReadEvents(R: Rules, t0: Names, ghost d: Declarations, ghost first: string, events: seq<Event>) returns (t: Names)
    requires Tells(R, t0, d, AllWritten(d, first, []), !TokenName(d, first)) && AllSpelled(events) && Numbered(t0, [])
    modifies R, R.pitem, R.plhs, R.rprec, R.rassoc
    ensures R.Renewed() && MoreNames(t0.table, t.table)
    ensures Tells(R, t, d, AllWritten(d, first, events), Clean(d, first, events)) && Numbered(t, events)
  {
    hide Numbered, Tally, Reads, Says, BookOf, Meaning, AllWritten, Written, Clean, Fault;
    t := t0;
    CleanStart(d, first, events);
    for i := 0 to |events|
      invariant R.Renewed() && MoreNames(t0.table, t.table)
      invariant Tells(R, t, d, AllWritten(d, first, events[..i]), Clean(d, first, events[..i])) && Numbered(t, events[..i])
    {
      CleanNext(d, first, events, i);
      ghost var was := t;
      t := ReadEvent(R, t, d, events[i], AllWritten(d, first, events[..i]), Clean(d, first, events[..i]));
      NumberedNext(was, t, events[..i], events[i]);
      assert events[..i] + [events[i]] == events[..i + 1];
    }
    assert events[..|events|] == events;
  }

  lemma CleanStart(d: Declarations, first: string, events: seq<Event>)
    ensures events[..0] == [] && (Clean(d, first, []) <==> !TokenName(d, first))
  {
  }

  /** Without errors the names classed as tokens are those declared so, and literals. */
  ghost predicate Classed(t: Names, d: Declarations) {
    t.errors == 0 ==> forall n :: n in t.table ==> 0 < t.table[n] < |t.entries| && (t.entries[t.table[n]].kind == Term <==> TokenName(d, n))
  }

  lemma ReadClassed(R: Rules, t: Names, d: Declarations)
    requires Reads(R, t, d)
    ensures Classed(t, d)
  {
    if t.errors == 0 {
      forall n | n in t.table ensures 0 < t.table[n] < |t.entries| && (t.entries[t.table[n]].kind == Term <==> TokenName(d, n)) {
        TermIs(BookOf(R, t), d, n);
      }
    }
  }

  /** Every name has the value and the precedence that was declared for it. Without a
      declared value, a literal of one character has that character, and any other
      name none. */
  ghost predicate NamesAsDeclared(t: Names, d: Declarations) {
    && (forall n :: n in t.table && n in d.values ==> 0 < t.table[n] < |t.entries| && t.entries[t.table[n]].value == d.values[n])
    && (forall c :: IsByte(c) && LiteralText([c]) in t.table && LiteralText([c]) !in d.values ==>
        0 < t.table[LiteralText([c])] < |t.entries| && t.entries[t.table[LiteralText([c])]].value == c)
    && (forall n :: n in t.table && n !in d.values && (forall c :: IsByte(c) ==> n != LiteralText([c])) ==>
        0 < t.table[n] < |t.entries| && t.entries[t.table[n]].value == UNDEFINED)
    && (forall n :: n in t.table && n in d.precs ==>
        0 < t.table[n] < |t.entries| && (t.entries[t.table[n]].prec, t.entries[t.table[n]].assoc) == d.precs[n])
    && (forall n :: n in t.table && n !in d.precs ==> 0 < t.table[n] < |t.entries| && t.entries[t.table[n]].prec == 0)
  }

  /** Every name has an entry of its own, which is no marker's. */
  ghost predicate NamesApart(t: Names) {
    && (forall n :: n in t.table ==> 0 < t.table[n] < |t.entries| && t.table[n] !in t.markers)
    && forall n, m :: n in t.table && m in t.table && t.table[n] == t.table[m] ==> n == m
  }

  lemma ReadApart(R: Rules, t: Names, d: Declarations)
    requires Reads(R, t, d)
    ensures NamesApart(t)
  {
    var b := BookOf(R, t);
    assert NamesOk(b, d);
    forall n | n in t.table ensures 0 < t.table[n] < |t.entries| && t.table[n] !in t.markers {
      assert NameOk(b, d, n);
    }
  }

  lemma CodeOfOne(c: int)
    requires IsByte(c)
    ensures CodeOf(LiteralText([c])) == c
  {
    CodeIs([c]);
  }

  lemma ReadDeclared(R: Rules, t: Names, d: Declarations)
    requires Reads(R, t, d)
    ensures NamesAsDeclared(t, d)
  {
    hide BookOk, LiteralText;
    var b := BookOf(R, t);
    forall n | n in t.table
      ensures 0 < t.table[n] < |t.entries| && (t.entries[t.table[n]].prec, t.entries[t.table[n]].assoc) == PrecOf(d, n)
      ensures t.entries[t.table[n]].value == ValueFor(d, n)
    {
      NamedPrec(b, d, n);
    }
    forall c | IsByte(c) ensures CodeOf(LiteralText([c])) == c {
      CodeOfOne(c);
    }
  }

  /** The end of the section closes the last rule. */
  method EndRules(R: Rules, t: Names, ghost d: Declarations)
    requires Reads(R, t, d)
    modifies R, R.pitem
    ensures R.Valid() && R.cur == []
    ensures Ordinary(R.done, R.plhs[3..R.nrules], R.rprec[3..R.nrules], R.rassoc[3..R.nrules], t.markers) == Meaning(old(BookOf(R, t)))
    ensures Finished(R.done, R.plhs[3..R.nrules], t.markers, t.entries, t.errors)
  {
    ghost var b := BookOf(R, t);
    FinishKeeps(b, d);
    hide BookOk, Meaning, Finished, Ordinary;
    R.EndRule();
    assert R.plhs[3..R.nrules] == b.lhs && R.rprec[3..R.nrules] == b.prec && R.rassoc[3..R.nrules] == b.assoc;
  }

  /** read_grammar: whatever markers were made, the rules say what was written. */
  method ReadGrammar(table: map<string, int>, entries: seq<Entry>, goal0: int, ghost d: Declarations, first: Word, events: seq<Event>) returns (R: Rules, t: Names, goal: int)
    requires DeclarationsOk(table, entries, d) && !IsLiteral(first.text) && AllSpelled(events)
    ensures fresh(R) && R.Valid() && R.cur == []
    ensures Says(t.table, AllWritten(d, first.text, events), Ordinary(R.done, R.plhs[3..R.nrules], R.rprec[3..R.nrules], R.rassoc[3..R.nrules], t.markers))
    ensures Finished(R.done, R.plhs[3..R.nrules], t.markers, t.entries, t.errors)
    ensures (t.errors == 0 <==> Clean(d, first.text, events)) && Classed(t, d) && NamesAsDeclared(t, d) && NamesApart(t) && MoreNames(table, t.table)
    ensures Numbered(t, events)
    ensures first.text in t.table && goal == if goal0 != 0 then goal0 else t.table[first.text]
  {
    hide Classed, NamesAsDeclared, NamesApart, Numbered, Reads, Says, BookOf, Meaning, AllWritten, Clean, DeclarationsOk, Finished;
    R, t, goal := BeginRules(table, entries, goal0, d, first);
    t := ReadEvents(R, t, d, first.text, events);
    ReadClassed(R, t, d);
    ReadDeclared(R, t, d);
    ReadApart(R, t, d);
    EndRules(R, t, d);
  }
}
