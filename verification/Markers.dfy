/** reader.c: an action inside a rule, or an argument of a symbol, becomes a marker,
    a symbol of its own with an empty rule. What the rules say once the markers are
    left out, and what reading keeps of that. */
module Markers {
  import opened Actions
  import opened Words

  /** A rule with its precedence, as it is written. */
  datatype WrittenRule<T> = WrittenRule(lhs: T, rhs: seq<T>, prec: int, assoc: Assoc)

  /** s without the markers M. */
  ghost function Erase(s: seq<int>, M: set<int>): (e: seq<int>)
    ensures |e| <= |s|
  {
    if s == [] then [] else Erase(s[..|s| - 1], M) + if s[|s| - 1] in M then [] else [s[|s| - 1]]
  }

  lemma {:induction false} EraseHas(s: seq<int>, M: set<int>, x: int)
    ensures x in Erase(s, M) <==> x in s && x !in M
  {
    if s != [] {
      EraseHas(s[..|s| - 1], M, x);
      assert s == s[..|s| - 1] + [s[|s| - 1]];
    }
  }

  lemma {:induction false} EraseAppend(s: seq<int>, t: seq<int>, M: set<int>)
    ensures Erase(s + t, M) == Erase(s, M) + Erase(t, M)
  {
    if t == [] {
      assert s + t == s;
    } else {
      EraseAppend(s, t[..|t| - 1], M);
      assert (s + t)[..|s + t| - 1] == s + t[..|t| - 1];
    }
  }

  lemma EraseOne(x: int, M: set<int>)
    ensures Erase([x], M) == if x in M then [] else [x]
  {
    assert [x][..0] == [];
  }

  /** A marker that does not occur makes no difference. */
  lemma {:induction false} EraseFresh(s: seq<int>, M: set<int>, m: int)
    requires m !in s
    ensures Erase(s, M + {m}) == Erase(s, M)
  {
    if s != [] { EraseFresh(s[..|s| - 1], M, m); }
  }

  lemma {:induction false} EraseNone(s: seq<int>, M: set<int>)
    requires forall i :: 0 <= i < |s| ==> s[i] !in M
    ensures Erase(s, M) == s
  {
    if s != [] {
      EraseNone(s[..|s| - 1], M);
      assert s == s[..|s| - 1] + [s[|s| - 1]];
    }
  }

  /** The rules but those of markers, without markers. */
  ghost function Ordinary(rhs: seq<seq<int>>, lhs: seq<int>, prec: seq<int>, assoc: seq<Assoc>, M: set<int>): (w: seq<WrittenRule<int>>)
    requires |rhs| == |lhs| == |prec| == |assoc|
  {
    if rhs == [] then []
    else
      var n := |rhs| - 1;
      Ordinary(rhs[..n], lhs[..n], prec[..n], assoc[..n], M)
      + if lhs[n] in M then [] else [WrittenRule(lhs[n], Erase(rhs[n], M), prec[n], assoc[n])]
  }

  lemma OrdinaryMore(rhs: seq<seq<int>>, lhs: seq<int>, prec: seq<int>, assoc: seq<Assoc>, M: set<int>, r: seq<int>, x: int, p: int, a: Assoc)
    requires |rhs| == |lhs| == |prec| == |assoc|
    ensures Ordinary(rhs + [r], lhs + [x], prec + [p], assoc + [a], M) ==
      Ordinary(rhs, lhs, prec, assoc, M) + if x in M then [] else [WrittenRule(x, Erase(r, M), p, a)]
  {
    assert (rhs + [r])[..|rhs|] == rhs && (lhs + [x])[..|rhs|] == lhs && (prec + [p])[..|rhs|] == prec && (assoc + [a])[..|rhs|] == assoc;
  }

  lemma {:induction false} OrdinaryFresh(rhs: seq<seq<int>>, lhs: seq<int>, prec: seq<int>, assoc: seq<Assoc>, M: set<int>, m: int)
    requires |rhs| == |lhs| == |prec| == |assoc| && m !in lhs && forall k :: 0 <= k < |rhs| ==> m !in rhs[k]
    ensures Ordinary(rhs, lhs, prec, assoc, M + {m}) == Ordinary(rhs, lhs, prec, assoc, M)
  {
    if rhs != [] {
      var n := |rhs| - 1;
      OrdinaryFresh(rhs[..n], lhs[..n], prec[..n], assoc[..n], M, m);
      EraseFresh(rhs[n], M, m);
    }
  }

  /** Every rule but those of markers is among them, and no other. */
  lemma {:induction false} OrdinaryHas(rhs: seq<seq<int>>, lhs: seq<int>, prec: seq<int>, assoc: seq<Assoc>, M: set<int>, k: nat)
    requires |rhs| == |lhs| == |prec| == |assoc| && k < |rhs| && lhs[k] !in M
    ensures WrittenRule(lhs[k], Erase(rhs[k], M), prec[k], assoc[k]) in Ordinary(rhs, lhs, prec, assoc, M)
  {
    var n := |rhs| - 1;
    if k < n { OrdinaryHas(rhs[..n], lhs[..n], prec[..n], assoc[..n], M, k); }
  }

  lemma {:induction false} OrdinaryFrom(rhs: seq<seq<int>>, lhs: seq<int>, prec: seq<int>, assoc: seq<Assoc>, M: set<int>, w: WrittenRule<int>) returns (k: nat)
    requires |rhs| == |lhs| == |prec| == |assoc| && w in Ordinary(rhs, lhs, prec, assoc, M)
    ensures k < |rhs| && lhs[k] !in M && w == WrittenRule(lhs[k], Erase(rhs[k], M), prec[k], assoc[k])
  {
    var n := |rhs| - 1;
    if w in Ordinary(rhs[..n], lhs[..n], prec[..n], assoc[..n], M) {
      k := OrdinaryFrom(rhs[..n], lhs[..n], prec[..n], assoc[..n], M, w);
    } else {
      k := n;
    }
  }

  // ----- the symbol table

  datatype Kind = Unclassed | Term | Nonterm | Marker

  /** An entry of the symbol table. */
  datatype Entry = Entry(kind: Kind, value: int, prec: int, assoc: Assoc)

  /** The names declared as tokens, and the precedences and values declared. */
  datatype Declarations = Declarations(terms: set<string>, precs: map<string, (int, Assoc)>, values: map<string, int>)

  function PrecOf(d: Declarations, text: string): (int, Assoc) {
    if text in d.precs then d.precs[text] else (0, Token)
  }

  /** The value of a name: the one declared, or the character of a literal that has
      just one. */
  ghost function ValueFor(d: Declarations, text: string): int {
    if text in d.values then d.values[text] else CodeOf(text)
  }

  ghost predicate TokenName(d: Declarations, text: string) {
    IsLiteral(text) || text in d.terms
  }

  // ----- what has been read so far

  /** The rules read and the one that is open, the argument codes with the rule of
      the marker that each has, and the symbol table. Rule k stands at place k - 3. */
  datatype Book = Book(done: seq<seq<int>>, cur: seq<int>, lhs: seq<int>, prec: seq<int>, assoc: seq<Assoc>, cache: map<string, int>, markers: set<int>, table: map<string, int>, entries: seq<Entry>, errors: nat)

  ghost predicate InTable(s: seq<int>, n: int) {
    forall i :: 0 <= i < |s| ==> 0 < s[i] < n
  }

  /** All symbols are entries of the table. */
  ghost predicate Listed(b: Book) {
    && |b.lhs| == |b.prec| == |b.assoc| == |b.done| + 1
    && InTable(b.lhs, |b.entries|) && InTable(b.cur, |b.entries|) && (forall k :: 0 <= k < |b.done| ==> InTable(b.done[k], |b.entries|))
    && forall m :: m in b.markers ==> 0 < m < |b.entries|
  }

  /** Every marker has a rule, all its rules are empty, and it is never the symbol of
      the open rule. */
  ghost predicate Marked(b: Book)
    requires |b.lhs| == |b.done| + 1
  {
    && b.lhs[|b.done|] !in b.markers
    && (forall k :: 0 <= k < |b.done| && b.lhs[k] in b.markers ==> b.done[k] == [])
    && (forall m :: m in b.markers ==> HasRule(b, m))
    && forall c :: c in b.cache ==> 3 <= b.cache[c] < |b.done| + 3 && b.lhs[b.cache[c] - 3] in b.markers
  }

  ghost predicate HasRule(b: Book, m: int)
    requires |b.lhs| == |b.done| + 1
  {
    exists k :: 0 <= k < |b.done| && b.lhs[k] == m
  }

  /** Every name has an entry of its own, which is no marker's, with its precedence
      and value. */
  ghost predicate NamesOk(b: Book, d: Declarations) {
    && 2 <= |b.entries|
    && (forall n :: n in b.table ==> NameOk(b, d, n))
    && (forall n :: n in d.terms || n in d.precs || n in d.values ==> n in b.table)
    && (forall n :: n in d.values ==> d.values[n] != UNDEFINED)
    && forall n, m :: n in b.table && m in b.table && b.table[n] == b.table[m] ==> n == m
  }

  ghost predicate NameOk(b: Book, d: Declarations, n: string)
    requires n in b.table
  {
    var x := b.table[n];
    1 <= x < |b.entries| && x !in b.markers && (b.entries[x].prec, b.entries[x].assoc) == PrecOf(d, n) && b.entries[x].value == ValueFor(d, n)
  }

  /** Markers are classed as such, and a nonterminal has a rule. If there were no
      errors, left-hand sides are nonterminals and the tokens are those declared. */
  ghost predicate KindsOk(b: Book, d: Declarations) {
    && (forall x :: 1 <= x < |b.entries| ==> KindOk(b, x))
    && (b.errors == 0 ==>
      && (forall i :: 0 <= i < |b.lhs| && b.lhs[i] !in b.markers ==> 0 < b.lhs[i] < |b.entries| && b.entries[b.lhs[i]].kind == Nonterm)
      && forall n :: n in b.table && 0 < b.table[n] < |b.entries| ==> (b.entries[b.table[n]].kind == Term <==> TokenName(d, n)))
  }

  ghost predicate KindOk(b: Book, x: int)
    requires 1 <= x < |b.entries|
  {
    && (b.entries[x].kind == Marker <==> x in b.markers)
    && (b.entries[x].kind == Nonterm ==> x in b.lhs)
  }

  ghost predicate BookOk(b: Book, d: Declarations) {
    Listed(b) && Marked(b) && NamesOk(b, d) && KindsOk(b, d)
  }

  // ----- what it means

  ghost function Closed(b: Book): seq<WrittenRule<int>>
    requires |b.lhs| == |b.prec| == |b.assoc| == |b.done| + 1
  {
    var n := |b.done|;
    Ordinary(b.done, b.lhs[..n], b.prec[..n], b.assoc[..n], b.markers)
  }

  /** What the book says, markers left out; the last rule is the open one. */
  ghost function Meaning(b: Book): (w: seq<WrittenRule<int>>)
    requires |b.lhs| == |b.prec| == |b.assoc| == |b.done| + 1
    ensures |w| > 0
  {
    var n := |b.done|;
    Closed(b) + [WrittenRule(b.lhs[n], Erase(b.cur, b.markers), b.prec[n], b.assoc[n])]
  }

  /** The last rule has one more symbol. */
  ghost function WithSymbol<T>(w: seq<WrittenRule<T>>, x: T): (r: seq<WrittenRule<T>>)
    requires |w| > 0
    ensures |r| == |w|
  {
    var n := |w| - 1;
    w[..n] + [w[n].(rhs := w[n].rhs + [x])]
  }

  ghost function WithPrec<T>(w: seq<WrittenRule<T>>, prec: int, assoc: Assoc): (r: seq<WrittenRule<T>>)
    requires |w| > 0
    ensures |r| == |w|
  {
    var n := |w| - 1;
    w[..n] + [w[n].(prec := prec, assoc := assoc)]
  }

  // ----- a new marker

  /** One more before the last. */
  ghost function BeforeLast<T>(s: seq<T>, x: T): (r: seq<T>)
    requires |s| > 0
    ensures |r| == |s| + 1
  {
    s[..|s| - 1] + [x, s[|s| - 1]]
  }

  /** The book after insert_empty_rule, with the next entry as its marker. */
  ghost function MarkerIn(b: Book): Book
    requires |b.lhs| == |b.prec| == |b.assoc| == |b.done| + 1
  {
    var m := |b.entries|;
    b.(done := b.done + [[]], cur := b.cur + [m], lhs := BeforeLast(b.lhs, m), prec := BeforeLast(b.prec, 0), assoc := BeforeLast(b.assoc, Token),
      markers := b.markers + {m}, entries := b.entries + [Entry(Marker, UNDEFINED, 0, Token)])
  }

  lemma BookMarkerIs(b: Book, c: Book)
    requires |b.lhs| == |b.prec| == |b.assoc| == |b.done| + 1
    requires c.done == b.done + [[]] && c.cur == b.cur + [|b.entries|] && c.markers == b.markers + {|b.entries|}
    requires c.lhs == BeforeLast(b.lhs, |b.entries|) && c.prec == BeforeLast(b.prec, 0) && c.assoc == BeforeLast(b.assoc, Token)
    requires c.entries == b.entries + [Entry(Marker, UNDEFINED, 0, Token)] && c.cache == b.cache && c.table == b.table && c.errors == b.errors
    ensures c == MarkerIn(b)
  {
  }

  lemma FreshEntry(b: Book)
    requires Listed(b)
    ensures var m := |b.entries|;
      m !in b.markers && m !in b.lhs && m !in b.cur && forall k :: 0 <= k < |b.done| ==> m !in b.done[k]
  {
  }

  /** It changes nothing in what is said. */
  lemma MarkerMeans(b: Book)
    requires Listed(b)
    ensures Meaning(MarkerIn(b)) == Meaning(b)
  {
    hide Ordinary, Erase, InTable;
    FreshEntry(b);
    var n, m, c := |b.done|, |b.entries|, MarkerIn(b);
    assert c.lhs[..n + 1] == b.lhs[..n] + [m] && c.prec[..n + 1] == b.prec[..n] + [0] && c.assoc[..n + 1] == b.assoc[..n] + [Token];
    OrdinaryMore(b.done, b.lhs[..n], b.prec[..n], b.assoc[..n], c.markers, [], m, 0, Token);
    OrdinaryFresh(b.done, b.lhs[..n], b.prec[..n], b.assoc[..n], b.markers, m);
    EraseAppend(b.cur, [m], c.markers);
    EraseOne(m, c.markers);
    EraseFresh(b.cur, b.markers, m);
    var before := Ordinary(b.done, b.lhs[..n], b.prec[..n], b.assoc[..n], b.markers);
    assert before + [] == before && Erase(b.cur, b.markers) + [] == Erase(b.cur, b.markers);
    assert c.lhs[n + 1] == b.lhs[n] && c.prec[n + 1] == b.prec[n] && c.assoc[n + 1] == b.assoc[n];
    assert |c.done| == n + 1;
  }

  lemma MarkerListed(b: Book)
    requires Listed(b) && 0 < |b.entries|
    ensures Listed(MarkerIn(b))
  {
    var n, m, c := |b.done|, |b.entries|, MarkerIn(b);
    forall i | 0 <= i < |c.lhs| ensures 0 < c.lhs[i] < m + 1 {
      assert c.lhs[i] == if i < n then b.lhs[i] else if i == n then m else b.lhs[n];
    }
    forall k | 0 <= k < |c.done| ensures InTable(c.done[k], m + 1) {
      assert k < n ==> c.done[k] == b.done[k];
    }
  }

  lemma MarkerHasRule(b: Book, x: int)
    requires Listed(b) && Marked(b) && x in MarkerIn(b).markers
    ensures HasRule(MarkerIn(b), x)
  {
    var n, c := |b.done|, MarkerIn(b);
    if x == |b.entries| {
      assert c.lhs[n] == x;
    } else {
      var k :| 0 <= k < n && b.lhs[k] == x;
      assert c.lhs[k] == x;
    }
  }

  lemma MarkerMarked(b: Book)
    requires Listed(b) && Marked(b) && 0 < |b.entries|
    ensures Marked(MarkerIn(b))
  {
    hide HasRule;
    FreshEntry(b);
    var n, m, c := |b.done|, |b.entries|, MarkerIn(b);
    forall x | x in c.markers ensures HasRule(c, x) {
      MarkerHasRule(b, x);
    }
    forall k | 0 <= k < |c.done| && c.lhs[k] in c.markers ensures c.done[k] == [] {
      assert k < n ==> c.lhs[k] == b.lhs[k] != m && c.done[k] == b.done[k];
    }
    forall x | x in c.cache ensures 3 <= c.cache[x] < |c.done| + 3 && c.lhs[c.cache[x] - 3] in c.markers {
      assert c.lhs[c.cache[x] - 3] == b.lhs[b.cache[x] - 3];
    }
  }

  lemma MarkerKinds(b: Book, d: Declarations)
    requires Listed(b) && NamesOk(b, d) && KindsOk(b, d)
    ensures KindsOk(MarkerIn(b), d)
  {
    FreshEntry(b);
    var n, m, c := |b.done|, |b.entries|, MarkerIn(b);
    forall x | 1 <= x < |c.entries| ensures KindOk(c, x) {
      if x < m {
        assert KindOk(b, x);
        if x in b.lhs {
          var i :| 0 <= i < |b.lhs| && b.lhs[i] == x;
          assert c.lhs[if i < n then i else n + 1] == x;
        }
      }
    }
    forall i | 0 <= i < |c.lhs| && c.lhs[i] !in c.markers && c.errors == 0
      ensures 0 < c.lhs[i] < |c.entries| && c.entries[c.lhs[i]].kind == Nonterm
    {
      assert c.lhs[i] == b.lhs[if i < n then i else n];
    }
    forall x | x in c.table ensures NameOk(b, d, x) {
    }
  }

  lemma MarkerNames(b: Book, d: Declarations)
    requires Listed(b) && NamesOk(b, d)
    ensures NamesOk(MarkerIn(b), d)
  {
    forall n | n in b.table ensures NameOk(MarkerIn(b), d, n) {
      assert NameOk(b, d, n);
    }
  }

  lemma MarkerKeeps(b: Book, d: Declarations)
    requires BookOk(b, d)
    ensures BookOk(MarkerIn(b), d) && Meaning(MarkerIn(b)) == Meaning(b)
  {
    hide Marked, KindsOk, Meaning;
    assert |b.entries| > 0;
    MarkerMeans(b);
    MarkerListed(b);
    MarkerMarked(b);
    MarkerKinds(b, d);
    MarkerNames(b, d);
  }

  // ----- items, rules, precedences and arguments

  /** One more item in the open rule. */
  ghost function ItemIn(b: Book, x: int): Book {
    b.(cur := b.cur + [x])
  }

  lemma ItemMeans(b: Book, x: int)
    requires Listed(b)
    ensures Meaning(ItemIn(b, x)) == if x in b.markers then Meaning(b) else WithSymbol(Meaning(b), x)
  {
    hide Ordinary, Erase;
    EraseAppend(b.cur, [x], b.markers);
    EraseOne(x, b.markers);
    assert Erase(b.cur, b.markers) + [] == Erase(b.cur, b.markers);
  }

  lemma ItemKeeps(b: Book, d: Declarations, x: int)
    requires BookOk(b, d) && 0 < x < |b.entries|
    ensures BookOk(ItemIn(b, x), d)
    ensures Meaning(ItemIn(b, x)) == if x in b.markers then Meaning(b) else WithSymbol(Meaning(b), x)
  {
    hide Meaning, Ordinary, Erase, NamesOk, KindsOk;
    ItemMeans(b, x);
    SameRules(b, ItemIn(b, x), d);
  }

  /** What does not depend on the items of the open rule, the cache and the
      precedences. */
  lemma SameRules(b: Book, c: Book, d: Declarations)
    requires |b.lhs| == |b.done| + 1 && c.done == b.done && c.lhs == b.lhs && c.markers == b.markers && c.table == b.table && c.entries == b.entries && c.errors >= b.errors
    ensures NamesOk(b, d) ==> NamesOk(c, d)
    ensures KindsOk(b, d) ==> KindsOk(c, d)
    ensures forall m :: HasRule(c, m) <==> HasRule(b, m)
  {
    if NamesOk(b, d) {
      forall n | n in c.table ensures NameOk(c, d, n) { assert NameOk(b, d, n); }
    }
    if KindsOk(b, d) {
      forall x | 1 <= x < |c.entries| ensures KindOk(c, x) { assert KindOk(b, x); }
    }
  }

  /** The open rule is closed, and one for x begins; a token x is an error. */
  ghost function RuleIn(b: Book, x: int): Book
    requires 0 < x < |b.entries|
  {
    b.(done := b.done + [b.cur], cur := [], lhs := b.lhs + [x], prec := b.prec + [UNDEFINED], assoc := b.assoc + [Token],
      entries := b.entries[x := b.entries[x].(kind := Nonterm)], errors := b.errors + if b.entries[x].kind == Term then 1 else 0)
  }

  lemma RuleMeans(b: Book, x: int)
    requires Listed(b) && Marked(b) && 0 < x < |b.entries|
    ensures Meaning(RuleIn(b, x)) == Meaning(b) + [WrittenRule(x, [], UNDEFINED, Token)]
  {
    hide Ordinary, Erase;
    var m, c := |b.done|, RuleIn(b, x);
    OrdinaryMore(b.done, b.lhs[..m], b.prec[..m], b.assoc[..m], b.markers, b.cur, b.lhs[m], b.prec[m], b.assoc[m]);
    assert c.lhs[..m + 1] == b.lhs == b.lhs[..m] + [b.lhs[m]];
    assert c.prec[..m + 1] == b.prec == b.prec[..m] + [b.prec[m]];
    assert c.assoc[..m + 1] == b.assoc == b.assoc[..m] + [b.assoc[m]];
    EraseNone([], b.markers);
  }

  lemma RuleAt(b: Book, x: int, k: nat)
    requires Listed(b) && Marked(b) && 0 < x < |b.entries| && k <= |b.done|
    ensures var c := RuleIn(b, x);
      c.lhs[k] == b.lhs[k] && InTable(c.done[k], |c.entries|) && (c.lhs[k] in c.markers ==> c.done[k] == [])
  {
  }

  lemma RuleHas(b: Book, x: int, m: int)
    requires |b.lhs| == |b.done| + 1 && 0 < x < |b.entries| && HasRule(b, m)
    ensures HasRule(RuleIn(b, x), m)
  {
    var k :| 0 <= k < |b.done| && b.lhs[k] == m;
    assert RuleIn(b, x).lhs[k] == m;
  }

  lemma RuleListed(b: Book, x: int)
    requires Listed(b) && Marked(b) && 0 < x < |b.entries| && x !in b.markers
    ensures Listed(RuleIn(b, x)) && Marked(RuleIn(b, x))
  {
    hide HasRule;
    var c := RuleIn(b, x);
    assert InTable(c.lhs, |c.entries|) && InTable(c.cur, |c.entries|);
    hide InTable;
    forall k: nat | k < |c.done| ensures InTable(c.done[k], |c.entries|) && (c.lhs[k] in c.markers ==> c.done[k] == []) {
      RuleAt(b, x, k);
    }
    forall m | m in c.markers ensures HasRule(c, m) {
      RuleHas(b, x, m);
    }
    forall y | y in c.cache ensures 3 <= c.cache[y] < |c.done| + 3 && c.lhs[c.cache[y] - 3] in c.markers {
      assert c.lhs[c.cache[y] - 3] == b.lhs[b.cache[y] - 3];
    }
  }

  lemma RuleKinds(b: Book, d: Declarations, x: int)
    requires Listed(b) && NamesOk(b, d) && KindsOk(b, d) && 0 < x < |b.entries| && x !in b.markers
    ensures NamesOk(RuleIn(b, x), d) && KindsOk(RuleIn(b, x), d)
  {
    var m, c := |b.done|, RuleIn(b, x);
    forall n | n in c.table ensures NameOk(c, d, n) {
      assert NameOk(b, d, n);
    }
    forall y | 1 <= y < |c.entries| ensures KindOk(c, y) {
      assert KindOk(b, y) && c.lhs[m + 1] == x;
    }
    forall i | 0 <= i < |c.lhs| && c.lhs[i] !in c.markers && c.errors == 0
      ensures 0 < c.lhs[i] < |c.entries| && c.entries[c.lhs[i]].kind == Nonterm
    {
      assert i <= m ==> c.lhs[i] == b.lhs[i];
    }
  }

  lemma RuleKeeps(b: Book, d: Declarations, x: int)
    requires BookOk(b, d) && 0 < x < |b.entries| && x !in b.markers
    ensures BookOk(RuleIn(b, x), d) && Meaning(RuleIn(b, x)) == Meaning(b) + [WrittenRule(x, [], UNDEFINED, Token)]
  {
    RuleMeans(b, x);
    hide Marked, KindsOk, Meaning, Listed, NamesOk;
    RuleListed(b, x);
    RuleKinds(b, d, x);
  }

  /** The precedence of the open rule; another one before it is an error. */
  ghost function PrecIn(b: Book, prec: int, assoc: Assoc): Book
    requires |b.prec| == |b.assoc| == |b.done| + 1
  {
    var m := |b.done|;
    b.(prec := b.prec[m := prec], assoc := b.assoc[m := assoc], errors := b.errors + if b.prec[m] != UNDEFINED && prec != b.prec[m] then 1 else 0)
  }

  lemma PrecKeeps(b: Book, d: Declarations, prec: int, assoc: Assoc)
    requires BookOk(b, d)
    ensures BookOk(PrecIn(b, prec, assoc), d) && Meaning(PrecIn(b, prec, assoc)) == WithPrec(Meaning(b), prec, assoc)
  {
    var m := |b.done|;
    assert b.prec[m := prec][..m] == b.prec[..m] && b.assoc[m := assoc][..m] == b.assoc[..m];
    hide Ordinary, Erase, NamesOk, KindsOk;
    SameRules(b, PrecIn(b, prec, assoc), d);
  }

  /** One more argument has a marker. */
  ghost function CacheIn(b: Book, code: string, rule: int): Book {
    b.(cache := b.cache[code := rule])
  }

  lemma CacheKeeps(b: Book, d: Declarations, code: string, rule: int)
    requires BookOk(b, d) && 3 <= rule < |b.done| + 3 && b.lhs[rule - 3] in b.markers
    ensures BookOk(CacheIn(b, code, rule), d) && Meaning(CacheIn(b, code, rule)) == Meaning(b)
  {
    hide Ordinary, Erase, NamesOk, KindsOk;
    SameRules(b, CacheIn(b, code, rule), d);
  }

  // ----- words

  function Found(table: map<string, int>, entries: seq<Entry>, text: string): int {
    if text in table then table[text] else |entries|
  }

  /** The entries after lookup. */
  function EntriesFor(table: map<string, int>, entries: seq<Entry>, text: string): seq<Entry> {
    if text in table then entries else entries + [Entry(Unclassed, UNDEFINED, 0, Token)]
  }

  /** The class and value that get_literal gives. */
  function AsLiteral(e: Entry, code: int): Entry {
    e.(kind := Term, value := if code != UNDEFINED && e.value == UNDEFINED then code else e.value)
  }

  /** The book after get_name or get_literal. */
  ghost function WordIn(b: Book, d: Declarations, w: Word): Book
    requires NamesOk(b, d)
  {
    var x, e := Found(b.table, b.entries, w.text), EntriesFor(b.table, b.entries, w.text);
    assert w.text in b.table ==> NameOk(b, d, w.text);
    b.(table := b.table[w.text := x], entries := if IsLiteral(w.text) then e[x := AsLiteral(e[x], w.code)] else e)
  }

  lemma WordName(b: Book, d: Declarations, w: Word, n: string)
    requires Listed(b) && NamesOk(b, d) && Spelled(w) && n in WordIn(b, d, w).table
    ensures NameOk(WordIn(b, d, w), d, n)
  {
    hide CodeOf, IsLiteral;
    if !IsLiteral(w.text) { NameHasNone(w.text); }
    assert n in b.table ==> NameOk(b, d, n);
  }

  lemma WordNames(b: Book, d: Declarations, w: Word)
    requires Listed(b) && NamesOk(b, d) && Spelled(w)
    ensures NamesOk(WordIn(b, d, w), d)
    ensures var x := Found(b.table, b.entries, w.text); 1 <= x < |WordIn(b, d, w).entries| && x !in b.markers
  {
    hide CodeOf, IsLiteral;
    var c := WordIn(b, d, w);
    forall n | n in c.table ensures NameOk(c, d, n) {
      WordName(b, d, w, n);
    }
    forall n, m | n in c.table && m in c.table && c.table[n] == c.table[m] ensures n == m {
      assert (n in b.table ==> NameOk(b, d, n)) && (m in b.table ==> NameOk(b, d, m));
    }
    assert NameOk(c, d, w.text);
  }

  lemma WordKinds(b: Book, d: Declarations, w: Word)
    requires Listed(b) && NamesOk(b, d) && KindsOk(b, d)
    ensures KindsOk(WordIn(b, d, w), d)
  {
    var c, y := WordIn(b, d, w), Found(b.table, b.entries, w.text);
    assert w.text in b.table ==> NameOk(b, d, w.text);
    forall x | 1 <= x < |c.entries| ensures KindOk(c, x) {
      assert x < |b.entries| ==> KindOk(b, x);
    }
    if c.errors == 0 {
      forall i | 0 <= i < |c.lhs| && c.lhs[i] !in c.markers ensures 0 < c.lhs[i] < |c.entries| && c.entries[c.lhs[i]].kind == Nonterm {
        assert b.entries[b.lhs[i]].kind == Nonterm;
      }
      forall n | n in c.table && 0 < c.table[n] < |c.entries| ensures c.entries[c.table[n]].kind == Term <==> TokenName(d, n) {
        assert n in b.table ==> NameOk(b, d, n);
      }
    }
  }

  lemma WordKeeps(b: Book, d: Declarations, w: Word)
    requires BookOk(b, d) && Spelled(w)
    ensures BookOk(WordIn(b, d, w), d) && Meaning(WordIn(b, d, w)) == Meaning(b)
    ensures var x := Found(b.table, b.entries, w.text); 1 <= x < |WordIn(b, d, w).entries| && x !in b.markers
  {
    WordNames(b, d, w);
    WordKinds(b, d, w);
    hide Ordinary, Erase, NamesOk, KindsOk;
    assert forall m :: HasRule(WordIn(b, d, w), m) <==> HasRule(b, m);
  }

  // ----- parts of it

  lemma TableHasEntries(b: Book, d: Declarations)
    requires BookOk(b, d)
    ensures |b.entries| >= 2
  {
  }

  lemma BookNames(b: Book, d: Declarations)
    requires BookOk(b, d)
    ensures NamesOk(b, d)
  {
  }

  /** A name has the precedence declared for it, and its value. */
  lemma NamedPrec(b: Book, d: Declarations, text: string)
    requires BookOk(b, d) && text in b.table
    ensures 0 < b.table[text] < |b.entries|
    ensures (b.entries[b.table[text]].prec, b.entries[b.table[text]].assoc) == PrecOf(d, text)
    ensures b.entries[b.table[text]].value == ValueFor(d, text)
  {
    assert NameOk(b, d, text);
  }

  lemma BookItemIs(b: Book, c: Book, x: int)
    requires c.done == b.done && c.cur == b.cur + [x] && c.lhs == b.lhs && c.prec == b.prec && c.assoc == b.assoc
    requires c.cache == b.cache && c.markers == b.markers && c.table == b.table && c.entries == b.entries && c.errors == b.errors
    ensures c == ItemIn(b, x)
  {
  }

  lemma BookRuleIs(b: Book, c: Book, x: int)
    requires 0 < x < |b.entries| && c.done == b.done + [b.cur] && c.cur == [] && c.lhs == b.lhs + [x]
    requires c.prec == b.prec + [UNDEFINED] && c.assoc == b.assoc + [Token] && c.entries == b.entries[x := b.entries[x].(kind := Nonterm)]
    requires c.errors == b.errors + (if b.entries[x].kind == Term then 1 else 0) && c.cache == b.cache && c.markers == b.markers && c.table == b.table
    ensures c == RuleIn(b, x)
  {
  }

  lemma BookPrecIs(b: Book, c: Book, prec: int, assoc: Assoc)
    requires |b.prec| == |b.assoc| == |b.done| + 1 && c.done == b.done && c.cur == b.cur && c.lhs == b.lhs
    requires c.prec == b.prec[|b.done| := prec] && c.assoc == b.assoc[|b.done| := assoc] && c.entries == b.entries
    requires c.errors == b.errors + if b.prec[|b.done|] != UNDEFINED && prec != b.prec[|b.done|] then 1 else 0
    requires c.cache == b.cache && c.markers == b.markers && c.table == b.table
    ensures c == PrecIn(b, prec, assoc)
  {
  }

  /** Without errors a name is classed as a token exactly if it is declared so. */
  lemma TermIs(b: Book, d: Declarations, text: string)
    requires BookOk(b, d) && text in b.table
    ensures 0 < b.table[text] < |b.entries|
    ensures b.errors == 0 ==> (b.entries[b.table[text]].kind == Term <==> TokenName(d, text))
  {
    assert NameOk(b, d, text);
  }

  lemma OpenRule(b: Book, d: Declarations)
    requires BookOk(b, d)
    ensures var x := b.lhs[|b.done|];
      0 < x < |b.entries| && x !in b.markers && (b.errors == 0 ==> b.entries[x].kind == Nonterm)
  {
  }

  lemma MarkerPlace(b: Book)
    requires |b.lhs| == |b.prec| == |b.assoc| == |b.done| + 1
    ensures MarkerIn(b).lhs[|b.done|] == |b.entries|
  {
  }

  lemma LastOf(b: Book)
    requires |b.lhs| == |b.prec| == |b.assoc| == |b.done| + 1
    ensures var w := Meaning(b); w[|w| - 1].lhs == b.lhs[|b.done|] && w[|w| - 1].prec == b.prec[|b.done|]
  {
  }

  /** The marker of an argument seen before. */
  lemma CachedRule(b: Book, d: Declarations, code: string)
    requires BookOk(b, d) && code in b.cache
    ensures 3 <= b.cache[code] < |b.done| + 3 && |b.lhs| == |b.done| + 1
    ensures b.lhs[b.cache[code] - 3] in b.markers && 0 < b.lhs[b.cache[code] - 3] < |b.entries|
  {
  }

  // ----- the first rule and the last

  /** The table as the declarations leave it. */
  ghost function Before(table: map<string, int>, entries: seq<Entry>): Book {
    Book([], [], [], [], [], map[], {}, table, entries, 0)
  }

  ghost predicate DeclarationsOk(table: map<string, int>, entries: seq<Entry>, d: Declarations) {
    NamesOk(Before(table, entries), d) && KindsOk(Before(table, entries), d)
  }

  /** The book when the first rule, for a name, has begun. */
  ghost function FirstRule(table: map<string, int>, entries: seq<Entry>, text: string, errors: nat): (b: Book)
    requires 0 <= Found(table, entries, text) < |EntriesFor(table, entries, text)|
  {
    var x, e := Found(table, entries, text), EntriesFor(table, entries, text);
    Book([], [], [x], [UNDEFINED], [Token], map[], {}, table[text := x], e[x := e[x].(kind := Nonterm)], errors)
  }

  lemma BookFirstIs(table: map<string, int>, entries: seq<Entry>, text: string, errors: nat, c: Book)
    requires 0 <= Found(table, entries, text) < |EntriesFor(table, entries, text)|
    requires var x, e := Found(table, entries, text), EntriesFor(table, entries, text);
      && c.done == [] && c.cur == [] && c.lhs == [x] && c.prec == [UNDEFINED] && c.assoc == [Token] && c.cache == map[] && c.markers == {}
      && c.table == table[text := x] && c.entries == e[x := e[x].(kind := Nonterm)] && c.errors == errors
    ensures c == FirstRule(table, entries, text, errors)
  {
  }

  lemma FirstFound(table: map<string, int>, entries: seq<Entry>, d: Declarations, text: string)
    requires DeclarationsOk(table, entries, d) && !IsLiteral(text)
    ensures var x, e := Found(table, entries, text), EntriesFor(table, entries, text);
      1 <= x < |e| && (e[x].kind == Term <==> TokenName(d, text))
  {
    assert text in table ==> NameOk(Before(table, entries), d, text);
  }

  lemma FirstNames(table: map<string, int>, entries: seq<Entry>, d: Declarations, text: string, errors: nat)
    requires DeclarationsOk(table, entries, d) && 1 <= Found(table, entries, text) < |EntriesFor(table, entries, text)|
    requires !IsLiteral(text)
    ensures NamesOk(FirstRule(table, entries, text, errors), d)
  {
    hide CodeOf;
    NameHasNone(text);
    var a, b := Before(table, entries), FirstRule(table, entries, text, errors);
    forall n | n in b.table ensures NameOk(b, d, n) {
      assert n in table ==> NameOk(a, d, n);
    }
    forall n, m | n in b.table && m in b.table && b.table[n] == b.table[m] ensures n == m {
      assert (n in table ==> NameOk(a, d, n)) && (m in table ==> NameOk(a, d, m));
    }
  }

  lemma FirstKinds(table: map<string, int>, entries: seq<Entry>, d: Declarations, text: string, errors: nat)
    requires DeclarationsOk(table, entries, d) && 1 <= Found(table, entries, text) < |EntriesFor(table, entries, text)|
    requires !IsLiteral(text) && (errors == 0 ==> !TokenName(d, text))
    ensures KindsOk(FirstRule(table, entries, text, errors), d)
  {
    var a, b := Before(table, entries), FirstRule(table, entries, text, errors);
    var x := Found(table, entries, text);
    forall y | 1 <= y < |b.entries| ensures KindOk(b, y) {
      assert y < |entries| ==> KindOk(a, y);
      assert b.lhs[0] == x;
    }
    if errors == 0 {
      forall n | n in b.table && 0 < b.table[n] < |b.entries| ensures b.entries[b.table[n]].kind == Term <==> TokenName(d, n) {
        assert n in table ==> NameOk(a, d, n);
        assert text in table ==> NameOk(a, d, text);
      }
    }
  }

  lemma FirstKeeps(table: map<string, int>, entries: seq<Entry>, d: Declarations, text: string, errors: nat)
    requires DeclarationsOk(table, entries, d) && !IsLiteral(text) && (errors == 0 ==> !TokenName(d, text))
    ensures 1 <= Found(table, entries, text) < |EntriesFor(table, entries, text)|
    ensures var b := FirstRule(table, entries, text, errors);
      BookOk(b, d) && Meaning(b) == [WrittenRule(Found(table, entries, text), [], UNDEFINED, Token)]
  {
    FirstFound(table, entries, d, text);
    FirstNames(table, entries, d, text, errors);
    FirstKinds(table, entries, d, text, errors);
    hide NamesOk, KindsOk, DeclarationsOk;
    var b := FirstRule(table, entries, text, errors);
    assert b.lhs[..0] == [] && b.prec[..0] == [] && b.assoc[..0] == [];
    EraseNone([], b.markers);
  }

  /** All rules are closed: a marker has a rule and its rules are empty, an entry is
      classed as a marker exactly if it is one, and a nonterminal has a rule. If there
      were no errors, what has a rule is a nonterminal or a marker. */
  ghost predicate Finished(done: seq<seq<int>>, lhs: seq<int>, markers: set<int>, entries: seq<Entry>, errors: nat) {
    && |lhs| == |done| && InTable(lhs, |entries|) && (forall k :: 0 <= k < |done| ==> InTable(done[k], |entries|))
    && (forall k :: 0 <= k < |done| && lhs[k] in markers ==> done[k] == [])
    && (forall m :: m in markers ==> m in lhs)
    && forall x :: 1 <= x < |entries| ==> EndKind(lhs, markers, entries, errors, x)
  }

  ghost predicate EndKind(lhs: seq<int>, markers: set<int>, entries: seq<Entry>, errors: nat, x: int)
    requires 1 <= x < |entries|
  {
    && (entries[x].kind == Marker <==> x in markers)
    && (entries[x].kind == Nonterm ==> x in lhs)
    && (errors == 0 && x in lhs ==> entries[x].kind == Nonterm || entries[x].kind == Marker)
  }

  lemma FinishKeeps(b: Book, d: Declarations)
    requires BookOk(b, d)
    ensures Finished(b.done + [b.cur], b.lhs, b.markers, b.entries, b.errors)
    ensures Ordinary(b.done + [b.cur], b.lhs, b.prec, b.assoc, b.markers) == Meaning(b)
  {
    var n, done := |b.done|, b.done + [b.cur];
    FinishMeans(b);
    forall k | 0 <= k < |done| ensures InTable(done[k], |b.entries|) && (b.lhs[k] in b.markers ==> done[k] == []) {
      assert k < n ==> done[k] == b.done[k];
    }
    forall m | m in b.markers ensures m in b.lhs {
      assert HasRule(b, m);
    }
    forall x | 1 <= x < |b.entries| ensures EndKind(b.lhs, b.markers, b.entries, b.errors, x) {
      assert KindOk(b, x);
    }
  }

  lemma FinishMeans(b: Book)
    requires Listed(b) && Marked(b)
    ensures Ordinary(b.done + [b.cur], b.lhs, b.prec, b.assoc, b.markers) == Meaning(b)
  {
    hide Ordinary, Erase;
    var n := |b.done|;
    OrdinaryMore(b.done, b.lhs[..n], b.prec[..n], b.assoc[..n], b.markers, b.cur, b.lhs[n], b.prec[n], b.assoc[n]);
    assert b.lhs == b.lhs[..n] + [b.lhs[n]] && b.prec == b.prec[..n] + [b.prec[n]] && b.assoc == b.assoc[..n] + [b.assoc[n]];
  }
}
