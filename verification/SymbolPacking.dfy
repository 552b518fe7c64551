/** reader.c, pack_symbols: the numbers and values of the symbols. Symbols are
    known by their place in the symbol table, from 1 on; 1 is the token error. */
module SymbolPacking {
  import opened Actions
  import opened Packing
  import opened Vectors
  import opened Words
  import opened GrammarPacking

  /** An entry of the symbol table; value is UNDEFINED or what was declared. */
  datatype Bucket = Bucket(term: bool, value: int, prec: int, assoc: Assoc)

  ghost predicate TableOk(bs: seq<Bucket>, goal: int) {
    2 <= |bs| && bs[1].term && 1 <= goal < |bs| && !bs[goal].term
  }

  /** How many of the entries 1 to n - 1 are tokens. */
  ghost function Terms(bs: seq<Bucket>, n: nat): nat
    requires n <= |bs|
  {
    if n <= 1 then 0 else Terms(bs, n - 1) + if bs[n - 1].term then 1 else 0
  }

  lemma {:induction false} TermsGrow(bs: seq<Bucket>, m: nat, n: nat)
    requires 1 <= m <= n <= |bs|
    ensures Terms(bs, m) <= Terms(bs, n) <= Terms(bs, m) + n - m
    ensures m < n && bs[m].term ==> Terms(bs, m) < Terms(bs, n)
    ensures m < n && !bs[m].term ==> Terms(bs, n) - Terms(bs, m) < n - m
  {
    if m < n { TermsGrow(bs, m, n - 1); }
  }

  /** The packed number: tokens from 1 on, then the goal, then the other
      nonterminals, each kind in the order of the table. */
  ghost function Number(bs: seq<Bucket>, goal: int, b: nat): int
    requires TableOk(bs, goal) && 1 <= b < |bs|
  {
    var ntokens := 1 + Terms(bs, |bs|);
    if bs[b].term then 1 + Terms(bs, b)
    else if b == goal then ntokens + 1
    else ntokens + 1 + (b - 1 - Terms(bs, b)) + (if b < goal then 1 else 0)
  }

  /** Numbers tell the symbols apart, and tokens from nonterminals. */
  lemma NumbersApart(bs: seq<Bucket>, goal: int, a: nat, b: nat)
    requires TableOk(bs, goal) && 1 <= a < b < |bs|
    ensures Number(bs, goal, a) != Number(bs, goal, b)
    ensures bs[a].term == bs[b].term && a != goal && b != goal ==> Number(bs, goal, a) < Number(bs, goal, b)
  {
    TermsGrow(bs, a, b);
    TermsGrow(bs, b, |bs|);
    if a < goal { TermsGrow(bs, a, goal); }
    if goal < b { TermsGrow(bs, goal, b); }
    TermsGrow(bs, 1, a);
  }

  lemma NumberRange(bs: seq<Bucket>, goal: int, b: nat)
    requires TableOk(bs, goal) && 1 <= b < |bs|
    ensures var n := Number(bs, goal, b); var ntokens := 1 + Terms(bs, |bs|);
      0 < n < |bs| + 1 && n != ntokens && (bs[b].term <==> n < ntokens)
  {
    TermsGrow(bs, 1, b);
    TermsGrow(bs, b, |bs|);
    if b < goal {
      TermsGrow(bs, b, goal);
      TermsGrow(bs, goal, |bs|);
    }
    TermsGrow(bs, goal, |bs|);
  }

  /** The symbols laid out by kind: v holds at every place the entry of the table
      that comes there. */
  ghost predicate LaidOut(bs: seq<Bucket>, ntokens: int, v: seq<int>, n: nat)
    requires n <= |bs|
  {
    forall b: nat :: 1 <= b < n ==> PlacedAt(bs, ntokens, v, b)
  }

  ghost function Place(bs: seq<Bucket>, ntokens: int, b: nat): int
    requires 1 <= b < |bs|
  {
    if bs[b].term then 1 + Terms(bs, b) else ntokens + 1 + (b - 1 - Terms(bs, b))
  }

  ghost predicate PlacedAt(bs: seq<Bucket>, ntokens: int, v: seq<int>, b: nat) {
    1 <= b < |bs| && 0 <= Place(bs, ntokens, b) < |v| && v[Place(bs, ntokens, b)] == b
  }

  method CountTokens(bs: seq<Bucket>) returns (ntokens: nat)
    requires 1 <= |bs|
    ensures ntokens == 1 + Terms(bs, |bs|)
  {
    ntokens := 1;
    for b := 1 to |bs|
      invariant ntokens == 1 + Terms(bs, b)
    {
      if bs[b].term {
        ntokens := ntokens + 1;
      }
    }
  }

  lemma PlaceFits(bs: seq<Bucket>, a: nat, b: nat)
    requires 1 <= a <= b < |bs|
    ensures var T := 1 + Terms(bs, |bs|); 1 <= Place(bs, T, b) < |bs| + 1 && Place(bs, T, b) != T
    ensures var T := 1 + Terms(bs, |bs|); a < b ==> Place(bs, T, a) != Place(bs, T, b)
  {
    TermsGrow(bs, 1, a);
    TermsGrow(bs, a, b);
    TermsGrow(bs, b, |bs|);
    TermsGrow(bs, a, |bs|);
  }

  /** Place i of v is taken, by the entry that belongs there. */
  ghost predicate Taken(bs: seq<Bucket>, ntokens: int, v: seq<int>, i: int) {
    0 <= i < |v| && 1 <= v[i] < |bs| && Place(bs, ntokens, v[i]) == i
  }

  ghost predicate TakenIn(bs: seq<Bucket>, ntokens: int, v: seq<int>, lo: int, hi: int) {
    forall i :: lo <= i < hi ==> Taken(bs, ntokens, v, i)
  }

  /** Every symbol at its place, and a symbol at every place. */
  ghost predicate TokensFirst(bs: seq<Bucket>, ntokens: int, v: seq<int>)
    requires 1 <= |bs|
  {
    && ntokens == 1 + Terms(bs, |bs|) && |v| == |bs| + 1 && LaidOut(bs, ntokens, v, |bs|)
    && TakenIn(bs, ntokens, v, 1, ntokens) && TakenIn(bs, ntokens, v, ntokens + 1, |v|)
  }

  /** Tokens to the front, nonterminals behind them. */
  method LayOut(bs: seq<Bucket>, ntokens: nat) returns (v: array<int>)
    requires 1 <= |bs| && ntokens == 1 + Terms(bs, |bs|)
    ensures fresh(v) && TokensFirst(bs, ntokens, v[..])
  {
    v := new int[|bs| + 1](_ => 0);
    var i, j := 1, ntokens + 1;
    TermsGrow(bs, 1, |bs|);
    for b := 1 to |bs|
      invariant i == 1 + Terms(bs, b) && j == ntokens + 1 + (b - 1 - Terms(bs, b))
      invariant 1 <= i <= ntokens < j <= |bs| + 1
      invariant LaidOut(bs, ntokens, v[..], b) && TakenIn(bs, ntokens, v[..], 1, i) && TakenIn(bs, ntokens, v[..], ntokens + 1, j)
    {
      ghost var was := v[..];
      PlaceFits(bs, b, b);
      assert Place(bs, ntokens, b) == if bs[b].term then i else j;
      TermsGrow(bs, b, |bs|);
      if bs[b].term {
        v[i] := b;
        i := i + 1;
      } else {
        v[j] := b;
        j := j + 1;
      }
      LaidOutNext(bs, ntokens, was, v[..], b);
      TakenNext(bs, ntokens, was, v[..], b, 1, i);
      TakenNext(bs, ntokens, was, v[..], b, ntokens + 1, j);
    }
  }

  lemma LaidOutNext(bs: seq<Bucket>, ntokens: int, was: seq<int>, v: seq<int>, b: nat)
    requires 1 <= b < |bs| && ntokens == 1 + Terms(bs, |bs|) && |was| == |v| == |bs| + 1 && LaidOut(bs, ntokens, was, b)
    requires 0 <= Place(bs, ntokens, b) < |v| && v == was[Place(bs, ntokens, b) := b]
    ensures LaidOut(bs, ntokens, v, b + 1)
  {
    forall a: nat | 1 <= a < b ensures PlacedAt(bs, ntokens, v, a) {
      PlaceFits(bs, a, b);
      assert PlacedAt(bs, ntokens, was, a);
    }
  }

  lemma TakenNext(bs: seq<Bucket>, ntokens: int, was: seq<int>, v: seq<int>, b: nat, lo: int, hi: int)
    requires 1 <= b < |bs| && |was| == |v| && 0 <= Place(bs, ntokens, b) < |v| && v == was[Place(bs, ntokens, b) := b]
    requires forall i :: lo <= i < hi && i != Place(bs, ntokens, b) ==> Taken(bs, ntokens, was, i)
    ensures TakenIn(bs, ntokens, v, lo, hi)
  {
    forall i | lo <= i < hi ensures Taken(bs, ntokens, v, i) {
      assert i != Place(bs, ntokens, b) ==> Taken(bs, ntokens, was, i);
    }
  }

  // ----- numbers

  /** What NumberVars gives to a nonterminal. */
  ghost predicate VarsNumbered(bs: seq<Bucket>, goal: int, ntokens: int, out: seq<int>, first: int, i: int)
    requires TableOk(bs, goal) && |out| == |bs|
  {
    out[goal] == first && forall b: nat :: 1 <= b < |bs| ==> VarNumbered(bs, goal, ntokens, out, first, i, b)
  }

  ghost predicate VarNumbered(bs: seq<Bucket>, goal: int, ntokens: int, out: seq<int>, first: int, i: int, b: nat)
    requires TableOk(bs, goal) && |out| == |bs| && 1 <= b < |bs|
  {
    !bs[b].term && Place(bs, ntokens, b) < i ==> out[b] == Number(bs, goal, b) - (ntokens + 1) + first
  }

  lemma PlaceOfVar(bs: seq<Bucket>, goal: int, ntokens: int, b: nat)
    requires TableOk(bs, goal) && ntokens == 1 + Terms(bs, |bs|) && 1 <= b < |bs| && !bs[b].term
    ensures Place(bs, ntokens, b) < Place(bs, ntokens, goal) <==> b < goal
    ensures Place(bs, ntokens, b) > ntokens
  {
    if b < goal { TermsGrow(bs, b, goal); } else { TermsGrow(bs, goal, b); }
    TermsGrow(bs, 1, b);
  }

  lemma VarsNext(bs: seq<Bucket>, goal: int, ntokens: int, v: seq<int>, was: seq<int>, out: seq<int>, first: int, i: int, val: int)
    requires TableOk(bs, goal) && TokensFirst(bs, ntokens, v) && |was| == |out| == |bs| && ntokens < i <= |bs|
    requires VarsNumbered(bs, goal, ntokens, was, first, i) && 1 <= v[i] < |bs|
    requires val == Number(bs, goal, v[i]) - (ntokens + 1) + first
    requires forall b :: 0 <= b < |bs| ==> out[b] == if b == v[i] && b != goal then val else was[b]
    ensures VarsNumbered(bs, goal, ntokens, out, first, i + 1)
  {
    var next := i + 1;
    forall b: nat | 1 <= b < |bs| ensures VarNumbered(bs, goal, ntokens, out, first, next, b) {
      assert PlacedAt(bs, ntokens, v, b);
      assert VarNumbered(bs, goal, ntokens, was, first, i, b);
    }
  }

  lemma VarAt(bs: seq<Bucket>, goal: int, ntokens: int, v: seq<int>, i: int)
    requires TableOk(bs, goal) && TokensFirst(bs, ntokens, v) && ntokens < i <= |bs|
    ensures 1 <= v[i] < |bs| && !bs[v[i]].term && Place(bs, ntokens, v[i]) == i
    ensures v[i] == goal <==> i == Place(bs, ntokens, goal)
    ensures v[i] != goal ==> Number(bs, goal, v[i]) == i + if i <= Place(bs, ntokens, goal) then 1 else 0
  {
    assert Taken(bs, ntokens, v, i) && PlacedAt(bs, ntokens, v, goal);
    PlaceOfToken(bs, ntokens, v[i]);
    PlaceOfVar(bs, goal, ntokens, v[i]);
  }

  lemma VarsStart(bs: seq<Bucket>, goal: int, ntokens: int, out: seq<int>, first: int)
    requires TableOk(bs, goal) && ntokens == 1 + Terms(bs, |bs|) && |out| == |bs| && out[goal] == first
    ensures VarsNumbered(bs, goal, ntokens, out, first, ntokens + 1)
    ensures ntokens < Place(bs, ntokens, goal) && ntokens <= |bs|
  {
    var i := ntokens + 1;
    forall b: nat | 1 <= b < |bs| ensures VarNumbered(bs, goal, ntokens, out, first, i, b) {
      if !bs[b].term { PlaceOfVar(bs, goal, ntokens, b); }
    }
    PlaceOfVar(bs, goal, ntokens, goal);
    TermsGrow(bs, 1, |bs|);
  }

  /** The goal first, the other nonterminals after it. */
  method NumberVars(bs: seq<Bucket>, goal: nat, ntokens: nat, v: seq<int>, out: array<int>, first: int)
    requires TableOk(bs, goal) && TokensFirst(bs, ntokens, v) && out.Length == |bs|
    modifies out
    ensures VarsNumbered(bs, goal, ntokens, out[..], first, |bs| + 1)
    ensures forall b :: 0 <= b < |bs| && bs[b].term ==> out[b] == old(out[b])
  {
    out[goal] := first;
    var k := first + 1;
    VarsStart(bs, goal, ntokens, out[..], first);
    for i := ntokens + 1 to |bs| + 1
      invariant k == first + (i - (ntokens + 1)) + if i <= Place(bs, ntokens, goal) then 1 else 0
      invariant VarsNumbered(bs, goal, ntokens, out[..], first, i)
      invariant forall b :: 0 <= b < |bs| && bs[b].term ==> out[b] == old(out[b])
    {
      ghost var was := out[..];
      VarAt(bs, goal, ntokens, v, i);
      ghost var val := Number(bs, goal, v[i]) - (ntokens + 1) + first;
      if v[i] != goal {
        out[v[i]] := k;
        k := k + 1;
      }
      VarsNext(bs, goal, ntokens, v, was, out[..], first, i, val);
    }
  }

  lemma PlaceOfToken(bs: seq<Bucket>, ntokens: int, b: nat)
    requires 1 <= b < |bs| && ntokens == 1 + Terms(bs, |bs|)
    ensures bs[b].term <==> Place(bs, ntokens, b) < ntokens
  {
    TermsGrow(bs, 1, b);
    TermsGrow(bs, b, |bs|);
  }

  ghost predicate TokensNumbered(bs: seq<Bucket>, goal: int, ntokens: int, index: seq<int>, i: int)
    requires TableOk(bs, goal) && |index| == |bs|
  {
    forall b :: 1 <= b < |bs| && bs[b].term && Place(bs, ntokens, b) < i ==> index[b] == Number(bs, goal, b)
  }

  lemma TokensNext(bs: seq<Bucket>, goal: int, ntokens: int, v: seq<int>, was: seq<int>, i: int)
    requires TableOk(bs, goal) && TokensFirst(bs, ntokens, v) && |was| == |bs| && 1 <= i < ntokens
    requires TokensNumbered(bs, goal, ntokens, was, i)
    ensures i < |v| && 1 <= v[i] < |bs| && TokensNumbered(bs, goal, ntokens, was[v[i] := i], i + 1)
  {
    assert Taken(bs, ntokens, v, i);
    forall b | 1 <= b < |bs| && bs[b].term && Place(bs, ntokens, b) < i + 1 ensures was[v[i] := i][b] == Number(bs, goal, b) {
      assert PlacedAt(bs, ntokens, v, b);
    }
  }

  method NumberSymbols(bs: seq<Bucket>, goal: nat, ntokens: nat, v: seq<int>) returns (index: array<int>)
    requires TableOk(bs, goal) && TokensFirst(bs, ntokens, v)
    ensures fresh(index) && index.Length == |bs|
    ensures forall b: nat :: 1 <= b < |bs| ==> index[b] == Number(bs, goal, b)
  {
    index := new int[|bs|](_ => 0);
    for i := 1 to ntokens
      invariant TokensNumbered(bs, goal, ntokens, index[..], i)
    {
      TokensNext(bs, goal, ntokens, v, index[..], i);
      assert i < |v|;
      index[v[i]] := i;
    }
    ghost var was := index[..];
    NumberVars(bs, goal, ntokens, v, index, ntokens + 1);
    forall b: nat | 1 <= b < |bs| ensures index[b] == Number(bs, goal, b) {
      PlaceOfToken(bs, ntokens, b);
      PlaceFits(bs, b, b);
      assert bs[b].term ==> index[b] == was[b];
      assert VarNumbered(bs, goal, ntokens, index[..], ntokens + 1, |bs| + 1, b);
    }
  }

  // ----- values of tokens

  /** The value a token is bound to: $end is 0, error 256 unless declared. */
  ghost function Declared(vals: seq<int>, i: nat): int
    requires i < |vals|
  {
    if i == 0 then 0 else if i == 1 && vals[1] == UNDEFINED then 256 else vals[i]
  }

  ghost predicate Ascending(s: seq<int>) {
    forall i, j :: 0 <= i < j < |s| ==> s[i] <= s[j]
  }

  /** The declared values above 256 are in the sorted list, and no others. */
  ghost predicate Collected(vals: seq<int>, n: nat, sorted: seq<int>)
    requires n <= |vals|
  {
    && Ascending(sorted) && (forall i :: 0 <= i < |sorted| ==> sorted[i] > 256 && sorted[i] in vals)
    && forall i :: 1 <= i < n && vals[i] > 256 ==> vals[i] in sorted
  }

  lemma InsertedSorted(s: seq<int>, j: nat, n: int, t: seq<int>)
    requires Ascending(s) && j <= |s| && (j > 0 ==> s[j - 1] <= n) && (j < |s| ==> s[j] > n) && t == s[..j] + [n] + s[j..]
    ensures Ascending(t)
  {
    forall a, b | 0 <= a < b < |t| ensures t[a] <= t[b] {
      assert t[a] == if a < j then s[a] else if a == j then n else s[a - 1];
      assert t[b] == if b < j then s[b] else if b == j then n else s[b - 1];
    }
  }

  lemma InsertedIs(s: seq<int>, j: nat, n: int, t: seq<int>)
    requires j <= |s| && |t| == |s| + 1 && t[j] == n
    requires (forall l :: 0 <= l < j ==> t[l] == s[l]) && forall l :: j <= l < |s| ==> t[l + 1] == s[l]
    ensures t == s[..j] + [n] + s[j..]
  {
    forall l | j < l < |t| ensures t[l] == s[l - 1] {
      assert t[(l - 1) + 1] == s[l - 1];
    }
  }

  lemma InsertedHas(s: seq<int>, j: nat, n: int, t: seq<int>)
    requires j <= |s| && t == s[..j] + [n] + s[j..]
    ensures forall x :: x in t <==> x in s || x == n
  {
    assert s == s[..j] + s[j..];
  }

  /** Insert n into the first k entries of a, kept sorted. */
  method InsertValue(a: array<int>, k: nat, n: int)
    requires k < a.Length && Ascending(a[..k])
    modifies a
    ensures Ascending(a[..k + 1]) && forall x :: x in a[..k + 1] <==> x in old(a[..k]) || x == n
  {
    hide Ascending;
    ghost var was := a[..k];
    var j := k;
    while j > 0 && a[j - 1] > n
      invariant 0 <= j <= k && (j < k ==> was[j] > n)
      invariant forall l :: 0 <= l < j ==> a[l] == was[l]
      invariant forall l :: j <= l < k ==> a[l + 1] == was[l]
    {
      a[j] := a[j - 1];
      j := j - 1;
    }
    a[j] := n;
    InsertedIs(was, j, n, a[..k + 1]);
    InsertedSorted(was, j, n, a[..k + 1]);
    InsertedHas(was, j, n, a[..k + 1]);
  }

  lemma CollectedMore(vals: seq<int>, i: nat, was: seq<int>, sorted: seq<int>)
    requires i < |vals| && Collected(vals, i, was) && Ascending(sorted) && vals[i] > 256
    requires forall x :: x in sorted <==> x in was || x == vals[i]
    ensures Collected(vals, i + 1, sorted)
  {
    forall l | 0 <= l < |sorted| ensures sorted[l] > 256 && sorted[l] in vals {
      assert sorted[l] in sorted;
    }
  }

  lemma CollectedNone(vals: seq<int>)
    ensures Collected(vals, 0, []) && (vals != [] ==> Collected(vals, 1, []))
  {
  }

  lemma CollectedAscending(vals: seq<int>, n: nat, sorted: seq<int>)
    requires n <= |vals| && Collected(vals, n, sorted)
    ensures Ascending(sorted)
  {
  }

  lemma CollectedSkip(vals: seq<int>, i: nat, sorted: seq<int>)
    requires i < |vals| && Collected(vals, i, sorted) && vals[i] <= 256
    ensures Collected(vals, i + 1, sorted)
  {
  }

  method CollectValues(vals: seq<int>, a: array<int>) returns (k: nat)
    requires a.Length >= |vals|
    modifies a
    ensures k <= a.Length && Collected(vals, |vals|, a[..k])
  {
    k := 0;
    CollectedNone(vals);
    assert a[..0] == [];
    if |vals| == 0 { return; }
    hide Collected, Ascending;
    for i := 1 to |vals|
      invariant k < i && Collected(vals, i, a[..k])
    {
      if vals[i] > 256 {
        ghost var was := a[..k];
        CollectedAscending(vals, i, was);
        InsertValue(a, k, vals[i]);
        k := k + 1;
        CollectedMore(vals, i, was, a[..k]);
      } else {
        CollectedSkip(vals, i, a[..k]);
      }
    }
  }

  /** The next free value from n on, past the j-th of the sorted values. */
  method Skip(sorted: seq<int>, j0: nat, n0: int) returns (j: nat, n: int)
    requires Ascending(sorted) && j0 <= |sorted|
    requires (forall i :: 0 <= i < j0 ==> sorted[i] < n0) && (forall i :: j0 <= i < |sorted| ==> sorted[i] >= n0)
    ensures n0 <= n && n !in sorted && j <= |sorted| && forall x :: n0 <= x < n ==> x in sorted
    ensures (forall i :: 0 <= i < j ==> sorted[i] < n) && (forall i :: j <= i < |sorted| ==> sorted[i] > n)
  {
    j, n := j0, n0;
    while j < |sorted| && n == sorted[j]
      invariant n0 <= n && j <= |sorted| && forall x :: n0 <= x < n ==> x in sorted
      invariant (forall i :: 0 <= i < j ==> sorted[i] < n) && (forall i :: j <= i < |sorted| ==> sorted[i] >= n)
      decreases |sorted| - j
    {
      j := j + 1;
      while j < |sorted| && n == sorted[j]
        invariant j <= |sorted|
        invariant (forall i :: 0 <= i < j ==> sorted[i] <= n) && (forall i :: j <= i < |sorted| ==> sorted[i] >= n)
      {
        j := j + 1;
      }
      n := n + 1;
    }
  }

  /** The value x is declared, or given to a token before i. */
  ghost predicate InUse(vals: seq<int>, values: seq<int>, i: nat, x: int)
    requires i <= |values|
  {
    x in vals || exists l :: 0 <= l < i && values[l] == x
  }

  /** The least value from 257 on that is not in use when token i gets it. */
  ghost predicate LeastFree(vals: seq<int>, values: seq<int>, i: nat)
    requires i < |values|
  {
    values[i] > 256 && !InUse(vals, values, i, values[i]) && forall x :: 257 <= x < values[i] ==> InUse(vals, values, i, x)
  }

  /** Values as pack_symbols makes them for the tokens 0 to m - 1: declared values
      stand, every other token has the least free one. */
  ghost predicate Valued(vals: seq<int>, values: seq<int>, m: nat)
    requires m <= |vals|
  {
    && |values| == m
    && (forall i: nat :: i < m && Declared(vals, i) != UNDEFINED ==> values[i] == Declared(vals, i))
    && forall i: nat :: 2 <= i < m && vals[i] == UNDEFINED ==> LeastFree(vals, values, i)
  }

  lemma NewValue(vals: seq<int>, sorted: seq<int>, n: int)
    requires Collected(vals, |vals|, sorted) && n !in sorted && n > 256 && vals != [] && n != vals[0]
    ensures n !in vals
  {
    if n in vals {
      var i :| 0 <= i < |vals| && vals[i] == n;
    }
  }

  lemma ValuedStart(vals: seq<int>, values: seq<int>)
    requires |vals| >= 2 && vals[0] == 0 && values == [0, Declared(vals, 1)]
    ensures Valued(vals, values, 2) && GivenTo(vals, values, 257)
  {
  }

  lemma InUseLonger(vals: seq<int>, values: seq<int>, n: int, i: nat, x: int)
    requires i <= |values|
    ensures InUse(vals, values + [n], i, x) <==> InUse(vals, values, i, x)
  {
    var longer := values + [n];
    if l :| 0 <= l < i && values[l] == x { assert longer[l] == x; }
    if l :| 0 <= l < i && longer[l] == x { assert values[l] == x; }
  }

  /** One more token. */
  lemma ValuedNext(vals: seq<int>, values: seq<int>, n: int)
    requires 2 <= |values| < |vals| && Valued(vals, values, |values|)
    requires vals[|values|] != UNDEFINED ==> n == vals[|values|]
    requires vals[|values|] == UNDEFINED ==> n > 256 && !InUse(vals, values, |values|, n)
    requires vals[|values|] == UNDEFINED ==> forall x :: 257 <= x < n ==> InUse(vals, values, |values|, x)
    ensures Valued(vals, values + [n], |values| + 1)
  {
    hide InUse;
    var longer := values + [n];
    forall i: nat | 2 <= i < |longer| && vals[i] == UNDEFINED ensures LeastFree(vals, longer, i) {
      InUseLonger(vals, values, n, i, longer[i]);
      assert i < |values| ==> LeastFree(vals, values, i) && longer[i] == values[i];
      forall x | 257 <= x < longer[i] ensures InUse(vals, longer, i, x) {
        InUseLonger(vals, values, n, i, x);
      }
    }
  }

  /** All values below n are in use, all given out to undeclared tokens are below n. */
  ghost predicate GivenTo(vals: seq<int>, values: seq<int>, n: int)
    requires |values| <= |vals|
  {
    && (forall x :: 257 <= x < n ==> InUse(vals, values, |values|, x))
    && forall l :: 2 <= l < |values| && vals[l] == UNDEFINED ==> values[l] < n
  }

  lemma GivenNext(vals: seq<int>, sorted: seq<int>, values: seq<int>, n0: int, n: int)
    requires 2 <= |values| < |vals| && vals[0] == 0 && Valued(vals, values, |values|) && GivenTo(vals, values, n0)
    requires Collected(vals, |vals|, sorted) && 257 <= n0 <= n && n !in sorted && forall x :: n0 <= x < n ==> x in sorted
    requires vals[|values|] == UNDEFINED
    ensures Valued(vals, values + [n], |values| + 1) && GivenTo(vals, values + [n], n + 1)
  {
    NewValue(vals, sorted, n);
    forall x | 257 <= x < n ensures InUse(vals, values, |values|, x) {
      assert x >= n0 ==> x in sorted;
    }
    assert !InUse(vals, values, |values|, n) by {
      forall l | 0 <= l < |values| ensures values[l] != n {
        assert Declared(vals, l) != UNDEFINED ==> values[l] == Declared(vals, l);
        assert l >= 2 && vals[l] == UNDEFINED ==> values[l] < n;
      }
    }
    ValuedNext(vals, values, n);
    GivenLonger(vals, values, n0, n);
  }

  lemma GivenLonger(vals: seq<int>, values: seq<int>, n0: int, n: int)
    requires 2 <= |values| < |vals| && n0 <= n && forall x :: 257 <= x < n ==> InUse(vals, values, |values|, x)
    requires GivenTo(vals, values, n0)
    ensures GivenTo(vals, values + [n], n + 1)
  {
    var longer := values + [n];
    forall x | 257 <= x < n + 1 ensures InUse(vals, longer, |longer|, x) {
      if x < n {
        InUseLonger(vals, values, n, |values|, x);
      } else {
        assert longer[|values|] == x;
      }
    }
  }

  lemma GivenDeclared(vals: seq<int>, values: seq<int>, n: int)
    requires 2 <= |values| < |vals| && vals[|values|] != UNDEFINED && GivenTo(vals, values, n)
    ensures GivenTo(vals, values + [vals[|values|]], n)
  {
    var longer := values + [vals[|values|]];
    forall x | 257 <= x < n ensures InUse(vals, longer, |longer|, x) {
      InUseLonger(vals, values, vals[|values|], |values|, x);
    }
  }

  /** The loop over the tokens without a value: the sorted list of those above 256 is
      passed along with the next value to try. */
  method TokenValues(vals: seq<int>) returns (values: seq<int>)
    requires |vals| >= 2 && vals[0] == 0
    ensures Valued(vals, values, |vals|)
  {
    hide Valued, GivenTo;
    var a := new int[|vals|];
    var k := CollectValues(vals, a);
    var sorted := a[..k];
    values := [0, if vals[1] == UNDEFINED then 256 else vals[1]];
    ValuedStart(vals, values);
    var j: nat, n := 0, 257;
    for i := 2 to |vals|
      invariant |values| == i && Valued(vals, values, i) && GivenTo(vals, values, n) && j <= |sorted| && n >= 257
      invariant (forall l :: 0 <= l < j ==> sorted[l] < n) && (forall l :: j <= l < |sorted| ==> sorted[l] >= n)
    {
      if vals[i] == UNDEFINED {
        ghost var n0 := n;
        j, n := Skip(sorted, j, n);
        GivenNext(vals, sorted, values, n0, n);
        values := values + [n];
        n := n + 1;
      } else {
        ValuedNext(vals, values, vals[i]);
        GivenDeclared(vals, values, n);
        values := values + [vals[i]];
      }
    }
  }

  /** The values of all tokens differ exactly if the values bound to tokens do. */
  lemma ValuesDiffer(vals: seq<int>, values: seq<int>)
    requires |vals| >= 2 && vals[0] == 0 && Valued(vals, values, |vals|)
    ensures DistinctValues(values) <==>
      forall i: nat, l: nat :: i < l < |vals| && Declared(vals, i) != UNDEFINED && Declared(vals, l) != UNDEFINED ==> Declared(vals, i) != Declared(vals, l)
  {
    if forall i: nat, l: nat :: i < l < |vals| && Declared(vals, i) != UNDEFINED && Declared(vals, l) != UNDEFINED ==> Declared(vals, i) != Declared(vals, l) {
      forall i, l | 0 <= i < l < |values| ensures values[i] != values[l] {
        DifferAt(vals, values, i, l);
      }
    }
  }

  lemma DifferAt(vals: seq<int>, values: seq<int>, i: nat, l: nat)
    requires |vals| >= 2 && vals[0] == 0 && Valued(vals, values, |vals|) && i < l < |vals|
    requires Declared(vals, i) != UNDEFINED && Declared(vals, l) != UNDEFINED ==> Declared(vals, i) != Declared(vals, l)
    ensures values[i] != values[l]
  {
    if l >= 2 && vals[l] == UNDEFINED {
      assert LeastFree(vals, values, l);
    } else if i >= 2 && vals[i] == UNDEFINED {
      assert LeastFree(vals, values, i);
    }
  }

  /** A new value is at most 256 and the number of tokens: all from 257 to it are
      values of tokens. */
  lemma NewValueBound(vals: seq<int>, values: seq<int>, i: nat)
    requires |vals| >= 2 && vals[0] == 0 && Valued(vals, values, |vals|) && 2 <= i < |vals| && vals[i] == UNDEFINED
    ensures 256 < values[i] <= 256 + |vals|
  {
    assert LeastFree(vals, values, i);
    var used := Interval(257, values[i] + 1);
    forall x | x in used ensures x in values {
      if x != values[i] {
        assert InUse(vals, values, i, x);
        if x in vals {
          var l: nat :| l < |vals| && vals[l] == x;
          assert values[l] == Declared(vals, l) == x;
        }
      }
    }
    ElementsBound(values, used);
  }

  // ----- both

  /** The declared values of the tokens as they are laid out; 0 for $end. */
  ghost predicate TokenDeclarations(bs: seq<Bucket>, ntokens: int, v: seq<int>, vals: seq<int>) {
    && |vals| == ntokens >= 1 && vals[0] == 0
    && forall i :: 1 <= i < ntokens ==> i < |v| && 0 <= v[i] < |bs| && vals[i] == bs[v[i]].value
  }

  ghost predicate SymbolIs(bs: seq<Bucket>, goal: int, S: Symbols, b: nat)
    requires TableOk(bs, goal) && 1 <= b < |bs|
  {
    && |S.index| == |S.term| == |S.prec| == |S.assoc| == |bs| && S.index[b] == Number(bs, goal, b)
    && S.term[b] == bs[b].term && S.prec[b] == bs[b].prec && S.assoc[b] == bs[b].assoc
  }

  /** The values of all packed symbols: tokens as declared or new, nonterminals
      counted from the goal, and -1 for $accept. */
  ghost predicate ValuesFor(S: Symbols, vals: seq<int>, values: seq<int>) {
    && S.ntokens == |vals| >= 2 && |values| == S.nsyms > S.ntokens
    && Valued(vals, values[..S.ntokens], |vals|)
    && forall X :: S.ntokens <= X < S.nsyms ==> values[X] == X - (S.ntokens + 1)
  }

  lemma ValuesAll(S: Symbols, vals: seq<int>, tokens: seq<int>, values: seq<int>)
    requires S.ntokens == |vals| == |tokens| >= 2 && |values| == S.nsyms > S.ntokens && Valued(vals, tokens, |vals|)
    requires values[..S.ntokens] == tokens && forall X :: S.ntokens <= X < S.nsyms ==> values[X] == X - (S.ntokens + 1)
    ensures ValuesFor(S, vals, values)
  {
  }

  lemma SymbolsAreOk(bs: seq<Bucket>, goal: int, S: Symbols)
    requires TableOk(bs, goal) && S.ntokens == 1 + Terms(bs, |bs|) && S.nsyms == |bs| + 1
    requires |S.index| == |S.term| == |S.prec| == |S.assoc| == |bs| && forall b: nat :: 1 <= b < |bs| ==> SymbolIs(bs, goal, S, b)
    ensures SymbolsOk(S) && S.index[goal] == S.ntokens + 1
  {
    forall b: nat | 1 <= b < |bs| ensures 0 < S.index[b] < S.nsyms && S.index[b] != S.ntokens && (S.term[b] <==> S.index[b] < S.ntokens) {
      assert SymbolIs(bs, goal, S, b);
      NumberRange(bs, goal, b);
    }
    assert SymbolIs(bs, goal, S, goal);
    NumberRange(bs, goal, goal);
  }

  /** The values of the nonterminals, by number. */
  method VarValues(bs: seq<Bucket>, goal: nat, ntokens: nat, v: seq<int>, index: seq<int>) returns (values: seq<int>)
    requires TableOk(bs, goal) && TokensFirst(bs, ntokens, v) && |index| == |bs|
    requires forall b: nat :: 1 <= b < |bs| ==> index[b] == Number(bs, goal, b)
    ensures |values| == |bs| && VarsNumbered(bs, goal, ntokens, values, 0, |bs| + 1)
  {
    var value := new int[|bs|](_ => 0);
    NumberVars(bs, goal, ntokens, v, value, 0);
    values := value[..];
  }

  /** pack_symbols */
  method PackSymbols(bs: seq<Bucket>, goal: nat) returns (S: Symbols, values: seq<int>, ghost v: seq<int>, ghost vals: seq<int>)
    requires TableOk(bs, goal)
    ensures SymbolsOk(S) && S.nsyms == |bs| + 1 && |S.index| == |bs| && S.index[goal] == S.ntokens + 1
    ensures forall b: nat :: 1 <= b < |bs| ==> SymbolIs(bs, goal, S, b)
    ensures TokensFirst(bs, S.ntokens, v) && TokenDeclarations(bs, S.ntokens, v, vals) && ValuesFor(S, vals, values)
  {
    var ntokens := CountTokens(bs);
    var layout := LayOut(bs, ntokens);
    v := layout[..];
    var index := NumberSymbols(bs, goal, ntokens, layout[..]);
    S := Symbols(ntokens, |bs| + 1, index[..], seq(|bs|, b requires 0 <= b < |bs| => bs[b].term),
      seq(|bs|, b requires 0 <= b < |bs| => bs[b].prec), seq(|bs|, b requires 0 <= b < |bs| => bs[b].assoc));
    forall b: nat | 1 <= b < |bs| ensures SymbolIs(bs, goal, S, b) {
      assert S.index[b] == index[b];
    }
    SymbolsAreOk(bs, goal, S);
    TermsGrow(bs, 1, |bs|);
    TermsGrow(bs, 2, |bs|);
    var declared := DeclaredValues(bs, ntokens, layout[..]);
    vals := declared;
    var tokens := TokenValues(declared);
    var value := VarValues(bs, goal, ntokens, layout[..], index[..]);
    values := SpreadValues(bs, goal, ntokens, layout[..], index[..], value, tokens, S.nsyms);
    ValuesAll(S, vals, tokens, values);
  }

  method DeclaredValues(bs: seq<Bucket>, ntokens: nat, v: seq<int>) returns (vals: seq<int>)
    requires 1 <= |bs| && TokensFirst(bs, ntokens, v)
    ensures TokenDeclarations(bs, ntokens, v, vals)
  {
    vals := [0];
    for i := 1 to ntokens
      invariant |vals| == i && vals[0] == 0
      invariant forall l :: 1 <= l < i ==> l < |v| && 0 <= v[l] < |bs| && vals[l] == bs[v[l]].value
    {
      assert Taken(bs, ntokens, v, i);
      vals := vals + [bs[v[i]].value];
    }
  }

  /** symbol_value of the nonterminals. */
  method SpreadValues(bs: seq<Bucket>, goal: nat, ntokens: nat, v: seq<int>, index: seq<int>, value: seq<int>, tokens: seq<int>, nsyms: nat) returns (values: seq<int>)
    requires TableOk(bs, goal) && TokensFirst(bs, ntokens, v) && |tokens| == ntokens && nsyms == |bs| + 1
    requires |value| == |index| == |bs| && VarsNumbered(bs, goal, ntokens, value, 0, |bs| + 1)
    requires forall b: nat :: 1 <= b < |bs| ==> index[b] == Number(bs, goal, b)
    ensures ntokens < |values| == nsyms && values[..ntokens] == tokens
    ensures forall X :: ntokens <= X < nsyms ==> values[X] == X - (ntokens + 1)
  {
    VarsStart(bs, goal, ntokens, value, 0);
    PlaceFits(bs, goal, goal);
    ghost var g := Place(bs, ntokens, goal);
    var a := new int[nsyms](_ => -1);
    for i := 0 to ntokens
      invariant a[..i] == tokens[..i]
    {
      a[i] := tokens[i];
    }
    a[ntokens] := -1;
    for i := ntokens + 1 to nsyms
      invariant a[..ntokens] == tokens && a[ntokens] == -1
      invariant forall X :: ntokens + 1 < X <= (if i <= g then i else i - 1) ==> a[X] == X - (ntokens + 1)
      invariant i > g ==> a[ntokens + 1] == 0
    {
      VarAt(bs, goal, ntokens, v, i);
      assert VarNumbered(bs, goal, ntokens, value, 0, |bs| + 1, v[i]);
      var k := index[v[i]];
      a[k] := value[v[i]];
    }
    values := a[..];
  }
}
