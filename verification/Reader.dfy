/** reader.c: the rules as they are read. `pitem` holds the right-hand sides one
    after the other, each closed by a 0; the rule being read stands open at the
    end. Symbols are numbers above 0. */
module Reader {
  import opened Actions
  import opened Words
  import opened Markers

  /** Right-hand sides in a row, each closed by a 0. */
  ghost function Flat(rules: seq<seq<int>>): seq<int> {
    if rules == [] then [] else Flat(rules[..|rules| - 1]) + rules[|rules| - 1] + [0]
  }

  ghost predicate NoZero(s: seq<int>) {
    forall k :: 0 <= k < |s| ==> s[k] != 0
  }

  ghost predicate Plain(rules: seq<seq<int>>) {
    forall k :: 0 <= k < |rules| ==> NoZero(rules[k])
  }

  /** The items of the closed rules and of the open one; four zeros stand for the
      rule that is added later. */
  ghost function Items(rules: seq<seq<int>>, cur: seq<int>): seq<int> {
    [0, 0, 0, 0] + Flat(rules) + cur
  }

  lemma FlatMore(rules: seq<seq<int>>, r: seq<int>)
    ensures Flat(rules + [r]) == Flat(rules) + r + [0]
  {
    assert (rules + [r])[..|rules|] == rules;
  }

  /** The items decode in one way only. */
  lemma {:induction false} DecodeOnce(a: seq<seq<int>>, c: seq<int>, b: seq<seq<int>>, d: seq<int>)
    requires Plain(a) && NoZero(c) && Plain(b) && NoZero(d) && Flat(a) + c == Flat(b) + d
    ensures a == b && c == d
    decreases |a|
  {
    SameTail(Flat(a), c, Flat(b), d);
    if a != [] {
      var m, n := |a| - 1, |b| - 1;
      var x, y := Flat(a[..m]) + a[m], Flat(b[..n]) + b[n];
      assert Flat(a) == x + [0] && Flat(b) == y + [0];
      assert x == Flat(a)[..|x|] && y == Flat(b)[..|y|];
      DecodeOnce(a[..m], a[m], b[..n], b[n]);
      assert a == a[..m] + [a[m]] && b == b[..n] + [b[n]];
    }
  }

  /** A longer head ends within the other tail. */
  lemma EndInTail(x: seq<int>, c: seq<int>, y: seq<int>, d: seq<int>)
    requires x + c == y + d && |x| > |y|
    ensures |x| - 1 - |y| < |d| && d[|x| - 1 - |y|] == x[|x| - 1]
  {
    assert (x + c)[|x| - 1] == (y + d)[|x| - 1];
    assert |x + c| == |y + d|;
  }

  lemma SameTail(x: seq<int>, c: seq<int>, y: seq<int>, d: seq<int>)
    requires NoZero(c) && NoZero(d) && x + c == y + d
    requires (x == [] || x[|x| - 1] == 0) && (y == [] || y[|y| - 1] == 0)
    ensures x == y && c == d
  {
    var s := x + c;
    if |x| > |y| {
      EndInTail(x, c, y, d);
    } else if |x| < |y| {
      EndInTail(y, d, x, c);
    } else {
      assert x == s[..|x|] && y == s[..|y|] && c == s[|x|..] && d == s[|y|..];
    }
  }

  lemma Regroup(z: seq<int>, f: seq<int>, cur: seq<int>, bp: int)
    ensures z + f + [0] + cur + [bp] == z + (f + [] + [0]) + (cur + [bp])
  {
    assert f + [] + [0] == f + [0];
    assert z + (f + [0]) == z + f + [0];
    assert z + f + [0] + cur + [bp] == (z + f + [0]) + (cur + [bp]);
  }

  lemma ItemsInserted(rules: seq<seq<int>>, cur: seq<int>, bp: int)
    ensures ([0, 0, 0, 0] + Flat(rules)) + [0] + cur + [bp] == Items(rules + [[]], cur + [bp])
  {
    FlatMore(rules, []);
    Regroup([0, 0, 0, 0], Flat(rules), cur, bp);
  }

  lemma FlatEnds(rules: seq<seq<int>>)
    ensures Flat(rules) == [] || Flat(rules)[|Flat(rules)| - 1] == 0
  {
  }

  /** Copying backwards stops at the 0 before the current rule. */
  lemma StopsAtHead(head: seq<int>, cur: seq<int>, i: int)
    requires head != [] && NoZero(cur) && |head| <= i <= |head + cur| && (head + cur)[i - 1] == 0
    ensures i == |head|
  {
  }

  /** Shift the items after head by one, after a copy of the 0 at its end, and
      put bp behind them. */
  method ShiftItems(a: array<int>, n: nat, bp: int, ghost head: seq<int>, ghost cur: seq<int>)
    requires n + 2 <= a.Length && a[..n] == head + cur && head != [] && head[|head| - 1] == 0 && NoZero(cur)
    modifies a
    ensures a[..n + 2] == head + [0] + cur + [bp]
  {
    ghost var was := a[..n];
    a[n + 1] := bp;
    a[n] := a[n - 1];
    var i := n;
    while a[i] != 0
      invariant |head| <= i <= n && a[n + 1] == bp && a[i] == was[i - 1]
      invariant forall k :: 0 <= k < i ==> a[k] == was[k]
      invariant forall k :: i <= k <= n ==> a[k] == was[k - 1]
      decreases i
    {
      assert i > |head|;
      i := i - 1;
      a[i] := a[i - 1];
    }
    StopsAtHead(head, cur, i);
  }

  /** An empty rule before the open one, and bp at the end of that. */
  method ShiftRules(a: array<int>, n: nat, bp: int, ghost rules: seq<seq<int>>, ghost cur: seq<int>)
    requires n + 2 <= a.Length && a[..n] == Items(rules, cur) && NoZero(cur)
    modifies a
    ensures a[..n + 2] == Items(rules + [[]], cur + [bp])
  {
    FlatEnds(rules);
    ItemsInserted(rules, cur, bp);
    ShiftItems(a, n, bp, [0, 0, 0, 0] + Flat(rules), cur);
  }

  /** From rule 3 on: one more before the last. */
  lemma TailInserted<T>(a: seq<T>, b: seq<T>, n: nat, x: T)
    requires 3 <= n < |b| && n + 2 <= |a| && a[..n + 2] == b[..n] + [x, b[n]]
    ensures a[3..n + 2] == BeforeLast(b[3..n + 1], x)
  {
    assert a[3..n + 2] == a[..n + 2][3..];
  }

  lemma TailAdded<T>(a: seq<T>, b: seq<T>, n: nat, x: T)
    requires 3 <= n < |b| && n + 2 <= |a| && a[..n + 2] == b[..n + 1] + [x]
    ensures a[3..n + 2] == b[3..n + 1] + [x]
  {
    assert a[3..n + 2] == a[..n + 2][3..];
  }

  lemma MarkerPlain(done: seq<seq<int>>, cur: seq<int>, bp: int)
    requires Plain(done) && NoZero(cur) && bp != 0
    ensures Plain(done + [[]]) && NoZero(cur + [bp])
  {
  }

  class Rules {
    var pitem: array<int>
    var nitems: nat
    var plhs: array<int>
    var rprec: array<int>
    var rassoc: array<Assoc>
    var nrules: nat

    /** The right-hand sides of rules 3 to nrules - 1, and what has been read of
        rule nrules. */
    ghost var done: seq<seq<int>>
    ghost var cur: seq<int>

    ghost predicate Valid(): (v: bool)
      reads this, pitem
      ensures v ==> 3 <= nrules < plhs.Length == rprec.Length == rassoc.Length && |done| == nrules - 3 && plhs != rprec
    {
      && 4 <= nitems <= pitem.Length
      && 3 <= nrules < plhs.Length == rprec.Length == rassoc.Length
      && pitem != plhs && pitem != rprec && plhs != rprec
      && |done| == nrules - 3 && Plain(done) && NoZero(cur)
      && pitem[..nitems] == Items(done, cur)
    }

    /** Every array is the one there was, or a new one. */
    twostate predicate Renewed()
      reads this
    {
      && (pitem == old(pitem) || fresh(pitem)) && (plhs == old(plhs) || fresh(plhs))
      && (rprec == old(rprec) || fresh(rprec)) && (rassoc == old(rassoc) || fresh(rassoc))
    }

    /** Left-hand sides and precedences from rule 3 on, the open rule last. */
    ghost function Lhs(): (s: seq<int>)
      requires 3 <= nrules < plhs.Length
      reads this, plhs
      ensures |s| == nrules - 2
    {
      plhs[3..nrules + 1]
    }

    ghost function Precs(): (s: seq<int>)
      requires 3 <= nrules < rprec.Length
      reads this, rprec
      ensures |s| == nrules - 2
    {
      rprec[3..nrules + 1]
    }

    ghost function Assocs(): (s: seq<Assoc>)
      requires 3 <= nrules < rassoc.Length
      reads this, rassoc
      ensures |s| == nrules - 2
    {
      rassoc[3..nrules + 1]
    }

    /** initialize_grammar */
    constructor ()
      ensures Valid() && done == [] && cur == [] && nrules == 3
      ensures fresh(pitem) && fresh(plhs) && fresh(rprec) && fresh(rassoc)
    {
      pitem, nitems := new int[300](_ => 0), 4;
      plhs, rprec, rassoc, nrules := new int[100](_ => 0), new int[100](_ => 0), new Assoc[100](_ => Token), 3;
      done, cur := [], [];
      new;
      assert pitem[..4] == [0, 0, 0, 0];
    }

    /** expand_items */
    method ExpandItems()
      requires pitem.Length >= nitems
      modifies this`pitem
      ensures fresh(pitem) && pitem.Length == old(pitem.Length) + 300 && pitem[..nitems] == old(pitem[..nitems])
    {
      var a := new int[pitem.Length + 300];
      for i := 0 to nitems
        invariant pitem == old(pitem) && forall k :: 0 <= k < i ==> a[k] == pitem[k]
      {
        a[i] := pitem[i];
      }
      pitem := a;
    }

    /** expand_rules */
    method ExpandRules()
      requires nrules <= plhs.Length == rprec.Length == rassoc.Length
      modifies this`plhs, this`rprec, this`rassoc
      ensures fresh(plhs) && fresh(rprec) && fresh(rassoc) && plhs != rprec
      ensures plhs.Length == rprec.Length == rassoc.Length == old(plhs.Length) + 100
      ensures plhs[..nrules] == old(plhs[..nrules]) && rprec[..nrules] == old(rprec[..nrules]) && rassoc[..nrules] == old(rassoc[..nrules])
    {
      var a, b, c := new int[plhs.Length + 100], new int[plhs.Length + 100], new Assoc[plhs.Length + 100](_ => Token);
      for i := 0 to nrules
        invariant plhs == old(plhs) && rprec == old(rprec) && rassoc == old(rassoc)
        invariant forall k :: 0 <= k < i ==> a[k] == plhs[k] && b[k] == rprec[k] && c[k] == rassoc[k]
      {
        a[i], b[i], c[i] := plhs[i], rprec[i], rassoc[i];
      }
      plhs, rprec, rassoc := a, b, c;
    }

    /** start_rule */
    method StartRule(lhs: int)
      requires Valid() && cur == []
      modifies plhs, rprec, rassoc
      ensures Valid()
      ensures plhs[..nrules + 1] == old(plhs[..nrules]) + [lhs]
      ensures rprec[..nrules + 1] == old(rprec[..nrules]) + [UNDEFINED]
      ensures rassoc[..nrules + 1] == old(rassoc[..nrules]) + [Token]
    {
      plhs[nrules] := lhs;
      rprec[nrules] := UNDEFINED;
      rassoc[nrules] := Token;
    }

    /** One more item of the current rule. */
    method AddItem(symbol: int)
      requires Valid() && symbol != 0
      modifies this`pitem, this`nitems, this`cur, pitem
      ensures pitem == old(pitem) || fresh(pitem)
      ensures Valid() && cur == old(cur) + [symbol]
    {
      if nitems >= pitem.Length {
        ExpandItems();
      }
      pitem[nitems] := symbol;
      nitems, cur := nitems + 1, cur + [symbol];
    }

    /** The end of the items of a rule. */
    method CloseItems()
      requires Valid()
      modifies this`pitem, this`nitems, this`done, this`cur, pitem
      ensures pitem == old(pitem) || fresh(pitem)
      ensures 4 <= nitems <= pitem.Length && pitem[..nitems] == Items(done, cur)
      ensures done == old(done) + [old(cur)] && cur == []
    {
      if nitems >= pitem.Length {
        ExpandItems();
      }
      pitem[nitems] := 0;
      FlatMore(done, cur);
      nitems := nitems + 1;
      done, cur := done + [cur], [];
    }

    /** end_rule; room for the next rule, which start_rule makes, is made here. */
    method EndRule()
      requires Valid()
      modifies this`pitem, this`nitems, this`nrules, this`done, this`cur, this`plhs, this`rprec, this`rassoc, pitem
      ensures pitem == old(pitem) || fresh(pitem)
      ensures (fresh(plhs) && fresh(rprec) && fresh(rassoc)) || (plhs == old(plhs) && rprec == old(rprec) && rassoc == old(rassoc))
      ensures Valid() && done == old(done) + [old(cur)] && cur == [] && nrules == old(nrules) + 1
      ensures plhs[..nrules] == old(plhs[..nrules + 1]) && rprec[..nrules] == old(rprec[..nrules + 1]) && rassoc[..nrules] == old(rassoc[..nrules + 1])
    {
      CloseItems();
      nrules := nrules + 1;
      if nrules >= plhs.Length {
        ExpandRules();
      }
    }

    /** insert_empty_rule, the items: an empty rule before the current one, the
        marker bp at the end of that. */
    method InsertItems(bp: int)
      requires Valid() && bp != 0
      modifies this`pitem, this`nitems, this`done, this`cur, pitem
      ensures pitem == old(pitem) || fresh(pitem)
      ensures 4 <= nitems <= pitem.Length && pitem[..nitems] == Items(done, cur)
      ensures done == old(done) + [[]] && cur == old(cur) + [bp]
    {
      if nitems + 2 > pitem.Length {
        ExpandItems();
      }
      ShiftRules(pitem, nitems, bp, done, cur);
      nitems := nitems + 2;
      done, cur := done + [[]], cur + [bp];
    }

    /** insert_empty_rule: the items decode to the old rules, an empty rule for the
        marker, and the current rule with the marker at its end; left-hand sides
        and precedences follow. */
    method InsertEmptyRule(bp: int)
      requires Valid() && bp != 0
      modifies this, pitem, plhs, rprec, rassoc
      ensures Valid() && nrules == old(nrules) + 1
      ensures done == old(done) + [[]] && cur == old(cur) + [bp]
      ensures Renewed()
      ensures plhs[..nrules + 1] == old(plhs[..nrules]) + [bp, old(plhs[nrules])]
      ensures rprec[..nrules + 1] == old(rprec[..nrules]) + [0, old(rprec[nrules])]
      ensures rassoc[..nrules + 1] == old(rassoc[..nrules]) + [Token, old(rassoc[nrules])]
    {
      MarkerPlain(done, cur, bp);
      hide Items, Plain, NoZero, Flat;
      InsertItems(bp);
      nrules := nrules + 1;
      if nrules >= plhs.Length {
        ExpandRules();
      }
      InsertHead(bp);
    }

    /** The same from rule 3 on. */
    method InsertRule(bp: int)
      requires Valid() && bp != 0
      modifies this, pitem, plhs, rprec, rassoc
      ensures Valid() && Renewed() && nrules == old(nrules) + 1
      ensures done == old(done) + [[]] && cur == old(cur) + [bp]
      ensures Lhs() == BeforeLast(old(Lhs()), bp) && Precs() == BeforeLast(old(Precs()), 0) && Assocs() == BeforeLast(old(Assocs()), Token)
    {
      hide Valid, BeforeLast;
      ghost var n, lhs, prec, assoc := nrules, plhs[..], rprec[..], rassoc[..];
      InsertEmptyRule(bp);
      TailInserted(plhs[..], lhs, n, bp);
      TailInserted(rprec[..], prec, n, 0);
      TailInserted(rassoc[..], assoc, n, Token);
    }

    /** insert_empty_rule, the left-hand side and precedence. */
    method InsertHead(bp: int)
      requires 1 <= nrules < plhs.Length == rprec.Length == rassoc.Length && plhs != rprec
      modifies plhs, rprec, rassoc
      ensures plhs[..nrules + 1] == old(plhs[..nrules - 1]) + [bp, old(plhs[nrules - 1])]
      ensures rprec[..nrules + 1] == old(rprec[..nrules - 1]) + [0, old(rprec[nrules - 1])]
      ensures rassoc[..nrules + 1] == old(rassoc[..nrules - 1]) + [Token, old(rassoc[nrules - 1])]
    {
      plhs[nrules] := plhs[nrules - 1];
      plhs[nrules - 1] := bp;
      rprec[nrules] := rprec[nrules - 1];
      rprec[nrules - 1] := 0;
      rassoc[nrules] := rassoc[nrules - 1];
      rassoc[nrules - 1] := Token;
    }

    /** end_rule and start_rule. */
    method NextRule(lhs: int)
      requires Valid()
      modifies this, pitem, plhs, rprec, rassoc
      ensures Valid() && Renewed() && nrules == old(nrules) + 1
      ensures done == old(done) + [old(cur)] && cur == []
      ensures Lhs() == old(Lhs()) + [lhs] && Precs() == old(Precs()) + [UNDEFINED] && Assocs() == old(Assocs()) + [Token]
    {
      hide Items, Plain, NoZero, Flat;
      ghost var n, was, prec, assoc := nrules, plhs[..], rprec[..], rassoc[..];
      EndRule();
      StartRule(lhs);
      TailAdded(plhs[..], was, n, lhs);
      TailAdded(rprec[..], prec, n, UNDEFINED);
      TailAdded(rassoc[..], assoc, n, Token);
    }

    /** The precedence of the open rule. */
    method SetPrec(prec: int, assoc: Assoc)
      requires Valid()
      modifies rprec, rassoc
      ensures Valid() && Lhs() == old(Lhs())
      ensures Precs() == old(Precs())[nrules - 3 := prec] && Assocs() == old(Assocs())[nrules - 3 := assoc]
    {
      rprec[nrules] := prec;
      rassoc[nrules] := assoc;
    }
  }
}
