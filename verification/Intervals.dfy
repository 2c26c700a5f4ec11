/**
  Page maps and their compressed form.

  The tree's nodes, read in key order, are a list of intervals with protection flags.  The list stands
  for a map from pages to flags.  A page fault changes the map at one page; `Fault` is the change to
  the list.
*/
module Intervals {
  import opened Basics
  import opened Protection

  datatype Interval = Interval(start: int, end: int, flags: Flags)
  {
    predicate Contains(a: int) { start <= a < end }
  }

  ghost predicate Ordered(s: seq<Interval>)
  {
    && (forall i :: 0 <= i < |s| ==> s[i].start < s[i].end)
    && (forall i, j :: 0 <= i < j < |s| ==> s[i].end <= s[j].start)
  }

  /** All boundaries are among the addresses that `p` accepts. */
  ghost predicate On(s: seq<Interval>, p: int -> bool)
  {
    forall x :: x in s ==> p(x.start) && p(x.end)
  }

  ghost function PageAddress(page: int): int -> bool
    requires page > 0
  {
    (a: int) => a % page == 0
  }

  ghost predicate Paged(s: seq<Interval>, page: int)
    requires page > 0
  {
    On(s, PageAddress(page))
  }

  ghost predicate ReadWrite(s: seq<Interval>)
  {
    forall x :: x in s ==> x.flags == READ || x.flags == WRITE
  }

  /** The intervals are nonempty, ordered and disjoint, and lie on page boundaries. */
  ghost predicate WellFormed(s: seq<Interval>, page: int)
    requires page > 0
  {
    Ordered(s) && Paged(s, page) && ReadWrite(s)
  }

  /** No two intervals that touch have the same flags, so the list is as short as possible. */
  ghost predicate Minimal(s: seq<Interval>)
  {
    forall i :: 0 < i < |s| ==> s[i - 1].end == s[i].start ==> s[i - 1].flags != s[i].flags
  }

  ghost predicate Canonical(s: seq<Interval>, page: int)
    requires page > 0
  {
    WellFormed(s, page) && Minimal(s)
  }

  /** The flags at address `a`, if some interval contains it: the map that the list stands for. */
  ghost function Lookup(s: seq<Interval>, a: int): Option<Flags>
  {
    if s == [] then None
    else if s[0].Contains(a) then Some(s[0].flags)
    else Lookup(s[1..], a)
  }

  // ----- the effect of a fault -----

  /** How many intervals end at or before `a`. */
  ghost function Before(s: seq<Interval>, a: int): (i: nat)
    ensures i <= |s|
    ensures forall j :: 0 <= j < i ==> s[j].end <= a
    ensures i < |s| ==> a < s[i].end
  {
    if s == [] || a < s[0].end then 0 else 1 + Before(s[1..], a)
  }

  ghost predicate Present(s: seq<Interval>, a: int)
  {
    var i := Before(s, a);
    i < |s| && s[i].start <= a
  }

  ghost function NewFlags(s: seq<Interval>, a: int): Flags
  {
    if Present(s, a) then Promote(s[Before(s, a)].flags) else READ
  }

  /** What remains of the list below the page at `a`. */
  ghost function LeftOf(s: seq<Interval>, a: int): seq<Interval>
  {
    var i := Before(s, a);
    if Present(s, a) && s[i].start < a then s[..i] + [s[i].(end := a)] else s[..i]
  }

  /** What remains of the list from `b` on, when the page that ends at `b` is taken out. */
  ghost function RightOf(s: seq<Interval>, a: int, b: int): seq<Interval>
  {
    var i := Before(s, a);
    if !Present(s, a) then s[i..]
    else if b < s[i].end then [s[i].(start := b)] + s[i + 1..]
    else s[i + 1..]
  }

  ghost predicate JoinsLeft(l: seq<Interval>, m: Interval)
  {
    l != [] && l[|l| - 1].end == m.start && l[|l| - 1].flags == m.flags
  }

  ghost predicate JoinsRight(m: Interval, r: seq<Interval>)
  {
    r != [] && r[0].start == m.end && r[0].flags == m.flags
  }

  /** Put `m` between two lists, merging it with neighbours that touch it and have its flags. */
  ghost function Merge(l: seq<Interval>, m: Interval, r: seq<Interval>): seq<Interval>
  {
    var p, q := JoinsLeft(l, m), JoinsRight(m, r);
    (if p then l[..|l| - 1] else l)
    + [Interval(if p then l[|l| - 1].start else m.start, if q then r[0].end else m.end, m.flags)]
    + (if q then r[1..] else r)
  }

  /** A fault on the page at `a`: cut the page out, give it its new flags, and put it back. */
  ghost function Fault(s: seq<Interval>, page: int, a: int): seq<Interval>
  {
    Merge(LeftOf(s, a), Interval(a, a + page, NewFlags(s, a)), RightOf(s, a, a + page))
  }

  // ----- lookups -----

  lemma {:induction false} LookupConcat(x: seq<Interval>, y: seq<Interval>, a: int)
    ensures Lookup(x + y, a) == if Lookup(x, a).Some? then Lookup(x, a) else Lookup(y, a)
  {
    if x == [] {
      assert x + y == y;
    } else {
      assert (x + y)[1..] == x[1..] + y;
      LookupConcat(x[1..], y, a);
    }
  }

  lemma {:induction false} LookupMiss(s: seq<Interval>, a: int)
    requires forall i :: 0 <= i < |s| ==> !s[i].Contains(a)
    ensures Lookup(s, a) == None
  {
    if s != [] { LookupMiss(s[1..], a); }
  }

  lemma {:induction false} LookupHit(s: seq<Interval>, i: nat, a: int)
    requires Ordered(s) && i < |s| && s[i].Contains(a)
    ensures Lookup(s, a) == Some(s[i].flags)
  {
    if i > 0 {
      assert s[0].end <= s[i].start;
      LookupHit(s[1..], i - 1, a);
    }
  }

  lemma {:induction false} LookupIndex(s: seq<Interval>, a: int) returns (i: nat)
    requires Lookup(s, a).Some?
    ensures i < |s| && s[i].Contains(a) && Lookup(s, a) == Some(s[i].flags)
  {
    if s[0].Contains(a) {
      i := 0;
    } else {
      i := LookupIndex(s[1..], a);
      i := i + 1;
    }
  }

  lemma LookupParts(l: seq<Interval>, m: Interval, r: seq<Interval>, a: int)
    ensures Lookup(l + [m] + r, a) ==
      if Lookup(l, a).Some? then Lookup(l, a) else if m.Contains(a) then Some(m.flags) else Lookup(r, a)
  {
    LookupConcat(l + [m], r, a);
    LookupConcat(l, [m], a);
  }

  /** The flags found are those that the next fault promotes. */
  lemma LookupPresent(s: seq<Interval>, a: int)
    requires Ordered(s)
    ensures Present(s, a) <==> Lookup(s, a).Some?
    ensures Present(s, a) ==> Lookup(s, a) == Some(s[Before(s, a)].flags)
    ensures NewFlags(s, a) == if Lookup(s, a).Some? then Promote(Lookup(s, a).value) else READ
  {
    var i := Before(s, a);
    if Present(s, a) {
      LookupHit(s, i, a);
    } else {
      forall j | 0 <= j < |s| ensures !s[j].Contains(a) {
        if j > i { assert s[i].end <= s[j].start; }
      }
      LookupMiss(s, a);
    }
  }

  // ----- merging -----

  lemma OrderedConcat(x: seq<Interval>, y: seq<Interval>)
    requires Ordered(x) && Ordered(y)
    requires forall i, j :: 0 <= i < |x| && 0 <= j < |y| ==> x[i].end <= y[j].start
    ensures Ordered(x + y)
  {
  }

  lemma OrderedSplit(l: seq<Interval>, m: Interval, r: seq<Interval>)
    requires Ordered(l + [m] + r)
    ensures Ordered(l) && Ordered(r) && m.start < m.end
    ensures forall i :: 0 <= i < |l| ==> l[i].end <= m.start
    ensures forall i :: 0 <= i < |r| ==> m.end <= r[i].start
  {
    var s := l + [m] + r;
    assert s[|l|] == m;
    assert forall i :: 0 <= i < |l| ==> l[i] == s[i];
    assert forall i :: 0 <= i < |r| ==> r[i] == s[|l| + 1 + i];
    forall i, j | 0 <= i < j < |r| ensures r[i].end <= r[j].start {
      assert s[|l| + 1 + i].end <= s[|l| + 1 + j].start;
    }
  }

  lemma OrderedJoin(l: seq<Interval>, m: Interval, r: seq<Interval>)
    requires Ordered(l) && Ordered(r) && m.start < m.end
    requires forall i :: 0 <= i < |l| ==> l[i].end <= m.start
    requires forall i :: 0 <= i < |r| ==> m.end <= r[i].start
    ensures Ordered(l + [m] + r)
  {
    OrderedConcat(l, [m]);
    forall i, j | 0 <= i < |l + [m]| && 0 <= j < |r| ensures (l + [m])[i].end <= r[j].start {
      assert i < |l| ==> (l + [m])[i] == l[i];
    }
    OrderedConcat(l + [m], r);
  }

  lemma OrderedParts(l: seq<Interval>, m: Interval, r: seq<Interval>)
    ensures Ordered(l + [m] + r) <==>
      && Ordered(l) && Ordered(r) && m.start < m.end
      && (forall i :: 0 <= i < |l| ==> l[i].end <= m.start)
      && (forall i :: 0 <= i < |r| ==> m.end <= r[i].start)
  {
    hide Ordered;
    if Ordered(l + [m] + r) {
      OrderedSplit(l, m, r);
    }
    if Ordered(l) && Ordered(r) && m.start < m.end
      && (forall i :: 0 <= i < |l| ==> l[i].end <= m.start) && (forall i :: 0 <= i < |r| ==> m.end <= r[i].start) {
      OrderedJoin(l, m, r);
    }
  }

  /** Two intervals that touch and have the same flags stand for the same map as one. */
  lemma JoinLookup(l: seq<Interval>, x: Interval, y: Interval, r: seq<Interval>, a: int)
    requires x.start <= x.end == y.start <= y.end && x.flags == y.flags
    ensures Lookup(l + [x, y] + r, a) == Lookup(l + [Interval(x.start, y.end, x.flags)] + r, a)
  {
    assert l + [x, y] + r == l + [x] + ([y] + r);
    LookupParts(l, x, [y] + r, a);
    LookupConcat([y], r, a);
    LookupParts(l, Interval(x.start, y.end, x.flags), r, a);
  }

  lemma MergeLookup(l: seq<Interval>, m: Interval, r: seq<Interval>, a: int)
    requires Ordered(l + [m] + r)
    ensures Lookup(Merge(l, m, r), a) == Lookup(l + [m] + r, a)
  {
    OrderedSplit(l, m, r);
    var l1, m1 := l, m;
    if JoinsLeft(l, m) {
      var x := l[|l| - 1];
      l1, m1 := l[..|l| - 1], Interval(x.start, m.end, m.flags);
      assert l + [m] + r == l1 + [x, m] + r;
      JoinLookup(l1, x, m, r, a);
    }
    if JoinsRight(m, r) {
      assert l1 + [m1] + r == l1 + [m1, r[0]] + r[1..];
      JoinLookup(l1, m1, r[0], r[1..], a);
    }
  }

  lemma MergeOrdered(l: seq<Interval>, m: Interval, r: seq<Interval>)
    requires Ordered(l + [m] + r)
    ensures Ordered(Merge(l, m, r))
  {
    var p, q := JoinsLeft(l, m), JoinsRight(m, r);
    OrderedSplit(l, m, r);
    var l', r' := if p then l[..|l| - 1] else l, if q then r[1..] else r;
    var m' := Interval(if p then l[|l| - 1].start else m.start, if q then r[0].end else m.end, m.flags);
    OrderedJoin(l', m', r');
  }

  lemma MergeOn(l: seq<Interval>, m: Interval, r: seq<Interval>, p: int -> bool)
    requires On(l + [m] + r, p)
    ensures On(Merge(l, m, r), p)
  {
    var s := l + [m] + r;
    assert m in s;
    assert l != [] ==> l[|l| - 1] in s;
    assert r != [] ==> r[0] in s;
  }

  lemma MergeReadWrite(l: seq<Interval>, m: Interval, r: seq<Interval>)
    requires ReadWrite(l) && ReadWrite(r)
    ensures ReadWrite(Merge(l, m, r)) <==> m.flags == READ || m.flags == WRITE
  {
    var t, k := Merge(l, m, r), if JoinsLeft(l, m) then |l| - 1 else |l|;
    assert t[k] in t && t[k].flags == m.flags;
  }

  /** Only the two seams of a merge can be a place where touching intervals agree, and they are not. */
  lemma MergeMinimal(l: seq<Interval>, m: Interval, r: seq<Interval>)
    requires Minimal(l) && Minimal(r)
    ensures Minimal(Merge(l, m, r))
  {
    var t := Merge(l, m, r);
    var k := if JoinsLeft(l, m) then |l| - 1 else |l|;
    var e := if JoinsRight(m, r) then k else k + 1;
    forall i | 0 < i < |t| && t[i - 1].end == t[i].start
      ensures t[i - 1].flags != t[i].flags
    {
      if i <= k {
        assert t[i - 1] == l[i - 1];
        if i < |l| { assert l[i].start == t[i].start && l[i].flags == t[i].flags; }
      } else {
        assert t[i] == r[i - e];
        if i - e > 0 { assert r[i - e - 1].end == t[i - 1].end && r[i - e - 1].flags == t[i - 1].flags; }
      }
    }
  }

  // ----- cutting out a page -----

  lemma MultipleOf(page: int, k: int)
    requires page > 0
    ensures (page * k) % page == 0
  {
    var q, r := page * k / page, page * k % page;
    assert r == page * (k - q);
    Bracket(page, k - q);
  }

  lemma Bracket(page: int, d: int)
    requires 0 <= page * d < page
    ensures d == 0
  {
    if d >= 1 { MulMono(1, d, page); assert false; }
    if d <= -1 { MulMono(d, -1, page); assert false; }
  }

  lemma AddPage(a: int, page: int)
    requires page > 0 && a % page == 0
    ensures (a + page) % page == 0
  {
    assert a + page == page * (a / page + 1);
    MultipleOf(page, a / page + 1);
  }

  lemma NextPage(a: int, b: int, page: int)
    requires page > 0 && a % page == 0 && b % page == 0
    ensures b <= a || a + page <= b
  {
    var d := b / page - a / page;
    assert b - a == page * d;
    if d >= 1 { MulMono(1, d, page); } else { MulMono(d, 0, page); }
  }

  /** No boundary of the list lies strictly inside the page at `a`. */
  ghost predicate Clear(s: seq<Interval>, a: int, b: int)
  {
    forall i :: 0 <= i < |s| ==> (s[i].start <= a || b <= s[i].start) && (s[i].end <= a || b <= s[i].end)
  }

  lemma PageClear(s: seq<Interval>, page: int, a: int)
    requires page > 0 && Paged(s, page) && a % page == 0
    ensures Clear(s, a, a + page)
  {
    forall i | 0 <= i < |s|
      ensures (s[i].start <= a || a + page <= s[i].start) && (s[i].end <= a || a + page <= s[i].end)
    {
      NextPage(a, s[i].start, page);
      NextPage(a, s[i].end, page);
    }
  }

  /** The list with the page at `a` cut out and standing alone. */
  ghost function Cut(s: seq<Interval>, page: int, a: int): seq<Interval>
  {
    LeftOf(s, a) + [Interval(a, a + page, NewFlags(s, a))] + RightOf(s, a, a + page)
  }

  lemma LeftSide(s: seq<Interval>, a: int)
    requires Ordered(s)
    ensures Ordered(LeftOf(s, a)) && (forall j :: 0 <= j < |LeftOf(s, a)| ==> LeftOf(s, a)[j].end <= a)
  {
    var i := Before(s, a);
    if Present(s, a) && s[i].start < a {
      OrderedConcat(s[..i], [s[i].(end := a)]);
    }
  }

  lemma LeftLookup(s: seq<Interval>, a: int, x: int)
    requires Ordered(s) && x < a
    ensures Lookup(LeftOf(s, a), x) == Lookup(s, x)
  {
    var i := Before(s, a);
    if i == |s| {
      assert s == s[..i];
    } else {
      assert s == s[..i] + [s[i]] + s[i + 1..];
      LookupParts(s[..i], s[i], s[i + 1..], x);
      LookupConcat(s[..i], [s[i].(end := a)], x);
      NothingBelow(s, i, x);
    }
  }

  lemma NothingBelow(s: seq<Interval>, i: nat, x: int)
    requires Ordered(s) && i < |s| && x < s[i].end
    ensures Lookup(s[i + 1..], x) == None
  {
    Tail(s, i);
    LookupMiss(s[i + 1..], x);
  }

  lemma Tail(s: seq<Interval>, i: nat)
    requires Ordered(s) && i < |s|
    ensures Ordered(s[i + 1..])
    ensures var t := s[i + 1..]; forall j :: 0 <= j < |t| ==> s[i].end <= t[j].start
    ensures s[i..] == [s[i]] + s[i + 1..]
  {
    assert s == s[..i] + [s[i]] + s[i + 1..];
    OrderedParts(s[..i], s[i], s[i + 1..]);
  }

  lemma RightSide(s: seq<Interval>, a: int, b: int)
    requires Ordered(s) && a < b && Clear(s, a, b)
    ensures Ordered(RightOf(s, a, b)) && (forall j :: 0 <= j < |RightOf(s, a, b)| ==> b <= RightOf(s, a, b)[j].start)
  {
    var i := Before(s, a);
    if i < |s| {
      Tail(s, i);
      var head := if Present(s, a) then s[i].(start := b) else s[i];
      if head.start < head.end {
        OrderedConcat([head], s[i + 1..]);
      }
    }
  }

  lemma LookupCons(m: Interval, r: seq<Interval>, x: int)
    ensures Lookup([m] + r, x) == if m.Contains(x) then Some(m.flags) else Lookup(r, x)
  {
    assert ([m] + r)[1..] == r;
  }

  lemma RightLookup(s: seq<Interval>, a: int, b: int, x: int)
    requires Ordered(s) && a < b <= x && Clear(s, a, b)
    ensures Lookup(RightOf(s, a, b), x) == Lookup(s, x)
  {
    hide Lookup;
    hide Ordered;
    hide Clear;
    var i := Before(s, a);
    assert s == s[..i] + s[i..];
    LookupMiss(s[..i], x);
    LookupConcat(s[..i], s[i..], x);
    if Present(s, a) {
      assert s[i..] == [s[i]] + s[i + 1..];
      LookupCons(s[i], s[i + 1..], x);
      LookupCons(s[i].(start := b), s[i + 1..], x);
    }
  }

  lemma CutOrdered(s: seq<Interval>, page: int, a: int)
    requires page > 0 && Ordered(s) && Clear(s, a, a + page)
    ensures Ordered(Cut(s, page, a))
  {
    hide LeftOf;
    hide RightOf;
    hide NewFlags;
    hide Ordered;
    hide Clear;
    LeftSide(s, a);
    RightSide(s, a, a + page);
    OrderedJoin(LeftOf(s, a), Interval(a, a + page, NewFlags(s, a)), RightOf(s, a, a + page));
  }

  lemma CutLookup(s: seq<Interval>, page: int, a: int, b: int)
    requires page > 0 && Ordered(s) && Clear(s, a, a + page)
    ensures Lookup(Cut(s, page, a), b) == if a <= b < a + page then Some(NewFlags(s, a)) else Lookup(s, b)
  {
    hide LeftOf;
    hide RightOf;
    hide NewFlags;
    hide Lookup;
    hide Ordered;
    hide Clear;
    var l, r := LeftOf(s, a), RightOf(s, a, a + page);
    LeftSide(s, a);
    RightSide(s, a, a + page);
    LookupParts(l, Interval(a, a + page, NewFlags(s, a)), r, b);
    if b < a { LookupMiss(r, b); LeftLookup(s, a, b); } else { LookupMiss(l, b); }
    if a + page <= b { RightLookup(s, a, a + page, b); }
  }

  // ----- one fault -----

  lemma FaultLookupClear(s: seq<Interval>, page: int, a: int, b: int)
    requires page > 0 && Ordered(s) && Clear(s, a, a + page)
    ensures Ordered(Fault(s, page, a))
    ensures Lookup(Fault(s, page, a), b) == if a <= b < a + page then Some(NewFlags(s, a)) else Lookup(s, b)
  {
    var l, m, r := LeftOf(s, a), Interval(a, a + page, NewFlags(s, a)), RightOf(s, a, a + page);
    CutOrdered(s, page, a);
    CutLookup(s, page, a, b);
    MergeOrdered(l, m, r);
    MergeLookup(l, m, r, b);
  }

  /** What a fault means: the page gets its new flags, and no other address is affected. */
  lemma FaultLookup(s: seq<Interval>, page: int, a: int, b: int)
    requires page > 0 && WellFormed(s, page) && a % page == 0
    ensures Lookup(Fault(s, page, a), b) ==
      if a <= b < a + page then
        match Lookup(s, a) { case None => Some(READ) case Some(f) => Some(Promote(f)) }
      else Lookup(s, b)
  {
    PageClear(s, page, a);
    FaultLookupClear(s, page, a, b);
    LookupPresent(s, a);
  }

  lemma SidesOn(s: seq<Interval>, page: int, a: int, p: int -> bool)
    requires On(s, p) && p(a) && p(a + page)
    ensures On(LeftOf(s, a), p) && On(RightOf(s, a, a + page), p)
  {
    var i := Before(s, a);
    var l, r := LeftOf(s, a), RightOf(s, a, a + page);
    forall x | x in l ensures p(x.start) && p(x.end) {
      if x !in s { assert x.end == a && s[i] in s; }
    }
    forall x | x in r ensures p(x.start) && p(x.end) {
      if x !in s { assert x.start == a + page && s[i] in s; }
    }
  }

  lemma FaultOn(s: seq<Interval>, page: int, a: int, p: int -> bool)
    requires On(s, p) && p(a) && p(a + page)
    ensures On(Fault(s, page, a), p)
  {
    SidesOn(s, page, a, p);
    hide LeftOf;
    hide RightOf;
    hide NewFlags;
    hide Merge;
    var l, m, r := LeftOf(s, a), Interval(a, a + page, NewFlags(s, a)), RightOf(s, a, a + page);
    forall x | x in l + [m] + r ensures p(x.start) && p(x.end) {
      assert x in l || x == m || x in r;
    }
    MergeOn(LeftOf(s, a), Interval(a, a + page, NewFlags(s, a)), RightOf(s, a, a + page), p);
  }

  lemma FaultReadWrite(s: seq<Interval>, page: int, a: int)
    requires ReadWrite(s) && Ordered(s)
    ensures ReadWrite(Fault(s, page, a)) <==> Lookup(s, a) != Some(WRITE)
  {
    var i := Before(s, a);
    assert Present(s, a) ==> s[i] in s;
    assert ReadWrite(LeftOf(s, a)) && ReadWrite(RightOf(s, a, a + page));
    MergeReadWrite(LeftOf(s, a), Interval(a, a + page, NewFlags(s, a)), RightOf(s, a, a + page));
    LookupPresent(s, a);
    PromoteValues();
  }

  /** The list stays well formed exactly if the page was not writable already. */
  lemma FaultWellFormed(s: seq<Interval>, page: int, a: int)
    requires page > 0 && WellFormed(s, page) && a % page == 0
    ensures WellFormed(Fault(s, page, a), page) <==> Lookup(s, a) != Some(WRITE)
  {
    PageClear(s, page, a);
    FaultLookupClear(s, page, a, a);
    AddPage(a, page);
    FaultOn(s, page, a, PageAddress(page));
    FaultReadWrite(s, page, a);
  }

  /** The rest of a minimal list, whatever the start of its first interval. */
  lemma RestMinimal(s: seq<Interval>, k: nat, head: Interval)
    requires Minimal(s) && k < |s| && head.end == s[k].end && head.flags == s[k].flags
    ensures Minimal([head] + s[k + 1..])
  {
    var r := [head] + s[k + 1..];
    forall j | 0 < j < |r| ensures r[j - 1].end == r[j].start ==> r[j - 1].flags != r[j].flags {
      assert r[j] == s[k + j] && r[j - 1].end == s[k + j - 1].end && r[j - 1].flags == s[k + j - 1].flags;
    }
  }

  lemma RightMinimal(s: seq<Interval>, a: int, b: int)
    requires Minimal(s)
    ensures Minimal(RightOf(s, a, b))
  {
    hide Minimal;
    NothingMinimal();
    var i := Before(s, a);
    var k := if Present(s, a) && s[i].end <= b then i + 1 else i;
    if k < |s| {
      var head := if k == i && Present(s, a) then s[k].(start := b) else s[k];
      RestMinimal(s, k, head);
      assert RightOf(s, a, b) == [head] + s[k + 1..];
    } else {
      assert RightOf(s, a, b) == [];
    }
  }

  lemma NothingMinimal()
    ensures Minimal([])
  {
  }

  lemma LeftMinimal(s: seq<Interval>, a: int)
    requires Minimal(s)
    ensures Minimal(LeftOf(s, a))
  {
    var l := LeftOf(s, a);
    forall j | 0 < j < |l| ensures l[j - 1].end == l[j].start ==> l[j - 1].flags != l[j].flags {
      assert l[j - 1] == s[j - 1] && l[j].start == s[j].start && l[j].flags == s[j].flags;
    }
  }

  /** Faults keep the list as short as its map allows. */
  lemma FaultCanonical(s: seq<Interval>, page: int, a: int)
    requires page > 0 && Canonical(s, page) && a % page == 0 && Lookup(s, a) != Some(WRITE)
    ensures Canonical(Fault(s, page, a), page)
  {
    FaultWellFormed(s, page, a);
    LeftMinimal(s, a);
    RightMinimal(s, a, a + page);
    MergeMinimal(LeftOf(s, a), Interval(a, a + page, NewFlags(s, a)), RightOf(s, a, a + page));
  }

  // ----- the shortest list is unique -----

  ghost predicate SameMap(s: seq<Interval>, t: seq<Interval>, page: int)
    requires page > 0
  {
    forall b :: b % page == 0 ==> Lookup(s, b) == Lookup(t, b)
  }

  /** In a minimal list, an interval that contains the end of another has other flags. */
  lemma EndDiffers(s: seq<Interval>, i: nat, j: nat)
    requires Ordered(s) && Minimal(s) && i < |s| && j < |s| && s[j].Contains(s[i].end)
    ensures s[j].flags != s[i].flags
  {
    assert forall m :: 0 <= m <= i ==> s[m].end <= s[i].end;
    assert i + 1 < |s| ==> s[i].end <= s[i + 1].start < s[i + 1].end;
    assert forall m :: i + 1 < m < |s| ==> s[i + 1].end <= s[m].start;
    assert j == i + 1;
    assert s[j - 1].end == s[j].start;
  }

  /** If both lists are canonical and equal as page maps, the first interval of `s` is not longer. */
  lemma FirstNotLonger(s: seq<Interval>, t: seq<Interval>, page: int)
    requires page > 0 && Canonical(s, page) && Canonical(t, page) && SameMap(s, t, page)
    requires s != [] && t != [] && s[0].start == t[0].start && s[0].flags == t[0].flags
    ensures s[0].end <= t[0].end
  {
    var b := t[0].end;
    if b < s[0].end {
      assert t[0] in t;
      assert Lookup(s, b) == Lookup(t, b) == Some(s[0].flags);
      var i := LookupIndex(t, b);
      EndDiffers(t, 0, i);
      assert false;
    }
  }

  lemma SameStart(s: seq<Interval>, t: seq<Interval>, page: int)
    requires page > 0 && WellFormed(s, page) && WellFormed(t, page) && SameMap(s, t, page) && s != []
    ensures t != [] && t[0].start <= s[0].start
  {
    assert s[0] in s;
    assert Lookup(t, s[0].start) == Lookup(s, s[0].start) == Some(s[0].flags);
    var i := LookupIndex(t, s[0].start);
    if i > 0 { assert t[0].end <= t[i].start; }
  }

  lemma TailCanonical(s: seq<Interval>, page: int)
    requires page > 0 && Canonical(s, page) && s != []
    ensures Canonical(s[1..], page)
    ensures forall b :: Lookup(s[1..], b) == if b < s[0].end then None else Lookup(s, b)
  {
    var t := s[1..];
    assert forall i :: 0 <= i < |t| ==> t[i] == s[i + 1];
    forall b | b < s[0].end ensures Lookup(t, b) == None {
      LookupMiss(t, b);
    }
  }

  lemma FirstSame(s: seq<Interval>, t: seq<Interval>, page: int)
    requires page > 0 && Canonical(s, page) && Canonical(t, page) && SameMap(s, t, page)
    ensures s == [] <==> t == []
    ensures s != [] ==> s[0] == t[0]
  {
    if s == [] {
      if t != [] { SameStart(t, s, page); }
    } else {
      SameStart(s, t, page);
      SameStart(t, s, page);
      assert s[0] in s;
      assert Lookup(s, s[0].start) == Lookup(t, s[0].start);
      FirstNotLonger(s, t, page);
      FirstNotLonger(t, s, page);
    }
  }

  lemma TailsSame(s: seq<Interval>, t: seq<Interval>, page: int)
    requires page > 0 && Canonical(s, page) && Canonical(t, page) && SameMap(s, t, page)
    requires s != [] && t != [] && s[0] == t[0]
    ensures Canonical(s[1..], page) && Canonical(t[1..], page) && SameMap(s[1..], t[1..], page)
  {
    TailCanonical(s, page);
    TailCanonical(t, page);
    hide Canonical;
    hide Lookup;
  }

  /**
    The canonical list of a page map is unique: two canonical lists that agree on every page address
    are the same list, whatever faults produced them.
  */
  lemma {:induction false} CanonicalUnique(s: seq<Interval>, t: seq<Interval>, page: int)
    requires page > 0 && Canonical(s, page) && Canonical(t, page) && SameMap(s, t, page)
    ensures s == t
    decreases |s|
  {
    hide *;
    FirstSame(s, t, page);
    if s != [] {
      TailsSame(s, t, page);
      CanonicalUnique(s[1..], t[1..], page);
      assert s == [s[0]] + s[1..] && t == [t[0]] + t[1..];
    }
  }

  // ----- the canonical list is the shortest -----

  /** The flags at a page address are the same in both lists. */
  lemma SameAt(s: seq<Interval>, t: seq<Interval>, page: int, b: int)
    requires page > 0 && SameMap(s, t, page) && b % page == 0
    ensures Lookup(s, b) == Lookup(t, b)
  {
  }

  /** The interval of `t` that contains the start of the `i`th of `s`. */
  lemma HostOf(s: seq<Interval>, t: seq<Interval>, page: int, i: nat) returns (k: nat)
    requires page > 0 && WellFormed(s, page) && SameMap(s, t, page) && i < |s|
    ensures k < |t| && t[k].Contains(s[i].start) && t[k].flags == s[i].flags
  {
    assert s[i] in s;
    SameAt(s, t, page, s[i].start);
    LookupHit(s, i, s[i].start);
    k := LookupIndex(t, s[i].start);
  }

  /** Neighbours in a minimal list do not start in one interval of another list of the same map. */
  lemma OneHost(s: seq<Interval>, t: seq<Interval>, page: int, i: nat, k: nat)
    requires page > 0 && Canonical(s, page) && WellFormed(t, page) && SameMap(s, t, page)
    requires i + 1 < |s| && k < |t| && t[k].flags == s[i].flags && t[k].Contains(s[i].start)
    ensures !t[k].Contains(s[i + 1].start)
  {
    var b := s[i].end;
    assert s[i] in s && s[i].start < b <= s[i + 1].start;
    hide Minimal;
    if t[k].Contains(b) {
      LookupHit(t, k, b);
      SameAt(s, t, page, b);
      var j := LookupIndex(s, b);
      EndDiffers(s, i, j);
      assert false;
    }
  }

  lemma HostsOrdered(t: seq<Interval>, h: nat, k: nat, x: int, y: int)
    requires Ordered(t) && h < |t| && k < |t| && t[h].Contains(x) && t[k].Contains(y) && x < y
    ensures h <= k
  {
  }

  /** The starts of `s` lie in ever later intervals of `t`. */
  lemma {:induction false} HostsIncrease(s: seq<Interval>, t: seq<Interval>, page: int, i: nat) returns (k: nat)
    requires page > 0 && Canonical(s, page) && WellFormed(t, page) && SameMap(s, t, page) && i < |s|
    ensures i <= k < |t| && t[k].Contains(s[i].start) && t[k].flags == s[i].flags
  {
    k := HostOf(s, t, page, i);
    if i > 0 {
      var j := i - 1;
      var h := HostsIncrease(s, t, page, j);
      HostsOrdered(t, h, k, s[j].start, s[i].start);
      OneHost(s, t, page, j, h);
      assert k != h;
    }
  }

  /** No well-formed list of the same page map is shorter than a canonical one. */
  lemma CanonicalShortest(s: seq<Interval>, t: seq<Interval>, page: int)
    requires page > 0 && Canonical(s, page) && WellFormed(t, page) && SameMap(s, t, page)
    ensures |s| <= |t|
  {
    if s != [] {
      var k := HostsIncrease(s, t, page, |s| - 1);
    }
  }

  // ----- runs -----

  /** The list after a run of faults, the latest last, on an empty tree. */
  ghost function Run(faults: seq<int>, page: int): seq<Interval>
  {
    if faults == [] then [] else Fault(Run(faults[..|faults| - 1], page), page, faults[|faults| - 1])
  }

  /** How many of the faults are on the page at `a`. */
  ghost function Count(faults: seq<int>, a: int): nat
  {
    multiset(faults)[a]
  }

  ghost function FlagsAfter(count: nat): Option<Flags>
  {
    if count == 0 then None else if count == 1 then Some(READ) else Some(WRITE)
  }

  /** The faults are on page addresses, and none hits a page that is writable already. */
  ghost predicate Allowed(faults: seq<int>, page: int)
    requires page > 0
  {
    forall a :: a in faults ==> a % page == 0 && Count(faults, a) <= 2
  }

  /**
    Refinement over whole runs.  After any allowed run the list is canonical, and a page is absent if
    it was never faulted, readable if it was faulted once, and writable if it was faulted twice.
  */
  lemma {:induction false} RunRefines(faults: seq<int>, page: int)
    requires page > 0 && Allowed(faults, page)
    ensures Canonical(Run(faults, page), page)
    ensures forall b :: b % page == 0 ==> Lookup(Run(faults, page), b) == FlagsAfter(Count(faults, b))
    decreases |faults|
  {
    if faults != [] {
      var early, a := faults[..|faults| - 1], faults[|faults| - 1];
      assert faults == early + [a];
      assert forall b :: Count(faults, b) == Count(early, b) + if b == a then 1 else 0;
      assert a in faults;
      RunRefines(early, page);
      FaultCanonical(Run(early, page), page, a);
      PromoteValues();
      forall b | b % page == 0
        ensures Lookup(Run(faults, page), b) == FlagsAfter(Count(faults, b))
      {
        FaultLookup(Run(early, page), page, a, b);
        NextPage(a, b, page);
      }
    }
  }

  /** Along an allowed run, every fault finds a well-formed list in which its page is not writable. */
  lemma RunEnabled(faults: seq<int>, page: int, i: nat)
    requires page > 0 && Allowed(faults, page) && i < |faults|
    ensures WellFormed(Run(faults[..i], page), page) && faults[i] % page == 0
    ensures Lookup(Run(faults[..i], page), faults[i]) != Some(WRITE)
    ensures Run(faults[..i + 1], page) == Fault(Run(faults[..i], page), page, faults[i])
  {
    hide Fault;
    hide WellFormed;
    hide Minimal;
    hide Lookup;
    var early, a := faults[..i], faults[i];
    assert faults == early + [a] + faults[i + 1..];
    assert faults[..i + 1] == early + [a] && faults[..i + 1][..i] == early;
    AllowedEarly(faults, page, i);
    assert a in faults && Count(faults, a) == Count(early, a) + 1 + Count(faults[i + 1..], a);
    RunRefines(early, page);
  }

  lemma AllowedEarly(faults: seq<int>, page: int, i: nat)
    requires page > 0 && Allowed(faults, page) && i <= |faults|
    ensures Allowed(faults[..i], page)
  {
    assert faults == faults[..i] + faults[i..];
    forall b | b in faults[..i] ensures b % page == 0 && Count(faults[..i], b) <= 2 {
      assert b in faults && Count(faults, b) == Count(faults[..i], b) + Count(faults[i..], b);
    }
  }

  /** `trace` lists what a tree shows that starts out empty and takes the faults in turn. */
  ghost predicate IsTrace(trace: seq<seq<Interval>>, faults: seq<int>, page: int)
  {
    && |trace| == |faults| + 1 && trace[0] == []
    && (forall j :: 0 <= j < |faults| ==> trace[j + 1] == Fault(trace[j], page, faults[j]))
  }

  /** The refinement at every point of an allowed run. */
  lemma {:induction false} TraceRefines(trace: seq<seq<Interval>>, faults: seq<int>, page: int, i: nat)
    requires page > 0 && Allowed(faults, page) && IsTrace(trace, faults, page) && i < |trace|
    ensures trace[i] == Run(faults[..i], page) && Canonical(trace[i], page)
    ensures forall b :: b % page == 0 ==> Lookup(trace[i], b) == FlagsAfter(Count(faults[..i], b))
    ensures i < |faults| ==> faults[i] % page == 0 && Lookup(trace[i], faults[i]) != Some(WRITE)
  {
    if i > 0 {
      var j := i - 1;
      TraceRefines(trace, faults, page, j);
      RunEnabled(faults, page, j);
      assert trace[j + 1] == Fault(trace[j], page, faults[j]);
    }
    AllowedEarly(faults, page, i);
    RunRefines(faults[..i], page);
    if i < |faults| { RunEnabled(faults, page, i); }
  }

  /** The nodes depend only on how often each page was faulted, not on the order of the faults. */
  lemma RunOrderIndependent(f: seq<int>, g: seq<int>, page: int)
    requires page > 0 && Allowed(f, page) && multiset(f) == multiset(g)
    ensures Run(f, page) == Run(g, page)
  {
    forall a | a in g ensures a % page == 0 && Count(g, a) <= 2 {
      assert a in multiset(g);
      assert a in f;
    }
    RunRefines(f, page);
    RunRefines(g, page);
    CanonicalUnique(Run(f, page), Run(g, page), page);
  }
}
