/** What `Fault` amounts to in each case that the tree code tells apart. */
module FaultCases {
  import opened Basics
  import opened Protection
  import opened Intervals

  /** Position `i` is where a search for `a` among the starts ends. */
  ghost predicate Ends(s: seq<Interval>, i: nat, a: int)
  {
    && i < |s|
    && (forall j :: 0 <= j < i ==> s[j].start < a)
    && (forall j :: i < j < |s| ==> a < s[j].start)
  }

  lemma BeforeIs(s: seq<Interval>, a: int, k: nat)
    requires k <= |s| && (forall j :: 0 <= j < k ==> s[j].end <= a) && (k < |s| ==> a < s[k].end)
    ensures Before(s, a) == k
  {
  }

  /** The search ends at the interval that contains `a`, or right behind it, or next to where it would be. */
  lemma SearchLocates(s: seq<Interval>, i: nat, a: int)
    requires Ordered(s) && Ends(s, i, a)
    ensures s[i].Contains(a) ==> Present(s, a) && Before(s, a) == i
    ensures !s[i].Contains(a) && i > 0 && s[i - 1].Contains(a) ==>
      Present(s, a) && Before(s, a) == i - 1 && a < s[i].start
    ensures !s[i].Contains(a) && (i > 0 ==> !s[i - 1].Contains(a)) ==>
      !Present(s, a) && Before(s, a) == if a < s[i].start then i else i + 1
  {
    assert i > 0 ==> s[i - 1].end <= s[i].start;
    if s[i].Contains(a) {
      BeforeIs(s, a, i);
    } else if i > 0 && s[i - 1].Contains(a) {
      BeforeIs(s, a, i - 1);
    } else if a < s[i].start {
      assert forall j :: 0 <= j < i - 1 ==> s[j].end <= s[i - 1].start;
      BeforeIs(s, a, i);
    } else {
      assert forall j :: 0 <= j < i ==> s[j].end <= s[i].start;
      assert i + 1 < |s| ==> s[i + 1].start < s[i + 1].end;
      BeforeIs(s, a, i + 1);
    }
  }

  /** The flags are still to be promoted. */
  ghost predicate Faulted(s: seq<Interval>, page: int, a: int, k: nat)
  {
    page > 0 && WellFormed(s, page) && a % page == 0 && Lookup(s, a) != Some(WRITE)
    && k == Before(s, a) && Present(s, a)
  }

  lemma PresentRead(s: seq<Interval>, page: int, a: int, k: nat)
    requires Faulted(s, page, a, k)
    ensures k < |s| && s[k].flags == READ && NewFlags(s, a) == WRITE
    ensures s[k].start == a || s[k].start < a
    ensures s[k].end == a + page || a + page < s[k].end
  {
    LookupPresent(s, a);
    assert s[k] in s;
    PromoteValues();
    PageClear(s, page, a);
  }

  lemma Pieces(s: seq<Interval>, page: int, a: int, k: nat)
    requires k == Before(s, a) && Present(s, a) && NewFlags(s, a) == WRITE
    ensures LeftOf(s, a) == if s[k].start < a then s[..k] + [s[k].(end := a)] else s[..k]
    ensures RightOf(s, a, a + page) ==
      if a + page < s[k].end then [s[k].(start := a + page)] + s[k + 1..] else s[k + 1..]
    ensures Fault(s, page, a) == Merge(LeftOf(s, a), Interval(a, a + page, WRITE), RightOf(s, a, a + page))
  {
  }

  lemma FaultAbsent(s: seq<Interval>, page: int, a: int)
    requires !Present(s, a)
    ensures var k := Before(s, a); Fault(s, page, a) == Merge(s[..k], Interval(a, a + page, READ), s[k..])
  {
  }

  /** The page is a whole interval. */
  lemma FaultWhole(s: seq<Interval>, page: int, a: int, k: nat)
    requires Faulted(s, page, a, k) && s[k].start == a && s[k].end == a + page
    ensures Fault(s, page, a) == Merge(s[..k], Interval(a, a + page, WRITE), s[k + 1..])
  {
    PresentRead(s, page, a, k);
    Pieces(s, page, a, k);
  }

  /** The page is strictly inside an interval, which falls into three. */
  lemma FaultMiddle(s: seq<Interval>, page: int, a: int, k: nat)
    requires Faulted(s, page, a, k) && s[k].start != a && s[k].end != a + page
    ensures Fault(s, page, a) ==
      s[..k] + [s[k].(end := a), Interval(a, a + page, WRITE), s[k].(start := a + page)] + s[k + 1..]
  {
    hide Fault;
    hide WellFormed;
    hide Lookup;
    hide NewFlags;
    hide LeftOf;
    hide RightOf;
    PresentRead(s, page, a, k);
    Pieces(s, page, a, k);
    var l, r := LeftOf(s, a), RightOf(s, a, a + page);
    assert l[|l| - 1] == s[k].(end := a) && r[0] == s[k].(start := a + page);
  }

  // ----- merging in two steps -----

  /** Merge with the left neighbour only. */
  ghost function MergeLeft(l: seq<Interval>, m: Interval, r: seq<Interval>): seq<Interval>
  {
    if JoinsLeft(l, m) then l[..|l| - 1] + [l[|l| - 1].(end := m.end)] + r else l + [m] + r
  }

  /** Merge the interval at `k` with its right neighbour only. */
  ghost function MergeRight(s: seq<Interval>, k: nat): seq<Interval>
    requires k < |s|
  {
    if k + 1 < |s| && s[k + 1].start == s[k].end && s[k + 1].flags == s[k].flags then
      s[..k] + [s[k + 1].(start := s[k].start)] + s[k + 2..]
    else s
  }

  /** First one side, then the other: the same as `Merge`. */
  lemma MergeInTurn(l: seq<Interval>, m: Interval, r: seq<Interval>)
    ensures var k := if JoinsLeft(l, m) then |l| - 1 else |l|;
      && k < |MergeLeft(l, m, r)|
      && Merge(l, m, r) == MergeRight(MergeLeft(l, m, r), k)
      && MergeLeft(l, m, r)[k] == Interval(if JoinsLeft(l, m) then l[|l| - 1].start else m.start, m.end, m.flags)
  {
    var p := JoinsLeft(l, m);
    var k, s := if p then |l| - 1 else |l|, MergeLeft(l, m, r);
    assert s[..k] == if p then l[..|l| - 1] else l;
    assert s[k + 1..] == r;
    if r != [] {
      assert s[k + 1] == r[0];
      assert s[k + 2..] == r[1..];
    }
  }

  lemma MergeOneSide(l: seq<Interval>, m: Interval, r: seq<Interval>)
    ensures !JoinsRight(m, r) ==> Merge(l, m, r) == MergeLeft(l, m, r)
    ensures !JoinsLeft(l, m) && !JoinsRight(m, r) ==> Merge(l, m, r) == l + [m] + r
    ensures !JoinsLeft(l, m) && JoinsRight(m, r) ==> Merge(l, m, r) == l + [r[0].(start := m.start)] + r[1..]
  {
  }

  /** `m` replaces the front of the interval at `k`, which becomes `y`: it joins the one before, or stands alone. */
  ghost function AtFront(s: seq<Interval>, k: nat, m: Interval, y: Interval): seq<Interval>
    requires k < |s|
  {
    if k > 0 && s[k - 1].end == m.start && s[k - 1].flags == m.flags then
      s[..k - 1] + [s[k - 1].(end := m.end), y] + s[k + 1..]
    else s[..k] + [m, y] + s[k + 1..]
  }

  lemma FrontMerges(s: seq<Interval>, k: nat, m: Interval, y: Interval)
    requires k < |s| && y.flags != m.flags
    ensures Merge(s[..k], m, [y] + s[k + 1..]) == AtFront(s, k, m, y)
  {
    MergeOneSide(s[..k], m, [y] + s[k + 1..]);
    if k > 0 {
      assert s[..k][..k - 1] == s[..k - 1];
    }
  }

  /** `m` replaces the back of the interval at `k`, which becomes `y`: it joins the one behind, or stands alone. */
  ghost function AtBack(s: seq<Interval>, k: nat, y: Interval, m: Interval): seq<Interval>
    requires k < |s|
  {
    if k + 1 < |s| && s[k + 1].start == m.end && s[k + 1].flags == m.flags then
      s[..k] + [y, s[k + 1].(start := m.start)] + s[k + 2..]
    else s[..k] + [y, m] + s[k + 1..]
  }

  lemma BackMerges(s: seq<Interval>, k: nat, y: Interval, m: Interval)
    requires k < |s| && y.flags != m.flags
    ensures Merge(s[..k] + [y], m, s[k + 1..]) == AtBack(s, k, y, m)
  {
    MergeOneSide(s[..k] + [y], m, s[k + 1..]);
    if k + 1 < |s| {
      assert s[k + 1..][1..] == s[k + 2..];
    }
  }

  /** The page is the first of a longer interval. */
  lemma FaultPrefix(s: seq<Interval>, page: int, a: int, k: nat)
    requires Faulted(s, page, a, k) && s[k].start == a && s[k].end != a + page
    ensures Fault(s, page, a) == AtFront(s, k, Interval(a, a + page, WRITE), s[k].(start := a + page))
  {
    PresentRead(s, page, a, k);
    Pieces(s, page, a, k);
    FrontMerges(s, k, Interval(a, a + page, WRITE), s[k].(start := a + page));
  }

  /** The page is the last of a longer interval. */
  lemma FaultSuffix(s: seq<Interval>, page: int, a: int, k: nat)
    requires Faulted(s, page, a, k) && s[k].start != a && s[k].end == a + page
    ensures Fault(s, page, a) == AtBack(s, k, s[k].(end := a), Interval(a, a + page, WRITE))
  {
    PresentRead(s, page, a, k);
    Pieces(s, page, a, k);
    BackMerges(s, k, s[k].(end := a), Interval(a, a + page, WRITE));
  }
}
