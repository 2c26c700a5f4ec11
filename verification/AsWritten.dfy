/**
  The parts of `sp_tree_find_mod_and_lock` that `FindMods` repairs, as they are written, on intervals and
  shapes: an input on which each goes wrong, and the exact condition under which it does not.
*/
module AsWritten {
  import opened Protection
  import opened Intervals
  import opened FaultCases
  import opened SplayModel

  // ----- splits that leave the flags of the new area alone -----

  /** The prefix split: the new area keeps the flags `stale` that its memory happens to hold. */
  ghost function PrefixSplit(s: seq<Interval>, page: int, a: int, k: nat, stale: Flags): seq<Interval>
    requires k < |s|
  {
    s[..k] + [Interval(a, a + page, stale), s[k].(start := a + page)] + s[k + 1..]
  }

  /** The suffix split, likewise. */
  ghost function SuffixSplit(s: seq<Interval>, page: int, a: int, k: nat, stale: Flags): seq<Interval>
    requires k < |s|
  {
    s[..k] + [s[k].(end := a), Interval(a, a + page, stale)] + s[k + 1..]
  }

  lemma FaultedEnds(s: seq<Interval>, page: int, a: int, k: nat)
    requires Faulted(s, page, a, k)
    ensures k < |s| && page > 0
  {
  }

  /** The prefix split is a fault exactly if the new area already holds WRITE. */
  lemma PrefixSplitNeeds(s: seq<Interval>, page: int, a: int, k: nat, stale: Flags)
    requires Faulted(s, page, a, k) && s[k].start == a && s[k].end != a + page
    requires !(k > 0 && s[k - 1].end == a && s[k - 1].flags == WRITE)
    ensures PrefixSplit(s, page, a, k, stale) == Fault(s, page, a) <==> stale == WRITE
  {
    hide Fault;
    hide Faulted;
    FaultedEnds(s, page, a, k);
    FaultPrefix(s, page, a, k);
    var x, y := PrefixSplit(s, page, a, k, stale), Fault(s, page, a);
    assert x[k] == Interval(a, a + page, stale) && y[k] == Interval(a, a + page, WRITE);
  }

  /** The suffix split is a fault exactly if the new area already holds WRITE. */
  lemma SuffixSplitNeeds(s: seq<Interval>, page: int, a: int, k: nat, stale: Flags)
    requires Faulted(s, page, a, k) && s[k].start != a && s[k].end == a + page
    requires !(k + 1 < |s| && s[k + 1].start == a + page && s[k + 1].flags == WRITE)
    ensures SuffixSplit(s, page, a, k, stale) == Fault(s, page, a) <==> stale == WRITE
  {
    hide Fault;
    hide Faulted;
    FaultedEnds(s, page, a, k);
    FaultSuffix(s, page, a, k);
    var x, y := SuffixSplit(s, page, a, k, stale), Fault(s, page, a);
    assert x[k + 1] == Interval(a, a + page, stale) && y[k + 1] == Interval(a, a + page, WRITE);
  }

  /** Fresh memory holds 0, no protection at all: a second fault on the first of two pages loses the page. */
  lemma PrefixSplitFails(page: int)
    requires page > 0
    ensures var s := [Interval(0, 2 * page, READ)];
      && PrefixSplit(s, page, 0, 0, 0) == [Interval(0, page, 0), Interval(page, 2 * page, READ)]
      && Fault(s, page, 0) == [Interval(0, page, WRITE), Interval(page, 2 * page, READ)]
  {
    PromoteValues();
  }

  /** Likewise for a second fault on the second of two pages. */
  lemma SuffixSplitFails(page: int)
    requires page > 0
    ensures var s := [Interval(0, 2 * page, READ)];
      && SuffixSplit(s, page, page, 0, 0) == [Interval(0, page, READ), Interval(page, 2 * page, 0)]
      && Fault(s, page, page) == [Interval(0, page, READ), Interval(page, 2 * page, WRITE)]
  {
    PromoteValues();
  }

  // ----- a page that is a whole area -----

  /** What the code leaves, or the null link that it follows. */
  datatype Outcome = NullLink | Done(s: seq<Interval>)

  ghost predicate Touches(s: seq<Interval>, j: nat)
  {
    j + 1 < |s| && s[j].end == s[j + 1].start
  }

  /** The test for the merge with the next area: it looks at the flags of the area before the `j`th. */
  ghost function NextStep(s: seq<Interval>, j: nat): Outcome
    requires j < |s|
  {
    if !Touches(s, j) then Done(s)
    else if j == 0 then NullLink
    else if s[j - 1].flags == Promote(s[j].flags) then Done(s[..j] + [s[j + 1].(start := s[j].start)] + s[j + 2..])
    else Done(s)
  }

  /** The two merges, in turn; the area's own flags are never promoted. */
  ghost function OnePage(s: seq<Interval>, k: nat): Outcome
    requires k < |s|
  {
    if k > 0 && Touches(s, k - 1) && s[k - 1].flags == Promote(s[k].flags) then
      NextStep(s[..k - 1] + [s[k - 1].(end := s[k].end)] + s[k + 1..], k - 1)
    else NextStep(s, k)
  }

  /** When the code does what it should, in terms of the neighbours. */
  ghost predicate Lucky(s: seq<Interval>, k: nat)
    requires k < |s|
  {
    if k > 0 && Touches(s, k - 1) && s[k - 1].flags == WRITE then
      Touches(s, k) ==> k > 1 && s[k + 1].flags == READ
    else
      Touches(s, k) && k > 0 && s[k - 1].flags == WRITE && s[k + 1].flags == WRITE
  }

  lemma FlagsIn(s: seq<Interval>, page: int, a: int, k: nat)
    requires Faulted(s, page, a, k)
    ensures forall j :: 0 <= j < |s| ==> s[j].flags == READ || s[j].flags == WRITE
    ensures k < |s| && s[k].flags == READ && Promote(READ) == WRITE && Promote(WRITE) == 7
  {
    PresentRead(s, page, a, k);
    PromoteValues();
    forall j | 0 <= j < |s| ensures s[j].flags == READ || s[j].flags == WRITE {
      assert s[j] in s;
    }
  }

  /** A fault on a whole area, in terms of its neighbours. */
  lemma WholeCases(s: seq<Interval>, page: int, a: int, k: nat)
    requires Faulted(s, page, a, k) && s[k].start == a && s[k].end == a + page
    ensures var p, q := k > 0 && Touches(s, k - 1) && s[k - 1].flags == WRITE, Touches(s, k) && s[k + 1].flags == WRITE;
      var l, r := if p then s[..k - 1] else s[..k], if q then s[k + 2..] else s[k + 1..];
      Fault(s, page, a) ==
        l + [Interval(if p then s[k - 1].start else a, if q then s[k + 1].end else a + page, WRITE)] + r
  {
    hide Fault;
    hide Faulted;
    FaultedEnds(s, page, a, k);
    FaultWhole(s, page, a, k);
    var m := Interval(a, a + page, WRITE);
    if k > 0 { assert s[..k][..k - 1] == s[..k - 1]; }
    if k + 1 < |s| { assert s[k + 1..][1..] == s[k + 2..]; }
  }

  lemma NextStepAfterMerge(s: seq<Interval>, k: nat)
    requires 0 < k < |s| && s[k - 1].flags == WRITE && Promote(WRITE) == 7
    requires forall j :: 0 <= j < |s| ==> s[j].flags == READ || s[j].flags == WRITE
    ensures var t := s[..k - 1] + [s[k - 1].(end := s[k].end)] + s[k + 1..];
      NextStep(t, k - 1) == if Touches(s, k) && k == 1 then NullLink else Done(t)
  {
    var t := s[..k - 1] + [s[k - 1].(end := s[k].end)] + s[k + 1..];
    assert t[k - 1] == s[k - 1].(end := s[k].end);
    assert k + 1 < |s| ==> t[k] == s[k + 1];
    assert k > 1 ==> t[k - 2] == s[k - 2];
  }

  /** The merged area of the first case and what a fault makes of it. */
  lemma MergedCase(s: seq<Interval>, page: int, a: int, k: nat)
    requires Faulted(s, page, a, k) && s[k].start == a && s[k].end == a + page
    requires k > 0 && Touches(s, k - 1) && s[k - 1].flags == WRITE
    ensures OnePage(s, k) == Done(Fault(s, page, a)) <==> Lucky(s, k)
  {
    hide Fault;
    hide Faulted;
    hide Promote;
    FlagsIn(s, page, a, k);
    WholeCases(s, page, a, k);
    NextStepAfterMerge(s, k);
    var t, f := s[..k - 1] + [s[k - 1].(end := s[k].end)] + s[k + 1..], Fault(s, page, a);
    if Touches(s, k) && s[k + 1].flags == WRITE {
      assert |f| == |s| - 2 && |t| == |s| - 1;
    } else {
      assert f == t;
    }
  }

  lemma UnmergedCase(s: seq<Interval>, page: int, a: int, k: nat)
    requires Faulted(s, page, a, k) && s[k].start == a && s[k].end == a + page
    requires !(k > 0 && Touches(s, k - 1) && s[k - 1].flags == WRITE)
    ensures OnePage(s, k) == Done(Fault(s, page, a)) <==> Lucky(s, k)
  {
    hide Fault;
    hide Faulted;
    hide Promote;
    FlagsIn(s, page, a, k);
    WholeCases(s, page, a, k);
    var f := Fault(s, page, a);
    assert f[k].flags == WRITE;
    if Touches(s, k) && k > 0 && s[k - 1].flags == WRITE {
      var u := s[..k] + [s[k + 1].(start := a)] + s[k + 2..];
      assert OnePage(s, k) == Done(u) && u[k].flags == s[k + 1].flags;
      if s[k + 1].flags == WRITE { assert f == u; }
    } else {
      assert s[k].flags == READ;
    }
  }

  /** The one-page case is a fault exactly if the neighbours are as in `Lucky`. */
  lemma OnePageNeeds(s: seq<Interval>, page: int, a: int, k: nat)
    requires Faulted(s, page, a, k) && s[k].start == a && s[k].end == a + page
    ensures OnePage(s, k) == Done(Fault(s, page, a)) <==> Lucky(s, k)
  {
    if k > 0 && Touches(s, k - 1) && s[k - 1].flags == WRITE {
      MergedCase(s, page, a, k);
    } else {
      UnmergedCase(s, page, a, k);
    }
  }

  /** A page on its own is never promoted; with a neighbour behind it and none before, a null link is followed. */
  lemma OnePageFails(page: int)
    requires page > 0
    ensures var s := [Interval(0, page, READ)];
      OnePage(s, 0) == Done(s) && Fault(s, page, 0) == [Interval(0, page, WRITE)]
    ensures OnePage([Interval(0, page, READ), Interval(page, 2 * page, WRITE)], 0) == NullLink
  {
    PromoteValues();
  }

  // ----- a stored root that is not the root -----

  /** The part of a tree that hangs under `r`. */
  ghost function Under<T>(t: Tree<T>, r: T): Tree<T>
  {
    if t.Leaf? then Leaf
    else if t.item == r then t
    else if r in Items(t.left) then Under(t.left, r)
    else Under(t.right, r)
  }

  /** What hangs under `z` when it has been inserted in front of or behind `r`, the root of `t`. */
  ghost function InsertAt<T>(t: Tree<T>, z: T, before: bool): Tree<T>
  {
    match t
    case Leaf => Node(Leaf, z, Leaf)
    case Node(l, r, u) => if before then Node(l, z, Node(Leaf, r, u)) else Node(Node(l, r, Leaf), z, u)
  }

  lemma {:induction false} UnderItems<T>(t: Tree<T>, r: T)
    requires r in Items(t) && Distinct(t)
    ensures Under(t, r).Node? && Under(t, r).item == r && Items(Under(t, r)) <= Items(t)
    ensures t.item != r ==> t.item !in Items(Under(t, r))
  {
    if t.item != r {
      if r in Items(t.left) { UnderItems(t.left, r); } else { UnderItems(t.right, r); }
    }
  }

  lemma InsertAtItems<T>(t: Tree<T>, z: T, before: bool)
    requires t.Node?
    ensures Items(InsertAt(t, z, before)) == Items(t) + {z}
  {
    assert Items(Node(Leaf, t.item, t.right)) == {t.item} + Items(t.right);
    assert Items(Node(t.left, t.item, Leaf)) == Items(t.left) + {t.item};
  }

  /**
    After the first splay the code goes on with the root `r` from before it.  An insertion next to `r`
    keeps every node in the tree exactly if the splay has ended at `r`.
  */
  lemma StaleRootNeeds<T>(ks: map<T, int>, a: int, t: Tree<T>, z: T, before: bool)
    requires t.Node? && Distinct(t) && z !in Items(t)
    ensures var s, r := Splay(ks, a, t), t.item;
      Items(InsertAt(Under(s, r), z, before)) == Items(t) + {z} <==> SearchLast(ks, a, t) == r
  {
    var s, r := Splay(ks, a, t), t.item;
    SplayKeepsNodes(ks, a, t);
    SplitIsSearch(ks, a, t);
    UnderItems(s, r);
    InsertAtItems(Under(s, r), z, before);
    if s.item != r {
      assert s.item in Items(t) && s.item !in Items(Under(s, r)) + {z};
    }
  }

  /** Without an insertion, the stored root leads to every node under the same condition. */
  lemma StaleRootReaches<T>(ks: map<T, int>, a: int, t: Tree<T>)
    requires t.Node? && Distinct(t)
    ensures Items(Under(Splay(ks, a, t), t.item)) == Items(t) <==> SearchLast(ks, a, t) == t.item
  {
    var s, r := Splay(ks, a, t), t.item;
    SplayKeepsNodes(ks, a, t);
    SplitIsSearch(ks, a, t);
    UnderItems(s, r);
    if s.item != r {
      assert s.item in Items(t) && s.item !in Items(Under(s, r));
    }
  }

  /** Area `a` is the root, area `b` its right child. */
  ghost function RootFirst<T>(a: T, b: T): Tree<T>
  {
    Node(Leaf, a, Node(Leaf, b, Leaf))
  }

  lemma RootFirstSplay<T>(ks: map<T, int>, a: T, b: T)
    requires a != b && Key(ks, a) < Key(ks, b)
    ensures var s := Splay(ks, Key(ks, b), RootFirst(a, b));
      s == Node(Node(Leaf, a, Leaf), b, Leaf) && Under(s, a) == Node(Leaf, a, Leaf)
  {
    assert Split(ks, Key(ks, b), Node(Leaf, b, Leaf)) == Parts(Leaf, b, Leaf, 0);
    assert Items(Node(Leaf, a, Leaf)) == {a};
  }

  lemma GapFault(page: int)
    requires page > 0
    ensures var s := [Interval(0, page, READ), Interval(2 * page, 4 * page, READ)];
      Fault(s, page, 2 * page) ==
        [s[0], Interval(2 * page, 3 * page, WRITE), Interval(3 * page, 4 * page, READ)]
  {
    var s := [Interval(0, page, READ), Interval(2 * page, 4 * page, READ)];
    assert s[1..] == [Interval(2 * page, 4 * page, READ)];
    PromoteValues();
  }

  /**
    Two areas with a gap between them, the first of them the root, and a fault on the first page of the
    second: the new area goes next to the old root, and the rest of the second area is lost.
  */
  lemma StaleRootFails(page: int)
    requires page > 0
    ensures var a, b := Interval(0, page, READ), Interval(2 * page, 4 * page, READ);
      var z := Interval(2 * page, 3 * page, WRITE);
      var ks := map[a := a.start, b := b.start];
      && Inorder(RootFirst(a, b)) == [a, b]
      && Inorder(InsertAt(Under(Splay(ks, 2 * page, RootFirst(a, b)), a), z, false)) == [a, z]
      && Fault([a, b], page, 2 * page) == [a, z, Interval(3 * page, 4 * page, READ)]
  {
    var a, b, z := Interval(0, page, READ), Interval(2 * page, 4 * page, READ), Interval(2 * page, 3 * page, WRITE);
    hide Fault;
    var ks := map[a := a.start, b := b.start];
    RootFirstSplay(ks, a, b);
    assert InsertAt(Node(Leaf, a, Leaf), z, false) == Node(Node(Leaf, a, Leaf), z, Leaf);
    GapFault(page);
  }
}
