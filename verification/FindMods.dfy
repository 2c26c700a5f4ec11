/**
  `sp_tree_find_mod_and_lock`: a fault on a page, on the tree of areas.

  The code is followed with four repairs: the result of the first splay is stored as the root; the area
  that a prefix or suffix split makes gets the promoted flags; where the page is a whole area, the
  promoted flags are computed once, stored, and then compared with those of each neighbour; and the page
  must not be writable already, because promotion takes WRITE to a value that is neither READ nor WRITE.
*/
module FindMods {
  import opened Basics
  import opened Protection
  import opened Intervals
  import opened FaultCases
  import opened VmAreas
  import opened AreaLists
  import opened SplayTree
  import opened SpTrees
  import opened VmaAlloc
  import opened Owners
  import opened TreeViews
  import Allocators

  lemma Neighbours(sp: SpTree, v: seq<Interval>, k: nat)
    requires sp.Valid() && Shows(sp.m.order, v) && k < |v|
    ensures var s := sp.m.order;
      && s[k].prev == At(s, k - 1) && s[k].next == At(s, k + 1)
      && (forall j :: 0 <= j < |s| ==> s[j] in sp.m.nodes)
  {
  }

  // ----- merging -----

  lemma JoinPrevShape(v: seq<Interval>, k: nat)
    requires 0 < k < |v|
    ensures (v[..k] + v[k + 1..])[k - 1 := v[k - 1].(end := v[k].end)] ==
      v[..k - 1] + [v[k - 1].(end := v[k].end)] + v[k + 1..]
  {
  }

  lemma JoinNextShape(v: seq<Interval>, k: nat)
    requires k + 1 < |v|
    ensures (v[..k] + v[k + 1..])[k := v[k + 1].(start := v[k].start)] ==
      v[..k] + [v[k + 1].(start := v[k].start)] + v[k + 2..]
  {
  }

  lemma MergeLeftShape(v: seq<Interval>, k: nat)
    requires k < |v|
    ensures MergeLeft(v[..k], v[k], v[k + 1..]) ==
      if k > 0 && v[k - 1].end == v[k].start && v[k - 1].flags == v[k].flags then
        v[..k - 1] + [v[k - 1].(end := v[k].end)] + v[k + 1..]
      else v
  {
  }

  lemma MergeCovers(v: seq<Interval>, k: nat)
    requires Ordered(v) && k < |v|
    ensures var j, u := if JoinsLeft(v[..k], v[k]) then k - 1 else k, Merge(v[..k], v[k], v[k + 1..]);
      j < |u| && u[j].start <= v[k].start && v[k].end <= u[j].end
  {
    if k > 0 { assert v[k - 1].start < v[k - 1].end; }
    if k + 1 < |v| { assert v[k + 1].start < v[k + 1].end; }
  }

  // ----- whose the areas are -----

  lemma GivenPool(st: St, pool: MPool, z: VmArea, st': St)
    requires Allocators.Given(st, pool, z, st')
    ensures pool in st'.pools
  {
  }

  lemma HandedOne(alloc: Allocators.Allocator, st: St, nodes: set<VmArea>, z: VmArea, pool: MPool, others: set<VmArea>)
    requires Allocators.Given(st, pool, z, alloc.st) && nodes <= st.live && z !in nodes
    requires Owned(alloc, nodes + {z}, others)
    ensures HandedOn(st, nodes, alloc.st, nodes + {z}, Some(pool))
  {
    HandedNew(st, nodes, alloc.st, {z}, pool);
  }

  lemma HandedTwo(alloc: Allocators.Allocator, st: St, nodes: set<VmArea>, z: VmArea, t: VmArea, pool: MPool,
                  others: set<VmArea>)
    requires Allocators.Given(st, pool, z, alloc.st) && Allocators.Given(st, pool, t, alloc.st)
    requires nodes <= st.live && z !in nodes && t !in nodes && Owned(alloc, nodes + {t}, others + {z})
    ensures HandedOn(st, nodes, alloc.st, nodes + {t, z}, Some(pool))
  {
    HandedNew(st, nodes, alloc.st, {t, z}, pool);
  }

  lemma GivenThen(alloc: Allocators.Allocator, st: St, st1: St, z: VmArea, t: VmArea, pool: MPool,
                  nodes: set<VmArea>, others: set<VmArea>)
    requires Allocators.Given(st, pool, z, st1) && Allocators.Given(st1, pool, t, alloc.st)
    requires st.live == nodes + others && st1.live == nodes + {z} + others && z in alloc.st.live
    requires st1.pools.Keys <= alloc.st.pools.Keys
    ensures Allocators.Given(st, pool, z, alloc.st) && Allocators.Given(st, pool, t, alloc.st)
  {
    OwnersThen(st, st1, alloc.st);
  }

  lemma PrevFacts(sp: SpTree, v: seq<Interval>, k: nat)
    requires sp.Valid() && Shows(sp.m.order, v) && 0 < k < |v|
    ensures var s, z, x := sp.m.order, At(sp.m.order, k), At(sp.m.order, k - 1);
      && |s| == |v| && z != null && x != null && z != x && z in sp.m.nodes && x in sp.m.nodes
      && z.end == v[k].end && At(s[..k] + s[k + 1..], k - 1) == x && s[k - 1] == x
  {
  }

  /** Merge the root `z` into the area before it. */
  method JoinPrev(sp: SpTree, z: VmArea, prev: VmArea, alloc: Allocators.Allocator,
                  ghost k: nat, ghost v: seq<Interval>, ghost others: set<VmArea>)
    requires sp.Valid() && Shows(sp.m.order, v) && 0 < k < |v| && At(sp.m.order, k) == z && sp.root == z
    requires At(sp.m.order, k - 1) == prev
    requires alloc.Valid() && Owned(alloc, sp.m.nodes, others)
    modifies sp, sp.m.nodes, alloc, alloc.st.supers.Keys, alloc.st.blocks.Keys, alloc.st.pools.Keys`head
    ensures sp.Valid() && Shows(sp.m.order, v[..k - 1] + [v[k - 1].(end := v[k].end)] + v[k + 1..])
    ensures At(sp.m.order, k - 1) == prev && sp.root == prev && sp.m.nodes <= old(sp.m.nodes)
    ensures alloc.Valid() && Owned(alloc, sp.m.nodes, others)
    ensures Kept(sp, alloc)
  {
    hide Allocators.Sound;
    hide Allocators.Given;
    hide OwnersKept;
    hide HandedOn;
    hide Weave.Holds;
    hide Shows;
    hide At;
    hide FreeAreas;
    hide Owned;
    PrevFacts(sp, v, k);
    NodesLive(alloc, sp.m.nodes, others);
    ghost var st, nodes := alloc.st, sp.m.nodes;
    var end := z.end;
    TakeRoot(sp, z, alloc, k, v, others);
    ghost var v1 := v[..k] + v[k + 1..];
    DropArea(z, alloc, sp, v1, others);
    NodesLive(alloc, sp.m.nodes, others);
    HandedRest(st, nodes, alloc.st, sp.m.nodes);
    SetEnd(prev, end, alloc, sp, v1, k - 1);
    JoinPrevShape(v, k);
  }

  /** Merge the root `z` into the area before it, if they touch and have the same flags. */
  method MergePrev(sp: SpTree, z: VmArea, alloc: Allocators.Allocator,
                   ghost k: nat, ghost v: seq<Interval>, ghost others: set<VmArea>)
    returns (n: VmArea, ghost k': nat)
    requires sp.Valid() && Shows(sp.m.order, v) && k < |v| && At(sp.m.order, k) == z && sp.root == z
    requires alloc.Valid() && Owned(alloc, sp.m.nodes, others)
    modifies sp, sp.m.nodes, alloc, alloc.st.supers.Keys, alloc.st.blocks.Keys, alloc.st.pools.Keys`head
    ensures k' == if JoinsLeft(v[..k], v[k]) then k - 1 else k
    ensures sp.Valid() && Shows(sp.m.order, MergeLeft(v[..k], v[k], v[k + 1..]))
    ensures At(sp.m.order, k') == n && sp.root == n && sp.m.nodes <= old(sp.m.nodes)
    ensures alloc.Valid() && Owned(alloc, sp.m.nodes, others)
    ensures Kept(sp, alloc)
  {
    hide Allocators.Sound;
    hide Allocators.Given;
    hide OwnersKept;
    hide HandedOn;
    hide Linked;
    hide Parented;
    hide Listed;
    Neighbours(sp, v, k);
    MergeLeftShape(v, k);
    HandedSame(alloc.st, sp.m.nodes, None);
    n, k' := z, k;
    if z.prev != null && z.prev.end == z.start && z.prev.flags == z.flags {
      n, k' := z.prev, k - 1;
      JoinPrev(sp, z, n, alloc, k, v, others);
    }
  }

  /** Merge the root `z` into the area behind it. */
  lemma NextFacts(sp: SpTree, v: seq<Interval>, k: nat)
    requires sp.Valid() && Shows(sp.m.order, v) && k + 1 < |v|
    ensures var s, z, x := sp.m.order, At(sp.m.order, k), At(sp.m.order, k + 1);
      && |s| == |v| && z != null && x != null && z != x && z in sp.m.nodes && x in sp.m.nodes
      && z.start == v[k].start && At(s[..k] + s[k + 1..], k) == x
    ensures k > 0 ==> v[k - 1].start < v[k].start
    ensures k + 2 < |v| ==> v[k].start < v[k + 2].start
  {
  }

  method JoinNext(sp: SpTree, z: VmArea, next: VmArea, alloc: Allocators.Allocator,
                  ghost k: nat, ghost v: seq<Interval>, ghost others: set<VmArea>)
    requires sp.Valid() && Shows(sp.m.order, v) && k + 1 < |v| && At(sp.m.order, k) == z && sp.root == z
    requires At(sp.m.order, k + 1) == next
    requires alloc.Valid() && Owned(alloc, sp.m.nodes, others)
    modifies sp, sp.m.nodes, alloc, alloc.st.supers.Keys, alloc.st.blocks.Keys, alloc.st.pools.Keys`head
    ensures sp.Valid() && Shows(sp.m.order, v[..k] + [v[k + 1].(start := v[k].start)] + v[k + 2..])
    ensures At(sp.m.order, k) == next && sp.m.nodes <= old(sp.m.nodes)
    ensures alloc.Valid() && Owned(alloc, sp.m.nodes, others)
    ensures Kept(sp, alloc)
  {
    hide Allocators.Sound;
    hide Allocators.Given;
    hide OwnersKept;
    hide HandedOn;
    hide Weave.Holds;
    hide Shows;
    hide At;
    hide FreeAreas;
    hide Owned;
    NextFacts(sp, v, k);
    NodesLive(alloc, sp.m.nodes, others);
    ghost var st, nodes := alloc.st, sp.m.nodes;
    var start := z.start;
    TakeRoot(sp, z, alloc, k, v, others);
    ghost var v1 := v[..k] + v[k + 1..];
    DropArea(z, alloc, sp, v1, others);
    NodesLive(alloc, sp.m.nodes, others);
    HandedRest(st, nodes, alloc.st, sp.m.nodes);
    SetStart(next, start, alloc, sp, v1, k);
    JoinNextShape(v, k);
  }

  /** Merge the root `z` into the area behind it, if they touch and have the same flags. */
  method MergeNext(sp: SpTree, z: VmArea, alloc: Allocators.Allocator,
                   ghost k: nat, ghost v: seq<Interval>, ghost others: set<VmArea>)
    returns (n: VmArea)
    requires sp.Valid() && Shows(sp.m.order, v) && k < |v| && At(sp.m.order, k) == z && sp.root == z
    requires alloc.Valid() && Owned(alloc, sp.m.nodes, others)
    modifies sp, sp.m.nodes, alloc, alloc.st.supers.Keys, alloc.st.blocks.Keys, alloc.st.pools.Keys`head
    ensures sp.Valid() && Shows(sp.m.order, MergeRight(v, k))
    ensures At(sp.m.order, k) == n && sp.m.nodes <= old(sp.m.nodes)
    ensures alloc.Valid() && Owned(alloc, sp.m.nodes, others)
    ensures Kept(sp, alloc)
  {
    hide Allocators.Sound;
    hide Allocators.Given;
    hide OwnersKept;
    hide HandedOn;
    hide Linked;
    hide Parented;
    hide Listed;
    Neighbours(sp, v, k);
    n := z;
    HandedSame(alloc.st, sp.m.nodes, None);
    if z.next != null && z.next.start == z.end && z.next.flags == z.flags {
      n := z.next;
      JoinNext(sp, z, n, alloc, k, v, others);
    }
  }

  /** Merge the root `z` with its neighbours on both sides; the result need not be the root. */
  method MergeBoth(sp: SpTree, z: VmArea, alloc: Allocators.Allocator,
                   ghost k: nat, ghost v: seq<Interval>, ghost others: set<VmArea>)
    returns (n: VmArea)
    requires sp.Valid() && Shows(sp.m.order, v) && Ordered(v) && k < |v| && At(sp.m.order, k) == z && sp.root == z
    requires alloc.Valid() && Owned(alloc, sp.m.nodes, others)
    modifies sp, sp.m.nodes, alloc, alloc.st.supers.Keys, alloc.st.blocks.Keys, alloc.st.pools.Keys`head
    ensures sp.Valid() && Shows(sp.m.order, Merge(v[..k], v[k], v[k + 1..]))
    ensures n in sp.m.order && n.start <= v[k].start && v[k].end <= n.end
    ensures alloc.Valid() && Owned(alloc, sp.m.nodes, others)
    ensures Kept(sp, alloc)
  {
    hide Allocators.Sound;
    hide Allocators.Given;
    hide OwnersKept;
    hide HandedOn;
    hide Weave.Holds;
    hide FreeAreas;
    hide Owned;
    MergeInTurn(v[..k], v[k], v[k + 1..]);
    ghost var k', v1 := k, MergeLeft(v[..k], v[k], v[k + 1..]);
    ghost var st, nodes := alloc.st, sp.m.nodes;
    n, k' := MergePrev(sp, z, alloc, k, v, others);
    MergeCovers(v, k);
    ghost var st1, nodes1 := alloc.st, sp.m.nodes;
    n := MergeNext(sp, n, alloc, k', v1, others);
    HandedThen(st, nodes, st1, nodes1, alloc.st, sp.m.nodes, None);
  }

  // ----- the page is absent -----

  lemma AbsentSlot(v: seq<Interval>, a: int, i: nat)
    requires Ordered(v) && FaultCases.Ends(v, i, a) && !Present(v, a)
    ensures v[i].start != a && SlotOf(v, i, a) == Before(v, a)
  {
    SearchLocates(v, i, a);
  }

  lemma AbsentShape(v: seq<Interval>, page: int, a: int, i: nat)
    requires page > 0 && Ordered(v) && Clear(v, a, a + page) && FaultCases.Ends(v, i, a) && !Present(v, a)
    ensures var k, m := SlotOf(v, i, a), Interval(a, a + page, READ);
      && v[i].start != a
      && Ordered(Inserted(v, k, m)) && k < |Inserted(v, k, m)| && Inserted(v, k, m)[k] == m
      && Fault(v, page, a) == Merge(Inserted(v, k, m)[..k], m, Inserted(v, k, m)[k + 1..])
  {
    AbsentSlot(v, a, i);
    var k, m := Before(v, a), Interval(a, a + page, READ);
    var u := v[..k] + [m] + v[k..];
    FaultAbsent(v, page, a);
    assert u[..k] == v[..k] && u[k + 1..] == v[k..];
    OrderedAround(v, k, m);
    hide Ordered;
    hide Merge;
    hide Fault;
  }

  lemma OrderedAround(v: seq<Interval>, k: nat, m: Interval)
    requires Ordered(v) && k <= |v| && m.start < m.end
    requires (k > 0 ==> v[k - 1].end <= m.start) && (k < |v| ==> m.end <= v[k].start)
    ensures Ordered(v[..k] + [m] + v[k..])
  {
    forall j | 0 <= j < k ensures v[j].end <= m.start {
      assert v[j].end <= v[k - 1].end;
    }
    forall j | k <= j < |v| ensures m.end <= v[j].start {
      assert v[k].start <= v[j].start;
    }
    OrderedParts(v[..k], m, v[k..]);
  }

  lemma NearestEnds(s: seq<VmArea>, v: seq<Interval>, i: nat, t: VmArea, a: int)
    requires Nearest(s, i, t, a) && Shows(s, v)
    ensures FaultCases.Ends(v, i, a) && At(s, i) == t
    ensures t.start == v[i].start && t.end == v[i].end && t.flags == v[i].flags
  {
  }

  lemma OrderNotFree(sp: SpTree, t: VmArea, alloc: Allocators.Allocator, others: set<VmArea>)
    requires sp.m.Holds(t) && Owned(alloc, sp.m.nodes, others)
    ensures FreeAreas(alloc.st) !! sp.m.nodes && (forall x :: x in sp.m.order ==> x in sp.m.nodes)
    ensures t in sp.m.nodes
  {
  }

  /** A new area, next to the area `t` where the search for its start ended. */
  method PlantNew(sp: SpTree, t: VmArea, a: int, e: int, f: Flags, alloc: Allocators.Allocator, pool: MPool,
                  ghost i: nat, ghost v: seq<Interval>, ghost others: set<VmArea>)
    returns (z: VmArea)
    requires sp.m.Holds(t) && sp.root != null && Shows(sp.m.order, v) && Nearest(sp.m.order, i, t, a) && t.start != a
    requires alloc.Valid() && Owned(alloc, sp.m.nodes, others) && Allocators.Known(alloc.st, pool)
    modifies sp, sp.m.nodes, alloc, pool, FreeAreas(alloc.st), alloc.st.supers.Keys, alloc.st.blocks.Keys
    ensures sp.Valid() && sp.root == z && sp.m.nodes == old(sp.m.nodes) + {z} && i < |v|
    ensures var k := SlotOf(v, i, a); Shows(sp.m.order, Inserted(v, k, Interval(a, e, f))) && At(sp.m.order, k) == z
    ensures alloc.Valid() && Owned(alloc, sp.m.nodes, others) && Allocators.Known(alloc.st, pool)
    ensures z in old(FreeAreas(alloc.st)) || fresh(z)
    ensures Grown(sp, alloc, pool) && pool in alloc.st.pools
  {
    hide Allocators.Sound;
    hide Allocators.Given;
    hide OwnersKept;
    hide HandedOn;
    hide Allocators.Known;
    hide Weave.Holds;
    hide Shows;
    hide Inserted;
    hide Owned;
    hide FreeAreas;
    OrderNotFree(sp, t, alloc, others);
    NodesLive(alloc, sp.m.nodes, others);
    ghost var st, nodes := alloc.st, sp.m.nodes;
    z := NewArea(a, e, f, alloc, pool, sp, t, v, others);
    assert Nearest(sp.m.order, i, t, a) == old(Nearest(sp.m.order, i, t, a));
    assert t.start == old(t.start);
    GivenPool(st, pool, z, alloc.st);
    HandedOne(alloc, st, nodes, z, pool, others);
    InsertArea(sp, t, z, alloc, i, v, others);
  }

  /**
    No area contains the page: a new one, next to the area `t` where the search ended, merged with its
    neighbours.  Whether `t` is stored as the root does not matter here.
  */
  method Add(sp: SpTree, t: VmArea, page: int, a: int, alloc: Allocators.Allocator, pool: MPool,
             ghost i: nat, ghost v: seq<Interval>, ghost others: set<VmArea>)
    returns (n: VmArea)
    requires sp.m.Holds(t) && sp.root != null && Shows(sp.m.order, v) && Nearest(sp.m.order, i, t, a)
    requires page > 0 && Ordered(v) && Clear(v, a, a + page) && !Present(v, a)
    requires alloc.Valid() && Owned(alloc, sp.m.nodes, others) && Allocators.Known(alloc.st, pool)
    modifies sp, sp.m.nodes, alloc, pool, FreeAreas(alloc.st)
    modifies alloc.st.supers.Keys, alloc.st.blocks.Keys, alloc.st.pools.Keys`head
    ensures sp.Valid() && Shows(sp.m.order, Fault(v, page, a))
    ensures n in sp.m.order && n.start <= a && a + page <= n.end
    ensures alloc.Valid() && Owned(alloc, sp.m.nodes, others) && Allocators.Known(alloc.st, pool)
    ensures Grown(sp, alloc, pool) && pool in alloc.st.pools
  {
    hide Allocators.Sound;
    hide Allocators.Given;
    hide OwnersKept;
    hide HandedOn;
    hide Weave.Holds;
    hide Shows;
    hide Nearest;
    hide Merge;
    hide Fault;
    hide FreeAreas;
    hide Owned;
    hide Inserted;
    NearestEnds(sp.m.order, v, i, t, a);
    AbsentShape(v, page, a, i);
    ghost var st, nodes := alloc.st, sp.m.nodes;
    var z := PlantNew(sp, t, a, a + page, READ, alloc, pool, i, v, others);
    ghost var k, m := SlotOf(v, i, a), Interval(a, a + page, READ);
    ghost var st1, nodes1 := alloc.st, sp.m.nodes;
    n := MergeBoth(sp, z, alloc, k, Inserted(v, k, m), others);
    HandedThen(st, nodes, st1, nodes1, alloc.st, sp.m.nodes, Some(pool));
  }

  // ----- the page is present: what the arms do to the intervals -----

  /** The interval at `k` lies between its neighbours. */
  lemma Between(v: seq<Interval>, k: nat)
    requires Ordered(v) && k < |v|
    ensures v[k].start < v[k].end
    ensures k > 0 ==> v[k - 1].start < v[k - 1].end <= v[k].start
    ensures k + 1 < |v| ==> v[k].end <= v[k + 1].start < v[k + 1].end
  {
  }

  lemma ThreeForOne(v: seq<Interval>, k: nat, x: Interval, m: Interval, y: Interval)
    requires k < |v|
    ensures v[..k] + [x, m, y] + v[k + 1..] == Inserted(Inserted(v[k := x], k + 1, y), k + 1, m)
  {
  }

  lemma TwoForTwo(v: seq<Interval>, k: nat, x: Interval, y: Interval)
    requires k + 1 < |v|
    ensures v[..k] + [x, y] + v[k + 2..] == v[k := x][k + 1 := y] == v[k + 1 := y][k := x]
  {
  }

  lemma FrontJoins(v: seq<Interval>, k: nat, m: Interval, y: Interval)
    requires 0 < k < |v| && v[k - 1].end == m.start && v[k - 1].flags == m.flags
    ensures AtFront(v, k, m, y) == v[..k - 1] + [v[k - 1].(end := m.end), y] + v[k + 1..]
  {
  }

  lemma PrefixSplitShape(v: seq<Interval>, page: int, a: int, k: nat)
    requires Faulted(v, page, a, k) && v[k].start == a && v[k].end != a + page
    requires !(k > 0 && v[k - 1].end == a && v[k - 1].flags == WRITE)
    ensures v[k].flags == READ && a + page < v[k].end
    ensures Fault(v, page, a) == Inserted(v[k := v[k].(start := a + page)], k, Interval(a, a + page, WRITE))
  {
    hide Fault;
    hide Faulted;
    PresentRead(v, page, a, k);
    FaultPrefix(v, page, a, k);
  }

  lemma SuffixSplitShape(v: seq<Interval>, page: int, a: int, k: nat)
    requires Faulted(v, page, a, k) && v[k].start != a && v[k].end == a + page
    requires !(k + 1 < |v| && v[k + 1].start == a + page && v[k + 1].flags == WRITE)
    ensures v[k].flags == READ && v[k].start < a
    ensures Fault(v, page, a) == Inserted(v[k := v[k].(end := a)], k + 1, Interval(a, a + page, WRITE))
  {
    hide Fault;
    hide Faulted;
    PresentRead(v, page, a, k);
    FaultSuffix(v, page, a, k);
  }

  lemma MidSplitShape(v: seq<Interval>, page: int, a: int, k: nat)
    requires Faulted(v, page, a, k) && v[k].start != a && v[k].end != a + page
    ensures v[k].flags == READ && v[k].start < a && a + page < v[k].end
    ensures var u := v[k := v[k].(end := a)]; var w := Inserted(u, k + 1, Interval(a + page, v[k].end, READ));
      Fault(v, page, a) == Inserted(w, k + 1, Interval(a, a + page, WRITE))
  {
    hide *;
    PresentRead(v, page, a, k);
    FaultMiddle(v, page, a, k);
    ThreeForOne(v, k, v[k].(end := a), Interval(a, a + page, WRITE), v[k].(start := a + page));
  }

  lemma PrefixMigrateShape(v: seq<Interval>, page: int, a: int, k: nat)
    requires Faulted(v, page, a, k) && v[k].start == a && v[k].end != a + page
    requires k > 0 && v[k - 1].end == a && v[k - 1].flags == WRITE
    ensures v[k].flags == READ && a + page < v[k].end
    ensures Fault(v, page, a) == v[k := v[k].(start := a + page)][k - 1 := v[k - 1].(end := a + page)]
  {
    hide *;
    PresentRead(v, page, a, k);
    FaultPrefix(v, page, a, k);
    FrontJoins(v, k, Interval(a, a + page, WRITE), v[k].(start := a + page));
    TwoForTwo(v, k - 1, v[k - 1].(end := a + page), v[k].(start := a + page));
  }

  lemma SuffixMigrateShape(v: seq<Interval>, page: int, a: int, k: nat)
    requires Faulted(v, page, a, k) && v[k].start != a && v[k].end == a + page
    requires k + 1 < |v| && v[k + 1].start == a + page && v[k + 1].flags == WRITE
    ensures v[k].flags == READ && v[k].start < a
    ensures Fault(v, page, a) == v[k := v[k].(end := a)][k + 1 := v[k + 1].(start := a)]
  {
    hide Fault;
    hide Faulted;
    PresentRead(v, page, a, k);
    FaultSuffix(v, page, a, k);
  }

  lemma WholeShape(v: seq<Interval>, page: int, a: int, k: nat)
    requires Faulted(v, page, a, k) && v[k].start == a && v[k].end == a + page
    ensures v[k].flags == READ
    ensures var u := v[k := v[k].(flags := WRITE)]; Ordered(u) && Fault(v, page, a) == Merge(u[..k], u[k], u[k + 1..])
  {
    hide Fault;
    hide Merge;
    hide Lookup;
    PresentRead(v, page, a, k);
    FaultWhole(v, page, a, k);
    var u := v[k := v[k].(flags := WRITE)];
    SameBounds(v, k, WRITE);
    assert u[..k] == v[..k] && u[k + 1..] == v[k + 1..];
  }

  lemma SameBounds(v: seq<Interval>, k: nat, f: Flags)
    requires Ordered(v) && k < |v|
    ensures Ordered(v[k := v[k].(flags := f)])
  {
    var u := v[k := v[k].(flags := f)];
    assert forall j :: 0 <= j < |v| ==> u[j].start == v[j].start && u[j].end == v[j].end;
  }

  // ----- the page is present: the arms -----

  lemma EndsNearest(s: seq<VmArea>, v: seq<Interval>, i: nat, t: VmArea, b: int)
    requires Shows(s, v) && At(s, i) == t && FaultCases.Ends(v, i, b)
    ensures Nearest(s, i, t, b) && t.start == v[i].start
  {
  }

  lemma FaultedOrder(v: seq<Interval>, page: int, a: int, k: nat)
    requires Faulted(v, page, a, k)
    ensures Ordered(v) && k < |v| && v[k].start < v[k].end && page > 0
    ensures k > 0 ==> v[k - 1].start < v[k - 1].end <= v[k].start
    ensures k + 1 < |v| ==> v[k].end <= v[k + 1].start < v[k + 1].end
  {
    Between(v, k);
  }

  lemma NodeFacts(sp: SpTree, alloc: Allocators.Allocator, v: seq<Interval>, others: set<VmArea>)
    requires sp.Valid() && Shows(sp.m.order, v) && Owned(alloc, sp.m.nodes, others)
    ensures FreeAreas(alloc.st) !! sp.m.nodes && |sp.m.order| == |v|
    ensures forall j :: 0 <= j < |v| ==> sp.m.order[j] in sp.m.nodes && At(sp.m.order, j) == sp.m.order[j]
    ensures forall j :: 0 <= j < |v| ==>
      v[j] == Interval(sp.m.order[j].start, sp.m.order[j].end, sp.m.order[j].flags)
  {
  }

  lemma ShowsAt(s: seq<VmArea>, v: seq<Interval>, k: nat)
    requires Shows(s, v) && k < |v|
    ensures var x := At(s, k); x != null && x in s && v[k] == Interval(x.start, x.end, x.flags)
  {
  }

  /** Bring the area `x`, at position `k`, to the root. */
  method SplayTo(sp: SpTree, x: VmArea, alloc: Allocators.Allocator, ghost k: nat, ghost v: seq<Interval>)
    returns (n: VmArea)
    requires sp.Valid() && Shows(sp.m.order, v) && k < |v| && At(sp.m.order, k) == x
    requires alloc.Valid() && FreeAreas(alloc.st) !! sp.m.nodes
    modifies sp, sp.m.nodes`left, sp.m.nodes`right, sp.m.nodes`parent
    ensures sp.Valid() && Shows(sp.m.order, v) && sp.m.nodes == old(sp.m.nodes) && sp.m.order == old(sp.m.order)
    ensures sp.root == x && n == x && alloc.Valid()
  {
    hide Allocators.Sound;
    hide Allocators.Given;
    hide OwnersKept;
    hide HandedOn;
    hide Linked;
    hide Parented;
    hide Listed;
    ghost var i, links := sp.SplayRoot(x.start);
    assert alloc.Valid() == old(alloc.Valid());
    assert i == k;
    n := sp.root;
  }

  /** The page is a whole area: it gets the promoted flags and is merged with its neighbours. */
  method OnePage(sp: SpTree, n: VmArea, page: int, a: int, alloc: Allocators.Allocator,
                 ghost k: nat, ghost v: seq<Interval>, ghost others: set<VmArea>)
    returns (n': VmArea)
    requires sp.Valid() && Shows(sp.m.order, v) && Faulted(v, page, a, k) && sp.root == n && At(sp.m.order, k) == n
    requires v[k].start == a && v[k].end == a + page
    requires alloc.Valid() && Owned(alloc, sp.m.nodes, others)
    modifies sp, sp.m.nodes, alloc, alloc.st.supers.Keys, alloc.st.blocks.Keys, alloc.st.pools.Keys`head
    ensures sp.Valid() && Shows(sp.m.order, Fault(v, page, a))
    ensures n' in sp.m.order && n'.start <= a && a + page <= n'.end
    ensures alloc.Valid() && Owned(alloc, sp.m.nodes, others)
    ensures Kept(sp, alloc)
  {
    hide Allocators.Sound;
    hide Allocators.Given;
    hide OwnersKept;
    hide HandedOn;
    hide Linked;
    hide Parented;
    hide Listed;
    hide Increasing;
    hide Fault;
    hide Merge;
    WholeShape(v, page, a, k);
    PromoteValues();
    assert n.flags == READ && n in sp.m.nodes;
    hide *;
    SetFlags(n, Promote(n.flags), alloc, sp, v, k);
    n' := MergeBoth(sp, n, alloc, k, v[k := v[k].(flags := WRITE)], others);
  }

  /** The page is the first of a longer area, and the area before takes it. */
  method PrefixMigrate(sp: SpTree, n: VmArea, prev: VmArea, page: int, a: int, alloc: Allocators.Allocator,
                       ghost k: nat, ghost v: seq<Interval>, ghost others: set<VmArea>)
    returns (n': VmArea)
    requires sp.Valid() && Shows(sp.m.order, v) && Faulted(v, page, a, k) && At(sp.m.order, k) == n
    requires k > 0 && At(sp.m.order, k - 1) == prev
    requires v[k].start == a && v[k].end != a + page && v[k - 1].end == a && v[k - 1].flags == WRITE
    requires alloc.Valid() && Owned(alloc, sp.m.nodes, others)
    modifies sp, sp.m.nodes
    ensures sp.Valid() && Shows(sp.m.order, Fault(v, page, a)) && sp.m.nodes == old(sp.m.nodes)
    ensures At(sp.m.order, k - 1) == n' && n'.start <= a && a + page <= n'.end && sp.root == n'
    ensures alloc.Valid() && Owned(alloc, sp.m.nodes, others)
  {
    hide *;
    PrefixMigrateShape(v, page, a, k);
    FaultedOrder(v, page, a, k);
    NodeFacts(sp, alloc, v, others);
    SetStart(n, a + page, alloc, sp, v, k);
    ghost var v1 := v[k := v[k].(start := a + page)];
    SetEnd(prev, a + page, alloc, sp, v1, k - 1);
    ghost var v2 := v1[k - 1 := v1[k - 1].(end := a + page)];
    n' := SplayTo(sp, prev, alloc, k - 1, v2);
    ShowsAt(sp.m.order, v2, k - 1);
  }

  /** The page is the last of a longer area, and the area behind takes it. */
  method SuffixMigrate(sp: SpTree, n: VmArea, next: VmArea, page: int, a: int, alloc: Allocators.Allocator,
                       ghost k: nat, ghost v: seq<Interval>, ghost others: set<VmArea>)
    returns (n': VmArea)
    requires sp.Valid() && Shows(sp.m.order, v) && Faulted(v, page, a, k) && At(sp.m.order, k) == n
    requires k + 1 < |v| && At(sp.m.order, k + 1) == next
    requires v[k].start != a && v[k].end == a + page && v[k + 1].start == a + page && v[k + 1].flags == WRITE
    requires alloc.Valid() && Owned(alloc, sp.m.nodes, others)
    modifies sp, sp.m.nodes
    ensures sp.Valid() && Shows(sp.m.order, Fault(v, page, a)) && sp.m.nodes == old(sp.m.nodes)
    ensures At(sp.m.order, k + 1) == n' && n'.start <= a && a + page <= n'.end && sp.root == n'
    ensures alloc.Valid() && Owned(alloc, sp.m.nodes, others)
  {
    hide *;
    SuffixMigrateShape(v, page, a, k);
    FaultedOrder(v, page, a, k);
    NodeFacts(sp, alloc, v, others);
    SetEnd(n, a, alloc, sp, v, k);
    ghost var v1 := v[k := v[k].(end := a)];
    SetStart(next, a, alloc, sp, v1, k + 1);
    ghost var v2 := v1[k + 1 := v1[k + 1].(start := a)];
    n' := SplayTo(sp, next, alloc, k + 1, v2);
    ShowsAt(sp.m.order, v2, k + 1);
  }

  lemma OwnedFree(alloc: Allocators.Allocator, nodes: set<VmArea>, z: VmArea, others: set<VmArea>)
    requires Owned(alloc, nodes + {z}, others) && z !in nodes
    ensures z !in FreeAreas(alloc.st) && nodes !! FreeAreas(alloc.st) && z !in others
    ensures Owned(alloc, nodes, others + {z})
  {
  }

  lemma OwnedBack(alloc: Allocators.Allocator, nodes: set<VmArea>, z: VmArea, others: set<VmArea>)
    requires Owned(alloc, nodes, others + {z}) && z !in others
    ensures Owned(alloc, nodes + {z}, others) && z !in nodes
  {
  }

  lemma InsertedAt(v: seq<Interval>, k: nat, m: Interval)
    requires k <= |v|
    ensures |Inserted(v, k, m)| == |v| + 1 && Inserted(v, k, m)[k] == m
  {
  }

  /** `InsertArea` at a slot that is known. */
  method Place(sp: SpTree, t: VmArea, z: VmArea, alloc: Allocators.Allocator,
               ghost i: nat, ghost k: nat, ghost m: Interval, ghost v: seq<Interval>, ghost others: set<VmArea>)
    requires sp.Valid() && sp.root == t && Shows(sp.m.order, v) && At(sp.m.order, i) == t
    requires FaultCases.Ends(v, i, m.start) && v[i].start != m.start && SlotOf(v, i, m.start) == k
    requires alloc.Valid() && Owned(alloc, sp.m.nodes + {z}, others) && z !in sp.m.nodes
    requires z.parent == null && z.left == null && z.right == null && z.prev == null && z.next == null
    requires m == Interval(z.start, z.end, z.flags)
    modifies sp, sp.m.nodes`left, sp.m.nodes`right, sp.m.nodes`parent, sp.m.nodes`prev, sp.m.nodes`next
    modifies z`left, z`right, z`parent, z`prev, z`next
    ensures sp.Valid() && sp.root == z && sp.m.nodes == old(sp.m.nodes) + {z}
    ensures Shows(sp.m.order, Inserted(v, k, m)) && At(sp.m.order, k) == z && z in sp.m.order
    ensures alloc.Valid() && Owned(alloc, sp.m.nodes, others)
  {
    hide Allocators.Sound;
    hide Allocators.Given;
    hide OwnersKept;
    hide HandedOn;
    hide Weave.Holds;
    hide Shows;
    hide Inserted;
    hide Nearest;
    hide Owned;
    EndsNearest(sp.m.order, v, i, t, m.start);
    InsertArea(sp, t, z, alloc, i, v, others);
    InsertedAt(v, k, m);
    ShowsAt(sp.m.order, Inserted(v, k, m), k);
  }

  lemma FrontSlot(v: seq<Interval>, page: int, a: int, k: nat)
    requires Faulted(v, page, a, k) && v[k].start == a
    ensures var u := v[k := v[k].(start := a + page)];
      FaultCases.Ends(u, k, a) && u[k].start != a && SlotOf(u, k, a) == k
  {
    Between(v, k);
  }

  /** Shorten `n`, and insert the area for the page, `m`, in front of it. */
  method SplitFront(sp: SpTree, n: VmArea, page: int, a: int, alloc: Allocators.Allocator, pool: MPool,
                    ghost k: nat, ghost m: Interval, ghost v: seq<Interval>, ghost u: seq<Interval>,
                    ghost others: set<VmArea>)
    returns (z: VmArea)
    requires sp.Valid() && Shows(sp.m.order, v) && At(sp.m.order, k) == n && sp.root == n
    requires n in sp.m.nodes && n !in FreeAreas(alloc.st) && k < |v| && u == v[k := v[k].(start := a + page)]
    requires (k > 0 ==> v[k - 1].start < a + page) && (k + 1 < |v| ==> a + page < v[k + 1].start)
    requires m == Interval(a, a + page, Promote(n.flags))
    requires FaultCases.Ends(u, k, a) && u[k].start != a && SlotOf(u, k, a) == k
    requires alloc.Valid() && Owned(alloc, sp.m.nodes, others) && Allocators.Known(alloc.st, pool)
    modifies sp, sp.m.nodes, alloc, pool, FreeAreas(alloc.st), alloc.st.supers.Keys, alloc.st.blocks.Keys
    ensures sp.Valid() && Shows(sp.m.order, Inserted(u, k, m))
    ensures z in sp.m.order && z.start == a && z.end == a + page && sp.root == z
    ensures alloc.Valid() && Owned(alloc, sp.m.nodes, others) && Allocators.Known(alloc.st, pool)
    ensures Grown(sp, alloc, pool)
  {
    hide Allocators.Sound;
    hide Allocators.Given;
    hide OwnersKept;
    hide HandedOn;
    hide Allocators.Known;
    hide Weave.Holds;
    hide Shows;
    hide Inserted;
    hide SlotOf;
    hide FaultCases.Ends;
    hide Owned;
    hide FreeAreas;
    hide Promote;
    hide At;
    NodesLive(alloc, sp.m.nodes, others);
    ghost var st, nodes := alloc.st, sp.m.nodes;
    z := NewArea(a, a + page, Promote(n.flags), alloc, pool, sp, n, v, others);
    HandedOne(alloc, st, nodes, z, pool, others);
    SetStart(n, z.end, alloc, sp, v, k);
    Place(sp, n, z, alloc, k, k, m, u, others);
  }

  /** The page is the first of a longer area, and becomes an area of its own. */
  method PrefixSplit(sp: SpTree, n: VmArea, page: int, a: int, alloc: Allocators.Allocator, pool: MPool,
                     ghost k: nat, ghost v: seq<Interval>, ghost others: set<VmArea>)
    returns (z: VmArea)
    requires sp.Valid() && Shows(sp.m.order, v) && Faulted(v, page, a, k) && At(sp.m.order, k) == n && sp.root == n
    requires v[k].start == a && v[k].end != a + page
    requires !(k > 0 && v[k - 1].end == a && v[k - 1].flags == WRITE)
    requires alloc.Valid() && Owned(alloc, sp.m.nodes, others) && Allocators.Known(alloc.st, pool)
    modifies sp, sp.m.nodes, alloc, pool, FreeAreas(alloc.st), alloc.st.supers.Keys, alloc.st.blocks.Keys
    ensures sp.Valid() && Shows(sp.m.order, Fault(v, page, a))
    ensures z in sp.m.order && z.start == a && z.end == a + page && sp.root == z
    ensures alloc.Valid() && Owned(alloc, sp.m.nodes, others) && Allocators.Known(alloc.st, pool)
    ensures Grown(sp, alloc, pool)
  {
    hide *;
    PrefixSplitShape(v, page, a, k);
    FaultedOrder(v, page, a, k);
    NodeFacts(sp, alloc, v, others);
    FrontSlot(v, page, a, k);
    PromoteValues();
    ghost var u := v[k := v[k].(start := a + page)];
    z := SplitFront(sp, n, page, a, alloc, pool, k, Interval(a, a + page, WRITE), v, u, others);
  }

  lemma BackSlot(v: seq<Interval>, page: int, a: int, k: nat, i: nat)
    requires Faulted(v, page, a, k) && v[k].start != a && FaultCases.Ends(v, i, a) && (i == k || i == k + 1)
    ensures var u := v[k := v[k].(end := a)];
      FaultCases.Ends(u, i, a) && u[i].start != a && SlotOf(u, i, a) == k + 1
  {
  }

  /** Shorten `n`, and insert the area for the page, `m`, behind it. */
  method SplitTwo(sp: SpTree, n: VmArea, page: int, a: int, alloc: Allocators.Allocator, pool: MPool,
                  ghost i: nat, ghost k: nat, ghost m: Interval,
                  ghost v: seq<Interval>, ghost u: seq<Interval>, ghost others: set<VmArea>)
    returns (z: VmArea)
    requires sp.Valid() && Shows(sp.m.order, v) && At(sp.m.order, k) == n && At(sp.m.order, i) == sp.root
    requires sp.root != null && n in sp.m.nodes && n !in FreeAreas(alloc.st) && k < |v| && u == v[k := v[k].(end := a)]
    requires m == Interval(a, a + page, Promote(n.flags))
    requires FaultCases.Ends(u, i, a) && u[i].start != a && SlotOf(u, i, a) == k + 1
    requires alloc.Valid() && Owned(alloc, sp.m.nodes, others) && Allocators.Known(alloc.st, pool)
    modifies sp, sp.m.nodes, alloc, pool, FreeAreas(alloc.st), alloc.st.supers.Keys, alloc.st.blocks.Keys
    ensures sp.Valid() && Shows(sp.m.order, Inserted(u, k + 1, m))
    ensures z in sp.m.order && z.start == a && z.end == a + page && sp.root == z
    ensures alloc.Valid() && Owned(alloc, sp.m.nodes, others) && Allocators.Known(alloc.st, pool)
    ensures Grown(sp, alloc, pool)
  {
    hide Allocators.Sound;
    hide Allocators.Given;
    hide OwnersKept;
    hide HandedOn;
    hide Allocators.Known;
    hide Weave.Holds;
    hide Shows;
    hide Inserted;
    hide SlotOf;
    hide FaultCases.Ends;
    hide Owned;
    hide FreeAreas;
    hide Promote;
    hide At;
    var t := sp.root;
    NodesLive(alloc, sp.m.nodes, others);
    ghost var st, nodes := alloc.st, sp.m.nodes;
    z := NewArea(a, a + page, Promote(n.flags), alloc, pool, sp, t, v, others);
    HandedOne(alloc, st, nodes, z, pool, others);
    SetEnd(n, z.start, alloc, sp, v, k);
    Place(sp, t, z, alloc, i, k + 1, m, u, others);
  }

  /** The page is the last of a longer area, and becomes an area of its own. */
  method SuffixSplit(sp: SpTree, n: VmArea, page: int, a: int, alloc: Allocators.Allocator, pool: MPool,
                     ghost i: nat, ghost k: nat, ghost v: seq<Interval>, ghost others: set<VmArea>)
    returns (z: VmArea)
    requires sp.Valid() && Shows(sp.m.order, v) && Faulted(v, page, a, k) && At(sp.m.order, k) == n
    requires sp.root != null && Nearest(sp.m.order, i, sp.root, a) && (i == k || i == k + 1)
    requires v[k].start != a && v[k].end == a + page
    requires !(k + 1 < |v| && v[k + 1].start == a + page && v[k + 1].flags == WRITE)
    requires alloc.Valid() && Owned(alloc, sp.m.nodes, others) && Allocators.Known(alloc.st, pool)
    modifies sp, sp.m.nodes, alloc, pool, FreeAreas(alloc.st), alloc.st.supers.Keys, alloc.st.blocks.Keys
    ensures sp.Valid() && Shows(sp.m.order, Fault(v, page, a))
    ensures z in sp.m.order && z.start == a && z.end == a + page && sp.root == z
    ensures alloc.Valid() && Owned(alloc, sp.m.nodes, others) && Allocators.Known(alloc.st, pool)
    ensures Grown(sp, alloc, pool)
  {
    hide *;
    SuffixSplitShape(v, page, a, k);
    FaultedOrder(v, page, a, k);
    NodeFacts(sp, alloc, v, others);
    NearestEnds(sp.m.order, v, i, sp.root, a);
    BackSlot(v, page, a, k, i);
    PromoteValues();
    ghost var u := v[k := v[k].(end := a)];
    z := SplitTwo(sp, n, page, a, alloc, pool, i, k, Interval(a, a + page, WRITE), v, u, others);
  }

  lemma RestSlot(v: seq<Interval>, page: int, a: int, k: nat, i: nat)
    requires Faulted(v, page, a, k) && v[k].start != a && v[k].end != a + page
    requires FaultCases.Ends(v, i, a) && (i == k || i == k + 1)
    ensures var u, b := v[k := v[k].(end := a)], a + page;
      FaultCases.Ends(u, i, b) && u[i].start != b && SlotOf(u, i, b) == k + 1
  {
    PresentRead(v, page, a, k);
    FaultedOrder(v, page, a, k);
    forall j | k < j < |v| ensures a + page < v[j].start {
      assert v[k].end <= v[j].start;
    }
  }

  lemma MidSlot(v: seq<Interval>, a: int, k: nat, i: nat, y: Interval)
    requires k < |v| && v[k].start < a < y.start && FaultCases.Ends(v, i, a) && (i == k || i == k + 1)
    requires k + 1 < |v| ==> a < v[k + 1].start
    ensures var w := Inserted(v[k := v[k].(end := a)], k + 1, y);
      FaultCases.Ends(w, k + 1, a) && w[k + 1].start != a && SlotOf(w, k + 1, a) == k + 1
  {
    var w := Inserted(v[k := v[k].(end := a)], k + 1, y);
    forall j | k + 1 < j < |w| ensures a < w[j].start {
      assert w[j] == v[j - 1];
    }
  }

  /** Both new areas of a split in the middle: the page at `a` and what follows it. */
  method NewAreas(n: VmArea, page: int, a: int, alloc: Allocators.Allocator, pool: MPool,
                  ghost sp: SpTree, ghost r: VmArea?, ghost v: seq<Interval>, ghost others: set<VmArea>)
    returns (z: VmArea, t: VmArea)
    requires sp.m.Holds(r) && Shows(sp.m.order, v) && n in sp.m.nodes && n !in FreeAreas(alloc.st)
    requires alloc.Valid() && Owned(alloc, sp.m.nodes, others) && Allocators.Known(alloc.st, pool)
    modifies alloc, pool, alloc.st.supers.Keys, alloc.st.blocks.Keys, FreeAreas(alloc.st)
    ensures sp.m.Holds(r) && Shows(sp.m.order, v)
    ensures alloc.Valid() && Owned(alloc, sp.m.nodes + {t}, others + {z}) && Allocators.Known(alloc.st, pool)
    ensures z !in sp.m.nodes && z !in others && t !in sp.m.nodes && t != z
    ensures z.start == a && z.end == a + page && z.flags == Promote(n.flags)
    ensures t.start == a + page && t.end == n.end && t.flags == n.flags
    ensures z.parent == null && z.left == null && z.right == null && z.prev == null && z.next == null
    ensures t.parent == null && t.left == null && t.right == null && t.prev == null && t.next == null
    ensures (z in old(FreeAreas(alloc.st)) || fresh(z)) && (t in old(FreeAreas(alloc.st)) || fresh(t))
    ensures forall x :: x in FreeAreas(alloc.st) && x !in old(FreeAreas(alloc.st)) ==> fresh(x)
    ensures fresh(alloc.st.supers.Keys - old(alloc.st.supers.Keys))
    ensures fresh(alloc.st.blocks.Keys - old(alloc.st.blocks.Keys))
    ensures old(alloc.st.pools.Keys) <= alloc.st.pools.Keys <= old(alloc.st.pools.Keys) + {pool}
    ensures Allocators.Given(old(alloc.st), pool, z, alloc.st) && Allocators.Given(old(alloc.st), pool, t, alloc.st)
  {
    hide Allocators.Sound;
    hide Allocators.Given;
    hide OwnersKept;
    hide HandedOn;
    hide Weave.Holds;
    hide Shows;
    hide Promote;
    hide Allocators.Known;
    hide Owned;
    hide FreeAreas;
    NodesLive(alloc, sp.m.nodes, others);
    ghost var st := alloc.st;
    z := NewArea(a, a + page, Promote(n.flags), alloc, pool, sp, r, v, others);
    NodesLive(alloc, sp.m.nodes + {z}, others);
    OwnedFree(alloc, sp.m.nodes, z, others);
    ghost var st1 := alloc.st;
    t := NewArea(z.end, n.end, n.flags, alloc, pool, sp, r, v, others + {z});
    NodesLive(alloc, sp.m.nodes + {t}, others + {z});
    GivenThen(alloc, st, st1, z, t, pool, sp.m.nodes, others);
  }

  /** Insert `t`, and then `z` in front of it; the second becomes the root. */
  method PlaceBoth(sp: SpTree, r: VmArea, t: VmArea, z: VmArea, alloc: Allocators.Allocator, ghost i: nat, ghost k: nat,
                   ghost y: Interval, ghost m: Interval, ghost v: seq<Interval>, ghost others: set<VmArea>)
    requires sp.Valid() && sp.root == r && Shows(sp.m.order, v) && At(sp.m.order, i) == r
    requires FaultCases.Ends(v, i, y.start) && v[i].start != y.start && SlotOf(v, i, y.start) == k
    requires var w := Inserted(v, k, y);
      k < |w| && FaultCases.Ends(w, k, m.start) && w[k].start != m.start && SlotOf(w, k, m.start) == k
    requires alloc.Valid() && Owned(alloc, sp.m.nodes + {t}, others + {z})
    requires t !in sp.m.nodes && z !in sp.m.nodes && z !in others && t != z
    requires t.parent == null && t.left == null && t.right == null && t.prev == null && t.next == null
    requires z.parent == null && z.left == null && z.right == null && z.prev == null && z.next == null
    requires y == Interval(t.start, t.end, t.flags) && m == Interval(z.start, z.end, z.flags)
    modifies sp, sp.m.nodes`left, sp.m.nodes`right, sp.m.nodes`parent, sp.m.nodes`prev, sp.m.nodes`next
    modifies t`left, t`right, t`parent, t`prev, t`next, z`left, z`right, z`parent, z`prev, z`next
    ensures sp.Valid() && sp.root == z && z in sp.m.order
    ensures Shows(sp.m.order, Inserted(Inserted(v, k, y), k, m))
    ensures alloc.Valid() && Owned(alloc, sp.m.nodes, others)
    ensures sp.m.nodes == old(sp.m.nodes) + {t, z}
  {
    hide *;
    Place(sp, r, t, alloc, i, k, y, v, others + {z});
    OwnedBack(alloc, sp.m.nodes, z, others);
    Place(sp, t, z, alloc, k, k, m, Inserted(v, k, y), others);
  }

  /** Shorten `n`, and insert the areas for the page, `m`, and for the rest, `y`, behind it. */
  method SplitThree(sp: SpTree, n: VmArea, page: int, a: int, alloc: Allocators.Allocator, pool: MPool,
                    ghost i: nat, ghost k: nat, ghost y: Interval, ghost m: Interval,
                    ghost v: seq<Interval>, ghost u: seq<Interval>, ghost others: set<VmArea>)
    returns (z: VmArea)
    requires sp.Valid() && Shows(sp.m.order, v) && At(sp.m.order, k) == n && At(sp.m.order, i) == sp.root
    requires sp.root != null && n in sp.m.nodes && n !in FreeAreas(alloc.st) && k < |v| && u == v[k := v[k].(end := a)]
    requires m == Interval(a, a + page, Promote(n.flags)) && y == Interval(a + page, n.end, n.flags)
    requires FaultCases.Ends(u, i, y.start) && u[i].start != y.start && SlotOf(u, i, y.start) == k + 1
    requires var w := Inserted(u, k + 1, y);
      k + 1 < |w| && FaultCases.Ends(w, k + 1, a) && w[k + 1].start != a && SlotOf(w, k + 1, a) == k + 1
    requires alloc.Valid() && Owned(alloc, sp.m.nodes, others) && Allocators.Known(alloc.st, pool)
    modifies sp, sp.m.nodes, alloc, pool, FreeAreas(alloc.st), alloc.st.supers.Keys, alloc.st.blocks.Keys
    ensures sp.Valid() && Shows(sp.m.order, Inserted(Inserted(u, k + 1, y), k + 1, m))
    ensures z in sp.m.order && z.start == a && z.end == a + page && sp.root == z
    ensures alloc.Valid() && Owned(alloc, sp.m.nodes, others) && Allocators.Known(alloc.st, pool)
    ensures Grown(sp, alloc, pool)
  {
    hide Allocators.Sound;
    hide Allocators.Given;
    hide OwnersKept;
    hide HandedOn;
    hide Allocators.Known;
    hide Weave.Holds;
    hide Shows;
    hide Inserted;
    hide SlotOf;
    hide FaultCases.Ends;
    hide Owned;
    hide FreeAreas;
    hide Promote;
    hide At;
    var r := sp.root;
    var t;
    NodesLive(alloc, sp.m.nodes, others);
    ghost var st, nodes := alloc.st, sp.m.nodes;
    z, t := NewAreas(n, page, a, alloc, pool, sp, r, v, others);
    HandedTwo(alloc, st, nodes, z, t, pool, others);
    SetEnd(n, z.start, alloc, sp, v, k);
    PlaceBoth(sp, r, t, z, alloc, i, k + 1, y, m, u, others);
  }

  /** The page is in the middle of a longer area, which falls into three. */
  method MidSplit(sp: SpTree, n: VmArea, page: int, a: int, alloc: Allocators.Allocator, pool: MPool,
                  ghost i: nat, ghost k: nat, ghost v: seq<Interval>, ghost others: set<VmArea>)
    returns (z: VmArea)
    requires sp.Valid() && Shows(sp.m.order, v) && Faulted(v, page, a, k) && At(sp.m.order, k) == n
    requires sp.root != null && Nearest(sp.m.order, i, sp.root, a) && (i == k || i == k + 1)
    requires v[k].start != a && v[k].end != a + page
    requires alloc.Valid() && Owned(alloc, sp.m.nodes, others) && Allocators.Known(alloc.st, pool)
    modifies sp, sp.m.nodes, alloc, pool, FreeAreas(alloc.st), alloc.st.supers.Keys, alloc.st.blocks.Keys
    ensures sp.Valid() && Shows(sp.m.order, Fault(v, page, a))
    ensures z in sp.m.order && z.start == a && z.end == a + page && sp.root == z
    ensures alloc.Valid() && Owned(alloc, sp.m.nodes, others) && Allocators.Known(alloc.st, pool)
    ensures Grown(sp, alloc, pool)
  {
    hide *;
    MidSplitShape(v, page, a, k);
    FaultedOrder(v, page, a, k);
    NodeFacts(sp, alloc, v, others);
    NearestEnds(sp.m.order, v, i, sp.root, a);
    ghost var u, y := v[k := v[k].(end := a)], Interval(a + page, v[k].end, READ);
    RestSlot(v, page, a, k, i);
    MidSlot(v, a, k, i, y);
    InsertedAt(u, k + 1, y);
    PromoteValues();
    z := SplitThree(sp, n, page, a, alloc, pool, i, k, y, Interval(a, a + page, WRITE), v, u, others);
  }

  // ----- the whole fault -----

  /** The tree is empty: the new area is all there is. */
  method FirstArea(sp: SpTree, page: int, a: int, alloc: Allocators.Allocator, pool: MPool,
                   ghost v: seq<Interval>, ghost others: set<VmArea>)
    returns (z: VmArea)
    requires sp.Valid() && Shows(sp.m.order, v) && sp.root == null
    requires alloc.Valid() && Owned(alloc, sp.m.nodes, others) && Allocators.Known(alloc.st, pool)
    modifies sp, alloc, pool, FreeAreas(alloc.st), alloc.st.supers.Keys, alloc.st.blocks.Keys
    ensures sp.Valid() && Shows(sp.m.order, Fault(v, page, a))
    ensures z in sp.m.order && z.start == a && z.end == a + page && sp.root == z
    ensures alloc.Valid() && Owned(alloc, sp.m.nodes, others) && Allocators.Known(alloc.st, pool)
    ensures Grown(sp, alloc, pool) && pool in alloc.st.pools
  {
    hide Allocators.Sound;
    hide Allocators.Given;
    hide OwnersKept;
    hide HandedOn;
    hide Weave.Holds;
    hide FreeAreas;
    hide Fault;
    NodesLive(alloc, sp.m.nodes, others);
    ghost var st, nodes := alloc.st, sp.m.nodes;
    z := NewArea(a, a + page, READ, alloc, pool, sp, sp.root, v, others);
    NoNodes(sp);
    GivenPool(st, pool, z, alloc.st);
    HandedOne(alloc, st, nodes, z, pool, others);
    StartArea(sp, z, alloc, others);
    OnlyPage(v, page, a);
  }

  lemma NoNodes(sp: SpTree)
    requires sp.Valid() && sp.root == null
    ensures sp.m.nodes == {} && sp.m.order == []
  {
  }

  lemma OnlyPage(v: seq<Interval>, page: int, a: int)
    requires v == []
    ensures Fault(v, page, a) == [Interval(a, a + page, READ)]
  {
  }

  /** Splay for `a`, store the root, and find the area that contains `a`, if there is one. */
  method Locate(sp: SpTree, page: int, a: int, alloc: Allocators.Allocator,
                ghost v: seq<Interval>, ghost others: set<VmArea>)
    returns (t: VmArea, n: VmArea?, ghost i: nat, ghost k: nat)
    requires sp.Valid() && Shows(sp.m.order, v) && sp.root != null
    requires page > 0 && WellFormed(v, page) && a % page == 0 && Lookup(v, a) != Some(WRITE)
    requires alloc.Valid() && Owned(alloc, sp.m.nodes, others)
    modifies sp, sp.m.nodes`left, sp.m.nodes`right, sp.m.nodes`parent
    ensures sp.Valid() && Shows(sp.m.order, v) && sp.m.nodes == old(sp.m.nodes) && sp.root == t
    ensures alloc.Valid() && Owned(alloc, sp.m.nodes, others)
    ensures Nearest(sp.m.order, i, t, a)
    ensures n == null ==> !Present(v, a)
    ensures n != null ==> Faulted(v, page, a, k) && At(sp.m.order, k) == n && (i == k || i == k + 1)
  {
    hide Allocators.Sound;
    hide Allocators.Given;
    hide OwnersKept;
    hide HandedOn;
    hide Linked;
    hide Parented;
    NodeFacts(sp, alloc, v, others);
    ghost var links;
    i, links := sp.SplayRoot(a);
    assert alloc.Valid() == old(alloc.Valid());
    t := sp.root;
    NearestEnds(sp.m.order, v, i, t, a);
    SearchLocates(v, i, a);
    Neighbours(sp, v, i);
    n, k := null, 0;
    if t.start <= a && a < t.end {
      n, k := t, i;
    } else if t.prev != null {
      if t.prev.start <= a && a < t.prev.end {
        n, k := t.prev, i - 1;
      }
    }
  }

  lemma FirstIsRoot(s: seq<VmArea>, v: seq<Interval>, i: nat, k: nat, t: VmArea, a: int)
    requires Shows(s, v) && Nearest(s, i, t, a) && (i == k || i == k + 1) && k < |v| && v[k].start == a
    ensures i == k && At(s, k) == t
  {
  }

  /** The page begins where the area `n` begins, but ends earlier. */
  method Prefix(sp: SpTree, n: VmArea, page: int, a: int, alloc: Allocators.Allocator, pool: MPool,
                ghost k: nat, ghost v: seq<Interval>, ghost others: set<VmArea>)
    returns (n': VmArea)
    requires sp.Valid() && Shows(sp.m.order, v) && Faulted(v, page, a, k) && At(sp.m.order, k) == n && sp.root == n
    requires v[k].start == a && v[k].end != a + page
    requires alloc.Valid() && Owned(alloc, sp.m.nodes, others) && Allocators.Known(alloc.st, pool)
    modifies sp, sp.m.nodes, alloc, pool, FreeAreas(alloc.st), alloc.st.supers.Keys, alloc.st.blocks.Keys
    ensures sp.Valid() && Shows(sp.m.order, Fault(v, page, a))
    ensures n' in sp.m.order && n'.start <= a && a + page <= n'.end
    ensures alloc.Valid() && Owned(alloc, sp.m.nodes, others) && Allocators.Known(alloc.st, pool)
    ensures Grown(sp, alloc, pool)
  {
    hide Allocators.Sound;
    hide Allocators.Given;
    hide OwnersKept;
    hide HandedOn;
    hide Linked;
    hide Parented;
    hide Listed;
    hide Fault;
    hide Increasing;
    PresentRead(v, page, a, k);
    PromoteValues();
    HandedSame(alloc.st, sp.m.nodes, Some(pool));
    Neighbours(sp, v, k);
    // the area keeps at least a page, so the source's test for having used it up always fails
    assert a + page != n.end;
    hide Faulted;
    if n.prev != null && n.prev.end == n.start && n.prev.flags == Promote(n.flags) {
      n' := PrefixMigrate(sp, n, n.prev, page, a, alloc, k, v, others);
    } else {
      n' := PrefixSplit(sp, n, page, a, alloc, pool, k, v, others);
    }
  }

  /** The page ends where the area `n` ends, but begins later. */
  method Suffix(sp: SpTree, n: VmArea, page: int, a: int, alloc: Allocators.Allocator, pool: MPool,
                ghost i: nat, ghost k: nat, ghost v: seq<Interval>, ghost others: set<VmArea>)
    returns (n': VmArea)
    requires sp.Valid() && Shows(sp.m.order, v) && Faulted(v, page, a, k) && At(sp.m.order, k) == n
    requires sp.root != null && Nearest(sp.m.order, i, sp.root, a) && (i == k || i == k + 1)
    requires v[k].start != a && v[k].end == a + page
    requires alloc.Valid() && Owned(alloc, sp.m.nodes, others) && Allocators.Known(alloc.st, pool)
    modifies sp, sp.m.nodes, alloc, pool, FreeAreas(alloc.st), alloc.st.supers.Keys, alloc.st.blocks.Keys
    ensures sp.Valid() && Shows(sp.m.order, Fault(v, page, a))
    ensures n' in sp.m.order && n'.start <= a && a + page <= n'.end
    ensures alloc.Valid() && Owned(alloc, sp.m.nodes, others) && Allocators.Known(alloc.st, pool)
    ensures Grown(sp, alloc, pool)
  {
    hide Allocators.Sound;
    hide Allocators.Given;
    hide OwnersKept;
    hide HandedOn;
    hide Linked;
    hide Parented;
    hide Listed;
    hide Fault;
    hide Increasing;
    PresentRead(v, page, a, k);
    PromoteValues();
    HandedSame(alloc.st, sp.m.nodes, Some(pool));
    Neighbours(sp, v, k);
    // as in `Prefix`: the test for having used the area up always fails
    assert a != n.start;
    hide Faulted;
    if n.next != null && n.next.start == n.end && n.next.flags == Promote(n.flags) {
      n' := SuffixMigrate(sp, n, n.next, page, a, alloc, k, v, others);
    } else {
      n' := SuffixSplit(sp, n, page, a, alloc, pool, i, k, v, others);
    }
  }

  /** Some area contains the page. */
  method Change(sp: SpTree, n: VmArea, page: int, a: int, alloc: Allocators.Allocator, pool: MPool,
               ghost i: nat, ghost k: nat, ghost v: seq<Interval>, ghost others: set<VmArea>)
    returns (n': VmArea)
    requires sp.Valid() && Shows(sp.m.order, v) && Faulted(v, page, a, k) && At(sp.m.order, k) == n
    requires sp.root != null && Nearest(sp.m.order, i, sp.root, a) && (i == k || i == k + 1)
    requires alloc.Valid() && Owned(alloc, sp.m.nodes, others) && Allocators.Known(alloc.st, pool)
    modifies sp, sp.m.nodes, alloc, pool, FreeAreas(alloc.st)
    modifies alloc.st.supers.Keys, alloc.st.blocks.Keys, alloc.st.pools.Keys`head
    ensures sp.Valid() && Shows(sp.m.order, Fault(v, page, a))
    ensures n' in sp.m.order && n'.start <= a && a + page <= n'.end
    ensures alloc.Valid() && Owned(alloc, sp.m.nodes, others) && Allocators.Known(alloc.st, pool)
    ensures Grown(sp, alloc, pool)
  {
    hide Allocators.Sound;
    hide Allocators.Given;
    hide OwnersKept;
    hide HandedOn;
    hide Weave.Holds;
    hide Fault;
    hide Faulted;
    hide Shows;
    hide Nearest;
    hide At;
    FaultedOrder(v, page, a, k);
    NodeFacts(sp, alloc, v, others);
    if n.start != a && n.end != a + page {
      n' := MidSplit(sp, n, page, a, alloc, pool, i, k, v, others);
    } else if n.start == a && n.end != a + page {
      FirstIsRoot(sp.m.order, v, i, k, sp.root, a);
      n' := Prefix(sp, n, page, a, alloc, pool, k, v, others);
    } else if n.start != a && n.end == a + page {
      n' := Suffix(sp, n, page, a, alloc, pool, i, k, v, others);
    } else {
      FirstIsRoot(sp.m.order, v, i, k, sp.root, a);
      ghost var st, nodes := alloc.st, sp.m.nodes;
      n' := OnePage(sp, n, page, a, alloc, k, v, others);
      HandedAny(st, nodes, alloc.st, sp.m.nodes, Some(pool));
    }
  }

  lemma FaultedPresent(v: seq<Interval>, page: int, a: int, k: nat)
    requires Faulted(v, page, a, k)
    ensures Lookup(v, a) != None
  {
    LookupPresent(v, a);
  }

  /** The tree is not empty: splay, and change what is there or add the page. */
  method FaultTree(sp: SpTree, page: int, a: int, alloc: Allocators.Allocator, pool: MPool,
                   ghost v: seq<Interval>, ghost others: set<VmArea>)
    returns (n: VmArea)
    requires page > 0 && WellFormed(v, page) && a % page == 0 && Lookup(v, a) != Some(WRITE)
    requires sp.Valid() && Shows(sp.m.order, v) && sp.root != null
    requires alloc.Valid() && Owned(alloc, sp.m.nodes, others) && Allocators.Known(alloc.st, pool)
    modifies sp, sp.m.nodes, alloc, pool, FreeAreas(alloc.st)
    modifies alloc.st.supers.Keys, alloc.st.blocks.Keys, alloc.st.pools.Keys`head
    ensures sp.Valid() && Shows(sp.m.order, Fault(v, page, a))
    ensures n in sp.m.order && n.start <= a && a + page <= n.end
    ensures alloc.Valid() && Owned(alloc, sp.m.nodes, others) && Allocators.Known(alloc.st, pool)
    ensures Grown(sp, alloc, pool)
    ensures Lookup(v, a) == None ==> pool in alloc.st.pools
  {
    hide Allocators.Sound;
    hide Allocators.Given;
    hide OwnersKept;
    hide HandedOn;
    hide Allocators.Known;
    hide Weave.Holds;
    hide Fault;
    hide Faulted;
    hide WellFormed;
    hide Lookup;
    hide Nearest;
    hide Shows;
    hide FreeAreas;
    hide Owned;
    hide Present;
    hide View;
    hide Allocators.Allocator.Valid;
    hide At;
    var t, x;
    ghost var i, k;
    t, x, i, k := Locate(sp, page, a, alloc, v, others);
    assert Areas(sp, alloc) == old(Areas(sp, alloc));
    if x == null {
      PageOrder(v, page, a);
      n := Add(sp, t, page, a, alloc, pool, i, v, others);
    } else {
      FaultedPresent(v, page, a, k);
      n := Change(sp, x, page, a, alloc, pool, i, k, v, others);
    }
  }

  /**
    `sp_tree_find_mod_and_lock`: the areas of the tree change as the intervals do under `Fault`, the area
    that is returned is in the tree and contains the page, and the areas that are live outside the tree
    stay what they were.
  */
  method FindMod(sp: SpTree, page: int, a: int, alloc: Allocators.Allocator, pool: MPool, ghost others: set<VmArea>)
    returns (n: VmArea)
    requires page > 0 && WellFormed(View(sp.m.order), page) && a % page == 0
    requires Lookup(View(sp.m.order), a) != Some(WRITE)
    requires sp.Valid() && alloc.Valid() && Owned(alloc, sp.m.nodes, others) && Allocators.Known(alloc.st, pool)
    modifies sp, sp.m.nodes, alloc, pool, FreeAreas(alloc.st)
    modifies alloc.st.supers.Keys, alloc.st.blocks.Keys, alloc.st.pools.Keys`head
    ensures sp.Valid() && View(sp.m.order) == Fault(old(View(sp.m.order)), page, a)
    ensures n in sp.m.order && n.start <= a && a + page <= n.end
    ensures alloc.Valid() && Owned(alloc, sp.m.nodes, others) && Allocators.Known(alloc.st, pool)
    ensures Grown(sp, alloc, pool)
    ensures Lookup(old(View(sp.m.order)), a) == None ==> pool in alloc.st.pools
  {
    hide *;
    ghost var v := View(sp.m.order);
    ShowsView(sp.m.order, v);
    if sp.root == null {
      n := FirstArea(sp, page, a, alloc, pool, v, others);
    } else {
      n := FaultTree(sp, page, a, alloc, pool, v, others);
    }
    ShowsView(sp.m.order, Fault(v, page, a));
  }

  lemma PageOrder(v: seq<Interval>, page: int, a: int)
    requires page > 0 && WellFormed(v, page) && a % page == 0
    ensures Ordered(v) && Clear(v, a, a + page)
  {
    PageClear(v, page, a);
  }
}
