/** A tree of areas as a list of intervals, and a tree together with the allocator of its nodes. */
module TreeViews {
  import opened Basics
  import opened Protection
  import opened Intervals
  import opened VmAreas
  import opened AreaLists
  import opened SplayTree
  import opened SpTrees
  import opened VmaAlloc
  import opened Owners
  import Allocators

  // ----- the intervals of a tree -----

  /** The bounds and flags of the areas in `s` are those in `v`. */
  ghost predicate Shows(s: seq<VmArea>, v: seq<Interval>)
    reads s`start, s`end, s`flags
  {
    |s| == |v| && (forall i {:trigger s[i]} {:trigger v[i]} :: 0 <= i < |s| ==>
      v[i] == Interval(s[i].start, s[i].end, s[i].flags))
  }

  lemma ShowsView(s: seq<VmArea>, v: seq<Interval>)
    ensures Shows(s, v) <==> v == View(s)
  {
  }

  lemma ShowsInsert(s: seq<VmArea>, v: seq<Interval>, k: nat, z: VmArea)
    requires Shows(s, v) && k <= |s|
    ensures Shows(s[..k] + [z] + s[k..], v[..k] + [Interval(z.start, z.end, z.flags)] + v[k..])
  {
  }

  lemma ShowsRemove(s: seq<VmArea>, v: seq<Interval>, k: nat)
    requires Shows(s, v) && k < |s|
    ensures Shows(s[..k] + s[k + 1..], v[..k] + v[k + 1..])
  {
  }

  // ----- a tree and the allocator of its nodes -----

  /** The live areas are the nodes in `nodes`, and `others`. */
  ghost predicate Owned(alloc: Allocators.Allocator, nodes: set<VmArea>, others: set<VmArea>)
    reads alloc
  {
    alloc.st.live == nodes + others && nodes !! others
  }

  lemma NodesLive(alloc: Allocators.Allocator, nodes: set<VmArea>, others: set<VmArea>)
    requires Owned(alloc, nodes, others)
    ensures alloc.st.live == nodes + others && nodes !! others
  {
  }

  /** The areas that are in the tree or free: those that a fault may link, change or hand out. */
  ghost function Areas(sp: SpTree, alloc: Allocators.Allocator): set<VmArea>
    reads sp, alloc
  {
    sp.m.nodes + FreeAreas(alloc.st)
  }

  /** The nodes that stay in the tree keep their owners, and new ones lie in blocks of `pool`. */
  twostate predicate Handed(sp: SpTree, alloc: Allocators.Allocator, pool: Option<MPool>)
    reads sp, alloc
  {
    HandedOn(old(alloc.st), old(sp.m.nodes), alloc.st, sp.m.nodes, pool)
  }

  /** No node, area, block or superblock has been added, and the pools and owners are the same. */
  twostate predicate Kept(sp: SpTree, alloc: Allocators.Allocator)
    reads sp, alloc
  {
    && Areas(sp, alloc) <= old(Areas(sp, alloc)) && sp.m.nodes <= old(sp.m.nodes) && Handed(sp, alloc, None)
    && alloc.st.supers.Keys <= old(alloc.st.supers.Keys) && alloc.st.blocks.Keys <= old(alloc.st.blocks.Keys)
    && alloc.st.pools.Keys == old(alloc.st.pools.Keys)
  }

  /** What has been added is new, except for the pools of the callers. */
  twostate predicate GrownBy(sp: SpTree, alloc: Allocators.Allocator, callers: set<MPool>)
    reads sp, alloc
  {
    && (forall x :: x in Areas(sp, alloc) && x !in old(Areas(sp, alloc)) ==> fresh(x))
    && fresh(alloc.st.supers.Keys - old(alloc.st.supers.Keys))
    && fresh(alloc.st.blocks.Keys - old(alloc.st.blocks.Keys))
    && old(alloc.st.pools.Keys) <= alloc.st.pools.Keys <= old(alloc.st.pools.Keys) + callers
  }

  twostate predicate Grown(sp: SpTree, alloc: Allocators.Allocator, pool: MPool)
    reads sp, alloc
  {
    GrownBy(sp, alloc, {pool}) && Handed(sp, alloc, Some(pool))
  }

  /** Move the end of the area at position `k`. */
  method SetEnd(n: VmArea, e: int, alloc: Allocators.Allocator, ghost sp: SpTree, ghost v: seq<Interval>, ghost k: nat)
    requires sp.Valid() && Shows(sp.m.order, v) && k < |v| && At(sp.m.order, k) == n && alloc.Valid()
    modifies n`end
    ensures alloc.Valid() && sp.Valid() && Shows(sp.m.order, v[k := v[k].(end := e)])
  {
    hide Allocators.Sound;
    hide Allocators.Given;
    hide OwnersKept;
    assert forall j :: 0 <= j < |v| && j != k ==> sp.m.order[j].start != n.start;
    n.end := e;
    assert alloc.Valid() == old(alloc.Valid());
  }

  method SetFlags(n: VmArea, f: Flags, alloc: Allocators.Allocator,
                  ghost sp: SpTree, ghost v: seq<Interval>, ghost k: nat)
    requires sp.Valid() && Shows(sp.m.order, v) && k < |v| && At(sp.m.order, k) == n && alloc.Valid()
    modifies n`flags
    ensures alloc.Valid() && sp.Valid() && Shows(sp.m.order, v[k := v[k].(flags := f)])
  {
    hide Allocators.Sound;
    hide Allocators.Given;
    hide OwnersKept;
    assert forall j :: 0 <= j < |v| && j != k ==> sp.m.order[j].start != n.start;
    n.flags := f;
    assert alloc.Valid() == old(alloc.Valid());
  }

  /** Move the start of the area at position `k`: a change of key inside the tree. */
  method SetStart(n: VmArea, a: int, alloc: Allocators.Allocator,
                  ghost sp: SpTree, ghost v: seq<Interval>, ghost k: nat)
    requires sp.Valid() && Shows(sp.m.order, v) && k < |v| && At(sp.m.order, k) == n && alloc.Valid()
    requires (k > 0 ==> v[k - 1].start < a) && (k + 1 < |v| ==> a < v[k + 1].start)
    modifies n`start
    ensures alloc.Valid() && sp.Valid() && Shows(sp.m.order, v[k := v[k].(start := a)])
  {
    hide Allocators.Sound;
    hide Allocators.Given;
    hide OwnersKept;
    ghost var s := sp.m.order;
    assert forall j :: 0 <= j < |v| && j != k ==> s[j].start != n.start;
    n.start := a;
    assert alloc.Valid() == old(alloc.Valid());
    assert Increasing(s) by {
      forall i, j | 0 <= i < j < |s| ensures s[i].start < s[j].start {
        assert i != k ==> s[i].start == old(s[i].start);
        assert j != k ==> s[j].start == old(s[j].start);
        if i == k && k + 1 < j { assert old(s[k + 1].start) < old(s[j].start); }
        if j == k && i < k - 1 { assert old(s[i].start) < old(s[k - 1].start); }
      }
    }
  }

  /** An area from the allocator. */
  method Obtain(alloc: Allocators.Allocator, pool: MPool, ghost nodes: set<VmArea>, ghost others: set<VmArea>)
    returns (z: VmArea)
    requires alloc.Valid() && Owned(alloc, nodes, others) && Allocators.Known(alloc.st, pool)
    modifies alloc, pool, alloc.st.supers.Keys, alloc.st.blocks.Keys
    ensures alloc.Valid() && Owned(alloc, nodes + {z}, others) && Allocators.Known(alloc.st, pool)
    ensures z !in nodes && (z in old(FreeAreas(alloc.st)) || fresh(z))
    ensures forall x :: x in FreeAreas(alloc.st) && x !in old(FreeAreas(alloc.st)) ==> fresh(x)
    ensures fresh(alloc.st.supers.Keys - old(alloc.st.supers.Keys))
    ensures fresh(alloc.st.blocks.Keys - old(alloc.st.blocks.Keys))
    ensures old(alloc.st.pools.Keys) <= alloc.st.pools.Keys <= old(alloc.st.pools.Keys) + {pool}
    ensures Allocators.Given(old(alloc.st), pool, z, alloc.st)
  {
    hide Allocators.Sound;
    hide Allocators.Given;
    hide OwnersKept;
    z := alloc.Supply(pool);
  }

  /** Give `z`, which is not linked yet, its contents. */
  method FillArea(z: VmArea, a: int, e: int, f: Flags, alloc: Allocators.Allocator,
                  ghost sp: SpTree, ghost t: VmArea?, ghost v: seq<Interval>)
    requires sp.m.Holds(t) && Shows(sp.m.order, v) && z !in sp.m.nodes
    requires alloc.Valid() && z in alloc.st.live
    modifies z
    ensures sp.m.Holds(t) && Shows(sp.m.order, v) && alloc.Valid()
    ensures z.start == a && z.end == e && z.flags == f
    ensures z.parent == null && z.left == null && z.right == null && z.prev == null && z.next == null
  {
    hide Allocators.Sound;
    hide Allocators.Given;
    hide OwnersKept;
    hide Linked;
    hide Parented;
    hide Listed;
    hide Increasing;
    assert z !in FreeAreas(alloc.st);
    z.start := a;
    z.end := e;
    z.flags := f;
    InitLinks(z);
    assert sp.m.Holds(t) == old(sp.m.Holds(t));
    assert alloc.Valid() == old(alloc.Valid());
  }

  method ObtainFor(alloc: Allocators.Allocator, pool: MPool,
                   ghost sp: SpTree, ghost t: VmArea?, ghost v: seq<Interval>, ghost others: set<VmArea>)
    returns (z: VmArea)
    requires sp.m.Holds(t) && Shows(sp.m.order, v)
    requires alloc.Valid() && Owned(alloc, sp.m.nodes, others) && Allocators.Known(alloc.st, pool)
    modifies alloc, pool, alloc.st.supers.Keys, alloc.st.blocks.Keys
    ensures sp.m.Holds(t) && Shows(sp.m.order, v)
    ensures alloc.Valid() && Owned(alloc, sp.m.nodes + {z}, others) && Allocators.Known(alloc.st, pool)
    ensures z !in sp.m.nodes && (z in old(FreeAreas(alloc.st)) || fresh(z))
    ensures forall x :: x in FreeAreas(alloc.st) && x !in old(FreeAreas(alloc.st)) ==> fresh(x)
    ensures fresh(alloc.st.supers.Keys - old(alloc.st.supers.Keys))
    ensures fresh(alloc.st.blocks.Keys - old(alloc.st.blocks.Keys))
    ensures old(alloc.st.pools.Keys) <= alloc.st.pools.Keys <= old(alloc.st.pools.Keys) + {pool}
    ensures Allocators.Given(old(alloc.st), pool, z, alloc.st)
  {
    hide Allocators.Sound;
    hide Allocators.Given;
    hide OwnersKept;
    hide Linked;
    hide Parented;
    hide Listed;
    hide Increasing;
    z := Obtain(alloc, pool, sp.m.nodes, others);
    assert sp.m.Holds(t) == old(sp.m.Holds(t));
  }

  /** A new area with the given contents, which is not linked yet. */
  method NewArea(a: int, e: int, f: Flags, alloc: Allocators.Allocator, pool: MPool,
                 ghost sp: SpTree, ghost t: VmArea?, ghost v: seq<Interval>, ghost others: set<VmArea>)
    returns (z: VmArea)
    requires sp.m.Holds(t) && Shows(sp.m.order, v)
    requires alloc.Valid() && Owned(alloc, sp.m.nodes, others) && Allocators.Known(alloc.st, pool)
    modifies alloc, pool, alloc.st.supers.Keys, alloc.st.blocks.Keys, FreeAreas(alloc.st)
    ensures sp.m.Holds(t) && Shows(sp.m.order, v)
    ensures alloc.Valid() && Owned(alloc, sp.m.nodes + {z}, others) && Allocators.Known(alloc.st, pool)
    ensures z !in sp.m.nodes && z.start == a && z.end == e && z.flags == f
    ensures z.parent == null && z.left == null && z.right == null && z.prev == null && z.next == null
    ensures z in old(FreeAreas(alloc.st)) || fresh(z)
    ensures forall x :: x in FreeAreas(alloc.st) && x !in old(FreeAreas(alloc.st)) ==> fresh(x)
    ensures fresh(alloc.st.supers.Keys - old(alloc.st.supers.Keys))
    ensures fresh(alloc.st.blocks.Keys - old(alloc.st.blocks.Keys))
    ensures old(alloc.st.pools.Keys) <= alloc.st.pools.Keys <= old(alloc.st.pools.Keys) + {pool}
    ensures Allocators.Given(old(alloc.st), pool, z, alloc.st)
  {
    hide Allocators.Sound;
    hide Allocators.Given;
    hide OwnersKept;
    hide Weave.Holds;
    hide Shows;
    z := ObtainFor(alloc, pool, sp, t, v, others);
    FillArea(z, a, e, f, alloc, sp, t, v);
  }

  /** Where `InsertHelper` puts an area, in terms of intervals. */
  ghost function SlotOf(v: seq<Interval>, i: nat, a: int): (k: nat)
    requires i < |v|
    ensures k <= |v|
  {
    if a < v[i].start then i else i + 1
  }

  ghost function Inserted(v: seq<Interval>, k: nat, m: Interval): seq<Interval>
    requires k <= |v|
  {
    v[..k] + [m] + v[k..]
  }

  /** `InsertHelper`, with the intervals and the allocator. */
  method InsertArea(sp: SpTree, t: VmArea, z: VmArea, alloc: Allocators.Allocator,
                    ghost i: nat, ghost v: seq<Interval>, ghost others: set<VmArea>)
    requires sp.m.Holds(t) && sp.root != null && Shows(sp.m.order, v)
    requires alloc.Valid() && Owned(alloc, sp.m.nodes + {z}, others) && z !in sp.m.nodes
    requires z.parent == null && z.left == null && z.right == null && z.prev == null && z.next == null
    requires Nearest(sp.m.order, i, t, z.start) && t.start != z.start
    modifies sp, sp.m.nodes`left, sp.m.nodes`right, sp.m.nodes`parent, sp.m.nodes`prev, sp.m.nodes`next
    modifies z`left, z`right, z`parent, z`prev, z`next
    ensures sp.Valid() && sp.root == z && sp.m.nodes == old(sp.m.nodes) + {z} && i < |v|
    ensures var k := SlotOf(v, i, z.start);
      && Shows(sp.m.order, Inserted(v, k, Interval(z.start, z.end, z.flags))) && At(sp.m.order, k) == z
    ensures alloc.Valid() && Owned(alloc, sp.m.nodes, others)
  {
    hide Allocators.Sound;
    hide Allocators.Given;
    hide OwnersKept;
    hide Linked;
    hide Parented;
    hide Listed;
    ghost var s := sp.m.order;
    assert FreeAreas(alloc.st) !! sp.m.nodes + {z};
    sp.InsertHelper(t, z, i);
    assert alloc.Valid() == old(alloc.Valid());
    ShowsInsert(s, v, SlotOf(v, i, z.start), z);
  }

  /** Make `z` the only area of the tree, which is empty. */
  method StartArea(sp: SpTree, z: VmArea, alloc: Allocators.Allocator, ghost others: set<VmArea>)
    requires sp.Valid() && sp.root == null
    requires alloc.Valid() && Owned(alloc, sp.m.nodes + {z}, others)
    requires z.parent == null && z.left == null && z.right == null && z.prev == null && z.next == null
    modifies sp
    ensures sp.Valid() && sp.root == z && sp.m.nodes == {z} && sp.m.order == [z]
    ensures alloc.Valid() && Owned(alloc, sp.m.nodes, others)
  {
    hide Allocators.Sound;
    hide Allocators.Given;
    hide OwnersKept;
    hide Linked;
    hide Parented;
    hide Listed;
    assert FreeAreas(alloc.st) !! sp.m.nodes + {z};
    sp.Start(z);
    assert alloc.Valid() == old(alloc.Valid());
  }

  /** Take the root `z` out of the tree. */
  method TakeRoot(sp: SpTree, z: VmArea, alloc: Allocators.Allocator,
                  ghost i: nat, ghost v: seq<Interval>, ghost others: set<VmArea>)
    requires sp.Valid() && Shows(sp.m.order, v) && i < |v| && At(sp.m.order, i) == z && sp.root == z
    requires alloc.Valid() && Owned(alloc, sp.m.nodes, others)
    modifies sp, sp.m.nodes`left, sp.m.nodes`right, sp.m.nodes`parent, sp.m.nodes`prev, sp.m.nodes`next
    ensures sp.Valid() && Shows(sp.m.order, v[..i] + v[i + 1..])
    ensures sp.m.nodes == old(sp.m.nodes) - {z} && z in old(sp.m.nodes)
    ensures sp.m.order == old(sp.m.order[..i]) + old(sp.m.order[i + 1..])
    ensures i > 0 ==> sp.root == old(sp.m.order)[i - 1]
    ensures alloc.Valid() && Owned(alloc, sp.m.nodes + {z}, others)
  {
    hide Allocators.Sound;
    hide Allocators.Given;
    hide OwnersKept;
    hide Linked;
    hide Parented;
    hide Listed;
    ShowsRemove(sp.m.order, v, i);
    assert FreeAreas(alloc.st) !! sp.m.nodes;
    sp.RemoveHelper(z, i);
    assert alloc.Valid() == old(alloc.Valid());
  }

  /** Give an area that is in no tree any more back to the allocator. */
  method DropArea(z: VmArea, alloc: Allocators.Allocator,
                  ghost sp: SpTree, ghost v: seq<Interval>, ghost others: set<VmArea>)
    requires sp.Valid() && Shows(sp.m.order, v)
    requires alloc.Valid() && Owned(alloc, sp.m.nodes + {z}, others) && z !in sp.m.nodes
    modifies alloc, z`next, alloc.st.supers.Keys, alloc.st.blocks.Keys, alloc.st.pools.Keys`head
    ensures sp.Valid() && Shows(sp.m.order, v)
    ensures alloc.Valid() && Owned(alloc, sp.m.nodes, others)
    ensures alloc.st.supers.Keys <= old(alloc.st.supers.Keys) && alloc.st.blocks.Keys <= old(alloc.st.blocks.Keys)
    ensures alloc.st.pools.Keys == old(alloc.st.pools.Keys)
    ensures FreeAreas(alloc.st) <= old(FreeAreas(alloc.st)) + {z} && OwnersKept(old(alloc.st), alloc.st)
  {
    hide Allocators.Sound;
    hide Allocators.Given;
    hide OwnersKept;
    hide Linked;
    hide Parented;
    hide Listed;
    alloc.Free(z);
  }
}
