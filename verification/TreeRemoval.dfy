/** Removing areas from a tree, and giving them back to the allocator. */
module TreeRemoval {
  import opened Basics
  import opened SplayModel
  import opened VmAreas
  import opened AreaLists
  import opened SplayTree
  import opened SpTrees
  import opened VmaAlloc
  import opened Owners
  import opened TreeViews
  import Allocators

  /** Take the area that starts at `a` out of the tree. */
  method Detach(sp: SpTree, a: int, alloc: Allocators.Allocator, ghost others: set<VmArea>)
    returns (z: VmArea, ghost i: nat)
    requires sp.Valid() && alloc.Valid() && Owned(alloc, sp.m.nodes, others)
    requires exists x :: x in sp.m.order && x.start == a
    modifies sp, sp.m.nodes`left, sp.m.nodes`right, sp.m.nodes`parent, sp.m.nodes`prev, sp.m.nodes`next
    ensures sp.Valid() && alloc.Valid() && Owned(alloc, sp.m.nodes + {z}, others)
    ensures z in old(sp.m.nodes) && z.start == a && sp.m.nodes == old(sp.m.nodes) - {z}
    ensures i < old(|sp.m.order|) && z == old(sp.m.order)[i]
    ensures sp.m.order == old(sp.m.order[..i]) + old(sp.m.order[i + 1..])
  {
    hide Allocators.Sound;
    hide Linked;
    hide Parented;
    hide Listed;
    hide Increasing;
    assert FreeAreas(alloc.st) !! sp.m.nodes;
    z, i := sp.Extract(a);
    assert alloc.Valid() == old(alloc.Valid());
  }

  /** Give `z`, which is in no tree any more, back. */
  method Release(z: VmArea, alloc: Allocators.Allocator, ghost sp: SpTree, ghost others: set<VmArea>)
    requires sp.Valid() && alloc.Valid() && Owned(alloc, sp.m.nodes + {z}, others) && z !in sp.m.nodes
    modifies alloc, z`next, alloc.st.supers.Keys, alloc.st.blocks.Keys, alloc.st.pools.Keys`head
    ensures sp.Valid() && alloc.Valid() && Owned(alloc, sp.m.nodes, others)
    ensures alloc.st.supers.Keys <= old(alloc.st.supers.Keys) && alloc.st.blocks.Keys <= old(alloc.st.blocks.Keys)
    ensures alloc.st.pools.Keys == old(alloc.st.pools.Keys)
    ensures FreeAreas(alloc.st) <= old(FreeAreas(alloc.st)) + {z} && OwnersKept(old(alloc.st), alloc.st)
  {
    hide Allocators.Sound;
    hide OwnersKept;
    hide Weave.Holds;
    alloc.Free(z);
    assert sp.Valid() == old(sp.Valid());
  }

  /** `sp_tree_remove`: the area that starts at `a` leaves the tree and is given back. */
  method Remove(sp: SpTree, a: int, alloc: Allocators.Allocator, ghost others: set<VmArea>)
    returns (ghost t: VmArea, ghost i: nat)
    requires sp.Valid() && alloc.Valid() && Owned(alloc, sp.m.nodes, others)
    requires exists x :: x in sp.m.order && x.start == a
    modifies sp, sp.m.nodes`left, sp.m.nodes`right, sp.m.nodes`parent, sp.m.nodes`prev, sp.m.nodes`next
    modifies alloc, alloc.st.supers.Keys, alloc.st.blocks.Keys, alloc.st.pools.Keys`head
    ensures sp.Valid() && alloc.Valid() && Owned(alloc, sp.m.nodes, others)
    ensures t in old(sp.m.nodes) && t.start == a && sp.m.nodes == old(sp.m.nodes) - {t}
    ensures i < old(|sp.m.order|) && t == old(sp.m.order)[i]
    ensures sp.m.order == old(sp.m.order[..i]) + old(sp.m.order[i + 1..])
    ensures alloc.st.supers.Keys <= old(alloc.st.supers.Keys) && alloc.st.blocks.Keys <= old(alloc.st.blocks.Keys)
    ensures alloc.st.pools.Keys == old(alloc.st.pools.Keys)
    ensures FreeAreas(alloc.st) <= old(FreeAreas(alloc.st)) + {t} && Kept(sp, alloc)
  {
    hide Allocators.Sound;
    hide SpTree.Valid;
    hide Owned;
    hide FreeAreas;
    hide OwnersKept;
    hide HandedOn;
    NodesLive(alloc, sp.m.nodes, others);
    ghost var st, nodes := alloc.st, sp.m.nodes;
    var z;
    z, i := Detach(sp, a, alloc, others);
    t := z;
    Release(z, alloc, sp, others);
    NodesLive(alloc, sp.m.nodes, others);
    HandedRest(st, nodes, alloc.st, sp.m.nodes);
  }

  lemma RootListed(sp: SpTree)
    requires sp.Valid() && sp.root != null
    ensures sp.root in sp.m.order && sp.root in sp.m.nodes
  {
    InorderItems(sp.m.shape);
  }

  lemma NothingListed(sp: SpTree, alloc: Allocators.Allocator, others: set<VmArea>)
    requires sp.Valid() && sp.root == null && Owned(alloc, sp.m.nodes, others)
    ensures sp.m.nodes == {} && alloc.st.live == others
  {
  }

  /** `sp_tree_free`: every area of the tree is given back, each exactly once. */
  method FreeTree(sp: SpTree, alloc: Allocators.Allocator, ghost others: set<VmArea>) returns (ghost freed: seq<VmArea>)
    requires sp.Valid() && alloc.Valid() && Owned(alloc, sp.m.nodes, others)
    modifies sp, sp.m.nodes`left, sp.m.nodes`right, sp.m.nodes`parent, sp.m.nodes`prev, sp.m.nodes`next
    modifies alloc, alloc.st.supers.Keys, alloc.st.blocks.Keys, alloc.st.pools.Keys`head
    ensures sp.Valid() && sp.root == null && sp.m.nodes == {}
    ensures alloc.Valid() && alloc.st.live == others
    ensures NoDuplicates(freed) && (set x | x in freed) == old(sp.m.nodes)
    ensures Kept(sp, alloc)
  {
    hide Allocators.Sound;
    hide SpTree.Valid;
    hide Owned;
    hide FreeAreas;
    hide HandedOn;
    freed := [];
    HandedSame(alloc.st, sp.m.nodes, None);
    while sp.root != null
      invariant sp.Valid() && alloc.Valid() && Owned(alloc, sp.m.nodes, others)
      invariant sp.m.nodes <= old(sp.m.nodes) && Kept(sp, alloc)
      invariant NoDuplicates(freed) && (forall x :: x in freed <==> x in old(sp.m.nodes) && x !in sp.m.nodes)
      decreases |sp.m.nodes|
    {
      RootListed(sp);
      ghost var st, nodes := alloc.st, sp.m.nodes;
      ghost var t, i := Remove(sp, sp.root.start, alloc, others);
      HandedThen(old(alloc.st), old(sp.m.nodes), st, nodes, alloc.st, sp.m.nodes, None);
      assert t !in freed;
      freed := freed + [t];
    }
    NothingListed(sp, alloc, others);
  }
}
