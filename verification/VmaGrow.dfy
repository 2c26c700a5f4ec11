/** Getting memory for the allocator: a new superblock joins the empty global pool. */
module VmaGrow {
  import opened Basics
  import opened VmAreas
  import opened AllocModel
  import opened BlockLists
  import opened BlockSetup
  import opened VmaAlloc

  /** The new superblock by itself. */
  ghost predicate Ready(r: Memory)
    reads r.super, r.blocks`next, r.blocks`prev
  {
    r.super.bctr == 0 && r.super.next == null && BlockList(r.super.head, r.blocks)
  }

  lemma GrowHomes(st: St, r: Memory)
    requires Homes(st.areas) && (forall v :: v in r.areas ==> v.home == r.areas[v])
    ensures Homes(AddSuper(st, r).areas)
  {
  }

  lemma GrowCounters(st: St, r: Memory)
    requires Counters(st.blocks) && Filled(r)
    ensures Counters(AddSuper(st, r).blocks)
  {
    AddIsAdded(st, r);
  }

  lemma GrowFreeLists(st: St, caps: Caps, r: Memory)
    requires FreeLists(st.blocks, FreeAreas(st)) && Filled(r) && RegionOk(r, caps) && Unused(st, r)
    requires AreasOk(st)
    ensures FreeLists(AddSuper(st, r).blocks, FreeAreas(AddSuper(st, r)))
  {
    var st' := AddSuper(st, r);
    AddIsAdded(st, r);
    forall b, v | b in st'.blocks && v in st'.blocks[b].free ensures v in FreeAreas(st') {
      if b in r.frees { assert v in r.areas; } else { assert v in FreeAreas(st); }
    }
    forall b | b in st'.blocks ensures AreaList(b.head, st'.blocks[b].free) {
      if b in r.frees { assert AreaList(b.head, r.frees[b]); } else { assert AreaList(b.head, st.blocks[b].free); }
    }
  }

  lemma GrowQueues(st: St, r: Memory, head: Superblock?)
    requires Queues(ListsOf(st), head) && Ready(r) && (forall b :: b in r.blocks ==> b in r.frees)
    ensures Queues(ListsOf(AddSuper(st, r)), r.super)
  {
    var st' := AddSuper(st, r);
    AddIsAdded(st, r);
    forall p | p in st'.pools ensures p.init && BlockList(p.head, st'.pools[p]) {
      assert BlockList(p.head, st.pools[p]);
    }
    forall s | s in st'.supers ensures s.bctr == st'.supers[s].bctr && BlockList(s.head, st'.supers[s].avail) {
      if s != r.super { assert BlockList(s.head, st.supers[s].avail); }
    }
  }

  /** Set up a superblock from the system. */
  method NewSuper(caps: Caps) returns (s: Superblock, ghost r: Memory)
    requires caps.block >= 1 && caps.super >= 1
    ensures r.super == s && RegionOk(r, caps) && Filled(r) && Ready(r)
    ensures fresh(s) && fresh(r.frees.Keys) && fresh(r.areas.Keys)
    ensures forall v :: v in r.areas ==> v.home == r.areas[v]
  {
    s := new Superblock();
    s.prev := null;
    s.next := null;
    s.bctr := 0;
    r := SetupLists(s, caps);
  }

  /** The same objects in `st`, as far as memory is concerned. */
  ghost predicate Within(st: St, areas: set<VmArea>, blocks: set<Block>, supers: set<Superblock>)
  {
    st.areas.Keys == areas && st.blocks.Keys == blocks && st.supers.Keys == supers
  }

  method NewSuperIn(caps: Caps, ghost n: Interior, ghost q: Lists, ghost g: Superblock?)
    returns (s: Superblock, ghost r: Memory)
    requires caps.block >= 1 && caps.super >= 1 && Insides(n) && Queues(q, g)
    ensures r.super == s && RegionOk(r, caps) && Filled(r) && Ready(r)
    ensures fresh(s) && fresh(r.frees.Keys) && fresh(r.areas.Keys)
    ensures forall v :: v in r.areas ==> v.home == r.areas[v]
    ensures Insides(n) && Queues(q, g)
  {
    s, r := NewSuper(caps);
  }

  /** With the global pool empty, make it the pool of one new superblock. */
  method Expand(head: Superblock?, ghost st: St, caps: Caps,
                ghost areas: set<VmArea>, ghost blocks: set<Block>, ghost supers: set<Superblock>)
    returns (s: Superblock, ghost r: Memory)
    requires caps.block >= 1 && caps.super >= 1 && AreasOk(st) && Represents(st, head)
    requires Within(st, areas, blocks, supers)
    ensures r.super == s && MemoryOk(st, caps, Some(r)) && Represents(AddSuper(st, r), s)
    ensures fresh(s) && fresh(r.frees.Keys) && fresh(r.areas.Keys)
  {
    s, r := NewSuperIn(caps, InteriorOf(st), ListsOf(st), head);
    assert Unused(st, r) by {
      assert s !in supers;
      assert forall b :: b in r.frees ==> b !in blocks;
      assert forall v :: v in r.areas ==> v !in areas;
    }
    GrowHomes(st, r);
    GrowCounters(st, r);
    GrowFreeLists(st, caps, r);
    assert forall b :: b in r.blocks ==> b in r.frees;
    GrowQueues(st, r, head);
  }
}
