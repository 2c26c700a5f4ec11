/** The area allocator: `vma_alloc` and `vma_free`. */
module Allocators {
  import opened Basics
  import opened VmAreas
  import opened AllocModel
  import opened Owners
  import opened BlockLists
  import opened VmaAlloc
  import opened VmaGrow
  import opened VmaRelease

  type Answer = Option<Region<VmArea, Block, Superblock>>

  /** A pool that is not part of the state has never been given a block. */
  ghost predicate Known(st: St, p: MPool)
    reads p
  {
    p in st.pools || !p.init || p.head == null
  }

  ghost predicate Prepared(st: St, p: MPool)
    reads p
  {
    p.init && (p.head == null <==> PoolOf(st, p) == [])
  }

  /** The first use of a pool makes it empty. */
  method InitPool(p: MPool, ghost st: St, ghost head: Superblock?)
    requires Known(st, p) && Represents(st, head)
    modifies p
    ensures Represents(st, head) && Prepared(st, p)
  {
    if !p.init {
      p.init := true;
      p.head := null;
    }
    assert p in st.pools ==> BlockList(p.head, st.pools[p]);
  }

  lemma StealFacts(st: St, caps: Caps, empty: set<Superblock>)
    requires Between(st, caps, empty, {}) && st.global != []
    ensures st.global[0] in st.supers && st.supers[st.global[0]].avail != [] && Loot(st) in st.blocks
    ensures st.supers[st.global[0]].bctr + |st.supers[st.global[0]].avail| == caps.super
    ensures ListsApart(ListsOf(st)) && NoDuplicates(st.global)
  {
    CanSteal(st, caps, empty);
    BetweenApart(st, caps, {});
  }

  /** Steal a block for pool `p` from the first superblock. */
  method StealStep(p: MPool, head: Superblock?, ghost caps: Caps, ghost st: St, ghost empty: set<Superblock>)
    returns (head': Superblock?)
    requires Between(st, caps, empty, {}) && st.global != [] && Represents(st, head) && p.init
    modifies p`head, st.supers.Keys, st.blocks.Keys
    ensures st.global[0] in st.supers && st.supers[st.global[0]].avail != [] && Loot(st) in st.blocks
    ensures Represents(Steal(st, p), head')
  {
    StealFacts(st, caps, empty);
    head' := StealFrom(p, head, st, caps);
  }

  /** Steal a block for pool `p` from a new superblock. */
  method GrowStep(p: MPool, head: Superblock?, caps: Caps, ghost st: St,
                  ghost areas: set<VmArea>, ghost blocks: set<Block>, ghost supers: set<Superblock>)
    returns (head': Superblock?, ghost r: Region<VmArea, Block, Superblock>)
    requires Inv(st, caps) && st.global == [] && Represents(st, head) && Within(st, areas, blocks, supers) && p.init
    modifies p`head, supers, blocks
    ensures MemoryOk(st, caps, Some(r))
    ensures var g := AddSuper(st, r);
      && g.supers[r.super].avail != [] && Loot(g) in g.blocks && Represents(Steal(g, p), head')
    ensures fresh(r.super) && fresh(r.frees.Keys) && fresh(r.areas.Keys)
  {
    var s;
    s, r := Expand(head, st, caps, areas, blocks, supers);
    AddBetween(st, caps, r);
    head' := StealStep(p, s, caps, AddSuper(st, r), {s});
  }

  lemma StockIs(st: St, caps: Caps, p: MPool, memory: Answer)
    requires Inv(st, caps) && MemoryOk(st, caps, memory) && PoolOf(st, p) == [] && (memory.Some? <==> st.global == [])
    ensures var g := Grow(st, memory);
      && g.global != [] && g.global[0] in g.supers && g.supers[g.global[0]].avail != [] && Loot(g) in g.blocks
      && Stock(st, caps, p, memory) == Steal(g, p)
  {
    GrowSteal(st, caps, p, memory);
  }

  /** Steal a block for pool `p`, from a new superblock if there is no other and the system has memory. */
  method StealBlock(p: MPool, head: Superblock?, ok: bool, caps: Caps, ghost st: St,
                    ghost areas: set<VmArea>, ghost blocks: set<Block>, ghost supers: set<Superblock>)
    returns (stolen: bool, head': Superblock?, ghost memory: Answer)
    requires Inv(st, caps) && Represents(st, head) && Within(st, areas, blocks, supers)
    requires p.init && PoolOf(st, p) == []
    modifies p`head, supers, blocks
    ensures MemoryOk(st, caps, memory)
    ensures stolen <==> st.global != [] || ok
    ensures memory.Some? <==> st.global == [] && ok
    ensures memory.Some? ==>
      fresh(memory.value.super) && fresh(memory.value.frees.Keys) && fresh(memory.value.areas.Keys)
    ensures Represents(if stolen then Stock(st, caps, p, memory) else st, head')
    ensures !stolen ==> p.head == old(p.head)
  {
    assert head == SuperAt(st.global, 0);
    memory := None;
    head' := head;
    if head != null {
      head' := StealStep(p, head, caps, st, {});
      StockIs(st, caps, p, memory);
    } else if ok {
      ghost var r;
      head', r := GrowStep(p, head, caps, st, areas, blocks, supers);
      memory := Some(r);
      StockIs(st, caps, p, memory);
    }
    stolen := head != null || ok;
  }

  lemma TakeFacts(st: St, caps: Caps, held: set<Block>, p: MPool)
    requires Between(st, caps, {}, held) && PoolOf(st, p) != []
    ensures p in st.pools && st.pools[p][0] in st.blocks && st.blocks[st.pools[p][0]].free != []
    ensures st.blocks[st.pools[p][0]].vctr + |st.blocks[st.pools[p][0]].free| == caps.block
    ensures ListsApart(ListsOf(st))
  {
    CanTake(st, caps, held, p);
    BetweenApart(st, caps, held);
  }

  /** Hand out an area of the first block of pool `p`. */
  method TakeStep(p: MPool, ghost caps: Caps, ghost st: St, ghost held: set<Block>, ghost head: Superblock?)
    returns (v: VmArea)
    requires Between(st, caps, {}, held) && PoolOf(st, p) != [] && Represents(st, head)
    modifies p`head, st.blocks.Keys
    ensures st.pools[p][0] in st.blocks && st.blocks[st.pools[p][0]].free != []
    ensures Represents(Take(st, p), head) && v == Next(st, p)
  {
    TakeFacts(st, caps, held, p);
    v := TakeFrom(p, st, caps, head);
  }

  /** The objects of `st` and those that come from the system. */
  ghost predicate Extended(st: St, memory: Answer, st': St)
  {
    match memory
    case None => Within(st', st.areas.Keys, st.blocks.Keys, st.supers.Keys)
    case Some(r) => Within(st', st.areas.Keys + r.areas.Keys, st.blocks.Keys + r.frees.Keys, st.supers.Keys + {r.super})
  }

  lemma GrowExtended(st: St, memory: Answer)
    requires memory.Some? ==> st.global == []
    ensures Extended(st, memory, Grow(st, memory))
  {
    if memory.Some? {
      AddIsAdded(st, memory.value);
    }
  }

  lemma StealExtended(st: St, p: MPool)
    requires st.global != [] && st.global[0] in st.supers && st.supers[st.global[0]].avail != []
    requires Loot(st) in st.blocks
    ensures Within(Steal(st, p), st.areas.Keys, st.blocks.Keys, st.supers.Keys)
  {
  }

  lemma StockExtended(st: St, caps: Caps, p: MPool, memory: Answer)
    requires Inv(st, caps) && MemoryOk(st, caps, memory) && PoolOf(st, p) == [] && (memory.Some? <==> st.global == [])
    ensures Extended(st, memory, Stock(st, caps, p, memory))
  {
    StockIs(st, caps, p, memory);
    GrowExtended(st, memory);
    StealExtended(Grow(st, memory), p);
  }

  /** The block that has just been fetched for the pool, if it was empty. */
  ghost function Fetched(st: St, k: St, p: MPool): set<Block>
  {
    if PoolOf(st, p) == [] && PoolOf(k, p) != [] then {PoolOf(k, p)[0]} else {}
  }

  lemma StockBetween(st: St, caps: Caps, p: MPool, memory: Answer)
    requires Inv(st, caps) && MemoryOk(st, caps, memory) && PoolOf(st, p) == [] && (st.global != [] || memory.Some?)
    ensures var k := Stock(st, caps, p, memory); Between(k, caps, {}, Fetched(st, k, p)) && PoolOf(k, p) != []
  {
    GrowSteal(st, caps, p, memory);
  }

  /** Make sure that pool `p` has a block with a free area, if there is memory. */
  method StockPool(p: MPool, head: Superblock?, ok: bool, caps: Caps, ghost st: St,
                   ghost areas: set<VmArea>, ghost blocks: set<Block>, ghost supers: set<Superblock>)
    returns (ready: bool, head': Superblock?, ghost memory: Answer)
    requires Inv(st, caps) && Represents(st, head) && Within(st, areas, blocks, supers) && Prepared(st, p)
    modifies p`head, supers, blocks
    ensures MemoryOk(st, caps, memory)
    ensures ready <==> PoolOf(st, p) != [] || st.global != [] || ok
    ensures !ready ==> p.head == null
    ensures memory.Some? <==> PoolOf(st, p) == [] && st.global == [] && ok
    ensures memory.Some? ==>
      fresh(memory.value.super) && fresh(memory.value.frees.Keys) && fresh(memory.value.areas.Keys)
    ensures var k := Stock(st, caps, p, memory);
      && Represents(k, head') && Extended(st, memory, k)
      && (ready ==> PoolOf(k, p) != [] && Between(k, caps, {}, Fetched(st, k, p)))
  {
    ready, head', memory := true, head, None;
    if p.head == null {
      ready, head', memory := StealBlock(p, head, ok, caps, st, areas, blocks, supers);
      if ready {
        StockBetween(st, caps, p, memory);
        StockExtended(st, caps, p, memory);
      }
    }
  }

  lemma AllocIs(st: St, caps: Caps, p: MPool, memory: Answer)
    requires Inv(st, caps) && MemoryOk(st, caps, memory)
    ensures var k := Stock(st, caps, p, memory);
      if PoolOf(st, p) == [] && st.global == [] && memory == None then
        k == st && Alloc(st, caps, p, memory) == (st, None)
      else
        && PoolOf(k, p) != [] && PoolOf(k, p)[0] in k.blocks && k.blocks[PoolOf(k, p)[0]].free != []
        && Alloc(st, caps, p, memory) == (Take(k, p), Some(Next(k, p)))
  {
    if PoolOf(st, p) != [] || st.global != [] || memory.Some? {
      StockReady(st, caps, p, memory);
    }
  }

  lemma TakeExtended(st: St, p: MPool)
    requires PoolOf(st, p) != [] && PoolOf(st, p)[0] in st.blocks && st.blocks[PoolOf(st, p)[0]].free != []
    ensures Within(Take(st, p), st.areas.Keys, st.blocks.Keys, st.supers.Keys)
    ensures Take(st, p).pools.Keys == st.pools.Keys
  {
  }

  lemma StockPools(st: St, caps: Caps, p: MPool, memory: Answer)
    requires Inv(st, caps) && MemoryOk(st, caps, memory)
    ensures st.pools.Keys <= Stock(st, caps, p, memory).pools.Keys <= st.pools.Keys + {p}
  {
    if !(PoolOf(st, p) != [] || (st.global == [] && memory == None)) {
      GrowSteal(st, caps, p, memory);
      assert Grow(st, memory).pools == st.pools;
    }
  }

  /** An allocation adds memory from the system, if it has been asked, and perhaps a pool. */
  lemma AllocExtended(st: St, caps: Caps, p: MPool, memory: Answer)
    requires Inv(st, caps) && MemoryOk(st, caps, memory)
    requires memory.Some? ==> PoolOf(st, p) == [] && st.global == []
    ensures var st' := Alloc(st, caps, p, memory).0;
      Extended(st, memory, st') && st.pools.Keys <= st'.pools.Keys <= st.pools.Keys + {p}
  {
    AllocIs(st, caps, p, memory);
    StockPools(st, caps, p, memory);
    var k := Stock(st, caps, p, memory);
    if PoolOf(st, p) != [] {
      TakeExtended(st, p);
    } else if st.global != [] || memory.Some? {
      StockExtended(st, caps, p, memory);
      TakeExtended(k, p);
    }
  }

  lemma AllocPools(st: St, caps: Caps, p: MPool, memory: Answer)
    requires Inv(st, caps) && MemoryOk(st, caps, memory)
    ensures var (st', v) := Alloc(st, caps, p, memory); v.Some? ==> p in st'.pools
  {
    AllocIs(st, caps, p, memory);
  }

  /** `vma_alloc` by the thread with pool `p`; `ok` says whether the system has memory for a superblock. */
  method AllocArea(p: MPool, head: Superblock?, ok: bool, caps: Caps, ghost st: St,
                   ghost areas: set<VmArea>, ghost blocks: set<Block>, ghost supers: set<Superblock>)
    returns (v: VmArea?, head': Superblock?, ghost memory: Answer)
    requires Inv(st, caps) && Represents(st, head) && Within(st, areas, blocks, supers) && Prepared(st, p)
    modifies p`head, supers, blocks
    ensures MemoryOk(st, caps, memory)
    ensures memory.Some? ==> PoolOf(st, p) == [] && st.global == []
    ensures memory.Some? ==>
      fresh(memory.value.super) && fresh(memory.value.frees.Keys) && fresh(memory.value.areas.Keys)
    ensures Represents(Alloc(st, caps, p, memory).0, head')
    ensures match Alloc(st, caps, p, memory).1 case None => v == null case Some(w) => v == w
    ensures v == null <==> PoolOf(st, p) == [] && st.global == [] && !ok
    ensures v == null ==> p.head == null
  {
    var ready;
    ready, head', memory := StockPool(p, head, ok, caps, st, areas, blocks, supers);
    AllocIs(st, caps, p, memory);
    if !ready {
      return null, head', memory;
    }
    ghost var k := Stock(st, caps, p, memory);
    v := TakeStep(p, caps, k, Fetched(st, k, p), head');
  }

  /** The links realise a state that keeps the invariant. */
  ghost predicate Sound(st: St, caps: Caps, head: Superblock?)
    reads st.blocks.Keys`vctr, st.blocks.Keys`superblock, st.blocks.Keys`mpool, st.blocks.Keys`head
    reads st.blocks.Keys`next, st.blocks.Keys`prev, FreeAreas(st)`next, st.pools.Keys`init, st.pools.Keys`head
    reads st.supers.Keys`bctr, st.supers.Keys`head, st.supers.Keys`next, st.supers.Keys`prev
  {
    Inv(st, caps) && Represents(st, head)
  }

  datatype Gain = Gain(st: St, memory: Answer, st': St)

  twostate lemma AllGained(new g: Gain)
    requires Extended(g.st, g.memory, g.st')
    requires g.memory.Some? ==>
      fresh(g.memory.value.super) && fresh(g.memory.value.frees.Keys) && fresh(g.memory.value.areas.Keys)
    ensures fresh(g.st'.supers.Keys - g.st.supers.Keys)
    ensures fresh(g.st'.blocks.Keys - g.st.blocks.Keys)
    ensures fresh(g.st'.areas.Keys - g.st.areas.Keys)
  {
  }

  /** `st'` is what an allocation of `v` leaves, as far as callers are concerned. */
  ghost predicate Allocated(st: St, p: MPool, ok: bool, v: VmArea?, st': St)
  {
    && (v == null <==> PoolOf(st, p) == [] && st.global == [] && !ok)
    && (if v == null then st' == st else v !in st.live && st'.live == st.live + {v} && v in st'.areas)
    && st.pools.Keys <= st'.pools.Keys <= st.pools.Keys + {p}
  }

  lemma AllocFacts(st: St, caps: Caps, p: MPool, ok: bool, memory: Answer, v: VmArea?)
    requires Inv(st, caps) && MemoryOk(st, caps, memory)
    requires memory.Some? ==> PoolOf(st, p) == [] && st.global == []
    requires match Alloc(st, caps, p, memory).1 case None => v == null case Some(w) => v == w
    requires v == null <==> PoolOf(st, p) == [] && st.global == [] && !ok
    ensures var st' := Alloc(st, caps, p, memory).0;
      && Allocated(st, p, ok, v, st')
      && Extended(st, memory, st') && Inv(st', caps) && IsStep(st, caps, AllocOp(p, memory), st')
  {
    AllocSafe(st, caps, p, memory);
    AllocExtended(st, caps, p, memory);
  }

  /** If there is an area, it lies in a block of `p`; the other live areas are where they were. */
  ghost predicate Given(st: St, p: MPool, v: VmArea?, st': St)
  {
    OwnersKept(st, st') && (v != null ==> OwnerOf(st', v) == Some(p) && p in st'.pools)
  }

  lemma AllocGiven(st: St, caps: Caps, p: MPool, memory: Answer, v: VmArea?)
    requires Inv(st, caps) && MemoryOk(st, caps, memory)
    requires match Alloc(st, caps, p, memory).1 case None => v == null case Some(w) => v == w
    ensures Given(st, p, v, Alloc(st, caps, p, memory).0)
  {
    hide Inv;
    hide MemoryOk;
    AllocOwners(st, caps, p, memory);
  }

  method AllocFrom(p: MPool, head: Superblock?, ok: bool, caps: Caps, ghost st: St,
                   ghost areas: set<VmArea>, ghost blocks: set<Block>, ghost supers: set<Superblock>)
    returns (v: VmArea?, head': Superblock?, ghost memory: Answer, ghost st': St)
    requires Sound(st, caps, head) && Within(st, areas, blocks, supers) && Known(st, p)
    modifies p, supers, blocks
    ensures memory.Some? ==>
      fresh(memory.value.super) && fresh(memory.value.frees.Keys) && fresh(memory.value.areas.Keys)
    ensures Sound(st', caps, head') && Known(st', p)
    ensures IsStep(st, caps, AllocOp(p, memory), st') && Allocated(st, p, ok, v, st') && Extended(st, memory, st')
    ensures Given(st, p, v, st')
  {
    hide Given;
    InitPool(p, st, head);
    v, head', memory := AllocArea(p, head, ok, caps, st, areas, blocks, supers);
    st' := Alloc(st, caps, p, memory).0;
    AllocPools(st, caps, p, memory);
    AllocFacts(st, caps, p, ok, memory, v);
    AllocGiven(st, caps, p, memory, v);
  }

  method AllocSound(p: MPool, head: Superblock?, ok: bool, caps: Caps, ghost st: St,
                    ghost areas: set<VmArea>, ghost blocks: set<Block>, ghost supers: set<Superblock>)
    returns (v: VmArea?, head': Superblock?, ghost memory: Answer, ghost st': St)
    requires Sound(st, caps, head) && Within(st, areas, blocks, supers) && Known(st, p)
    modifies p, supers, blocks
    ensures Sound(st', caps, head') && Known(st', p)
    ensures IsStep(st, caps, AllocOp(p, memory), st') && Allocated(st, p, ok, v, st') && Given(st, p, v, st')
    ensures fresh(st'.supers.Keys - st.supers.Keys)
    ensures fresh(st'.blocks.Keys - st.blocks.Keys)
    ensures fresh(st'.areas.Keys - st.areas.Keys)
  {
    hide Sound;
    hide IsStep;
    v, head', memory, st' := AllocFrom(p, head, ok, caps, st, areas, blocks, supers);
    AllGained(Gain(st, memory, st'));
  }

  lemma EmptyingWithin(st: St, b: Block)
    requires b in st.blocks && st.blocks[b].super in st.supers
    requires st.blocks[b].owner.Some? && st.blocks[b].owner.value in st.pools
    ensures var st' := Emptying(st, b);
      && st'.areas.Keys <= st.areas.Keys && st'.blocks.Keys <= st.blocks.Keys
      && st'.supers.Keys <= st.supers.Keys && st'.pools.Keys == st.pools.Keys
  {
  }

  lemma PutWithin(st: St, v: VmArea)
    requires v in st.areas && st.areas[v] in st.blocks
    requires st.blocks[st.areas[v]].free == [] && st.blocks[st.areas[v]].owner.Some? ==>
      st.blocks[st.areas[v]].owner.value in st.pools
    ensures var st' := Put(st, v);
      && st'.areas.Keys == st.areas.Keys && st'.blocks.Keys == st.blocks.Keys
      && st'.supers.Keys == st.supers.Keys && st'.pools.Keys == st.pools.Keys
  {
  }

  lemma FreeWithin(st: St, caps: Caps, v: VmArea)
    requires Inv(st, caps) && v in st.live
    ensures var st' := Free(st, caps, v);
      && st'.areas.Keys <= st.areas.Keys && st'.blocks.Keys <= st.blocks.Keys
      && st'.supers.Keys <= st.supers.Keys && st'.pools.Keys == st.pools.Keys
  {
    var b := st.areas[v];
    if st.blocks[b].free == [] {
      FullBlock(st, caps, b);
    }
    PutWithin(st, v);
    PutCounts(st, v);
    if Put(st, v).blocks[b].vctr == 0 {
      EmptyFacts(st, caps, v);
      EmptyingWithin(Put(st, v), b);
    }
  }

  method FreeFrom(v: VmArea, head: Superblock?, ghost caps: Caps, ghost st: St)
    returns (head': Superblock?, ghost st': St)
    requires Sound(st, caps, head) && v in st.live
    modifies v`next, st.blocks.Keys, st.supers.Keys, st.pools.Keys`head
    ensures IsStep(st, caps, FreeOp(v), st') && Sound(st', caps, head')
    ensures st'.live == st.live - {v} && st'.areas.Keys <= st.areas.Keys && OwnersKept(st, st')
    ensures st'.blocks.Keys <= st.blocks.Keys && st'.supers.Keys <= st.supers.Keys && st'.pools.Keys == st.pools.Keys
  {
    hide AreasOk;
    hide BlocksOk;
    hide SupersOk;
    hide PoolsOk;
    hide GlobalOk;
    head' := FreeArea(v, head, st, caps);
    FreeOwners(st, caps, v);
    FreeSafe(st, caps, v);
    FreeWithin(st, caps, v);
    st' := Free(st, caps, v);
  }

  class Allocator {
    const caps: Caps          // areas in a block, and blocks in a superblock
    var head: Superblock?     // superblocks with unused blocks
    ghost var st: St

    constructor (caps: Caps)
      requires caps.block >= 2 && caps.super >= 2
      ensures Valid() && this.caps == caps && st == State(map[], map[], map[], map[], [], {})
    {
      this.caps := caps;
      head, st := null, State(map[], map[], map[], map[], [], {});
    }

    ghost predicate Valid()
      reads this
      reads st.blocks.Keys`vctr, st.blocks.Keys`superblock, st.blocks.Keys`mpool, st.blocks.Keys`head
      reads st.blocks.Keys`next, st.blocks.Keys`prev, FreeAreas(st)`next, st.pools.Keys`init, st.pools.Keys`head
      reads st.supers.Keys`bctr, st.supers.Keys`head, st.supers.Keys`next, st.supers.Keys`prev
    {
      Sound(st, caps, head)
    }

    method Commit(h: Superblock?, ghost st': St)
      requires Sound(st', caps, h)
      modifies this
      ensures Valid() && head == h && st == st'
    {
      hide Inv;
      hide Represents;
      head, st := h, st';
      assert Sound(st', caps, h) == old(Sound(st', caps, h));
    }

    /**
      `vma_alloc` by the thread with pool `p`: an area that was not in use, or null if there is neither
      a free area within reach nor memory for another superblock.
    */
    method Alloc(p: MPool, ok: bool) returns (v: VmArea?, ghost memory: Answer)
      requires Valid() && Known(st, p)
      modifies this, p, st.supers.Keys, st.blocks.Keys
      ensures Valid() && Known(st, p) && IsStep(old(st), caps, AllocOp(p, memory), st)
      ensures v == null <==> PoolOf(old(st), p) == [] && old(st).global == [] && !ok
      ensures if v == null then st == old(st) else v !in old(st.live) && st.live == old(st.live) + {v} && v in st.areas
      ensures fresh(st.supers.Keys - old(st.supers.Keys)) && fresh(st.blocks.Keys - old(st.blocks.Keys))
      ensures fresh(st.areas.Keys - old(st.areas.Keys))
      ensures old(st.pools.Keys) <= st.pools.Keys <= old(st.pools.Keys) + {p}
      ensures Given(old(st), p, v, st)
    {
      hide Sound;
      hide IsStep;
      hide Given;
      hide OwnersKept;
      var h;
      ghost var st';
      v, h, memory, st' := AllocSound(p, head, ok, caps, st, st.areas.Keys, st.blocks.Keys, st.supers.Keys);
      Commit(h, st');
    }

    /** `Alloc` for callers that take for granted that the system has memory. */
    method Supply(p: MPool) returns (v: VmArea)
      requires Valid() && Known(st, p)
      modifies this, p, st.supers.Keys, st.blocks.Keys
      ensures Valid() && Known(st, p)
      ensures v !in old(st.live) && st.live == old(st.live) + {v} && v in st.areas
      ensures fresh(st.supers.Keys - old(st.supers.Keys)) && fresh(st.blocks.Keys - old(st.blocks.Keys))
      ensures fresh(st.areas.Keys - old(st.areas.Keys))
      ensures old(st.pools.Keys) <= st.pools.Keys <= old(st.pools.Keys) + {p}
      ensures Given(old(st), p, v, st)
    {
      hide Sound;
      hide IsStep;
      hide Given;
      hide OwnersKept;
      var w, _ := Alloc(p, true);
      v := w;
    }

    /** `vma_free`, by any thread. */
    method Free(v: VmArea)
      requires Valid() && v in st.live
      modifies this, v`next, st.supers.Keys, st.blocks.Keys, st.pools.Keys`head
      ensures Valid() && IsStep(old(st), caps, FreeOp(v), st) && st.live == old(st.live) - {v}
      ensures OwnersKept(old(st), st)
      ensures st.areas.Keys <= old(st.areas.Keys) && st.blocks.Keys <= old(st.blocks.Keys)
      ensures st.supers.Keys <= old(st.supers.Keys) && st.pools.Keys == old(st.pools.Keys)
    {
      hide Sound;
      hide IsStep;
      hide Given;
      hide OwnersKept;
      var h;
      ghost var st';
      h, st' := FreeFrom(v, head, caps, st);
      Commit(h, st');
    }
  }
}
