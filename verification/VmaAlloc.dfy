/** The area allocator on linked blocks and superblocks. */
module VmaAlloc {
  import opened Basics
  import opened VmAreas
  import opened AllocModel
  import opened BlockLists

  type St = State<VmArea, Block, Superblock, MPool>
  type Bs = BlockState<VmArea, Superblock, MPool>

  ghost function FreeAreas(st: St): set<VmArea>
  {
    set v | v in st.areas && v !in st.live
  }

  // ----- how the objects represent a state -----

  ghost predicate Homes(areas: map<VmArea, Block>)
  {
    forall v :: v in areas ==> v.home == areas[v]
  }

  ghost predicate Counters(blocks: map<Block, Bs>)
    reads blocks.Keys`vctr, blocks.Keys`superblock, blocks.Keys`mpool
  {
    forall b :: b in blocks ==>
      && b.vctr == blocks[b].vctr && b.superblock == blocks[b].super
      && b.mpool == if blocks[b].owner.Some? then blocks[b].owner.value else null
  }

  ghost predicate FreeLists(blocks: map<Block, Bs>, free: set<VmArea>)
    reads blocks.Keys`head, free`next
  {
    && (forall b, v :: b in blocks && v in blocks[b].free ==> v in free)
    && (forall b :: b in blocks ==> AreaList(b.head, blocks[b].free))
  }

  ghost predicate PoolLists(pools: map<MPool, seq<Block>>, blocks: set<Block>)
    reads pools.Keys`init, pools.Keys`head, blocks`next, blocks`prev
  {
    && (forall p, b :: p in pools && b in pools[p] ==> b in blocks)
    && (forall p :: p in pools ==> p.init && BlockList(p.head, pools[p]))
  }

  ghost predicate AvailLists(supers: map<Superblock, SuperState<Block>>, blocks: set<Block>)
    reads supers.Keys`bctr, supers.Keys`head, blocks`next, blocks`prev
  {
    && (forall s, b :: s in supers && b in supers[s].avail ==> b in blocks)
    && (forall s :: s in supers ==> s.bctr == supers[s].bctr && BlockList(s.head, supers[s].avail))
  }

  ghost predicate GlobalList(global: seq<Superblock>, supers: set<Superblock>, head: Superblock?)
    reads supers`next, supers`prev
  {
    (forall s :: s in global ==> s in supers) && SuperList(head, global)
  }

  /** The part of a state that is about lists of blocks and superblocks. */
  datatype Lists = Lists(pools: map<MPool, seq<Block>>, supers: map<Superblock, SuperState<Block>>,
                         global: seq<Superblock>, blocks: set<Block>)

  ghost function ListsOf(st: St): Lists
  {
    Lists(st.pools, st.supers, st.global, st.blocks.Keys)
  }

  ghost predicate Queues(q: Lists, head: Superblock?)
    reads q.pools.Keys`init, q.pools.Keys`head, q.blocks`next, q.blocks`prev
    reads q.supers.Keys`bctr, q.supers.Keys`head, q.supers.Keys`next, q.supers.Keys`prev
  {
    PoolLists(q.pools, q.blocks) && AvailLists(q.supers, q.blocks) && GlobalList(q.global, q.supers.Keys, head)
  }

  /** The part of a state that is about the insides of blocks. */
  datatype Interior = Interior(areas: map<VmArea, Block>, blocks: map<Block, Bs>, free: set<VmArea>)

  ghost function InteriorOf(st: St): Interior
  {
    Interior(st.areas, st.blocks, FreeAreas(st))
  }

  ghost predicate Insides(n: Interior)
    reads n.blocks.Keys`vctr, n.blocks.Keys`superblock, n.blocks.Keys`mpool, n.blocks.Keys`head, n.free`next
  {
    Homes(n.areas) && Counters(n.blocks) && FreeLists(n.blocks, n.free)
  }

  ghost predicate Represents(st: St, head: Superblock?)
    reads st.blocks.Keys`vctr, st.blocks.Keys`superblock, st.blocks.Keys`mpool, st.blocks.Keys`head
    reads st.blocks.Keys`next, st.blocks.Keys`prev, FreeAreas(st)`next, st.pools.Keys`init, st.pools.Keys`head
    reads st.supers.Keys`bctr, st.supers.Keys`head, st.supers.Keys`next, st.supers.Keys`prev
  {
    Insides(InteriorOf(st)) && Queues(ListsOf(st), head)
  }

  /** The lists of blocks share no block. */
  ghost predicate ListsApart(q: Lists)
  {
    && (forall p :: p in q.pools ==> NoDuplicates(q.pools[p]))
    && (forall s :: s in q.supers ==> NoDuplicates(q.supers[s].avail))
    && (forall p, r, b :: p in q.pools && r in q.pools && b in q.pools[p] && b in q.pools[r] ==> p == r)
    && (forall s, t, b :: s in q.supers && t in q.supers && b in q.supers[s].avail && b in q.supers[t].avail ==> s == t)
    && (forall p, s, b :: p in q.pools && s in q.supers && b in q.pools[p] ==> b !in q.supers[s].avail)
  }

  lemma PooledBlock(st: St, caps: Caps, held: set<Block>, p: MPool, b: Block)
    requires PoolsOk(st, caps, held) && p in st.pools && b in st.pools[p]
    ensures b in st.blocks && st.blocks[b].owner == Some(p) && (st.blocks[b].vctr > 0 || b in held)
  {
  }

  lemma AvailBlock(st: St, caps: Caps, held: set<Block>, s: Superblock, b: Block)
    requires SupersOk(st, caps, held) && s in st.supers && b in st.supers[s].avail
    ensures b in st.blocks && st.blocks[b].super == s && st.blocks[b].vctr == 0 && b !in held
  {
  }

  lemma BetweenApart(st: St, caps: Caps, held: set<Block>)
    requires PoolsOk(st, caps, held) && SupersOk(st, caps, held)
    ensures ListsApart(ListsOf(st))
  {
    forall p, q, b | p in st.pools && q in st.pools && b in st.pools[p] && b in st.pools[q] ensures p == q {
      PooledBlock(st, caps, held, p, b);
      PooledBlock(st, caps, held, q, b);
    }
    forall s, t, b | s in st.supers && t in st.supers && b in st.supers[s].avail && b in st.supers[t].avail
      ensures s == t {
      AvailBlock(st, caps, held, s, b);
      AvailBlock(st, caps, held, t, b);
    }
    forall p, s, b | p in st.pools && s in st.supers && b in st.pools[p] ensures b !in st.supers[s].avail {
      PooledBlock(st, caps, held, p, b);
      if b in st.supers[s].avail { AvailBlock(st, caps, held, s, b); }
    }
  }

  // ----- changes to one list -----

  /** A change to the links of the blocks in `l`. */
  datatype Relinking = Relinking(q: Lists, l: seq<Block>)

  /** The lists of unused blocks are as they were if none of their blocks is concerned. */
  twostate lemma AvailKept(c: Relinking)
    requires old(AvailLists(c.q.supers, c.q.blocks))
    requires forall s :: s in c.q.supers ==> s.head == old(s.head) && s.bctr == old(s.bctr)
    requires forall x :: x in c.q.blocks && x !in c.l ==> x.next == old(x.next) && x.prev == old(x.prev)
    requires forall s, x :: s in c.q.supers && x in c.q.supers[s].avail ==> x !in c.l
    ensures AvailLists(c.q.supers, c.q.blocks)
  {
  }

  /** The same for the pools. */
  twostate lemma PoolsKept(c: Relinking)
    requires old(PoolLists(c.q.pools, c.q.blocks))
    requires forall r :: r in c.q.pools ==> r.head == old(r.head) && r.init == old(r.init)
    requires forall x :: x in c.q.blocks && x !in c.l ==> x.next == old(x.next) && x.prev == old(x.prev)
    requires forall r, x :: r in c.q.pools && x in c.q.pools[r] ==> x !in c.l
    ensures PoolLists(c.q.pools, c.q.blocks)
  {
  }

  /** A change to one pool, whose list becomes `rest`, and to the links of the blocks in `l`. */
  datatype Repooling = Repooling(q: Lists, l: seq<Block>, p: MPool, rest: seq<Block>)

  twostate lemma OtherPoolsKept(c: Repooling)
    requires old(PoolLists(c.q.pools, c.q.blocks)) && c.p in c.q.pools && c.p.init
    requires BlockList(c.p.head, c.rest) && (forall x :: x in c.rest ==> x in c.q.blocks)
    requires forall r :: r in c.q.pools && r != c.p ==> r.head == old(r.head) && r.init == old(r.init)
    requires forall x :: x in c.q.blocks && x !in c.l ==> x.next == old(x.next) && x.prev == old(x.prev)
    requires forall r, x :: r in c.q.pools && r != c.p && x in c.q.pools[r] ==> x !in c.l
    ensures PoolLists(c.q.pools[c.p := c.rest], c.q.blocks)
  {
  }

  /** A change to one superblock, which becomes `ss`, and to the links of the blocks in `l`. */
  datatype Reshelving = Reshelving(q: Lists, l: seq<Block>, s: Superblock, ss: SuperState<Block>)

  twostate lemma OtherAvailKept(c: Reshelving)
    requires old(AvailLists(c.q.supers, c.q.blocks)) && c.s in c.q.supers
    requires BlockList(c.s.head, c.ss.avail) && c.s.bctr == c.ss.bctr
    requires forall x :: x in c.ss.avail ==> x in c.q.blocks
    requires forall r :: r in c.q.supers && r != c.s ==> r.head == old(r.head) && r.bctr == old(r.bctr)
    requires forall x :: x in c.q.blocks && x !in c.l ==> x.next == old(x.next) && x.prev == old(x.prev)
    requires forall r, x :: r in c.q.supers && r != c.s && x in c.q.supers[r].avail ==> x !in c.l
    ensures AvailLists(c.q.supers[c.s := c.ss], c.q.blocks)
  {
  }

  lemma AvailOf(q: Lists, s: Superblock)
    requires AvailLists(q.supers, q.blocks) && s in q.supers
    ensures BlockList(s.head, q.supers[s].avail) && s.bctr == q.supers[s].bctr
    ensures forall x :: x in q.supers[s].avail ==> x in q.blocks
  {
  }

  lemma PoolListOf(q: Lists, p: MPool)
    requires PoolLists(q.pools, q.blocks) && p in q.pools
    ensures p.init && BlockList(p.head, q.pools[p]) && (forall x :: x in q.pools[p] ==> x in q.blocks)
  {
  }

  // ----- taking an area -----

  /** The state after an area has been taken from `b` and before the pool has been brought up to date. */
  ghost function Popped(st: St, b: Block): St
    requires b in st.blocks && st.blocks[b].free != []
  {
    var bs := st.blocks[b];
    st.(blocks := st.blocks[b := bs.(vctr := bs.vctr + 1, free := bs.free[1..])], live := st.live + {bs.free[0]})
  }

  lemma PopFrees(st: St, b: Block)
    requires AreasOk(st) && b in st.blocks && st.blocks[b].free != []
    ensures forall c, v :: c in st.blocks && v in Popped(st, b).blocks[c].free ==> v in FreeAreas(Popped(st, b))
    ensures ListsOf(Popped(st, b)) == ListsOf(st)
  {
    TailMembers(st.blocks[b].free);
    assert Popped(st, b).blocks.Keys == st.blocks.Keys;
    forall c, v | c in st.blocks && v in Popped(st, b).blocks[c].free ensures v in FreeAreas(Popped(st, b)) {
      FreeHome(st, c, v);
      FreeHome(st, b, st.blocks[b].free[0]);
    }
  }

  /** Hand out the first free area of `b`. */
  method PopArea(b: Block, ghost st: St) returns (v: VmArea)
    requires b in st.blocks && st.blocks[b].free != [] && AreasOk(st) && Insides(InteriorOf(st))
    modifies b`head, b`vctr
    ensures Insides(InteriorOf(Popped(st, b)))
    ensures v == st.blocks[b].free[0] && (b.head == null <==> st.blocks[b].free[1..] == [])
  {
    ghost var free, blocks' := st.blocks[b].free, Popped(st, b).blocks;
    TailMembers(free);
    PopFrees(st, b);
    v := b.head;
    b.head := v.next;
    b.vctr := b.vctr + 1;
    assert AreaList(b.head, free[1..]);
    forall c | c in blocks' ensures AreaList(c.head, blocks'[c].free) {
      if c != b {
        assert blocks'[c].free == st.blocks[c].free;
      }
    }
  }

  /** Take the first block off the list of pool `p`. */
  method PopPool(p: MPool, ghost q: Lists, ghost g: Superblock?)
    requires p in q.pools && q.pools[p] != [] && ListsApart(q) && Queues(q, g)
    modifies p`head, (if p.head.next == null then {} else {p.head.next})`prev
    ensures Queues(q.(pools := q.pools[p := q.pools[p][1..]]), g)
  {
    hide PoolLists;
    hide AvailLists;
    hide GlobalList;
    PoolListOf(q, p);
    ghost var s, rest := q.pools[p], q.pools[p][1..];
    assert |s| > 1 ==> s[1] in s;
    assert allocated(q.blocks);
    p.head := PopBlock(p.head, s);
    assert forall x :: x in rest ==> x in s;
    AvailKept(Relinking(q, s));
    OtherPoolsKept(Repooling(q, s, p, rest));
  }

  /** `Take` is what happens inside the block, and possibly to the pool. */
  lemma TakeParts(st: St, p: MPool)
    requires p in st.pools && st.pools[p] != [] && st.pools[p][0] in st.blocks && st.blocks[st.pools[p][0]].free != []
    ensures var b := st.pools[p][0];
      && InteriorOf(Take(st, p)) == InteriorOf(Popped(st, b))
      && Popped(st, b).blocks[b].vctr + |Popped(st, b).blocks[b].free| == st.blocks[b].vctr + |st.blocks[b].free|
      && ListsOf(Take(st, p)) == if st.blocks[b].free[1..] == [] then
           ListsOf(st).(pools := st.pools[p := st.pools[p][1..]]) else ListsOf(st)
  {
    assert Take(st, p).blocks.Keys == st.blocks.Keys;
  }

  method PopAreaIn(b: Block, ghost st: St, ghost q: Lists, ghost g: Superblock?) returns (v: VmArea)
    requires b in st.blocks && st.blocks[b].free != [] && AreasOk(st) && Insides(InteriorOf(st)) && Queues(q, g)
    modifies b`head, b`vctr
    ensures Insides(InteriorOf(Popped(st, b))) && Queues(q, g)
    ensures v == st.blocks[b].free[0] && (b.head == null <==> st.blocks[b].free[1..] == [])
  {
    v := PopArea(b, st);
  }

  /** If block `b` has no free area left, take it off its pool. */
  method TrimPool(p: MPool, b: Block, ghost caps: Caps, ghost n: Interior, ghost q: Lists, ghost g: Superblock?)
    requires p in q.pools && q.pools[p] != [] && ListsApart(q) && Queues(q, g) && Insides(n)
    requires b in n.blocks && n.blocks[b].vctr + |n.blocks[b].free| == caps.block
    modifies p`head, q.blocks`prev
    ensures Queues(if b.head == null then q.(pools := q.pools[p := q.pools[p][1..]]) else q, g) && Insides(n)
  {
    if b.head == null {
      assert |q.pools[p]| > 1 ==> q.pools[p][1] in q.pools[p];
      PopPool(p, q, g);
      assert caps.block == b.vctr;
    }
  }

  /** The end of an allocation: the pool has a block with a free area. */
  method TakeFrom(p: MPool, ghost st: St, ghost caps: Caps, ghost g: Superblock?) returns (v: VmArea)
    requires p in st.pools && st.pools[p] != [] && st.pools[p][0] in st.blocks && st.blocks[st.pools[p][0]].free != []
    requires st.blocks[st.pools[p][0]].vctr + |st.blocks[st.pools[p][0]].free| == caps.block
    requires AreasOk(st) && ListsApart(ListsOf(st)) && Represents(st, g)
    modifies p`head, st.blocks.Keys`head, st.blocks.Keys`vctr, st.blocks.Keys`prev
    ensures Represents(Take(st, p), g)
    ensures v == Next(st, p)
  {
    TakeParts(st, p);
    var b := p.head;
    v := PopAreaIn(b, st, ListsOf(st), g);
    TrimPool(p, b, caps, InteriorOf(Popped(st, b)), ListsOf(st), g);
  }

  // ----- stealing a block -----

  /** Take the first block off the list of superblock `s`. */
  method PopAvail(s: Superblock, b: Block, ghost q: Lists, ghost g: Superblock?)
    requires s in q.supers && q.supers[s].avail != [] && b == s.head && ListsApart(q) && Queues(q, g)
    modifies s`head, s`bctr, (if b.next == null then {} else {b.next})`prev
    ensures Queues(q.(supers := q.supers[s := SuperState(q.supers[s].bctr + 1, q.supers[s].avail[1..])]), g)
    ensures s.head == null <==> q.supers[s].avail[1..] == []
  {
    hide PoolLists;
    hide AvailLists;
    hide GlobalList;
    AvailOf(q, s);
    ghost var l, ss := q.supers[s].avail, SuperState(q.supers[s].bctr + 1, q.supers[s].avail[1..]);
    assert |l| > 1 ==> l[1] in l;
    assert q.supers[s := ss].Keys == q.supers.Keys;
    assert allocated(q.blocks);
    s.head := PopBlock(b, l);
    s.bctr := s.bctr + 1;
    assert forall x :: x in ss.avail ==> x in l;
    PoolsKept(Relinking(q, l));
    OtherAvailKept(Reshelving(q, l, s, ss));
  }

  /** If superblock `s` has no unused block left, take it off the global pool. */
  method TrimGlobal(s: Superblock, head: Superblock?, ghost q: Lists) returns (head': Superblock?)
    requires Queues(q, head) && head == s && NoDuplicates(q.global)
    modifies q.supers.Keys`prev
    ensures Queues(if s.head == null then q.(global := q.global[1..]) else q, head')
  {
    head' := head;
    if s.head == null {
      assert |q.global| > 1 ==> q.global[1] in q.global;
      head' := PopSuper(s, q.global);
    }
  }

  /** Make `b`, which is on no list, the only block of pool `p`. */
  method Adopt(p: MPool, b: Block, ghost q: Lists, ghost g: Superblock?)
    requires Queues(q, g) && p.init && b in q.blocks
    requires forall r :: r in q.pools && r != p ==> b !in q.pools[r]
    requires forall s :: s in q.supers ==> b !in q.supers[s].avail
    modifies p`head, b`prev, b`next, b`mpool
    ensures Queues(q.(pools := q.pools[p := [b]]), g) && b.mpool == p
  {
    ghost var pools' := q.pools[p := [b]];
    p.head := b;
    b.prev := null;
    b.next := null;
    b.mpool := p;
    forall r | r in pools' ensures r.init && BlockList(r.head, pools'[r]) {
      if r != p { assert BlockList(r.head, q.pools[r]) == old(BlockList(r.head, q.pools[r])); }
    }
    forall t | t in q.supers ensures t.bctr == q.supers[t].bctr && BlockList(t.head, q.supers[t].avail) {
      assert BlockList(t.head, q.supers[t].avail) == old(BlockList(t.head, q.supers[t].avail));
    }
  }

  /** What remains of the lists when block `b` is taken off its superblock `s`, the first of the pool. */
  ghost function Looted(q: Lists, s: Superblock): Lists
    requires s in q.supers && q.supers[s].avail != [] && q.global != []
  {
    var rest := q.supers[s].avail[1..];
    q.(supers := q.supers[s := SuperState(q.supers[s].bctr + 1, rest)],
       global := if rest == [] then q.global[1..] else q.global)
  }

  /** The lists after the block has been taken and before the global pool has been brought up to date. */
  ghost function Unstocked(q: Lists, s: Superblock): Lists
    requires s in q.supers && q.supers[s].avail != []
  {
    q.(supers := q.supers[s := SuperState(q.supers[s].bctr + 1, q.supers[s].avail[1..])])
  }

  method PopAvailIn(s: Superblock, b: Block, ghost n: Interior, ghost q: Lists, ghost q1: Lists, ghost g: Superblock?)
    requires s in q.supers && q.supers[s].avail != [] && b == s.head && ListsApart(q) && Queues(q, g) && Insides(n)
    requires q1 == Unstocked(q, s)
    modifies s`head, s`bctr, (if b.next == null then {} else {b.next})`prev
    ensures Queues(q1, g) && Insides(n)
    ensures s.head == null <==> q.supers[s].avail[1..] == []
  {
    PopAvail(s, b, q, g);
  }

  method TrimGlobalIn(s: Superblock, head: Superblock?, ghost caps: Caps, ghost n: Interior, ghost q: Lists)
    returns (head': Superblock?)
    requires Queues(q, head) && Insides(n) && head == s && NoDuplicates(q.global)
    requires s in q.supers && q.supers[s].bctr + |q.supers[s].avail| == caps.super
    modifies q.supers.Keys`prev
    ensures Queues(if s.head == null then q.(global := q.global[1..]) else q, head') && Insides(n)
  {
    assert s.head == null ==> caps.super == s.bctr;
    head' := TrimGlobal(s, head, q);
  }

  method TakeBlock(s: Superblock, head: Superblock?, ghost caps: Caps, ghost n: Interior, ghost q: Lists)
    returns (b: Block, head': Superblock?)
    requires q.global != [] && s == q.global[0] && head == s && s in q.supers && q.supers[s].avail != []
    requires q.supers[s].bctr + |q.supers[s].avail| == caps.super
    requires ListsApart(q) && NoDuplicates(q.global) && Queues(q, head) && Insides(n)
    modifies s`head, s`bctr, q.blocks`prev, q.supers.Keys`prev
    ensures Queues(Looted(q, s), head') && Insides(n) && b == q.supers[s].avail[0]
  {
    b := s.head;
    assert |q.supers[s].avail| > 1 ==> q.supers[s].avail[1] in q.supers[s].avail;
    ghost var q1 := Unstocked(q, s);
    PopAvailIn(s, b, n, q, q1, head);
    head' := TrimGlobalIn(s, head, caps, n, q1);
  }

  method AdoptIn(p: MPool, b: Block, ghost n: Interior, ghost q: Lists, ghost g: Superblock?)
    requires Queues(q, g) && Insides(n) && p.init && b in q.blocks && b in n.blocks
    requires forall r :: r in q.pools && r != p ==> b !in q.pools[r]
    requires forall s :: s in q.supers ==> b !in q.supers[s].avail
    modifies p`head, b`prev, b`next, b`mpool
    ensures Queues(q.(pools := q.pools[p := [b]]), g)
    ensures Insides(n.(blocks := n.blocks[b := n.blocks[b].(owner := Some(p))]))
  {
    Adopt(p, b, q, g);
    ghost var blocks' := n.blocks[b := n.blocks[b].(owner := Some(p))];
    forall c | c in blocks' ensures AreaList(c.head, blocks'[c].free) {
      assert blocks'[c].free == n.blocks[c].free;
    }
  }

  lemma LootApart(q: Lists, s: Superblock, b: Block)
    requires ListsApart(q) && s in q.supers && q.supers[s].avail != [] && q.global != [] && b == q.supers[s].avail[0]
    ensures forall r :: r in q.pools ==> b !in q.pools[r]
    ensures forall t :: t in q.supers ==> b !in Looted(q, s).supers[t].avail
  {
    TailMembers(q.supers[s].avail);
    assert b in q.supers[s].avail;
  }

  /** `Steal` is what happens to the lists, and a new owner for the block. */
  lemma StealParts(st: St, p: MPool)
    requires st.global != [] && st.global[0] in st.supers && st.supers[st.global[0]].avail != []
    requires Loot(st) in st.blocks
    ensures var b, n, q := Loot(st), InteriorOf(st), Looted(ListsOf(st), st.global[0]);
      && InteriorOf(Steal(st, p)) == n.(blocks := n.blocks[b := n.blocks[b].(owner := Some(p))])
      && ListsOf(Steal(st, p)) == q.(pools := q.pools[p := [b]])
  {
    assert Steal(st, p).blocks.Keys == st.blocks.Keys;
  }

  /** Move an unused block from the global pool to pool `p`, which has none. */
  method StealFrom(p: MPool, head: Superblock?, ghost st: St, ghost caps: Caps) returns (head': Superblock?)
    requires st.global != [] && st.global[0] in st.supers && st.supers[st.global[0]].avail != []
    requires Loot(st) in st.blocks
    requires st.supers[st.global[0]].bctr + |st.supers[st.global[0]].avail| == caps.super
    requires ListsApart(ListsOf(st)) && NoDuplicates(st.global) && Represents(st, head) && p.init
    modifies p`head, st.supers.Keys`head, st.supers.Keys`bctr, st.supers.Keys`prev
    modifies st.blocks.Keys`prev, st.blocks.Keys`next, st.blocks.Keys`mpool
    ensures Represents(Steal(st, p), head')
  {
    var s := head;
    var b;
    ghost var n, q := InteriorOf(st), ListsOf(st);
    b, head' := TakeBlock(s, head, caps, n, q);
    LootApart(q, s, b);
    StealParts(st, p);
    AdoptIn(p, b, n, Looted(q, s), head');
  }
}
