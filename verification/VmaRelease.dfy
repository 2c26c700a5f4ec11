/** Giving areas, blocks and superblocks back. */
module VmaRelease {
  import opened Basics
  import opened VmAreas
  import opened AllocModel
  import opened BlockLists
  import opened VmaAlloc

  // ----- an area returns to its block -----

  /** The state after `v` has returned to its block and before the pool has been brought up to date. */
  ghost function Pushed(st: St, v: VmArea): St
    requires v in st.areas && st.areas[v] in st.blocks
  {
    var b := st.areas[v];
    var bs := st.blocks[b];
    st.(blocks := st.blocks[b := bs.(vctr := bs.vctr - 1, free := [v] + bs.free)], live := st.live - {v})
  }

  lemma PushFrees(st: St, v: VmArea)
    requires AreasOk(st) && v in st.live
    ensures forall c, w :: c in st.blocks && w in Pushed(st, v).blocks[c].free ==> w in FreeAreas(Pushed(st, v))
    ensures forall c :: c in st.blocks ==> v !in st.blocks[c].free
    ensures ListsOf(Pushed(st, v)) == ListsOf(st)
  {
    assert Pushed(st, v).blocks.Keys == st.blocks.Keys;
    forall c, w | c in st.blocks && w in Pushed(st, v).blocks[c].free ensures w in FreeAreas(Pushed(st, v)) {
      if w != v { FreeHome(st, c, w); }
    }
    forall c | c in st.blocks ensures v !in st.blocks[c].free {
      if v in st.blocks[c].free { FreeHome(st, c, v); }
    }
  }

  /** The area `v` comes back to the block `b`. */
  datatype Homecoming = Homecoming(st: St, b: Block, v: VmArea)

  /** `v` is on no other free list, so those are as they were. */
  twostate lemma FreesKept(h: Homecoming)
    requires AreasOk(h.st) && h.v in h.st.live && h.b == h.st.areas[h.v]
    requires old(FreeLists(h.st.blocks, FreeAreas(h.st)))
    requires h.b.head == h.v && h.v.next == old(h.b.head)
    requires forall c :: c in h.st.blocks && c != h.b ==> c.head == old(c.head)
    requires forall w :: w in FreeAreas(h.st) && w != h.v ==> w.next == old(w.next)
    ensures FreeLists(Pushed(h.st, h.v).blocks, FreeAreas(Pushed(h.st, h.v)))
  {
    PushFrees(h.st, h.v);
    var blocks' := Pushed(h.st, h.v).blocks;
    forall c | c in blocks' ensures AreaList(c.head, blocks'[c].free) {
      assert old(AreaList(c.head, h.st.blocks[c].free));
      assert forall i :: 0 <= i < |h.st.blocks[c].free| ==> h.st.blocks[c].free[i] in FreeAreas(h.st);
    }
  }

  twostate lemma CountersKept(h: Homecoming)
    requires h.v in h.st.areas && h.b in h.st.blocks && h.b == h.st.areas[h.v] && old(Counters(h.st.blocks))
    requires h.b.vctr == old(h.b.vctr) - 1
    requires forall c :: c in h.st.blocks ==>
      c.superblock == old(c.superblock) && c.mpool == old(c.mpool) && (c != h.b ==> c.vctr == old(c.vctr))
    ensures Counters(Pushed(h.st, h.v).blocks)
  {
  }

  twostate lemma Returned(h: Homecoming)
    requires AreasOk(h.st) && h.v in h.st.live && h.b == h.st.areas[h.v] && old(Insides(InteriorOf(h.st)))
    requires h.b.head == h.v && h.v.next == old(h.b.head) && h.b.vctr == old(h.b.vctr) - 1
    requires forall c :: c in h.st.blocks ==> c.superblock == old(c.superblock) && c.mpool == old(c.mpool)
    requires forall c :: c in h.st.blocks && c != h.b ==> c.vctr == old(c.vctr) && c.head == old(c.head)
    requires forall w :: w in FreeAreas(h.st) && w != h.v ==> w.next == old(w.next)
    ensures Insides(InteriorOf(Pushed(h.st, h.v)))
    ensures h.v.next == null <==> h.st.blocks[h.b].free == []
  {
    CountersKept(h);
    FreesKept(h);
  }

  /** Put `v` at the front of the free list of its block. */
  method PushArea(v: VmArea, b: Block, ghost st: St)
    requires AreasOk(st) && v in st.live && b == st.areas[v] && Insides(InteriorOf(st))
    modifies v`next, b`head, b`vctr
    ensures Insides(InteriorOf(Pushed(st, v)))
    ensures v.next == null <==> st.blocks[b].free == []
  {
    v.next := b.head;
    b.head := v;
    b.vctr := b.vctr - 1;
    Returned(Homecoming(st, b, v));
  }

  method PushAreaIn(v: VmArea, b: Block, ghost st: St, ghost q: Lists, ghost g: Superblock?)
    requires AreasOk(st) && v in st.live && b == st.areas[v] && Insides(InteriorOf(st)) && Queues(q, g)
    modifies v`next, b`head, b`vctr
    ensures Insides(InteriorOf(Pushed(st, v))) && Queues(q, g)
    ensures v.next == null <==> st.blocks[b].free == []
  {
    hide Homes;
    hide Counters;
    hide FreeLists;
    hide PoolLists;
    hide AvailLists;
    hide GlobalList;
    PushArea(v, b, st);
  }

  // ----- blocks between lists -----

  ghost predicate OnNoList(q: Lists, b: Block)
  {
    (forall p :: p in q.pools ==> b !in q.pools[p]) && (forall s :: s in q.supers ==> b !in q.supers[s].avail)
  }

  /** Put `b` at the front of the list of pool `p`. */
  method Requeue(p: MPool, b: Block, ghost q: Lists, ghost l: seq<Block>, ghost g: Superblock?)
    requires p in q.pools && b in q.blocks && OnNoList(q, b) && ListsApart(q) && Queues(q, g)
    requires l == [b] + q.pools[p]
    modifies p`head, b`next, q.blocks`prev
    ensures Queues(q.(pools := q.pools[p := l]), g)
  {
    hide PoolLists;
    hide AvailLists;
    hide GlobalList;
    PoolListOf(q, p);
    assert allocated(q.blocks);
    assert q.pools[p] != [] ==> q.pools[p][0] in q.pools[p];
    PushBlock(b, p.head, q.pools[p]);
    p.head := b;
    assert forall x :: x in l <==> x == b || x in q.pools[p];
    AvailKept(Relinking(q, l));
    OtherPoolsKept(Repooling(q, l, p, l));
  }

  /** Take `b` out of the list of pool `p`. */
  method LeavePool(p: MPool, b: Block, ghost q: Lists, ghost i: nat, ghost rest: seq<Block>, ghost g: Superblock?)
    requires p in q.pools && i < |q.pools[p]| && q.pools[p][i] == b && ListsApart(q) && Queues(q, g)
    requires rest == q.pools[p][..i] + q.pools[p][i + 1..]
    modifies p`head, q.blocks`next, q.blocks`prev
    ensures Queues(q.(pools := q.pools[p := rest]), g)
  {
    hide PoolLists;
    hide AvailLists;
    hide GlobalList;
    PoolListOf(q, p);
    ghost var l := q.pools[p];
    assert allocated(q.blocks);
    p.head := CutBlock(b, p.head, l, i, rest);
    AvailKept(Relinking(q, l));
    OtherPoolsKept(Repooling(q, l, p, rest));
  }

  /** Put `b` at the front of the list of superblock `s`. */
  method Shelve(s: Superblock, b: Block, ghost q: Lists, ghost ss: SuperState<Block>, ghost g: Superblock?)
    requires s in q.supers && b in q.blocks && OnNoList(q, b) && ListsApart(q) && Queues(q, g)
    requires ss == SuperState(q.supers[s].bctr - 1, [b] + q.supers[s].avail)
    modifies s`head, s`bctr, b`next, q.blocks`prev
    ensures Queues(q.(supers := q.supers[s := ss]), g)
    ensures b.next == null <==> q.supers[s].avail == []
  {
    hide NoDuplicates;
    hide PoolLists;
    hide AvailLists;
    hide GlobalList;
    AvailOf(q, s);
    ghost var l := q.supers[s].avail;
    assert q.supers[s := ss].Keys == q.supers.Keys;
    assert allocated(q.blocks);
    assert l != [] ==> l[0] in l;
    PushBlock(b, s.head, l);
    s.head := b;
    s.bctr := s.bctr - 1;
    assert forall x :: x in ss.avail ==> x == b || x in l;
    PoolsKept(Relinking(q, ss.avail));
    OtherAvailKept(Reshelving(q, ss.avail, s, ss));
  }

  // ----- a block returns to its superblock -----

  lemma LeftPool(st: St, caps: Caps, p: MPool, b: Block, i: nat, rest: seq<Block>)
    requires PoolsOk(st, caps, {b}) && SupersOk(st, caps, {b})
    requires p in st.pools && i < |st.pools[p]| && st.pools[p][i] == b
    requires rest == st.pools[p][..i] + st.pools[p][i + 1..]
    ensures var q := ListsOf(st).(pools := st.pools[p := rest]); ListsApart(q) && OnNoList(q, b)
  {
    BetweenApart(st, caps, {b});
    assert b in st.pools[p];
    assert forall x :: x in rest ==> x in st.pools[p];
    assert NoDuplicates(rest);
    forall s | s in st.supers ensures b !in st.supers[s].avail {
      if b in st.supers[s].avail { AvailBlock(st, caps, {b}, s, b); }
    }
  }

  /** `Unpool`, list by list. */
  lemma UnpoolParts(st: St, b: Block)
    requires b in st.blocks && st.blocks[b].super in st.supers
    requires st.blocks[b].owner.Some? && st.blocks[b].owner.value in st.pools
    ensures var p, s := st.blocks[b].owner.value, st.blocks[b].super;
      var ss := st.supers[s];
      && InteriorOf(Unpool(st, b)) == InteriorOf(st)
      && ListsOf(Unpool(st, b)) == ListsOf(st).(
           pools := st.pools[p := Remove(st.pools[p], b)],
           supers := st.supers[s := SuperState(ss.bctr - 1, [b] + ss.avail)],
           global := if ss.bctr != 1 && ss.avail == [] then [s] + st.global else st.global)
  {
  }

  method LeavePoolIn(p: MPool, b: Block, ghost n: Interior, ghost q: Lists, ghost q': Lists, ghost g: Superblock?)
    requires p in q.pools && b in q.pools[p] && ListsApart(q) && Queues(q, g) && Insides(n)
    requires q' == q.(pools := q.pools[p := Remove(q.pools[p], b)])
    modifies p`head, q.blocks`next, q.blocks`prev
    ensures Queues(q', g) && Insides(n)
  {
    ghost var i := RemoveAt(q.pools[p], b);
    LeavePool(p, b, q, i, Remove(q.pools[p], b), g);
  }

  method ShelveIn(s: Superblock, b: Block, ghost n: Interior, ghost q: Lists,
                  ghost ss: SuperState<Block>, ghost g: Superblock?)
    requires s in q.supers && b in q.blocks && OnNoList(q, b) && ListsApart(q) && Queues(q, g) && Insides(n)
    requires ss == SuperState(q.supers[s].bctr - 1, [b] + q.supers[s].avail)
    modifies s`head, s`bctr, b`next, q.blocks`prev
    ensures Queues(q.(supers := q.supers[s := ss]), g) && Insides(n)
    ensures b.next == null <==> q.supers[s].avail == []
    ensures s.bctr == ss.bctr
  {
    Shelve(s, b, q, ss, g);
  }

  /** Put superblock `s` at the front of the global pool. */
  method Offer(s: Superblock, head: Superblock?, ghost n: Interior, ghost q: Lists)
    requires s in q.supers && s !in q.global && NoDuplicates(q.global) && Queues(q, head) && Insides(n)
    modifies s`next, q.supers.Keys`prev
    ensures Queues(q.(global := [s] + q.global), s) && Insides(n)
  {
    assert q.global != [] ==> q.global[0] in q.global;
    PushSuper(s, head, q.global);
  }

  // ----- a superblock returns to the system -----

  lemma DropInsides(st: St, s: Superblock)
    requires AreasOk(st) && Insides(InteriorOf(st))
    ensures Insides(InteriorOf(DropSuper(st, s)))
  {
    var st' := DropSuper(st, s);
    forall b, v | b in st'.blocks && v in st'.blocks[b].free ensures v in FreeAreas(st') {
      FreeHome(st, b, v);
    }
    forall b | b in st'.blocks ensures AreaList(b.head, st'.blocks[b].free) {
      assert AreaList(b.head, st.blocks[b].free);
    }
  }

  lemma DropQueues(st: St, caps: Caps, s: Superblock, head: Superblock?)
    requires PoolLists(st.pools, st.blocks.Keys) && AvailLists(st.supers, st.blocks.Keys)
    requires Inv(DropSuper(st, s), caps) && SuperList(head, Remove(st.global, s))
    ensures Queues(ListsOf(DropSuper(st, s)), head)
  {
    var st' := DropSuper(st, s);
    forall p, b | p in st'.pools && b in st'.pools[p] ensures b in st'.blocks {
      PooledBlock(st', caps, {}, p, b);
    }
    forall t, b | t in st'.supers && b in st'.supers[t].avail ensures b in st'.blocks {
      AvailBlock(st', caps, {}, t, b);
    }
  }

  /** Take superblock `s` out of the global pool. */
  method LeaveGlobal(s: Superblock, head: Superblock, ghost n: Interior, ghost q: Lists) returns (head': Superblock?)
    requires s in q.global && NoDuplicates(q.global) && Queues(q, head) && Insides(n)
    modifies q.supers.Keys`next, q.supers.Keys`prev
    ensures SuperList(head', Remove(q.global, s)) && Insides(n)
    ensures PoolLists(q.pools, q.blocks) && AvailLists(q.supers, q.blocks)
  {
    ghost var i := RemoveAt(q.global, s);
    assert i > 0 ==> q.global[i - 1] in q.global;
    assert i + 1 < |q.global| ==> q.global[i + 1] in q.global;
    head' := UnlinkSuper(s, head, q.global, i);
  }

  /** Give the unused superblock `s` back to the system. */
  method PutSuper(s: Superblock, head: Superblock?, ghost st: St, ghost caps: Caps) returns (head': Superblock?)
    requires Between(st, caps, {s}, {}) && s in st.supers && st.supers[s].bctr == 0 && Represents(st, head)
    modifies st.supers.Keys`next, st.supers.Keys`prev
    ensures Represents(DropSuper(st, s), head')
  {
    DropInv(st, caps, s);
    head' := LeaveGlobal(s, head, InteriorOf(st), ListsOf(st));
    DropInsides(st, s);
    DropQueues(st, caps, s, head');
  }

  // ----- the whole release -----

  /** `Unpool` followed, if the superblock is not in use any more, by `DropSuper`. */
  ghost function Emptying(st: St, b: Block): St
    requires b in st.blocks && st.blocks[b].super in st.supers
    requires st.blocks[b].owner.Some? && st.blocks[b].owner.value in st.pools
  {
    var s, un := st.blocks[b].super, Unpool(st, b);
    if un.supers[s].bctr != 0 then un else DropSuper(un, s)
  }

  /** Return block `b`, which has left its pool, to its superblock. */
  method ReturnBlock(b: Block, head: Superblock?, ghost st: St, ghost caps: Caps, ghost q: Lists)
    returns (head': Superblock?)
    requires Between(st, caps, {}, {b}) && b in st.blocks && st.blocks[b].vctr == 0
    requires st.blocks[b].super in st.supers && st.blocks[b].owner.Some? && st.blocks[b].owner.value in st.pools
    requires var p := st.blocks[b].owner.value; q == ListsOf(st).(pools := st.pools[p := Remove(st.pools[p], b)])
    requires OnNoList(q, b) && ListsApart(q) && Queues(q, head) && Insides(InteriorOf(st))
    modifies q.supers.Keys, b`next, q.blocks`prev
    ensures Represents(Emptying(st, b), head')
  {
    ghost var n, un := InteriorOf(st), Unpool(st, b);
    UnpoolParts(st, b);
    UnpoolBetween(st, caps, b);
    var s := b.superblock;
    assert s == st.blocks[b].super;
    ghost var ss := un.supers[s];
    ShelveIn(s, b, n, q, ss, head);
    if s.bctr == 0 {
      head' := PutSuper(s, head, un, caps);
    } else {
      head' := head;
      if b.next == null {
        Offer(s, head, n, q.(supers := q.supers[s := ss]));
        head' := s;
        assert caps.super - 1 == s.bctr;
      }
    }
  }

  /** Take the unused block `b` from its pool to its superblock. */
  method EmptyBlock(b: Block, head: Superblock?, ghost st: St, ghost caps: Caps) returns (head': Superblock?)
    requires Between(st, caps, {}, {b}) && b in st.blocks && st.blocks[b].vctr == 0 && Represents(st, head)
    requires st.blocks[b].super in st.supers && st.blocks[b].owner.Some? && st.blocks[b].owner.value in st.pools
    modifies st.supers.Keys, st.pools.Keys`head, st.blocks.Keys`next, st.blocks.Keys`prev
    ensures Represents(Emptying(st, b), head')
  {
    var p := b.mpool;
    assert p == st.blocks[b].owner.value;
    BetweenApart(st, caps, {b});
    assert b in st.pools[p];
    ghost var q := ListsOf(st);
    ghost var q1 := q.(pools := q.pools[p := Remove(q.pools[p], b)]);
    LeavePoolIn(p, b, InteriorOf(st), q, q1, head);
    ghost var i := RemoveAt(st.pools[p], b);
    LeftPool(st, caps, p, b, i, Remove(st.pools[p], b));
    head' := ReturnBlock(b, head, st, caps, q1);
  }

  lemma FullOnNoList(st: St, caps: Caps, b: Block)
    requires Inv(st, caps) && b in st.blocks && st.blocks[b].free == []
    ensures OnNoList(ListsOf(st), b) && ListsApart(ListsOf(st))
  {
    BetweenApart(st, caps, {});
    forall p | p in st.pools ensures b !in st.pools[p] {
      if b in st.pools[p] { PoolOwner(st, caps, p, b); }
    }
    forall s | s in st.supers ensures b !in st.supers[s].avail {
      if b in st.supers[s].avail { AvailBlock(st, caps, {}, s, b); }
    }
  }

  method RequeueIn(p: MPool, b: Block, ghost n: Interior, ghost q: Lists, ghost g: Superblock?)
    requires p in q.pools && b in q.blocks && OnNoList(q, b) && ListsApart(q) && Queues(q, g) && Insides(n)
    modifies p`head, b`next, q.blocks`prev
    ensures Queues(q.(pools := q.pools[p := [b] + q.pools[p]]), g) && Insides(n)
  {
    Requeue(p, b, q, [b] + q.pools[p], g);
  }

  /** `Put` is what happens inside the block, and possibly to the pool. */
  lemma PutShape(st: St, v: VmArea)
    requires v in st.areas && st.areas[v] in st.blocks
    ensures InteriorOf(Put(st, v)) == InteriorOf(Pushed(st, v))
    ensures var b, q := st.areas[v], ListsOf(st);
      var owner := st.blocks[b].owner;
      ListsOf(Put(st, v)) == if st.blocks[b].free == [] && st.blocks[b].vctr != 1 && owner.Some? then
        q.(pools := q.pools[owner.value := [b] + PoolOf(st, owner.value)]) else q
  {
    assert Put(st, v).blocks.Keys == st.blocks.Keys;
  }

  lemma PutCounts(st: St, v: VmArea)
    requires v in st.areas && st.areas[v] in st.blocks
    ensures var b := st.areas[v]; Put(st, v).blocks[b].vctr == Pushed(st, v).blocks[b].vctr
  {
  }

  lemma FullBlock(st: St, caps: Caps, b: Block)
    requires BlocksOk(st, caps) && PoolsOk(st, caps, {}) && caps.block > 0 && b in st.blocks && st.blocks[b].free == []
    ensures st.blocks[b].vctr == caps.block && st.blocks[b].owner.Some? && st.blocks[b].owner.value in st.pools
  {
  }

  lemma PutParts(st: St, caps: Caps, v: VmArea)
    requires Inv(st, caps) && v in st.live
    ensures v in st.areas && st.areas[v] in st.blocks && InteriorOf(Put(st, v)) == InteriorOf(Pushed(st, v))
    ensures var b, q := st.areas[v], ListsOf(st);
      if st.blocks[b].free == [] then
        && Pushed(st, v).blocks[b].vctr == caps.block - 1
        && st.blocks[b].owner.Some? && st.blocks[b].owner.value in st.pools
        && (var p := st.blocks[b].owner.value; ListsOf(Put(st, v)) == q.(pools := q.pools[p := [b] + q.pools[p]]))
      else ListsOf(Put(st, v)) == q
  {
    assert v in st.areas && st.areas[v] in st.blocks;
    PutShape(st, v);
    var b := st.areas[v];
    if st.blocks[b].free == [] {
      FullBlock(st, caps, b);
    }
  }

  /** The pool of a block that was full gets it back. */
  method Refill(v: VmArea, b: Block, ghost st: St, ghost caps: Caps, ghost g: Superblock?)
    requires Inv(st, caps) && v in st.live && b == st.areas[v]
    requires Queues(ListsOf(st), g) && Insides(InteriorOf(Pushed(st, v)))
    requires v.next == null <==> st.blocks[b].free == []
    modifies st.pools.Keys`head, b`next, st.blocks.Keys`prev
    ensures Represents(Put(st, v), g)
  {
    PutParts(st, caps, v);
    if v.next == null {
      FullOnNoList(st, caps, b);
      var p := b.mpool;
      assert p == st.blocks[b].owner.value;
      RequeueIn(p, b, InteriorOf(Pushed(st, v)), ListsOf(st), g);
      assert caps.block - 1 == b.vctr;
    }
  }

  lemma EmptyFacts(st: St, caps: Caps, v: VmArea)
    requires Inv(st, caps) && v in st.live && Pushed(st, v).blocks[st.areas[v]].vctr == 0
    ensures var b, put := st.areas[v], Put(st, v);
      && InteriorOf(put) == InteriorOf(Pushed(st, v)) && ListsOf(put) == ListsOf(st)
      && Between(put, caps, {}, {b}) && b in put.blocks && put.blocks[b].vctr == 0
      && put.blocks[b].super in put.supers && put.blocks[b].owner.Some? && put.blocks[b].owner.value in put.pools
      && Free(st, caps, v) == Emptying(put, b)
  {
    var b, put := st.areas[v], Put(st, v);
    PutBetween(st, caps, v);
    PutShape(st, v);
    UnpoolBetween(put, caps, b);
  }

  /** The block of `v` is not in use any more. */
  method Vacate(v: VmArea, b: Block, head: Superblock?, ghost st: St, ghost caps: Caps) returns (head': Superblock?)
    requires Inv(st, caps) && v in st.live && b == st.areas[v] && Pushed(st, v).blocks[b].vctr == 0
    requires Queues(ListsOf(st), head) && Insides(InteriorOf(Pushed(st, v)))
    modifies st.supers.Keys, st.pools.Keys`head, st.blocks.Keys`next, st.blocks.Keys`prev
    ensures Represents(Free(st, caps, v), head')
  {
    EmptyFacts(st, caps, v);
    head' := EmptyBlock(b, head, Put(st, v), caps);
  }

  /** Give `v` back; block and superblock follow if they are not in use any more. */
  method FreeArea(v: VmArea, head: Superblock?, ghost st: St, ghost caps: Caps) returns (head': Superblock?)
    requires Inv(st, caps) && v in st.live && Represents(st, head)
    modifies v`next, st.blocks.Keys, st.supers.Keys, st.pools.Keys`head
    ensures Represents(Free(st, caps, v), head')
  {
    var b := v.home;
    assert b == st.areas[v];
    PushAreaIn(v, b, st, ListsOf(st), head);
    if b.vctr == 0 {
      head' := Vacate(v, b, head, st, caps);
    } else {
      PutCounts(st, v);
      Refill(v, b, st, caps, head);
      head' := head;
    }
  }
}
