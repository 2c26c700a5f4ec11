/**
  The allocator as a state machine.

  Superblocks hold blocks, blocks hold areas.  Free areas are listed in their block, unused blocks in
  their superblock, partly used blocks in the pool of the thread that took them, and superblocks with
  unused blocks in the global pool.  Every public call is one step of some thread, made of the smaller
  moves below.  `V`, `B`, `S` and `P` are the identities of areas, blocks, superblocks and pools.
*/
module AllocModel {
  import opened Basics

  datatype BlockState<V, S, P> = BlockState(vctr: int, free: seq<V>, super: S, owner: Option<P>)

  datatype SuperState<B> = SuperState(bctr: int, avail: seq<B>)

  /** How many areas a block holds, and how many blocks a superblock holds. */
  datatype Caps = Caps(block: nat, super: nat)

  datatype State<!V, !B, !S, !P> = State(
    areas: map<V, B>,                       // the block of every area
    blocks: map<B, BlockState<V, S, P>>,
    supers: map<S, SuperState<B>>,
    pools: map<P, seq<B>>,
    global: seq<S>,
    live: set<V>)                           // areas handed out and not yet freed

  ghost function LiveIn<V, B, S, P>(st: State<V, B, S, P>, b: B): set<V>
  {
    set v | v in st.live && v in st.areas && st.areas[v] == b
  }

  /** The blocks of a superblock that are not on its list. */
  ghost function Stolen<V, B, S, P>(st: State<V, B, S, P>, s: S): set<B>
    requires s in st.supers
  {
    set b | b in st.blocks && st.blocks[b].super == s && b !in st.supers[s].avail
  }

  // ----- the invariant -----

  /** Areas: every area is either live or on the free list of its own block. */
  ghost predicate AreasOk<V, B, S, P>(st: State<V, B, S, P>)
  {
    && (forall v :: v in st.areas ==> st.areas[v] in st.blocks)
    && (forall v :: v in st.areas ==> (v in st.live <==> v !in st.blocks[st.areas[v]].free))
    && (forall v :: v in st.live ==> v in st.areas)
    && (forall b, v :: b in st.blocks && v in st.blocks[b].free ==> v in st.areas && st.areas[v] == b)
    && (forall b :: b in st.blocks ==> NoDuplicates(st.blocks[b].free))
  }

  /** Conservation: the counter of a block is the number of its live areas, and the rest are free. */
  ghost predicate BlocksOk<V, B, S, P>(st: State<V, B, S, P>, caps: Caps)
  {
    forall b :: b in st.blocks ==>
      && st.blocks[b].super in st.supers
      && st.blocks[b].vctr + |st.blocks[b].free| == caps.block
      && st.blocks[b].vctr == |LiveIn(st, b)|
  }

  /** Conservation for superblocks; a block is on its superblock's list iff it is unused and not in `held`. */
  ghost predicate SupersOk<V, B, S, P>(st: State<V, B, S, P>, caps: Caps, held: set<B>)
  {
    && (forall s :: s in st.supers ==>
          && NoDuplicates(st.supers[s].avail)
          && st.supers[s].bctr + |st.supers[s].avail| == caps.super
          && st.supers[s].bctr == |Stolen(st, s)|)
    && (forall s, b :: s in st.supers && b in st.supers[s].avail ==> b in st.blocks && st.blocks[b].super == s)
    && (forall b :: b in st.blocks && st.blocks[b].super in st.supers ==>
          (b in st.supers[st.blocks[b].super].avail <==> st.blocks[b].vctr == 0 && b !in held))
  }

  /** A block is in its owner's pool iff it is partly used; a block in `held` is there though unused. */
  ghost predicate PoolsOk<V, B, S, P>(st: State<V, B, S, P>, caps: Caps, held: set<B>)
  {
    && (forall p :: p in st.pools ==> NoDuplicates(st.pools[p]))
    && (forall p, b :: p in st.pools && b in st.pools[p] ==>
          b in st.blocks && st.blocks[b].owner == Some(p) && st.blocks[b].vctr < caps.block
          && (st.blocks[b].vctr > 0 || b in held))
    && (forall b :: b in st.blocks && (st.blocks[b].vctr > 0 || b in held) ==>
          st.blocks[b].owner.Some? && st.blocks[b].owner.value in st.pools)
    && (forall b :: b in st.blocks && st.blocks[b].vctr < caps.block && (st.blocks[b].vctr > 0 || b in held) ==>
          b in st.pools[st.blocks[b].owner.value])
  }

  /** A superblock is in the global pool iff it has unused blocks; only those in `empty` have no others. */
  ghost predicate GlobalOk<V, B, S, P>(st: State<V, B, S, P>, caps: Caps, empty: set<S>)
  {
    && NoDuplicates(st.global)
    && (forall s :: s in st.global ==> s in st.supers)
    && (forall s :: s in st.supers ==> (s in st.global <==> st.supers[s].bctr < caps.super))
    && (forall s :: s in st.supers ==> st.supers[s].bctr > 0 || s in empty)
  }

  /** The invariant inside a call, while one block or superblock is between two lists. */
  ghost predicate Between<V, B, S, P>(st: State<V, B, S, P>, caps: Caps, empty: set<S>, held: set<B>)
  {
    && caps.block >= 2 && caps.super >= 2
    && AreasOk(st) && BlocksOk(st, caps) && SupersOk(st, caps, held) && PoolsOk(st, caps, held)
    && GlobalOk(st, caps, empty)
  }

  /** The invariant between calls. */
  ghost predicate Inv<V, B, S, P>(st: State<V, B, S, P>, caps: Caps)
  {
    Between(st, caps, {}, {})
  }

  // ----- the moves of an allocation -----

  ghost function PoolOf<V, B, S, P>(st: State<V, B, S, P>, p: P): seq<B>
  {
    if p in st.pools then st.pools[p] else []
  }

  /** Hand out the first free area of the first block of pool `p`. */
  ghost function Take<V, B, S, P>(st: State<V, B, S, P>, p: P): State<V, B, S, P>
    requires PoolOf(st, p) != [] && PoolOf(st, p)[0] in st.blocks && st.blocks[PoolOf(st, p)[0]].free != []
  {
    var b := st.pools[p][0];
    var bs := st.blocks[b];
    var bs' := bs.(vctr := bs.vctr + 1, free := bs.free[1..]);
    st.(blocks := st.blocks[b := bs'],
        pools := if bs'.free == [] then st.pools[p := st.pools[p][1..]] else st.pools,
        live := st.live + {bs.free[0]})
  }

  lemma TailMembers<T>(s: seq<T>)
    requires NoDuplicates(s) && s != []
    ensures NoDuplicates(s[1..]) && (forall x :: x in s[1..] <==> x in s && x != s[0])
  {
    forall x ensures x in s[1..] <==> x in s && x != s[0] {
      if x in s && x != s[0] {
        var i :| 0 <= i < |s| && s[i] == x;
        assert s[1..][i - 1] == x;
      }
    }
  }

  /** The area that the next `Take` hands out. */
  ghost function Next<V, B, S, P>(st: State<V, B, S, P>, p: P): V
    requires PoolOf(st, p) != [] && PoolOf(st, p)[0] in st.blocks && st.blocks[PoolOf(st, p)[0]].free != []
  {
    st.blocks[PoolOf(st, p)[0]].free[0]
  }

  lemma CanTake<V, B, S, P>(st: State<V, B, S, P>, caps: Caps, held: set<B>, p: P)
    requires AreasOk(st) && BlocksOk(st, caps) && PoolsOk(st, caps, held) && PoolOf(st, p) != []
    ensures PoolOf(st, p)[0] in st.blocks && st.blocks[PoolOf(st, p)[0]].free != []
    ensures Next(st, p) in st.areas && Next(st, p) !in st.live && st.areas[Next(st, p)] == PoolOf(st, p)[0]
    ensures var b := PoolOf(st, p)[0]; st.blocks[b].vctr > 0 || (st.blocks[b].vctr == 0 && b in held)
  {
    var b := st.pools[p][0];
    assert b in st.pools[p];
    assert st.blocks[b].free[0] in st.blocks[b].free;
  }

  /** A change to the free list of one block, with the live areas of that block changed to match. */
  lemma AreasUpdate<V, B, S, P>(st: State<V, B, S, P>, st': State<V, B, S, P>, b: B, f: seq<V>)
    requires AreasOk(st) && st'.areas == st.areas && st'.blocks.Keys == st.blocks.Keys && b in st.blocks
    requires forall c :: c in st.blocks ==> st'.blocks[c].free == if c == b then f else st.blocks[c].free
    requires NoDuplicates(f) && (forall x :: x in f ==> x in st.areas && st.areas[x] == b)
    requires forall x :: x in st'.live ==> x in st.areas
    requires forall x :: x in st.areas && st.areas[x] == b ==> (x in st'.live <==> x !in f)
    requires forall x :: x in st.areas && st.areas[x] != b ==> (x in st'.live <==> x in st.live)
    ensures AreasOk(st')
  {
  }

  lemma TakeAreas<V, B, S, P>(st: State<V, B, S, P>, p: P)
    requires AreasOk(st) && PoolOf(st, p) != [] && PoolOf(st, p)[0] in st.blocks
    requires st.blocks[PoolOf(st, p)[0]].free != []
    ensures AreasOk(Take(st, p))
  {
    var b := PoolOf(st, p)[0];
    var free := st.blocks[b].free;
    TailMembers(free);
    assert free[0] in free && (forall x :: x in free ==> x in st.areas && st.areas[x] == b && x !in st.live);
    hide NoDuplicates;
    AreasUpdate(st, Take(st, p), b, free[1..]);
  }

  /** One more live area: the count of its block grows by one, all others stay. */
  lemma LiveGrows<V, B, S, P>(st: State<V, B, S, P>, st': State<V, B, S, P>, v: V, c: B)
    requires st'.areas == st.areas && st'.live == st.live + {v} && v !in st.live && v in st.areas
    ensures |LiveIn(st', c)| == |LiveIn(st, c)| + if st.areas[v] == c then 1 else 0
  {
    var n := LiveIn(st', c);
    assert n == if st.areas[v] == c then LiveIn(st, c) + {v} else LiveIn(st, c);
  }

  lemma TakeBlocks<V, B, S, P>(st: State<V, B, S, P>, caps: Caps, p: P)
    requires AreasOk(st) && BlocksOk(st, caps)
    requires PoolOf(st, p) != [] && PoolOf(st, p)[0] in st.blocks && st.blocks[PoolOf(st, p)[0]].free != []
    ensures BlocksOk(Take(st, p), caps)
  {
    var b, st' := PoolOf(st, p)[0], Take(st, p);
    var v := Next(st, p);
    assert v in st.blocks[b].free;
    forall c ensures |LiveIn(st', c)| == |LiveIn(st, c)| + if c == b then 1 else 0 {
      LiveGrows(st, st', v, c);
    }
  }

  lemma SameStolen<V, B, S, P>(st: State<V, B, S, P>, st': State<V, B, S, P>, s: S)
    requires s in st.supers && st'.supers == st.supers && st'.blocks.Keys == st.blocks.Keys
    requires forall b :: b in st.blocks ==> st'.blocks[b].super == st.blocks[b].super
    ensures Stolen(st', s) == Stolen(st, s)
  {
  }

  /** Changes inside blocks do not concern superblocks, as long as no block becomes used or unused. */
  lemma SupersUpdate<V, B, S, P>(st: State<V, B, S, P>, st': State<V, B, S, P>, caps: Caps, held: set<B>, held': set<B>)
    requires SupersOk(st, caps, held) && st'.supers == st.supers && st'.blocks.Keys == st.blocks.Keys
    requires forall b :: b in st.blocks ==> st'.blocks[b].super == st.blocks[b].super
    requires forall b :: b in st.blocks ==>
      (st'.blocks[b].vctr == 0 && b !in held' <==> st.blocks[b].vctr == 0 && b !in held)
    ensures SupersOk(st', caps, held')
  {
    forall s | s in st.supers ensures Stolen(st', s) == Stolen(st, s) {
      SameStolen(st, st', s);
    }
  }

  lemma TakeSupers<V, B, S, P>(st: State<V, B, S, P>, caps: Caps, held: set<B>, p: P)
    requires SupersOk(st, caps, held)
    requires PoolOf(st, p) != [] && PoolOf(st, p)[0] in st.blocks && st.blocks[PoolOf(st, p)[0]].free != []
    requires var b := PoolOf(st, p)[0]; st.blocks[b].vctr > 0 || (st.blocks[b].vctr == 0 && b in held)
    ensures SupersOk(Take(st, p), caps, held - {PoolOf(st, p)[0]})
  {
    SupersUpdate(st, Take(st, p), caps, held, held - {PoolOf(st, p)[0]});
  }

  lemma TakePools<V, B, S, P>(st: State<V, B, S, P>, caps: Caps, held: set<B>, p: P)
    requires BlocksOk(st, caps) && PoolsOk(st, caps, held)
    requires PoolOf(st, p) != [] && PoolOf(st, p)[0] in st.blocks && st.blocks[PoolOf(st, p)[0]].free != []
    ensures PoolsOk(Take(st, p), caps, held - {PoolOf(st, p)[0]})
  {
    hide NoDuplicates;
    var b, st' := PoolOf(st, p)[0], Take(st, p);
    assert b in st.pools[p];
    TailMembers(st.pools[p]);
    forall q, c | q in st'.pools && c in st'.pools[q]
      ensures c in st'.blocks && st'.blocks[c].owner == Some(q) && st'.blocks[c].vctr < caps.block
      ensures st'.blocks[c].vctr > 0 || c in held - {b}
    {
      assert c in st.pools[q];
    }
  }

  lemma TakeBetween<V, B, S, P>(st: State<V, B, S, P>, caps: Caps, held: set<B>, p: P)
    requires Between(st, caps, {}, held) && PoolOf(st, p) != [] && held <= {PoolOf(st, p)[0]}
    ensures PoolOf(st, p)[0] in st.blocks && st.blocks[PoolOf(st, p)[0]].free != []
    ensures Inv(Take(st, p), caps)
  {
    CanTake(st, caps, held, p);
    assert held - {PoolOf(st, p)[0]} == {};
    TakeAreas(st, p);
    TakeBlocks(st, caps, p);
    TakeSupers(st, caps, held, p);
    TakePools(st, caps, held, p);
  }

  /** Move the first unused block of the first superblock to the empty pool `p`. */
  ghost function Steal<V, B, S, P>(st: State<V, B, S, P>, p: P): State<V, B, S, P>
    requires st.global != [] && st.global[0] in st.supers && st.supers[st.global[0]].avail != []
    requires st.supers[st.global[0]].avail[0] in st.blocks
  {
    var s := st.global[0];
    var ss := st.supers[s];
    var b := ss.avail[0];
    var ss' := SuperState(ss.bctr + 1, ss.avail[1..]);
    st.(supers := st.supers[s := ss'],
        global := if ss'.avail == [] then st.global[1..] else st.global,
        blocks := st.blocks[b := st.blocks[b].(owner := Some(p))],
        pools := st.pools[p := [b]])
  }

  /** The block that the next `Steal` moves. */
  ghost function Loot<V, B, S, P>(st: State<V, B, S, P>): B
    requires st.global != [] && st.global[0] in st.supers && st.supers[st.global[0]].avail != []
  {
    st.supers[st.global[0]].avail[0]
  }

  lemma CanSteal<V, B, S, P>(st: State<V, B, S, P>, caps: Caps, empty: set<S>)
    requires SupersOk(st, caps, {}) && GlobalOk(st, caps, empty) && st.global != []
    ensures st.global[0] in st.supers && st.supers[st.global[0]].avail != []
    ensures var b := Loot(st); b in st.blocks && st.blocks[b].super == st.global[0] && st.blocks[b].vctr == 0
  {
    var s := st.global[0];
    assert s in st.global;
    assert st.supers[s].avail != [];
    assert Loot(st) in st.supers[s].avail;
  }

  /** Only areas and counters of blocks matter for these two parts of the invariant. */
  lemma SameInside<V, B, S, P>(st: State<V, B, S, P>, st': State<V, B, S, P>, caps: Caps)
    requires AreasOk(st) && BlocksOk(st, caps)
    requires st'.areas == st.areas && st'.live == st.live && st'.blocks.Keys == st.blocks.Keys
    requires st'.supers.Keys == st.supers.Keys
    requires forall b :: b in st.blocks ==> st'.blocks[b] == st.blocks[b].(owner := st'.blocks[b].owner)
    ensures AreasOk(st') && BlocksOk(st', caps)
  {
    forall b ensures LiveIn(st', b) == LiveIn(st, b) {
    }
  }

  /** A block leaves the list of its superblock: one more is stolen there, elsewhere nothing changes. */
  lemma StolenGrows<V, B, S, P>(st: State<V, B, S, P>, st': State<V, B, S, P>, b: B, q: S)
    requires q in st.supers && st'.supers.Keys == st.supers.Keys && st'.blocks.Keys == st.blocks.Keys
    requires b in st.blocks && st.blocks[b].super in st.supers && b in st.supers[st.blocks[b].super].avail
    requires forall c :: c in st.blocks ==> st'.blocks[c].super == st.blocks[c].super
    requires forall c :: c in st'.supers[q].avail <==> c in st.supers[q].avail && c != b
    ensures |Stolen(st', q)| == |Stolen(st, q)| + if q == st.blocks[b].super then 1 else 0
  {
    assert Stolen(st', q) == if q == st.blocks[b].super then Stolen(st, q) + {b} else Stolen(st, q);
  }

  lemma StealSupers<V, B, S, P>(st: State<V, B, S, P>, caps: Caps, p: P)
    requires SupersOk(st, caps, {})
    requires st.global != [] && st.global[0] in st.supers && st.supers[st.global[0]].avail != []
    requires Loot(st) in st.blocks && st.blocks[Loot(st)].super == st.global[0]
    ensures SupersOk(Steal(st, p), caps, {Loot(st)})
  {
    var s, b, st' := st.global[0], Loot(st), Steal(st, p);
    TailMembers(st.supers[s].avail);
    assert b in st.supers[s].avail;
    forall q | q in st.supers ensures |Stolen(st', q)| == |Stolen(st, q)| + if q == s then 1 else 0 {
      StolenGrows(st, st', b, q);
    }
  }

  lemma StealPools<V, B, S, P>(st: State<V, B, S, P>, caps: Caps, p: P)
    requires PoolsOk(st, caps, {}) && PoolOf(st, p) == [] && caps.block > 0
    requires st.global != [] && st.global[0] in st.supers && st.supers[st.global[0]].avail != []
    requires Loot(st) in st.blocks && st.blocks[Loot(st)].vctr == 0
    ensures PoolsOk(Steal(st, p), caps, {Loot(st)})
  {
    var b, st' := Loot(st), Steal(st, p);
    forall q, c | q in st'.pools && c in st'.pools[q]
      ensures c in st'.blocks && st'.blocks[c].owner == Some(q) && st'.blocks[c].vctr < caps.block
      ensures st'.blocks[c].vctr > 0 || c == b
    {
      assert q != p ==> c in st.pools[q];
    }
  }

  lemma StealGlobal<V, B, S, P>(st: State<V, B, S, P>, caps: Caps, empty: set<S>, p: P)
    requires GlobalOk(st, caps, empty) && SupersOk(st, caps, {})
    requires st.global != [] && st.global[0] in st.supers && st.supers[st.global[0]].avail != []
    requires Loot(st) in st.blocks
    ensures GlobalOk(Steal(st, p), caps, empty - {st.global[0]})
  {
    TailMembers(st.global);
    var s := st.global[0];
    assert st.supers[s].bctr == |Stolen(st, s)|;
  }

  lemma StealInside<V, B, S, P>(st: State<V, B, S, P>, caps: Caps, p: P)
    requires AreasOk(st) && BlocksOk(st, caps)
    requires st.global != [] && st.global[0] in st.supers && st.supers[st.global[0]].avail != []
    requires Loot(st) in st.blocks
    ensures AreasOk(Steal(st, p)) && BlocksOk(Steal(st, p), caps)
  {
    SameInside(st, Steal(st, p), caps);
  }

  lemma StealBetween<V, B, S, P>(st: State<V, B, S, P>, caps: Caps, empty: set<S>, p: P)
    requires Between(st, caps, empty, {}) && st.global != [] && empty <= {st.global[0]} && PoolOf(st, p) == []
    ensures st.global[0] in st.supers && st.supers[st.global[0]].avail != [] && Loot(st) in st.blocks
    ensures Between(Steal(st, p), caps, {}, {Loot(st)})
    ensures PoolOf(Steal(st, p), p) == [Loot(st)]
  {
    CanSteal(st, caps, empty);
    StealInside(st, caps, p);
    StealSupers(st, caps, p);
    StealPools(st, caps, p);
    StealGlobal(st, caps, empty, p);
    assert empty - {st.global[0]} == {};
  }

  /** A superblock as it comes from the system and its setup: all blocks and areas unused. */
  datatype Region<!V, !B, !S> = Region(super: S, blocks: seq<B>, areas: map<V, B>, frees: map<B, seq<V>>)

  ghost predicate RegionOk<V, B, S>(r: Region<V, B, S>, caps: Caps)
  {
    && NoDuplicates(r.blocks) && |r.blocks| == caps.super
    && (forall b :: b in r.frees ==> b in r.blocks) && (forall b :: b in r.blocks ==> b in r.frees)
    && (forall b :: b in r.frees ==> NoDuplicates(r.frees[b]) && |r.frees[b]| == caps.block)
    && (forall b, v :: b in r.frees && v in r.frees[b] ==> v in r.areas && r.areas[v] == b)
    && (forall v :: v in r.areas ==> r.areas[v] in r.frees && v in r.frees[r.areas[v]])
  }

  /** Memory from the system is not in use yet. */
  ghost predicate Unused<V, B, S, P>(st: State<V, B, S, P>, r: Region<V, B, S>)
  {
    && r.super !in st.supers
    && (forall b :: b in r.frees ==> b !in st.blocks)
    && (forall v :: v in r.areas ==> v !in st.areas)
  }

  ghost function AddSuper<V, B, S, P>(st: State<V, B, S, P>, r: Region<V, B, S>): State<V, B, S, P>
  {
    var added := map b | b in r.frees :: BlockState(0, r.frees[b], r.super, None);
    st.(areas := st.areas + r.areas,
        blocks := st.blocks + added,
        supers := st.supers[r.super := SuperState(0, r.blocks)],
        global := [r.super])
  }

  /** `st'` is `st` with the region `r` added, entry by entry. */
  ghost predicate Added<V, B, S, P>(st: State<V, B, S, P>, st': State<V, B, S, P>, r: Region<V, B, S>)
  {
    && st'.areas.Keys == st.areas.Keys + r.areas.Keys
    && (forall v :: v in st.areas && v !in r.areas ==> st'.areas[v] == st.areas[v])
    && (forall v :: v in r.areas ==> st'.areas[v] == r.areas[v])
    && st'.blocks.Keys == st.blocks.Keys + r.frees.Keys
    && (forall b :: b in st.blocks && b !in r.frees ==> st'.blocks[b] == st.blocks[b])
    && (forall b :: b in r.frees ==> st'.blocks[b] == BlockState(0, r.frees[b], r.super, None))
    && st'.supers.Keys == st.supers.Keys + {r.super}
    && (forall s :: s in st.supers && s != r.super ==> st'.supers[s] == st.supers[s])
    && st'.supers[r.super] == SuperState(0, r.blocks)
    && st'.global == [r.super] && st'.pools == st.pools && st'.live == st.live
  }

  lemma AddIsAdded<V, B, S, P>(st: State<V, B, S, P>, r: Region<V, B, S>)
    ensures Added(st, AddSuper(st, r), r)
  {
  }

  lemma AddFrees<V, B, S, P>(st: State<V, B, S, P>, st': State<V, B, S, P>, caps: Caps, r: Region<V, B, S>, b: B)
    requires AreasOk(st) && RegionOk(r, caps) && Unused(st, r) && Added(st, st', r) && b in st'.blocks
    ensures forall v :: v in st'.blocks[b].free ==> v in st'.areas && st'.areas[v] == b
    ensures NoDuplicates(st'.blocks[b].free)
  {
    hide NoDuplicates;
    forall v | v in st'.blocks[b].free ensures v in st'.areas && st'.areas[v] == b {
      if b in r.frees { assert v in r.areas; } else { assert v in st.blocks[b].free; }
    }
  }

  lemma AddHome<V, B, S, P>(st: State<V, B, S, P>, st': State<V, B, S, P>, caps: Caps, r: Region<V, B, S>, v: V)
    requires AreasOk(st) && RegionOk(r, caps) && Unused(st, r) && Added(st, st', r) && v in st'.areas
    ensures st'.areas[v] in st'.blocks && (v in st'.live <==> v !in st'.blocks[st'.areas[v]].free)
  {
    hide NoDuplicates;
    if v in r.areas { assert r.areas[v] in r.frees && v !in st.areas; } else { assert st.areas[v] in st.blocks; }
  }

  lemma AddAreas<V, B, S, P>(st: State<V, B, S, P>, st': State<V, B, S, P>, caps: Caps, r: Region<V, B, S>)
    requires AreasOk(st) && RegionOk(r, caps) && Unused(st, r) && Added(st, st', r)
    ensures AreasOk(st')
  {
    hide NoDuplicates;
    hide RegionOk;
    hide Unused;
    forall b | b in st'.blocks
      ensures NoDuplicates(st'.blocks[b].free)
      ensures forall v :: v in st'.blocks[b].free ==> v in st'.areas && st'.areas[v] == b
    {
      AddFrees(st, st', caps, r, b);
    }
    forall v | v in st'.areas
      ensures st'.areas[v] in st'.blocks && (v in st'.live <==> v !in st'.blocks[st'.areas[v]].free)
    {
      AddHome(st, st', caps, r, v);
    }
  }

  lemma AddBlocks<V, B, S, P>(st: State<V, B, S, P>, st': State<V, B, S, P>, caps: Caps, r: Region<V, B, S>)
    requires AreasOk(st) && BlocksOk(st, caps) && RegionOk(r, caps) && Unused(st, r) && Added(st, st', r)
    ensures BlocksOk(st', caps)
  {
    hide NoDuplicates;
    forall b | b in st'.blocks ensures LiveIn(st', b) == if b in r.frees then {} else LiveIn(st, b) {
    }
  }

  lemma AddStolen<V, B, S, P>(st: State<V, B, S, P>, st': State<V, B, S, P>, caps: Caps, r: Region<V, B, S>, s: S)
    requires RegionOk(r, caps) && Unused(st, r) && Added(st, st', r) && s in st'.supers
    requires forall b :: b in st.blocks ==> st.blocks[b].super in st.supers
    ensures Stolen(st', s) == if s == r.super then {} else Stolen(st, s)
  {
  }

  lemma AddedSuper<V, B, S, P>(st: State<V, B, S, P>, st': State<V, B, S, P>, caps: Caps, r: Region<V, B, S>, s: S)
    requires SupersOk(st, caps, {}) && RegionOk(r, caps) && Unused(st, r) && Added(st, st', r) && s in st'.supers
    requires forall b :: b in st.blocks ==> st.blocks[b].super in st.supers
    ensures NoDuplicates(st'.supers[s].avail) && st'.supers[s].bctr + |st'.supers[s].avail| == caps.super
    ensures st'.supers[s].bctr == |Stolen(st', s)|
    ensures forall b :: b in st'.supers[s].avail ==> b in st'.blocks && st'.blocks[b].super == s
  {
    hide NoDuplicates;
    AddStolen(st, st', caps, r, s);
    forall b | b in st'.supers[s].avail ensures b in st'.blocks && st'.blocks[b].super == s {
      if s == r.super { assert b in r.frees; } else { assert b in st.supers[s].avail && b in st.blocks; }
    }
  }

  lemma AddUnused<V, B, S, P>(st: State<V, B, S, P>, st': State<V, B, S, P>, caps: Caps, r: Region<V, B, S>, b: B)
    requires SupersOk(st, caps, {}) && RegionOk(r, caps) && Unused(st, r) && Added(st, st', r)
    requires b in st'.blocks && st'.blocks[b].super in st'.supers
    requires forall c :: c in st.blocks ==> st.blocks[c].super in st.supers
    ensures b in st'.supers[st'.blocks[b].super].avail <==> st'.blocks[b].vctr == 0
  {
    hide NoDuplicates;
    if b in r.frees { assert b in r.blocks; } else { assert st.blocks[b].super in st.supers; }
  }

  lemma AddSupers<V, B, S, P>(st: State<V, B, S, P>, st': State<V, B, S, P>, caps: Caps, r: Region<V, B, S>)
    requires SupersOk(st, caps, {}) && RegionOk(r, caps) && Unused(st, r) && Added(st, st', r)
    requires forall b :: b in st.blocks ==> st.blocks[b].super in st.supers
    ensures SupersOk(st', caps, {})
  {
    hide NoDuplicates;
    hide Stolen;
    hide RegionOk;
    hide Unused;
    hide Added;
    forall s | s in st'.supers
      ensures NoDuplicates(st'.supers[s].avail) && st'.supers[s].bctr + |st'.supers[s].avail| == caps.super
      ensures st'.supers[s].bctr == |Stolen(st', s)|
      ensures forall b :: b in st'.supers[s].avail ==> b in st'.blocks && st'.blocks[b].super == s
    {
      AddedSuper(st, st', caps, r, s);
    }
    forall b | b in st'.blocks && st'.blocks[b].super in st'.supers
      ensures b in st'.supers[st'.blocks[b].super].avail <==> st'.blocks[b].vctr == 0
    {
      AddUnused(st, st', caps, r, b);
    }
  }

  lemma AddBetween<V, B, S, P>(st: State<V, B, S, P>, caps: Caps, r: Region<V, B, S>)
    requires Inv(st, caps) && RegionOk(r, caps) && Unused(st, r) && st.global == []
    ensures Between(AddSuper(st, r), caps, {r.super}, {})
  {
    var st' := AddSuper(st, r);
    AddIsAdded(st, r);
    AddAreas(st, st', caps, r);
    AddBlocks(st, st', caps, r);
    AddSupers(st, st', caps, r);
    AddPools(st, st', caps, r);
    AddGlobal(st, st', caps, r);
  }

  lemma AddPools<V, B, S, P>(st: State<V, B, S, P>, st': State<V, B, S, P>, caps: Caps, r: Region<V, B, S>)
    requires PoolsOk(st, caps, {}) && RegionOk(r, caps) && Unused(st, r) && Added(st, st', r)
    ensures PoolsOk(st', caps, {})
  {
    hide NoDuplicates;
    hide RegionOk;
  }

  lemma AddGlobal<V, B, S, P>(st: State<V, B, S, P>, st': State<V, B, S, P>, caps: Caps, r: Region<V, B, S>)
    requires GlobalOk(st, caps, {}) && Unused(st, r) && Added(st, st', r) && st.global == [] && caps.super > 0
    ensures GlobalOk(st', caps, {r.super})
  {
  }

  // ----- the moves of a release -----

  /** Take back the live area `v`; its block returns to its pool if it had been full. */
  ghost function Put<V, B, S, P>(st: State<V, B, S, P>, v: V): State<V, B, S, P>
    requires v in st.areas && st.areas[v] in st.blocks
  {
    var b := st.areas[v];
    var bs := st.blocks[b];
    var bs' := bs.(vctr := bs.vctr - 1, free := [v] + bs.free);
    st.(blocks := st.blocks[b := bs'],
        pools := if bs.free == [] && bs'.vctr != 0 && bs.owner.Some? then
                   st.pools[bs.owner.value := [b] + PoolOf(st, bs.owner.value)]
                 else st.pools,
        live := st.live - {v})
  }

  lemma PutAreas<V, B, S, P>(st: State<V, B, S, P>, v: V)
    requires AreasOk(st) && v in st.live
    ensures AreasOk(Put(st, v))
  {
    var b := st.areas[v];
    var free := st.blocks[b].free;
    assert NoDuplicates([v] + free) && (forall x :: x in free ==> x in st.areas && st.areas[x] == b && x !in st.live);
    hide NoDuplicates;
    AreasUpdate(st, Put(st, v), b, [v] + free);
  }

  lemma PutBlocks<V, B, S, P>(st: State<V, B, S, P>, caps: Caps, v: V)
    requires AreasOk(st) && BlocksOk(st, caps) && v in st.live
    ensures BlocksOk(Put(st, v), caps) && st.blocks[st.areas[v]].vctr > 0
  {
    var st' := Put(st, v);
    assert st.live == st'.live + {v};
    forall c ensures |LiveIn(st, c)| == |LiveIn(st', c)| + if c == st.areas[v] then 1 else 0 {
      LiveGrows(st', st, v, c);
    }
  }

  ghost function Emptied<V, B, S, P>(st: State<V, B, S, P>, v: V): set<B>
    requires v in st.areas && st.areas[v] in st.blocks
  {
    if st.blocks[st.areas[v]].vctr == 1 then {st.areas[v]} else {}
  }

  lemma PutSupers<V, B, S, P>(st: State<V, B, S, P>, caps: Caps, v: V)
    requires SupersOk(st, caps, {}) && v in st.areas && st.areas[v] in st.blocks && st.blocks[st.areas[v]].vctr > 0
    ensures SupersOk(Put(st, v), caps, Emptied(st, v))
  {
    SupersUpdate(st, Put(st, v), caps, {}, Emptied(st, v));
  }

  lemma PutPools<V, B, S, P>(st: State<V, B, S, P>, caps: Caps, v: V)
    requires PoolsOk(st, caps, {}) && caps.block >= 2
    requires v in st.areas && st.areas[v] in st.blocks && st.blocks[st.areas[v]].vctr > 0
    requires st.blocks[st.areas[v]].vctr + |st.blocks[st.areas[v]].free| == caps.block
    ensures PoolsOk(Put(st, v), caps, Emptied(st, v))
  {
    var b, st' := st.areas[v], Put(st, v);
    var p := st.blocks[b].owner.value;
    if st.blocks[b].free == [] {
      assert b !in st.pools[p];
    } else {
      assert b in st.pools[p];
    }
    forall q, c | q in st'.pools && c in st'.pools[q]
      ensures c in st'.blocks && st'.blocks[c].owner == Some(q) && st'.blocks[c].vctr < caps.block
      ensures st'.blocks[c].vctr > 0 || c in Emptied(st, v)
    {
      assert c != b ==> c in st.pools[q];
    }
  }

  lemma PutBetween<V, B, S, P>(st: State<V, B, S, P>, caps: Caps, v: V)
    requires Inv(st, caps) && v in st.live
    ensures v in st.areas && st.areas[v] in st.blocks
    ensures Between(Put(st, v), caps, {}, Emptied(st, v))
    // the asserted counter value: a block that was full is now one short of it
    ensures st.blocks[st.areas[v]].free == [] ==> Put(st, v).blocks[st.areas[v]].vctr == caps.block - 1
    ensures st.blocks[st.areas[v]].free == [] ==> st.blocks[st.areas[v]].owner.Some?
  {
    PutAreas(st, v);
    PutBlocks(st, caps, v);
    PutSupers(st, caps, v);
    PutPools(st, caps, v);
  }

  /** `s` without its (only) occurrence of `x`. */
  ghost function Remove<T>(s: seq<T>, x: T): seq<T>
  {
    if s == [] then [] else if s[0] == x then s[1..] else [s[0]] + Remove(s[1..], x)
  }

  ghost predicate Removed<T>(s: seq<T>, x: T, r: seq<T>)
  {
    NoDuplicates(r) && (forall y :: y in r ==> y in s && y != x) && (forall y :: y in s && y != x ==> y in r)
  }

  lemma {:induction false} RemoveMembers<T>(s: seq<T>, x: T)
    requires NoDuplicates(s)
    ensures Removed(s, x, Remove(s, x))
  {
    if s != [] {
      TailMembers(s);
      RemoveMembers(s[1..], x);
      var r := Remove(s[1..], x);
      if s[0] != x {
        assert s[0] !in r;
        forall y | y in s && y != x ensures y in [s[0]] + r {
          assert y == s[0] || y in s[1..];
        }
      }
    }
  }

  /** Move the unused block `b` from its owner's pool to its superblock. */
  ghost function Unpool<V, B, S, P>(st: State<V, B, S, P>, b: B): State<V, B, S, P>
    requires b in st.blocks && st.blocks[b].super in st.supers
    requires st.blocks[b].owner.Some? && st.blocks[b].owner.value in st.pools
  {
    var p, s := st.blocks[b].owner.value, st.blocks[b].super;
    var ss := st.supers[s];
    st.(pools := st.pools[p := Remove(st.pools[p], b)],
        supers := st.supers[s := SuperState(ss.bctr - 1, [b] + ss.avail)],
        global := if ss.bctr != 1 && ss.avail == [] then [s] + st.global else st.global)
  }

  ghost function Abandoned<V, B, S, P>(st: State<V, B, S, P>, b: B): set<S>
    requires b in st.blocks && st.blocks[b].super in st.supers
  {
    if st.supers[st.blocks[b].super].bctr == 1 then {st.blocks[b].super} else {}
  }

  lemma UnpoolPools<V, B, S, P>(st: State<V, B, S, P>, caps: Caps, b: B)
    requires PoolsOk(st, caps, {b}) && b in st.blocks && st.blocks[b].vctr == 0 && st.blocks[b].super in st.supers
    ensures st.blocks[b].owner.Some? && st.blocks[b].owner.value in st.pools && PoolsOk(Unpool(st, b), caps, {})
  {
    var p, st' := st.blocks[b].owner.value, Unpool(st, b);
    var rest := Remove(st.pools[p], b);
    RemoveMembers(st.pools[p], b);
    assert Removed(st.pools[p], b, rest) && st'.pools[p] == rest;
    forall q, c | q in st'.pools && c in st'.pools[q]
      ensures c in st'.blocks && st'.blocks[c].owner == Some(q) && 0 < st'.blocks[c].vctr < caps.block
    {
      assert c in st.pools[q];
    }
  }

  /** `st'` has the unused block `b` back on the list of its superblock `s`, and is like `st` otherwise. */
  ghost predicate Restocked<V, B, S, P>(st: State<V, B, S, P>, st': State<V, B, S, P>, s: S, b: B)
    requires s in st.supers
  {
    && st'.blocks == st.blocks && st'.supers.Keys == st.supers.Keys
    && (forall q :: q in st.supers && q != s ==> st'.supers[q] == st.supers[q])
    && st'.supers[s].bctr == st.supers[s].bctr - 1
    && |st'.supers[s].avail| == |st.supers[s].avail| + 1 && b in st'.supers[s].avail
    && (forall c :: c in st'.supers[s].avail ==> c == b || c in st.supers[s].avail)
    && (forall c :: c in st.supers[s].avail ==> c in st'.supers[s].avail)
    && (b !in st.supers[s].avail && NoDuplicates(st.supers[s].avail) ==> NoDuplicates(st'.supers[s].avail))
  }

  lemma RestockedStolen<V, B, S, P>(st: State<V, B, S, P>, st': State<V, B, S, P>, s: S, b: B, q: S)
    requires s in st.supers && Restocked(st, st', s, b) && b in st.blocks && st.blocks[b].super == s
    requires b !in st.supers[s].avail && q in st.supers
    ensures |Stolen(st, q)| == |Stolen(st', q)| + if q == s then 1 else 0
  {
    assert Stolen(st, q) == if q == s then Stolen(st', q) + {b} else Stolen(st', q);
  }

  lemma RestockedCounts<V, B, S, P>(st: State<V, B, S, P>, st': State<V, B, S, P>, caps: Caps, s: S, b: B, q: S)
    requires SupersOk(st, caps, {b}) && s in st.supers && Restocked(st, st', s, b) && q in st.supers
    requires b in st.blocks && st.blocks[b].super == s && st.blocks[b].vctr == 0
    ensures NoDuplicates(st'.supers[q].avail)
    ensures st'.supers[q].bctr + |st'.supers[q].avail| == caps.super && st'.supers[q].bctr == |Stolen(st', q)|
  {
    assert b !in st.supers[s].avail;
    RestockedStolen(st, st', s, b, q);
  }

  lemma RestockedMembers<V, B, S, P>(st: State<V, B, S, P>, st': State<V, B, S, P>, caps: Caps, s: S, b: B)
    requires SupersOk(st, caps, {b}) && s in st.supers && Restocked(st, st', s, b)
    requires b in st.blocks && st.blocks[b].super == s
    ensures forall q, c :: q in st'.supers && c in st'.supers[q].avail ==> c in st'.blocks && st'.blocks[c].super == q
  {
    hide NoDuplicates;
    hide Stolen;
    forall q, c | q in st'.supers && c in st'.supers[q].avail ensures c in st'.blocks && st'.blocks[c].super == q {
      assert c == b || c in st.supers[q].avail;
    }
  }

  lemma RestockedSupers<V, B, S, P>(st: State<V, B, S, P>, st': State<V, B, S, P>, caps: Caps, s: S, b: B)
    requires SupersOk(st, caps, {b}) && s in st.supers && Restocked(st, st', s, b)
    requires b in st.blocks && st.blocks[b].super == s && st.blocks[b].vctr == 0
    ensures SupersOk(st', caps, {})
  {
    hide Stolen;
    hide NoDuplicates;
    forall q | q in st'.supers
      ensures NoDuplicates(st'.supers[q].avail) && st'.supers[q].bctr + |st'.supers[q].avail| == caps.super
      ensures st'.supers[q].bctr == |Stolen(st', q)|
    {
      RestockedCounts(st, st', caps, s, b, q);
    }
    RestockedMembers(st, st', caps, s, b);
    RestockedUnused(st, st', caps, s, b);
  }

  lemma RestockedUnused<V, B, S, P>(st: State<V, B, S, P>, st': State<V, B, S, P>, caps: Caps, s: S, b: B)
    requires SupersOk(st, caps, {b}) && s in st.supers && Restocked(st, st', s, b)
    requires b in st.blocks && st.blocks[b].super == s && st.blocks[b].vctr == 0
    ensures forall c :: c in st'.blocks && st'.blocks[c].super in st'.supers ==>
      (c in st'.supers[st'.blocks[c].super].avail <==> st'.blocks[c].vctr == 0)
  {
    forall c | c in st'.blocks && st'.blocks[c].super in st'.supers
      ensures c in st'.supers[st'.blocks[c].super].avail <==> st'.blocks[c].vctr == 0
    {
      assert c in st'.supers[s].avail <==> c == b || c in st.supers[s].avail;
    }
  }

  lemma UnpoolSupers<V, B, S, P>(st: State<V, B, S, P>, caps: Caps, b: B)
    requires SupersOk(st, caps, {b}) && b in st.blocks && st.blocks[b].vctr == 0 && st.blocks[b].super in st.supers
    requires st.blocks[b].owner.Some? && st.blocks[b].owner.value in st.pools
    ensures SupersOk(Unpool(st, b), caps, {})
  {
    var s := st.blocks[b].super;
    var avail, avail' := st.supers[s].avail, [b] + st.supers[s].avail;
    assert avail'[0] == b && forall i :: 0 <= i < |avail| ==> avail'[i + 1] == avail[i];
    RestockedSupers(st, Unpool(st, b), caps, s, b);
  }

  lemma UnpoolGlobal<V, B, S, P>(st: State<V, B, S, P>, caps: Caps, b: B)
    requires GlobalOk(st, caps, {}) && SupersOk(st, caps, {b}) && caps.super >= 2
    requires b in st.blocks && st.blocks[b].super in st.supers
    requires st.blocks[b].owner.Some? && st.blocks[b].owner.value in st.pools
    ensures GlobalOk(Unpool(st, b), caps, Abandoned(st, b))
  {
    var s := st.blocks[b].super;
    assert st.supers[s].bctr > 0 && st.supers[s].bctr + |st.supers[s].avail| == caps.super;
  }

  lemma UnpoolInside<V, B, S, P>(st: State<V, B, S, P>, caps: Caps, b: B)
    requires AreasOk(st) && BlocksOk(st, caps) && b in st.blocks && st.blocks[b].super in st.supers
    requires st.blocks[b].owner.Some? && st.blocks[b].owner.value in st.pools
    ensures AreasOk(Unpool(st, b)) && BlocksOk(Unpool(st, b), caps)
  {
    SameInside(st, Unpool(st, b), caps);
  }

  lemma UnpoolBetween<V, B, S, P>(st: State<V, B, S, P>, caps: Caps, b: B)
    requires Between(st, caps, {}, {b}) && b in st.blocks && st.blocks[b].vctr == 0
    ensures st.blocks[b].super in st.supers && st.blocks[b].owner.Some? && st.blocks[b].owner.value in st.pools
    ensures Between(Unpool(st, b), caps, Abandoned(st, b), {})
    // the asserted counter value: a superblock that was used up is now one short of it
    ensures var s := st.blocks[b].super;
      st.supers[s].avail == [] ==> Unpool(st, b).supers[s].bctr == caps.super - 1
  {
    UnpoolPools(st, caps, b);
    UnpoolSupers(st, caps, b);
    UnpoolGlobal(st, caps, b);
    UnpoolInside(st, caps, b);
  }

  /** Give superblock `s` back to the system. */
  ghost function DropSuper<V, B, S, P>(st: State<V, B, S, P>, s: S): State<V, B, S, P>
  {
    st.(areas := map v | v in st.areas && (st.areas[v] !in st.blocks || st.blocks[st.areas[v]].super != s)
                   :: st.areas[v],
        blocks := map b | b in st.blocks && st.blocks[b].super != s :: st.blocks[b],
        supers := st.supers - {s},
        global := Remove(st.global, s))
  }

  /** A superblock without stolen blocks has no live area. */
  lemma AbandonedUnused<V, B, S, P>(st: State<V, B, S, P>, caps: Caps, s: S, b: B)
    requires BlocksOk(st, caps) && SupersOk(st, caps, {}) && s in st.supers && st.supers[s].bctr == 0
    requires b in st.blocks && st.blocks[b].super == s
    ensures st.blocks[b].vctr == 0 && LiveIn(st, b) == {}
  {
    assert Stolen(st, s) == {};
    assert b !in Stolen(st, s);
  }

  lemma LiveElsewhere<V, B, S, P>(st: State<V, B, S, P>, caps: Caps, s: S, v: V)
    requires AreasOk(st) && BlocksOk(st, caps) && SupersOk(st, caps, {}) && s in st.supers && st.supers[s].bctr == 0
    requires v in st.live
    ensures v in st.areas && st.areas[v] in st.blocks && st.blocks[st.areas[v]].super != s
  {
    var b := st.areas[v];
    assert v in LiveIn(st, b);
    if st.blocks[b].super == s {
      AbandonedUnused(st, caps, s, b);
    }
  }

  lemma DropAreas<V, B, S, P>(st: State<V, B, S, P>, s: S)
    requires AreasOk(st) && s in st.supers
    requires forall v :: v in st.live ==> st.blocks[st.areas[v]].super != s
    ensures AreasOk(DropSuper(st, s))
  {
  }

  lemma DropBlocks<V, B, S, P>(st: State<V, B, S, P>, caps: Caps, s: S)
    requires AreasOk(st) && BlocksOk(st, caps) && s in st.supers
    requires forall v :: v in st.live ==> st.blocks[st.areas[v]].super != s
    ensures BlocksOk(DropSuper(st, s), caps)
  {
    var st' := DropSuper(st, s);
    forall b | b in st'.blocks ensures LiveIn(st', b) == LiveIn(st, b) {
    }
  }

  lemma DropSupers<V, B, S, P>(st: State<V, B, S, P>, caps: Caps, s: S)
    requires SupersOk(st, caps, {}) && s in st.supers
    ensures SupersOk(DropSuper(st, s), caps, {})
  {
    var st' := DropSuper(st, s);
    forall q | q in st'.supers ensures Stolen(st', q) == Stolen(st, q) {
    }
  }

  lemma DropPools<V, B, S, P>(st: State<V, B, S, P>, caps: Caps, s: S)
    requires PoolsOk(st, caps, {}) && BlocksOk(st, caps) && SupersOk(st, caps, {}) && s in st.supers
    requires st.supers[s].bctr == 0
    ensures PoolsOk(DropSuper(st, s), caps, {})
  {
    forall b | b in st.blocks && st.blocks[b].super == s ensures st.blocks[b].vctr == 0 {
      AbandonedUnused(st, caps, s, b);
    }
  }

  lemma DropInv<V, B, S, P>(st: State<V, B, S, P>, caps: Caps, s: S)
    requires Between(st, caps, {s}, {}) && s in st.supers && st.supers[s].bctr == 0
    ensures Inv(DropSuper(st, s), caps) && s in st.global
  {
    forall v | v in st.live ensures st.blocks[st.areas[v]].super != s {
      LiveElsewhere(st, caps, s, v);
    }
    DropAreas(st, s);
    DropBlocks(st, caps, s);
    DropSupers(st, caps, s);
    DropPools(st, caps, s);
    var rest := Remove(st.global, s);
    RemoveMembers(st.global, s);
    assert Removed(st.global, s, rest) && DropSuper(st, s).global == rest;
  }

  // ----- whole calls -----

  /** If no superblock has a block to offer, one is requested from the system. */
  ghost function Grow<V, B, S, P>(st: State<V, B, S, P>, memory: Option<Region<V, B, S>>): State<V, B, S, P>
  {
    if st.global == [] && memory.Some? then AddSuper(st, memory.value) else st
  }

  ghost predicate MemoryOk<V, B, S, P>(st: State<V, B, S, P>, caps: Caps, memory: Option<Region<V, B, S>>)
  {
    memory.Some? ==> RegionOk(memory.value, caps) && Unused(st, memory.value)
  }

  lemma GrowSteal<V, B, S, P>(st: State<V, B, S, P>, caps: Caps, p: P, memory: Option<Region<V, B, S>>)
    requires Inv(st, caps) && MemoryOk(st, caps, memory) && PoolOf(st, p) == [] && (st.global != [] || memory.Some?)
    ensures var g := Grow(st, memory);
      && g.global != [] && g.global[0] in g.supers && g.supers[g.global[0]].avail != [] && Loot(g) in g.blocks
      && Between(Steal(g, p), caps, {}, {Loot(g)}) && PoolOf(Steal(g, p), p) == [Loot(g)]
      && g.live == st.live && Steal(g, p).live == st.live
  {
    if st.global == [] {
      AddBetween(st, caps, memory.value);
      StealBetween(AddSuper(st, memory.value), caps, {memory.value.super}, p);
    } else {
      StealBetween(st, caps, {}, p);
    }
  }

  /** The state in which the caller's pool has a block, unless memory has run out. */
  ghost function Stock<V, B, S, P>(st: State<V, B, S, P>, caps: Caps, p: P,
                                   memory: Option<Region<V, B, S>>): State<V, B, S, P>
    requires Inv(st, caps) && MemoryOk(st, caps, memory)
  {
    if PoolOf(st, p) != [] || (st.global == [] && memory == None) then st
    else
      GrowSteal(st, caps, p, memory);
      Steal(Grow(st, memory), p)
  }

  lemma StockReady<V, B, S, P>(st: State<V, B, S, P>, caps: Caps, p: P, memory: Option<Region<V, B, S>>)
    requires Inv(st, caps) && MemoryOk(st, caps, memory)
    requires PoolOf(st, p) != [] || st.global != [] || memory.Some?
    ensures var k := Stock(st, caps, p, memory);
      && PoolOf(k, p) != [] && PoolOf(k, p)[0] in k.blocks && k.blocks[PoolOf(k, p)[0]].free != []
      && k.live == st.live && Next(k, p) !in st.live && Inv(Take(k, p), caps)
  {
    var k := Stock(st, caps, p, memory);
    if PoolOf(st, p) != [] {
      TakeBetween(k, caps, {}, p);
      CanTake(k, caps, {}, p);
    } else {
      GrowSteal(st, caps, p, memory);
      TakeBetween(k, caps, {PoolOf(k, p)[0]}, p);
      CanTake(k, caps, {PoolOf(k, p)[0]}, p);
    }
  }

  /**
    `vma_alloc` by the thread with pool `p`.  `memory` is what the system would answer to a request
    for a superblock, which is made only if there is no block to steal.
  */
  ghost function Alloc<V, B, S, P>(st: State<V, B, S, P>, caps: Caps, p: P,
                                   memory: Option<Region<V, B, S>>): (State<V, B, S, P>, Option<V>)
    requires Inv(st, caps) && MemoryOk(st, caps, memory)
  {
    if PoolOf(st, p) == [] && st.global == [] && memory == None then (st, None)
    else
      StockReady(st, caps, p, memory);
      var k := Stock(st, caps, p, memory);
      (Take(k, p), Some(Next(k, p)))
  }

  /** An allocation keeps the invariant and hands out an area that was not in use. */
  lemma AllocSafe<V, B, S, P>(st: State<V, B, S, P>, caps: Caps, p: P, memory: Option<Region<V, B, S>>)
    requires Inv(st, caps) && MemoryOk(st, caps, memory)
    ensures var (st', r) := Alloc(st, caps, p, memory);
      && Inv(st', caps)
      && (r == None <==> PoolOf(st, p) == [] && st.global == [] && memory == None)
      && (r == None ==> st' == st)
      && (r.Some? ==> r.value !in st.live && st'.live == st.live + {r.value})
  {
    hide AreasOk;
    hide BlocksOk;
    hide SupersOk;
    hide PoolsOk;
    hide GlobalOk;
    hide Stock;
    hide MemoryOk;
    if PoolOf(st, p) != [] || st.global != [] || memory.Some? {
      StockReady(st, caps, p, memory);
    }
  }

  ghost function Free<V, B, S, P>(st: State<V, B, S, P>, caps: Caps, v: V): State<V, B, S, P>
    requires Inv(st, caps) && v in st.live
  {
    PutBetween(st, caps, v);
    var b, put := st.areas[v], Put(st, v);
    if put.blocks[b].vctr != 0 then put
    else
      UnpoolBetween(put, caps, b);
      var s, unpooled := put.blocks[b].super, Unpool(put, b);
      if unpooled.supers[s].bctr != 0 then unpooled else DropSuper(unpooled, s)
  }

  /** A release keeps the invariant and ends the life of exactly one area. */
  lemma FreeSafe<V, B, S, P>(st: State<V, B, S, P>, caps: Caps, v: V)
    requires Inv(st, caps) && v in st.live
    ensures Inv(Free(st, caps, v), caps)
    ensures Free(st, caps, v).live == st.live - {v}
  {
    PutBetween(st, caps, v);
    var b, put := st.areas[v], Put(st, v);
    if put.blocks[b].vctr == 0 {
      UnpoolBetween(put, caps, b);
      var s := put.blocks[b].super;
      if Unpool(put, b).supers[s].bctr == 0 {
        DropInv(Unpool(put, b), caps, s);
      }
    }
  }

  // ----- runs -----

  datatype Op<!V, !B, !S, P> = AllocOp(pool: P, memory: Option<Region<V, B, S>>) | FreeOp(area: V)

  /** Any thread may allocate, and any thread may free any live area. */
  ghost predicate Enabled<V, B, S, P>(st: State<V, B, S, P>, caps: Caps, op: Op<V, B, S, P>)
  {
    match op
    case AllocOp(p, memory) => MemoryOk(st, caps, memory)
    case FreeOp(v) => v in st.live
  }

  ghost function Perform<V, B, S, P>(st: State<V, B, S, P>, caps: Caps, op: Op<V, B, S, P>): State<V, B, S, P>
    requires Inv(st, caps) && Enabled(st, caps, op)
  {
    match op
    case AllocOp(p, memory) => Alloc(st, caps, p, memory).0
    case FreeOp(v) => Free(st, caps, v)
  }

  /** One call; it is only defined between calls that keep the invariant, which `RunSafe` shows they do. */
  ghost predicate IsStep<V, B, S, P>(st: State<V, B, S, P>, caps: Caps, op: Op<V, B, S, P>, st': State<V, B, S, P>)
  {
    Inv(st, caps) ==> Enabled(st, caps, op) && st' == Perform(st, caps, op)
  }

  /** `trace` lists the states of a run that performs `ops`, one call at a time. */
  ghost predicate IsRun<V, B, S, P>(trace: seq<State<V, B, S, P>>, caps: Caps, ops: seq<Op<V, B, S, P>>)
  {
    && |trace| == |ops| + 1
    && trace[0] == State(map[], map[], map[], map[], [], {})
    && (forall i :: 0 <= i < |ops| ==> IsStep(trace[i], caps, ops[i], trace[i + 1]))
  }

  lemma StepSafe<V, B, S, P>(st: State<V, B, S, P>, caps: Caps, op: Op<V, B, S, P>, st': State<V, B, S, P>)
    requires Inv(st, caps) && IsStep(st, caps, op, st')
    ensures Inv(st', caps)
  {
    match op
    case AllocOp(p, memory) => AllocSafe(st, caps, p, memory);
    case FreeOp(v) => FreeSafe(st, caps, v);
  }

  /** The invariant holds in every state of every run of any number of threads. */
  lemma {:induction false} RunSafe<V, B, S, P>(trace: seq<State<V, B, S, P>>, caps: Caps, ops: seq<Op<V, B, S, P>>,
                                               i: nat)
    requires caps.block >= 2 && caps.super >= 2 && IsRun(trace, caps, ops) && i < |trace|
    ensures Inv(trace[i], caps)
  {
    if i > 0 {
      var k := i - 1;
      RunSafe(trace, caps, ops, k);
      assert IsStep(trace[k], caps, ops[k], trace[k + 1]);
      StepSafe(trace[k], caps, ops[k], trace[i]);
    }
  }

  // ----- what the invariant says -----

  lemma FreeHome<V, B, S, P>(st: State<V, B, S, P>, b: B, v: V)
    requires AreasOk(st) && b in st.blocks && v in st.blocks[b].free
    ensures v in st.areas && st.areas[v] == b && v !in st.live
  {
  }

  /** No area is on two free lists, and none is both free and live. */
  lemma AreasDisjoint<V, B, S, P>(st: State<V, B, S, P>, caps: Caps, b: B, c: B, v: V)
    requires Inv(st, caps) && b in st.blocks && v in st.blocks[b].free
    ensures v !in st.live
    ensures c in st.blocks && v in st.blocks[c].free ==> b == c
  {
    FreeHome(st, b, v);
    if c in st.blocks && v in st.blocks[c].free { FreeHome(st, c, v); }
  }

  lemma PoolOwner<V, B, S, P>(st: State<V, B, S, P>, caps: Caps, p: P, b: B)
    requires PoolsOk(st, caps, {}) && p in st.pools && b in st.pools[p]
    ensures b in st.blocks && st.blocks[b].owner == Some(p) && 0 < st.blocks[b].vctr < caps.block
  {
  }

  /** No block is in two pools, on the lists of two superblocks, or in a pool and on such a list. */
  lemma BlocksDisjoint<V, B, S, P>(st: State<V, B, S, P>, caps: Caps, p: P, q: P, s: S, t: S, b: B)
    requires Inv(st, caps) && p in st.pools && q in st.pools && s in st.supers && t in st.supers
    ensures b in st.pools[p] && b in st.pools[q] ==> p == q
    ensures b in st.supers[s].avail && b in st.supers[t].avail ==> s == t
    ensures b in st.pools[p] ==> b !in st.supers[s].avail
  {
    if b in st.pools[p] { PoolOwner(st, caps, p, b); }
    if b in st.pools[q] { PoolOwner(st, caps, q, b); }
    if b in st.supers[s].avail {
      assert b in st.blocks && st.blocks[b].super == s && st.blocks[b].vctr == 0;
    }
    if b in st.supers[t].avail {
      assert b in st.blocks && st.blocks[b].super == t;
    }
  }

  /** Conservation, and where a block is: in its owner's pool iff it is partly used. */
  lemma BlockPlacement<V, B, S, P>(st: State<V, B, S, P>, caps: Caps, b: B, p: P)
    requires Inv(st, caps) && b in st.blocks && p in st.pools
    ensures st.blocks[b].vctr + |st.blocks[b].free| == caps.block && st.blocks[b].vctr == |LiveIn(st, b)|
    ensures b in st.pools[p] <==> 0 < st.blocks[b].vctr < caps.block && st.blocks[b].owner == Some(p)
    ensures 0 < st.blocks[b].vctr ==> st.blocks[b].owner.Some? && st.blocks[b].owner.value in st.pools
  {
    if b in st.pools[p] { PoolOwner(st, caps, p, b); }
  }

  /** Conservation, and where a superblock is: in the global pool iff it is partly used. */
  lemma SuperPlacement<V, B, S, P>(st: State<V, B, S, P>, caps: Caps, s: S)
    requires Inv(st, caps) && s in st.supers
    ensures st.supers[s].bctr + |st.supers[s].avail| == caps.super && st.supers[s].bctr == |Stolen(st, s)|
    ensures s in st.global <==> 0 < st.supers[s].bctr < caps.super
    ensures forall b :: b in Stolen(st, s) ==> st.blocks[b].vctr > 0
  {
    forall b | b in Stolen(st, s) ensures st.blocks[b].vctr > 0 {
      assert st.blocks[b].super == s && b !in st.supers[s].avail;
      assert st.blocks[b].vctr == |LiveIn(st, b)|;
    }
  }

  lemma {:induction false} Onto<X, Y>(m: map<X, Y>, ys: set<Y>)
    requires forall y :: y in ys ==> exists x :: x in m && m[x] == y
    ensures |ys| <= |m|
    decreases ys
  {
    if ys != {} {
      var y :| y in ys;
      var x :| x in m && m[x] == y;
      var m' := m - {x};
      assert m'.Keys == m.Keys - {x};
      forall z | z in ys - {y} ensures exists w :: w in m' && m'[w] == z {
        var w :| w in m && m[w] == z;
        assert w in m' && m'[w] == z;
      }
      Onto(m', ys - {y});
    }
  }

  ghost function StolenBlocks<V, B, S, P>(st: State<V, B, S, P>): set<B>
  {
    set b | b in st.blocks && st.blocks[b].vctr > 0
  }

  lemma StolenBound<V, B, S, P>(st: State<V, B, S, P>, caps: Caps)
    requires AreasOk(st) && BlocksOk(st, caps)
    ensures |StolenBlocks(st)| <= |st.live|
  {
    var homes := map v | v in st.live && v in st.areas :: st.areas[v];
    assert homes.Keys == st.live;
    forall b | b in StolenBlocks(st) ensures exists v :: v in homes && homes[v] == b {
      assert LiveIn(st, b) != {};
      var v :| v in LiveIn(st, b);
      assert v in homes && homes[v] == b;
    }
    Onto(homes, StolenBlocks(st));
  }

  lemma SuperHost<V, B, S, P>(st: State<V, B, S, P>, caps: Caps, s: S) returns (b: B)
    requires BlocksOk(st, caps) && SupersOk(st, caps, {}) && s in st.supers && st.supers[s].bctr > 0
    ensures b in StolenBlocks(st) && st.blocks[b].super == s
  {
    assert Stolen(st, s) != {};
    b :| b in Stolen(st, s);
    assert st.blocks[b].vctr == |LiveIn(st, b)|;
  }

  lemma SuperBound<V, B, S, P>(st: State<V, B, S, P>, caps: Caps)
    requires BlocksOk(st, caps) && SupersOk(st, caps, {}) && GlobalOk(st, caps, {})
    ensures |st.supers| <= |StolenBlocks(st)|
  {
    var hosts := map b | b in StolenBlocks(st) && b in st.blocks :: st.blocks[b].super;
    assert hosts.Keys == StolenBlocks(st);
    forall s | s in st.supers.Keys ensures exists b :: b in hosts && hosts[b] == s {
      var b := SuperHost(st, caps, s);
      assert b in hosts && hosts[b] == s;
    }
    Onto(hosts, st.supers.Keys);
    assert |st.supers.Keys| == |st.supers|;
  }

  /** Memory is given back eagerly: superblocks held, blocks in use and live areas bound each other. */
  lemma GiveBack<V, B, S, P>(st: State<V, B, S, P>, caps: Caps)
    requires Inv(st, caps)
    ensures |st.supers| <= |StolenBlocks(st)| <= |st.live|
  {
    StolenBound(st, caps);
    SuperBound(st, caps);
  }

  lemma Members<T>(s: seq<T>)
    ensures s != [] ==> s[0] in s
  {
  }

  /** Without superblocks nothing else is left. */
  lemma NoSupers<V, B, S, P>(st: State<V, B, S, P>, caps: Caps)
    requires Inv(st, caps) && st.supers == map[]
    ensures st.blocks == map[] && st.areas == map[] && st.global == []
  {
    Members(st.global);
  }

  /** When the last area has been freed nothing is held any more, whoever freed what in which order. */
  lemma NothingLeft<V, B, S, P>(st: State<V, B, S, P>, caps: Caps)
    requires Inv(st, caps) && st.live == {}
    ensures st.supers == map[] && st.blocks == map[] && st.areas == map[] && st.global == []
    ensures forall p :: p in st.pools ==> st.pools[p] == []
  {
    GiveBack(st, caps);
    NoSupers(st, caps);
    forall p | p in st.pools ensures st.pools[p] == [] {
      if st.pools[p] != [] { PoolOwner(st, caps, p, st.pools[p][0]); }
    }
  }
}
