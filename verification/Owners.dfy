/** Whose block an area lies in: that of the thread that took it, for as long as the area is live. */
module Owners {
  import opened Basics
  import opened AllocModel

  /** The pool of the thread that owns the block of area `v`. */
  ghost function OwnerOf<V, B, S, P>(st: State<V, B, S, P>, v: V): Option<P>
  {
    if v in st.areas && st.areas[v] in st.blocks then st.blocks[st.areas[v]].owner else None
  }

  /** No area that is live in both states has changed hands. */
  ghost predicate OwnersKept<V, B, S, P>(st: State<V, B, S, P>, st': State<V, B, S, P>)
  {
    forall v :: v in st.live && v in st'.live ==> OwnerOf(st', v) == OwnerOf(st, v)
  }

  lemma LiveUsed<V, B, S, P>(st: State<V, B, S, P>, caps: Caps, v: V)
    requires AreasOk(st) && BlocksOk(st, caps) && v in st.live
    ensures v in st.areas && st.areas[v] in st.blocks && st.blocks[st.areas[v]].vctr > 0
  {
    assert v in LiveIn(st, st.areas[v]);
  }

  /** Every live area lies in a block that some known pool owns. */
  lemma LiveOwned<V, B, S, P>(st: State<V, B, S, P>, caps: Caps, v: V)
    requires Inv(st, caps) && v in st.live
    ensures OwnerOf(st, v).Some? && OwnerOf(st, v).value in st.pools
  {
    LiveUsed(st, caps, v);
  }

  // ----- allocation -----

  lemma GrowOwners<V, B, S, P>(st: State<V, B, S, P>, caps: Caps, memory: Option<Region<V, B, S>>)
    requires Inv(st, caps) && MemoryOk(st, caps, memory)
    ensures OwnersKept(st, Grow(st, memory))
  {
    if st.global == [] && memory.Some? {
      AddIsAdded(st, memory.value);
      forall v | v in st.live ensures OwnerOf(Grow(st, memory), v) == OwnerOf(st, v) { LiveUsed(st, caps, v); }
    }
  }

  lemma StealOwners<V, B, S, P>(st: State<V, B, S, P>, caps: Caps, empty: set<S>, p: P)
    requires Between(st, caps, empty, {}) && st.global != []
    requires st.global[0] in st.supers && st.supers[st.global[0]].avail != [] && Loot(st) in st.blocks
    ensures OwnersKept(st, Steal(st, p))
  {
    CanSteal(st, caps, empty);
    forall v | v in st.live ensures OwnerOf(Steal(st, p), v) == OwnerOf(st, v) { LiveUsed(st, caps, v); }
  }

  lemma StockOwners<V, B, S, P>(st: State<V, B, S, P>, caps: Caps, p: P, memory: Option<Region<V, B, S>>)
    requires Inv(st, caps) && MemoryOk(st, caps, memory)
    ensures OwnersKept(st, Stock(st, caps, p, memory))
  {
    if !(PoolOf(st, p) != [] || (st.global == [] && memory == None)) {
      GrowSteal(st, caps, p, memory);
      GrowOwners(st, caps, memory);
      var g := Grow(st, memory);
      if st.global == [] {
        AddBetween(st, caps, memory.value);
        StealOwners(g, caps, {memory.value.super}, p);
      } else {
        StealOwners(g, caps, {}, p);
      }
    }
  }

  lemma HeadOwner<V, B, S, P>(st: State<V, B, S, P>, caps: Caps, held: set<B>, p: P)
    requires PoolsOk(st, caps, held) && PoolOf(st, p) != []
    ensures p in st.pools && PoolOf(st, p)[0] in st.blocks && st.blocks[PoolOf(st, p)[0]].owner == Some(p)
  {
    assert PoolOf(st, p)[0] in st.pools[p];
  }

  lemma TakeOwners<V, B, S, P>(st: State<V, B, S, P>, caps: Caps, held: set<B>, p: P)
    requires Between(st, caps, {}, held) && PoolOf(st, p) != []
    requires PoolOf(st, p)[0] in st.blocks && st.blocks[PoolOf(st, p)[0]].free != []
    ensures OwnersKept(st, Take(st, p))
    ensures OwnerOf(Take(st, p), Next(st, p)) == Some(p) && p in Take(st, p).pools
  {
    CanTake(st, caps, held, p);
    HeadOwner(st, caps, held, p);
    hide Between;
    hide NoDuplicates;
  }

  /** An allocation hands out an area from a block of the caller's own pool, and no live area changes hands. */
  lemma AllocOwners<V, B, S, P>(st: State<V, B, S, P>, caps: Caps, p: P, memory: Option<Region<V, B, S>>)
    requires Inv(st, caps) && MemoryOk(st, caps, memory)
    ensures var (st', r) := Alloc(st, caps, p, memory);
      OwnersKept(st, st') && (r.Some? ==> OwnerOf(st', r.value) == Some(p) && p in st'.pools)
  {
    if PoolOf(st, p) != [] || st.global != [] || memory.Some? {
      StockReady(st, caps, p, memory);
      StockOwners(st, caps, p, memory);
      var k := Stock(st, caps, p, memory);
      if PoolOf(st, p) != [] {
        TakeOwners(k, caps, {}, p);
      } else {
        GrowSteal(st, caps, p, memory);
        TakeOwners(k, caps, {Loot(Grow(st, memory))}, p);
      }
    }
  }

  // ----- release -----

  lemma PutOwners<V, B, S, P>(st: State<V, B, S, P>, v: V)
    requires v in st.areas && st.areas[v] in st.blocks
    ensures forall x :: OwnerOf(Put(st, v), x) == OwnerOf(st, x)
  {
  }

  lemma UnpoolOwners<V, B, S, P>(st: State<V, B, S, P>, b: B)
    requires b in st.blocks && st.blocks[b].super in st.supers
    requires st.blocks[b].owner.Some? && st.blocks[b].owner.value in st.pools
    ensures forall x :: OwnerOf(Unpool(st, b), x) == OwnerOf(st, x)
  {
  }

  lemma DropOwners<V, B, S, P>(st: State<V, B, S, P>, caps: Caps, s: S)
    requires AreasOk(st) && BlocksOk(st, caps) && SupersOk(st, caps, {}) && s in st.supers && st.supers[s].bctr == 0
    ensures OwnersKept(st, DropSuper(st, s))
  {
    forall v | v in st.live ensures OwnerOf(DropSuper(st, s), v) == OwnerOf(st, v) { LiveElsewhere(st, caps, s, v); }
  }

  /** A release changes nothing about who owns the other live areas, whoever releases. */
  lemma FreeOwners<V, B, S, P>(st: State<V, B, S, P>, caps: Caps, v: V)
    requires Inv(st, caps) && v in st.live
    ensures OwnersKept(st, Free(st, caps, v))
  {
    PutBetween(st, caps, v);
    PutOwners(st, v);
    var b, put := st.areas[v], Put(st, v);
    if put.blocks[b].vctr == 0 {
      UnpoolBetween(put, caps, b);
      UnpoolOwners(put, b);
      var s := put.blocks[b].super;
      if Unpool(put, b).supers[s].bctr == 0 { DropOwners(Unpool(put, b), caps, s); }
    }
  }

  // ----- the nodes of a tree -----

  /** From `nodes` to `nodes'`: those that stay keep their owners, and the new ones have the owner `p`. */
  ghost predicate HandedOn<V, B, S, P>(st: State<V, B, S, P>, nodes: set<V>, st': State<V, B, S, P>, nodes': set<V>,
                                       p: Option<P>)
  {
    forall x :: x in nodes' ==> OwnerOf(st', x) == if x in nodes then OwnerOf(st, x) else p
  }

  lemma OwnersThen<V, B, S, P>(st: State<V, B, S, P>, st1: State<V, B, S, P>, st2: State<V, B, S, P>)
    requires OwnersKept(st, st1) && OwnersKept(st1, st2) && st.live <= st1.live
    ensures OwnersKept(st, st2)
  {
  }

  lemma HandedNew<V, B, S, P>(st: State<V, B, S, P>, nodes: set<V>, st': State<V, B, S, P>, added: set<V>, p: P)
    requires OwnersKept(st, st') && nodes <= st.live && nodes <= st'.live && added !! nodes
    requires forall z :: z in added ==> OwnerOf(st', z) == Some(p)
    ensures HandedOn(st, nodes, st', nodes + added, Some(p))
  {
  }

  lemma HandedRest<V, B, S, P>(st: State<V, B, S, P>, nodes: set<V>, st': State<V, B, S, P>, nodes': set<V>)
    requires OwnersKept(st, st') && nodes <= st.live && nodes' <= st'.live && nodes' <= nodes
    ensures forall p :: HandedOn(st, nodes, st', nodes', p)
  {
  }

  lemma HandedSame<V, B, S, P>(st: State<V, B, S, P>, nodes: set<V>, p: Option<P>)
    ensures HandedOn(st, nodes, st, nodes, p)
  {
  }

  lemma HandedThen<V, B, S, P>(st: State<V, B, S, P>, nodes: set<V>, st1: State<V, B, S, P>, nodes1: set<V>,
                               st2: State<V, B, S, P>, nodes2: set<V>, p: Option<P>)
    requires HandedOn(st, nodes, st1, nodes1, p) && HandedOn(st1, nodes1, st2, nodes2, None) && nodes2 <= nodes1
    ensures HandedOn(st, nodes, st2, nodes2, p)
  {
  }

  lemma HandedAny<V, B, S, P>(st: State<V, B, S, P>, nodes: set<V>, st': State<V, B, S, P>, nodes': set<V>,
                              p: Option<P>)
    requires HandedOn(st, nodes, st', nodes', None) && nodes' <= nodes
    ensures HandedOn(st, nodes, st', nodes', p)
  {
  }

  // ----- runs -----

  lemma StepOwners<V, B, S, P>(st: State<V, B, S, P>, caps: Caps, op: Op<V, B, S, P>, st': State<V, B, S, P>)
    requires Inv(st, caps) && IsStep(st, caps, op, st')
    ensures OwnersKept(st, st')
    ensures forall v :: v in st'.live && v !in st.live ==> op.AllocOp? && OwnerOf(st', v) == Some(op.pool)
  {
    match op
    case AllocOp(p, memory) =>
      AllocSafe(st, caps, p, memory);
      AllocOwners(st, caps, p, memory);
    case FreeOp(v) =>
      FreeSafe(st, caps, v);
      FreeOwners(st, caps, v);
  }

  /**
    Over any run of any threads: an area that step `i` hands out lies in a block of the pool that asked for
    it, and still does so in state `k`, if it has not been given back before.
  */
  lemma {:induction false} RunOwners<V, B, S, P>(trace: seq<State<V, B, S, P>>, caps: Caps, ops: seq<Op<V, B, S, P>>,
                                                 i: nat, k: nat, v: V)
    requires caps.block >= 2 && caps.super >= 2 && IsRun(trace, caps, ops) && i < k < |trace|
    requires v !in trace[i].live && (forall j :: i < j <= k ==> v in trace[j].live)
    ensures ops[i].AllocOp? && OwnerOf(trace[k], v) == Some(ops[i].pool)
  {
    hide Inv;
    hide IsStep;
    hide OwnerOf;
    var j := k - 1;
    RunSafe(trace, caps, ops, j);
    assert IsStep(trace[j], caps, ops[j], trace[j + 1]);
    StepOwners(trace[j], caps, ops[j], trace[k]);
    if i < j { RunOwners(trace, caps, ops, i, j, v); }
  }
}
