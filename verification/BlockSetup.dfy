/** Setting up a superblock: its list of blocks, and the list of areas in each block. */
module BlockSetup {
  import opened Basics
  import opened VmAreas
  import opened AllocModel
  import opened BlockLists

  /** Link `count` new areas into the free list of `block`. */
  method FillBlock(block: Block, count: nat) returns (ghost free: seq<VmArea>)
    requires count >= 1
    modifies block`head
    ensures |free| == count && NoDuplicates(free) && AreaList(block.head, free)
    ensures forall v :: v in free ==> fresh(v) && v.home == block
  {
    var vma := new VmArea(block);
    block.head := vma;
    free := [vma];
    var j := 0;
    while j < count - 1
      invariant 0 <= j <= count - 1 && |free| == j + 1 && vma == free[j] && block.head == free[0] && fresh(vma)
      invariant NoDuplicates(free) && (forall v :: v in free ==> fresh(v) && v.home == block)
      invariant forall i {:trigger free[i].next} :: 0 <= i < j ==> free[i].next == free[i + 1]
    {
      var next := new VmArea(block);
      assert next !in free;
      vma.next := next;
      vma := next;
      free := free + [vma];
      j := j + 1;
    }
    vma.next := null;
  }

  type Memory = Region<VmArea, Block, Superblock>

  /** The blocks set up so far and their areas. */
  ghost predicate Laid(r: Memory, count: nat)
  {
    && NoDuplicates(r.blocks)
    && (forall b :: b in r.frees ==> b in r.blocks) && (forall b :: b in r.blocks ==> b in r.frees)
    && (forall b :: b in r.frees ==> NoDuplicates(r.frees[b]) && |r.frees[b]| == count)
    && (forall b, v :: b in r.frees && v in r.frees[b] ==> v in r.areas && r.areas[v] == b)
    && (forall v :: v in r.areas ==> v.home == r.areas[v] && r.areas[v] in r.frees && v in r.frees[r.areas[v]])
  }

  /** The fields of these blocks. */
  ghost predicate Filled(r: Memory)
    reads r.frees.Keys`vctr, r.frees.Keys`superblock, r.frees.Keys`mpool, r.frees.Keys`head, r.areas.Keys`next
  {
    && (forall b, v :: b in r.frees && v in r.frees[b] ==> v in r.areas)
    && (forall b :: b in r.frees ==>
          b.vctr == 0 && b.superblock == r.super && b.mpool == null && AreaList(b.head, r.frees[b]))
  }

  /** One more block `b`, with free areas `free`. */
  ghost function WithBlock(r: Memory, b: Block, free: seq<VmArea>): Memory
  {
    Region(r.super, r.blocks + [b], r.areas + (map v | v in free :: b), r.frees[b := free])
  }

  lemma WithBlockFrees(r: Memory, b: Block, free: seq<VmArea>, count: nat)
    requires Laid(r, count) && b !in r.blocks
    requires forall v :: v in free ==> v.home == b && v !in r.areas
    ensures var r' := WithBlock(r, b, free);
      && (forall c, v :: c in r'.frees && v in r'.frees[c] ==> v in r'.areas && r'.areas[v] == c)
      && (forall v :: v in r'.areas ==> v.home == r'.areas[v] && r'.areas[v] in r'.frees && v in r'.frees[r'.areas[v]])
  {
    var r' := WithBlock(r, b, free);
    assert b !in r.frees;
    forall c, v | c in r'.frees && v in r'.frees[c] ensures v in r'.areas && r'.areas[v] == c {
      if c != b { assert v in r.frees[c]; }
    }
  }

  lemma WithBlockLaid(r: Memory, b: Block, free: seq<VmArea>, count: nat)
    requires Laid(r, count) && b !in r.blocks && NoDuplicates(free) && |free| == count
    requires forall v :: v in free ==> v.home == b && v !in r.areas
    ensures Laid(WithBlock(r, b, free), count)
  {
    var r' := WithBlock(r, b, free);
    WithBlockFrees(r, b, free, count);
    assert forall c :: c in r'.blocks <==> c in r.blocks || c == b;
  }

  lemma WithBlockFilled(r: Memory, b: Block, free: seq<VmArea>)
    requires Filled(r) && b !in r.frees
    requires b.vctr == 0 && b.superblock == r.super && b.mpool == null && AreaList(b.head, free)
    ensures Filled(WithBlock(r, b, free))
  {
    var r' := WithBlock(r, b, free);
    forall c | c in r'.frees ensures AreaList(c.head, r'.frees[c]) {
      if c != b { assert r'.frees[c] == r.frees[c]; }
    }
  }

  /** `last` is the last of the blocks `l`, which are listed in `s`. */
  ghost predicate Ends(s: Superblock, last: Block?, l: seq<Block>)
    reads s`head, l`next, l`prev
  {
    if l == [] then last == null else last == l[|l| - 1] && BlockList(s.head, l)
  }

  /** Append a new block to the list of superblock `s`. */
  method AppendBlock(s: Superblock, last: Block?, ghost l: seq<Block>) returns (block: Block)
    requires Ends(s, last, l) && NoDuplicates(l)
    modifies s`head, (if last == null then {} else {last})`next
    ensures fresh(block) && block !in l && Ends(s, block, l + [block])
    ensures block.vctr == 0 && block.superblock == s && block.mpool == null
  {
    block := new Block(s);
    if last == null {
      s.head := block;
      block.prev := null;
    } else {
      last.next := block;
      block.prev := last;
    }
    block.next := null;
    ghost var u := l + [block];
    assert forall k :: 0 <= k < |l| ==> u[k] == l[k];
  }

  method AppendBlockIn(s: Superblock, last: Block?, ghost l: seq<Block>, ghost r: Memory) returns (block: Block)
    requires Ends(s, last, l) && NoDuplicates(l) && Filled(r)
    modifies s`head, (if last == null then {} else {last})`next
    ensures fresh(block) && block !in l && Ends(s, block, l + [block]) && Filled(r)
    ensures block.vctr == 0 && block.superblock == s && block.mpool == null
  {
    block := AppendBlock(s, last, l);
    assert Filled(r) == old(Filled(r));
  }

  method FillBlockIn(block: Block, count: nat, ghost s: Superblock, ghost l: seq<Block>, ghost r: Memory)
    returns (ghost free: seq<VmArea>)
    requires count >= 1 && Ends(s, block, l) && Filled(r) && block !in r.frees
    modifies block`head
    ensures |free| == count && NoDuplicates(free) && AreaList(block.head, free)
    ensures forall v :: v in free ==> fresh(v) && v.home == block
    ensures Ends(s, block, l) && Filled(r)
  {
    free := FillBlock(block, count);
    assert Ends(s, block, l) == old(Ends(s, block, l));
    assert Filled(r) == old(Filled(r));
  }

  /** A new block with its areas. */
  method SetupBlock(s: Superblock, last: Block?, caps: Caps, ghost r: Memory) returns (block: Block, ghost r': Memory)
    requires caps.block >= 1 && r.super == s && Laid(r, caps.block) && Filled(r) && Ends(s, last, r.blocks)
    modifies s`head, (if last == null then {} else {last})`next
    ensures r'.super == s && Laid(r', caps.block) && Filled(r') && Ends(s, block, r'.blocks)
    ensures |r'.blocks| == |r.blocks| + 1 && block in r'.frees
    ensures fresh(r'.frees.Keys - r.frees.Keys) && fresh(r'.areas.Keys - r.areas.Keys)
  {
    block := AppendBlockIn(s, last, r.blocks, r);
    ghost var l := r.blocks + [block];
    ghost var free := FillBlockIn(block, caps.block, s, l, r);
    WithBlockLaid(r, block, free, caps.block);
    WithBlockFilled(r, block, free);
    r' := WithBlock(r, block, free);
  }

  lemma LaidRegion(r: Memory, caps: Caps)
    requires Laid(r, caps.block) && |r.blocks| == caps.super
    ensures RegionOk(r, caps) && (forall v :: v in r.areas ==> v.home == r.areas[v])
  {
  }

  lemma NothingLaid(r: Memory, count: nat)
    requires r.blocks == [] && r.areas == map[] && r.frees == map[]
    ensures Laid(r, count) && Filled(r) && Ends(r.super, null, r.blocks)
  {
  }

  /** The nested setup loops. */
  method SetupBlocks(s: Superblock, caps: Caps) returns (ghost r: Memory, ghost last: Block?)
    requires caps.block >= 1
    modifies s`head
    ensures r.super == s && |r.blocks| == caps.super && Laid(r, caps.block) && Filled(r) && Ends(s, last, r.blocks)
    ensures fresh(r.frees.Keys) && fresh(r.areas.Keys)
  {
    hide Laid;
    hide Filled;
    hide Ends;
    r := Region(s, [], map[], map[]);
    NothingLaid(r, caps.block);
    var block: Block? := null;
    var i := 0;
    while i < caps.super
      invariant 0 <= i <= caps.super && i == |r.blocks| && r.super == s
      invariant Laid(r, caps.block) && Filled(r) && Ends(s, block, r.blocks)
      invariant fresh(r.frees.Keys) && fresh(r.areas.Keys)
      invariant block != null ==> block in r.frees
    {
      block, r := SetupBlock(s, block, caps, r);
      i := i + 1;
    }
    last := block;
  }

  /** Set up the block list of superblock `s`, and the area list of each block. */
  method SetupLists(s: Superblock, caps: Caps) returns (ghost r: Memory)
    requires caps.block >= 1 && caps.super >= 1
    modifies s`head
    ensures r.super == s && RegionOk(r, caps) && Filled(r) && BlockList(s.head, r.blocks)
    ensures fresh(r.frees.Keys) && fresh(r.areas.Keys)
    ensures forall v :: v in r.areas ==> v.home == r.areas[v]
  {
    ghost var last;
    r, last := SetupBlocks(s, caps);
    LaidRegion(r, caps);
  }
}
