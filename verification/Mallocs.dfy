/**
  `ooc_malloc` and `ooc_free`: each allocation is one mapping, which begins with the area that describes
  it, and the tree is the index of the allocations.

  The source's `sp_tree_remove` also passes the area to `vma_free`, although it comes from a mapping and
  not from the area allocator; here removal is taking it out of the tree, after which its bounds can
  still be read.
*/
module Mallocs {
  import opened Bits
  import opened SplayModel
  import opened VmAreas
  import opened AreaLists
  import opened SplayTree
  import opened SpTrees

  datatype Answer = Failure | Address(base: nat)

  /** What goes back to the system. */
  datatype Back = Nothing | Mapping(base: nat, length: nat)

  /**
    `length` is that of a mapping whose first `info` bytes are for the area, of size `area`, and the rest for
    `size` bytes: each part is the least that holds its contents and ends at a page boundary.
  */
  ghost predicate Measured(info: int, length: int, area: nat, size: nat, page: nat)
  {
    LeastMultiple(info, area, Pow2(page)) && LeastMultiple(length - info, size, Pow2(page))
  }

  /** The length of a mapping for `info` and `size` bytes: both sums may wrap around. */
  function LengthFor(info: nat, size: nat, page: nat, word: nat): nat
  {
    (info + Align(size, page, word)) % Pow2(word)
  }

  /** The computation of the length for `size` bytes does not wrap around. */
  predicate Fits(info: nat, size: nat, page: nat, word: nat)
  {
    size + Pow2(page) - 1 < Pow2(word) && info + Align(size, page, word) < Pow2(word)
  }

  /** A size that rounding takes beyond the last address becomes no size at all. */
  lemma WrapsToNothing(size: nat, page: nat, word: nat)
    requires page <= word && size < Pow2(word) <= size + Pow2(page) - 1
    ensures Align(size, page, word) == 0
  {
    hide RoundDown;
    hide And;
    hide Not;
    var top, x := Pow2(word), size + Pow2(page) - 1;
    MaskRounds(0, page, word);
    WrapMod(x, top);
    MaskRounds(x - top, page, word);
    RoundSmall(x - top, page);
  }

  lemma WrappedLength(info: nat, size: nat, page: nat, word: nat)
    requires page <= word && info < Pow2(word) && Align(size, page, word) < Pow2(word)
    ensures var sum := info + Align(size, page, word);
      LengthFor(info, size, page, word) == if sum < Pow2(word) then sum else sum - Pow2(word)
  {
    hide Align;
    hide Pow2;
    var sum, top := info + Align(size, page, word), Pow2(word);
    if sum < top { SmallMod(sum, top); } else { WrapMod(sum, top); }
  }

  /**
    The mapping holds the area and the bytes asked for exactly if the computation of its length does not
    wrap around.  A size that rounding takes beyond the last address gets a mapping without any room for it.
  */
  lemma LengthSuffices(info: nat, size: nat, page: nat, word: nat)
    requires page <= word && info < Pow2(word) && size < Pow2(word)
    ensures LengthFor(info, size, page, word) >= info + size <==> Fits(info, size, page, word)
    ensures Fits(info, size, page, word) ==> LengthFor(info, size, page, word) == info + Align(size, page, word)
    ensures size + Pow2(page) - 1 >= Pow2(word) ==> LengthFor(info, size, page, word) == info
  {
    hide Align;
    hide Pow2;
    hide LengthFor;
    MaskRounds(0, page, word);
    if size + Pow2(page) - 1 >= Pow2(word) {
      WrapsToNothing(size, page, word);
    } else {
      AlignIsLeast(size, page, word);
    }
    WrappedLength(info, size, page, word);
  }

  /** How the areas of the tree lie in memory: where their mappings begin and how long these are. */
  datatype Mappings = Mappings(info: nat, page: nat, word: nat, bases: map<VmArea, nat>, lengths: map<VmArea, nat>)
  {
    /** An area lies at the beginning of its mapping, and what it describes behind it. */
    ghost predicate Describes(nodes: set<VmArea>)
      reads nodes`start, nodes`end
    {
      && nodes == bases.Keys == lengths.Keys
      && (forall x :: x in nodes ==>
            && x.start == bases[x] + info && x.start <= x.end <= bases[x] + lengths[x]
            && lengths[x] == LengthFor(info, x.end - x.start, page, word))
    }

    ghost predicate Apart()
    {
      && bases.Keys == lengths.Keys
      && (forall x, y :: x in bases && y in bases && x != y ==>
            bases[x] + lengths[x] <= bases[y] || bases[y] + lengths[y] <= bases[x])
    }

    /** The memory from `base` on is not part of a mapping. */
    ghost predicate Unused(base: nat, length: nat)
      requires bases.Keys == lengths.Keys
    {
      forall x :: x in bases ==> bases[x] + lengths[x] <= base || base + length <= bases[x]
    }
  }

  /** Disjoint mappings make the described ranges disjoint, in the order of the tree. */
  lemma RangesDisjoint(sp: SpTree, p: Mappings)
    requires sp.Valid() && p.Describes(sp.m.nodes) && p.Apart()
    ensures Disjoint(sp.m.order)
  {
    var s := sp.m.order;
    assert forall i :: 0 <= i < |s| ==> s[i] in sp.m.nodes;
    forall i, j | 0 <= i < j < |s| ensures s[i].end <= s[j].start {
      assert s[i].start < s[j].start;
    }
  }

  lemma NoSuchStart(p: Mappings, nodes: set<VmArea>, base: nat, length: nat)
    requires p.Describes(nodes) && p.Unused(base, length) && length > 0 && p.info > 0
    ensures forall x :: x in nodes ==> x.start != base + p.info
  {
  }

  /** One more mapping. */
  lemma MoreDescribed(p: Mappings, nodes: set<VmArea>, z: VmArea, base: nat, length: nat)
    requires p.Describes(nodes) && p.Apart() && z !in nodes && p.Unused(base, length)
    requires z.start == base + p.info && z.start <= z.end <= base + length
    requires length == LengthFor(p.info, z.end - z.start, p.page, p.word)
    ensures var q := p.(bases := p.bases[z := base], lengths := p.lengths[z := length]);
      q.Describes(nodes + {z}) && q.Apart()
  {
    hide LengthFor;
    hide Mappings.Apart;
    MoreApart(p, z, base, length);
  }

  lemma MoreApart(p: Mappings, z: VmArea, base: nat, length: nat)
    requires p.Apart() && z !in p.bases && p.Unused(base, length)
    ensures p.(bases := p.bases[z := base], lengths := p.lengths[z := length]).Apart()
  {
  }

  /** One mapping less. */
  lemma LessDescribed(p: Mappings, nodes: set<VmArea>, x: VmArea)
    requires p.Describes(nodes) && p.Apart()
    ensures var q := p.(bases := p.bases - {x}, lengths := p.lengths - {x});
      q.Describes(nodes - {x}) && q.Apart()
  {
    hide LengthFor;
  }

  /** A new area, put into the tree. */
  method Enter(sp: SpTree, start: int, end: int, ghost p: Mappings, ghost base: nat, ghost length: nat)
    returns (z: VmArea)
    requires sp.Valid() && p.Describes(sp.m.nodes) && p.Apart() && p.Unused(base, length)
    requires start == base + p.info && start <= end <= base + length
    requires length == LengthFor(p.info, end - start, p.page, p.word) && p.info > 0
    modifies sp, sp.m.nodes`left, sp.m.nodes`right, sp.m.nodes`parent, sp.m.nodes`prev, sp.m.nodes`next
    ensures sp.Valid() && fresh(z) && sp.m.nodes == old(sp.m.nodes) + {z} && z.start == start && z.end == end
    ensures var q := p.(bases := p.bases[z := base], lengths := p.lengths[z := length]);
      q.Describes(sp.m.nodes) && q.Apart()
  {
    hide *;
    NoSuchStart(p, sp.m.nodes, base, length);
    z := new VmArea(null);
    z.start := start;
    z.end := end;
    ghost var nodes := sp.m.nodes;
    assert sp.Valid() == old(sp.Valid());
    assert p.Describes(nodes) == old(p.Describes(nodes));
    var _ := sp.Insert(z);
    MoreDescribed(p, nodes, z, base, length);
  }

  /** The area `x` that contains `a`, taken out of the tree. */
  method Leave(sp: SpTree, a: int, ghost x: VmArea, ghost p: Mappings) returns (z: VmArea)
    requires sp.Valid() && p.Describes(sp.m.nodes) && p.Apart() && x in sp.m.nodes && Covers(x, a)
    modifies sp, sp.m.nodes`left, sp.m.nodes`right, sp.m.nodes`parent, sp.m.nodes`prev, sp.m.nodes`next
    ensures sp.Valid() && z == x && sp.m.nodes == old(sp.m.nodes) - {x}
    ensures p.(bases := p.bases - {x}, lengths := p.lengths - {x}).Describes(sp.m.nodes)
    ensures p.(bases := p.bases - {x}, lengths := p.lengths - {x}).Apart()
  {
    hide LengthFor;
    hide Weave.Holds;
    hide Mappings.Describes;
    RangesDisjoint(sp, p);
    NodeListed(sp, x);
    LessDescribed(p, sp.m.nodes, x);
    hide Mappings.Apart;
    var vma, _ := sp.Find(a, x);
    NodeListed(sp, x);
    ghost var i;
    z, i := sp.Extract(vma.start);
  }

  class OocHeap {
    const areaSize: nat     // the size of an area
    const page: nat         // the page size is 2^page
    const word: nat         // bits of an address
    const tree: SpTree
    var bases: map<VmArea, nat>           // where each area lies: the pointer to it
    ghost var lengths: map<VmArea, nat>   // the length of the mapping it lies in

    constructor (areaSize: nat, page: nat, word: nat)
      requires areaSize > 0 && page <= word && areaSize + Pow2(page) - 1 < Pow2(word)
      ensures Valid() && fresh(tree) && bases == map[] && tree.m.nodes == {}
      ensures this.areaSize == areaSize && this.page == page && this.word == word
    {
      this.areaSize, this.page, this.word := areaSize, page, word;
      tree := new SpTree();
      bases, lengths := map[], map[];
    }

    function Info(): nat
    {
      Align(areaSize, page, word)
    }

    ghost function Map(): Mappings
      reads this
    {
      Mappings(Info(), page, word, bases, lengths)
    }

    ghost predicate Valid()
      reads this, tree, tree.m.nodes`left, tree.m.nodes`right, tree.m.nodes`parent
      reads tree.m.nodes`prev, tree.m.nodes`next, tree.m.nodes`start, tree.m.nodes`end
    {
      && areaSize > 0 && page <= word && areaSize + Pow2(page) - 1 < Pow2(word)
      && tree.Valid() && Map().Describes(tree.m.nodes) && Map().Apart()
    }

    /** The length of the mapping for `size` bytes. */
    function Length(size: nat): nat
    {
      LengthFor(Info(), size, page, word)
    }

    /** What the two functions above compute, for a size that the source can handle. */
    lemma LengthMeasured(size: nat)
      requires areaSize > 0 && page <= word && areaSize + Pow2(page) - 1 < Pow2(word)
      requires Fits(Info(), size, page, word)
      ensures Measured(Info(), Length(size), areaSize, size, page) && Info() + size <= Length(size) < Pow2(word)
    {
      hide Align;
      hide Pow2;
      hide LengthFor;
      MaskRounds(0, page, word);
      AlignIsLeast(areaSize, page, word);
      AlignIsLeast(size, page, word);
      LengthSuffices(Info(), size, page, word);
    }

    /**
      `ooc_malloc`.  `answer` is what the system answers to the request for a mapping, and `ok` whether
      it makes the first part writable; if it does not, the mapping goes back.  The pointer lies in the
      range of the new area, as `Free` wants it, exactly if the size is not zero.
    */
    method Malloc(size: nat, answer: Answer, ok: bool) returns (ptr: int, ghost z: VmArea?, back: Back)
      requires Valid() && Fits(Info(), size, page, word)
      requires answer.Address? ==> Map().Unused(answer.base, Length(size))
      modifies this, tree, tree.m.nodes`left, tree.m.nodes`right, tree.m.nodes`parent
      modifies tree.m.nodes`prev, tree.m.nodes`next
      ensures Valid()
      ensures z == null <==> answer.Failure? || !ok
      ensures z == null ==> ptr == 0 && bases == old(bases) && lengths == old(lengths) && tree.m == old(tree.m)
      ensures back.Nothing? <==> answer.Failure? || ok
      ensures back.Mapping? ==> back == Mapping(answer.base, Length(size))
      ensures z != null ==> fresh(z) && tree.m.nodes == old(tree.m.nodes) + {z}
      ensures z != null ==> (Covers(z, ptr) <==> size > 0) && z.start == ptr && z.end == ptr + size
      ensures z != null ==> bases == old(bases)[z := answer.base]
      ensures z != null ==> lengths == old(lengths)[z := lengths[z]]
      ensures z != null ==> Measured(ptr - answer.base, lengths[z], areaSize, size, page)
      ensures z != null ==> answer.base + areaSize <= ptr && ptr + size <= answer.base + lengths[z]
    {
      hide Align;
      hide Pow2;
      hide SpTree.Valid;
      hide Mappings.Describes;
      hide Mappings.Apart;
      hide Mappings.Unused;
      hide LengthFor;
      LengthMeasured(size);
      back := Nothing;
      if answer == Failure {
        return 0, null, back;
      }
      if !ok {
        back := Mapping(answer.base, Length(size));
        return 0, null, back;
      }
      AlignIsLeast(areaSize, page, word);
      var start := answer.base + Info();
      var vma := Enter(tree, start, start + size, Map(), answer.base, Length(size));
      bases, lengths := bases[vma := answer.base], lengths[vma := Length(size)];
      ptr, z := vma.start, vma;
    }

    /**
      `ooc_free` of a pointer into the range that area `x` describes: what goes back to the system is the
      mapping of `x`, from its first byte to its last.
    */
    method Free(ptr: int, ghost x: VmArea) returns (base: nat, length: nat)
      requires Valid() && x in tree.m.nodes && Covers(x, ptr)
      modifies this, tree, tree.m.nodes`left, tree.m.nodes`right, tree.m.nodes`parent
      modifies tree.m.nodes`prev, tree.m.nodes`next
      ensures Valid() && tree.m.nodes == old(tree.m.nodes) - {x}
      ensures base == old(bases[x]) && length == old(lengths[x])
      ensures bases == old(bases) - {x} && lengths == old(lengths) - {x}
    {
      hide Align;
      hide Pow2;
      hide SpTree.Valid;
      hide Mappings.Describes;
      hide Mappings.Apart;
      hide Mappings.Unused;
      hide LengthFor;
      DescribedLength(Map(), tree.m.nodes, x);
      var vma := Leave(tree, ptr, x, Map());
      base, length := bases[vma], Length(vma.end - vma.start);
      bases, lengths := bases - {vma}, lengths - {vma};
    }
  }

  lemma DescribedLength(p: Mappings, nodes: set<VmArea>, x: VmArea)
    requires p.Describes(nodes) && x in nodes
    ensures x in p.bases && x in p.lengths && x.start <= x.end
    ensures p.lengths[x] == LengthFor(p.info, x.end - x.start, p.page, p.word)
  {
  }

  lemma NodeListed(sp: SpTree, x: VmArea)
    requires sp.Valid() && x in sp.m.nodes
    ensures x in sp.m.order
    ensures forall y :: y in sp.m.order && y.start == x.start ==> y == x
  {
    InorderItems(sp.m.shape);
  }
}
