/** Where the blocks of a superblock and the areas of a block lie in memory. */
module Layout {
  import opened Basics
  import opened Bits

  function Quotient(n: nat, d: nat): nat
    requires d > 0
  {
    n / d
  }

  /** Block size 2^bits, superblock size, and the sizes of a block's header and of an area. */
  datatype Geometry = Geometry(bits: nat, superSize: nat, header: nat, area: nat)
  {
    function Block(): nat { Pow2(bits) }

    /** BLOCK_CTR_FULL */
    function Areas(): nat
      requires Fits()
    {
      Quotient(Block() - header, area)
    }

    /** SUPERBLOCK_CTR_FULL: the first block's worth of memory is the superblock's own header. */
    function Blocks(): nat
      requires Fits()
    {
      Quotient(superSize - Block(), Block())
    }

    predicate Fits() { header <= Block() <= superSize && area > 0 }
  }

  const BLOCK_BITS := 12
  const SUPERBLOCK_SIZE := 262144

  ghost function BlockAddress(base: nat, g: Geometry, i: nat): nat
  {
    base + (i + 1) * g.Block()
  }

  ghost function AreaAddress(base: nat, g: Geometry, i: nat, j: nat): nat
  {
    BlockAddress(base, g, i) + g.header + j * g.area
  }

  lemma QuotientExact(n: nat, d: nat)
    requires d > 0
    ensures Quotient(n, d) * d <= n < (Quotient(n, d) + 1) * d
  {
    assert n == n / d * d + n % d;
  }

  /** A block holds as many areas, and a superblock as many blocks, as fit behind its header: one more does not. */
  lemma AsManyAsFit(g: Geometry)
    requires g.Fits()
    ensures g.header + g.Areas() * g.area <= g.Block() < g.header + (g.Areas() + 1) * g.area
    ensures g.Block() + g.Blocks() * g.Block() <= g.superSize < g.Block() + (g.Blocks() + 1) * g.Block()
  {
    QuotientExact(g.Block() - g.header, g.area);
    QuotientExact(g.superSize - g.Block(), g.Block());
  }

  /** The areas of one block, one behind the other. */
  method LayAreas(block: nat, g: Geometry) returns (areas: seq<nat>)
    requires g.Fits() && g.Areas() >= 1
    ensures |areas| == g.Areas() && (forall j :: 0 <= j < |areas| ==> areas[j] == block + g.header + j * g.area)
    ensures g.header + |areas| * g.area <= g.Block() < g.header + (|areas| + 1) * g.area
  {
    AsManyAsFit(g);
    var vma := block + g.header;
    areas := [vma];
    var j := 0;
    while j < g.Areas() - 1
      invariant 0 <= j <= g.Areas() - 1 && |areas| == j + 1 && vma == block + g.header + j * g.area
      invariant forall i :: 0 <= i <= j ==> areas[i] == block + g.header + i * g.area
    {
      vma := vma + g.area;
      areas := areas + [vma];
      j := j + 1;
    }
  }

  /** `S_superblock_list_setup`, as far as addresses are concerned. */
  method LayBlocks(base: nat, g: Geometry) returns (blocks: seq<nat>, areas: seq<seq<nat>>)
    requires g.Fits() && g.Areas() >= 1
    ensures |blocks| == |areas| == g.Blocks()
    ensures g.Block() + |blocks| * g.Block() <= g.superSize < g.Block() + (|blocks| + 1) * g.Block()
    ensures forall i :: 0 <= i < |areas| ==>
      g.header + |areas[i]| * g.area <= g.Block() < g.header + (|areas[i]| + 1) * g.area
    ensures forall i :: 0 <= i < |blocks| ==> blocks[i] == BlockAddress(base, g, i) && |areas[i]| == g.Areas()
    ensures forall i, j :: 0 <= i < |areas| && 0 <= j < |areas[i]| ==> areas[i][j] == AreaAddress(base, g, i, j)
  {
    AsManyAsFit(g);
    var block := base + g.Block();
    blocks, areas := [], [];
    var i := 0;
    while i < g.Blocks()
      invariant 0 <= i <= g.Blocks() && |blocks| == |areas| == i && block == BlockAddress(base, g, i)
      invariant forall k :: 0 <= k < i ==> blocks[k] == BlockAddress(base, g, k) && |areas[k]| == g.Areas()
      invariant forall k, j :: 0 <= k < i && 0 <= j < |areas[k]| ==> areas[k][j] == AreaAddress(base, g, k, j)
    {
      var a := LayAreas(block, g);
      blocks, areas := blocks + [block], areas + [a];
      block := block + g.Block();
      i := i + 1;
    }
  }

  // ----- what lies where -----

  /** `n` pieces of size `d` fit into `m` if `n` is the quotient. */
  lemma QuotientFits(m: nat, d: nat, j: nat)
    requires d > 0 && j < m / d
    ensures (j + 1) * d <= m
  {
    MulMono(j + 1, m / d, d);
    assert m / d * d <= m;
  }

  /** Every block lies inside the superblock, behind its header. */
  lemma BlockInside(base: nat, g: Geometry, i: nat)
    requires g.Fits() && i < g.Blocks()
    ensures base + g.Block() <= BlockAddress(base, g, i)
    ensures BlockAddress(base, g, i) + g.Block() <= base + g.superSize
  {
    var b := g.Block();
    QuotientFits(g.superSize - b, b, i);
    MulMono(1, i + 1, b);
    assert (i + 2) * b == (i + 1) * b + b;
  }

  /** Every area lies inside its block, behind the block's header. */
  lemma AreaInside(base: nat, g: Geometry, i: nat, j: nat)
    requires g.Fits() && j < g.Areas()
    ensures var block, a := BlockAddress(base, g, i), AreaAddress(base, g, i, j);
      block + g.header <= a && a + g.area <= block + g.Block()
  {
    QuotientFits(g.Block() - g.header, g.area, j);
    assert (j + 1) * g.area == j * g.area + g.area;
  }

  /** Different areas do not overlap. */
  lemma AreasApart(base: nat, g: Geometry, i: nat, j: nat, i': nat, j': nat)
    requires g.Fits() && j < g.Areas() && j' < g.Areas() && (i < i' || (i == i' && j < j'))
    ensures AreaAddress(base, g, i, j) + g.area <= AreaAddress(base, g, i', j')
  {
    if i < i' {
      AreaInside(base, g, i, j);
      AreaInside(base, g, i', j');
      MulMono(i + 2, i' + 1, g.Block());
      assert (i + 2) * g.Block() == (i + 1) * g.Block() + g.Block();
    } else {
      MulMono(j + 1, j', g.area);
      assert (j + 1) * g.area == j * g.area + g.area;
    }
  }

  lemma AlignedFloor(base: nat, b: nat, n: nat, x: nat)
    requires b > 0 && base % b == 0 && base + n * b <= x < base + n * b + b
    ensures x / b * b == base + n * b
  {
    var q := base / b + n;
    MulSum(base / b, n, b);
    assert q * b == b * q;
    DivUnique(x, b, q, x - q * b);
  }

  lemma MulSum(x: nat, y: nat, n: nat)
    ensures (x + y) * n == x * n + y * n
  {
  }

  /** `S_vma_2block`: masking any address inside a block gives the block, in an aligned superblock. */
  lemma OwnBlock(base: nat, g: Geometry, w: nat, i: nat, x: nat)
    requires g.Fits() && i < g.Blocks() && base % g.Block() == 0
    requires g.bits <= w && base + g.superSize <= Pow2(w)
    requires BlockAddress(base, g, i) <= x < BlockAddress(base, g, i) + g.Block()
    ensures x < Pow2(w) && And(x, Not(g.Block() - 1, w)) == BlockAddress(base, g, i)
  {
    BlockInside(base, g, i);
    MaskRounds(x, g.bits, w);
    AlignedFloor(base, g.Block(), i + 1, x);
  }

  /** An area's address leads to the area's own block. */
  lemma OwnBlockOfArea(base: nat, g: Geometry, w: nat, i: nat, j: nat)
    requires g.Fits() && i < g.Blocks() && j < g.Areas() && base % g.Block() == 0
    requires g.bits <= w && base + g.superSize <= Pow2(w)
    ensures AreaAddress(base, g, i, j) < Pow2(w)
    ensures And(AreaAddress(base, g, i, j), Not(g.Block() - 1, w)) == BlockAddress(base, g, i)
  {
    AreaInside(base, g, i, j);
    OwnBlock(base, g, w, i, AreaAddress(base, g, i, j));
  }

  /** With the sizes of the source: 63 blocks, of at least 2 areas each unless header and area are very large. */
  lemma SourceSizes(header: nat, area: nat)
    requires header <= 4096 && area > 0
    ensures var g := Geometry(BLOCK_BITS, SUPERBLOCK_SIZE, header, area);
      g.Fits() && g.Block() == 4096 && g.Blocks() == 63 && (g.Areas() >= 2 <==> header + 2 * area <= 4096)
  {
    Pow2Twelve();
    AtLeastTwo(4096 - header, area);
  }

  lemma AtLeastTwo(n: nat, d: nat)
    requires d > 0
    ensures n / d >= 2 <==> 2 * d <= n
  {
    if n / d >= 2 {
      QuotientFits(n, d, 1);
    } else {
      assert n == n / d * d + n % d;
      MulMono(n / d, 1, d);
    }
  }

  lemma Pow2Twelve()
    ensures Pow2(12) == 4096
  {
    assert Pow2(4) == 16 && Pow2(8) == 256;
  }
}
