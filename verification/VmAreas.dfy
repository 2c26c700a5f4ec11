/** The records that the other parts work on. */
module VmAreas {
  import opened Protection

  /** An interval of virtual memory. */
  class VmArea {
    const home: Block?    // the block whose memory the area lies in, if it comes from the allocator
    var next: VmArea?     // list of areas, in the tree's key order or in a block's free list
    var prev: VmArea?
    var parent: VmArea?   // tree links
    var left: VmArea?
    var right: VmArea?
    var flags: Flags
    var start: int        // first address
    var end: int          // one past the last address

    constructor (home: Block?)
      ensures this.home == home
      ensures next == prev == parent == left == right == null
    {
      this.home := home;
      start, end, flags := 0, 0, 0;
      next, prev, parent, left, right := null, null, null, null, null;
    }
  }

  /** A block of areas. */
  class Block {
    var vctr: int               // number of areas handed out
    var head: VmArea?           // free areas
    var superblock: Superblock
    var mpool: MPool?           // pool of the thread that took the block
    var prev: Block?
    var next: Block?

    constructor (superblock: Superblock)
      ensures this.superblock == superblock && vctr == 0 && head == null && mpool == null
    {
      this.superblock := superblock;
      vctr, head, mpool, prev, next := 0, null, null, null, null;
    }
  }

  /** A superblock of blocks. */
  class Superblock {
    var bctr: int               // number of blocks handed out
    var head: Block?            // blocks that are not in use
    var prev: Superblock?
    var next: Superblock?

    constructor ()
    {
      bctr, head, prev, next := 0, null, null, null;
    }
  }

  /** The blocks with free areas that a thread has taken. */
  class MPool {
    var init: bool
    var head: Block?

    constructor ()
      ensures !init
    {
      init, head := false, null;
    }
  }
}
