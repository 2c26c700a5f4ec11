/** Protection flags of a page. */
module Protection {

  type Flags = bv64

  const READ: Flags := 1
  const WRITE: Flags := 3

  /** What a fault does to the flags of a page that is present. */
  function Promote(f: Flags): Flags
  {
    (f & !3) | (((f & 3) << 1) | 1)
  }

  /** Promotion takes READ to WRITE, but WRITE to a value that is neither. */
  lemma PromoteValues()
    ensures Promote(READ) == WRITE && Promote(WRITE) == 7
  {
  }
}
