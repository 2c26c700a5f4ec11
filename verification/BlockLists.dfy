/**
  The linked lists of the allocator.

  Free areas are linked one way.  Blocks and superblocks are linked both ways, except that the `prev`
  link of the first element is left as it happens to be: whoever becomes first keeps a stale link, and
  nobody follows it.
*/
module BlockLists {
  import opened Basics
  import opened VmAreas
  import opened AllocModel

  ghost function AreaAt(s: seq<VmArea>, i: int): VmArea?
  {
    if 0 <= i < |s| then s[i] else null
  }

  ghost predicate AreaList(head: VmArea?, s: seq<VmArea>)
    reads s`next
  {
    head == AreaAt(s, 0) && (forall i {:trigger s[i].next} :: 0 <= i < |s| ==> s[i].next == AreaAt(s, i + 1))
  }

  ghost function BlockAt(s: seq<Block>, i: int): Block?
  {
    if 0 <= i < |s| then s[i] else null
  }

  ghost predicate BlockList(head: Block?, s: seq<Block>)
    reads s`next, s`prev
  {
    && head == BlockAt(s, 0)
    && (forall i {:trigger s[i].next} :: 0 <= i < |s| ==> s[i].next == BlockAt(s, i + 1))
    && (forall i {:trigger s[i].prev} :: 0 < i < |s| ==> s[i].prev == s[i - 1])
  }

  ghost function SuperAt(s: seq<Superblock>, i: int): Superblock?
  {
    if 0 <= i < |s| then s[i] else null
  }

  ghost predicate SuperList(head: Superblock?, s: seq<Superblock>)
    reads s`next, s`prev
  {
    && head == SuperAt(s, 0)
    && (forall i {:trigger s[i].next} :: 0 <= i < |s| ==> s[i].next == SuperAt(s, i + 1))
    && (forall i {:trigger s[i].prev} :: 0 < i < |s| ==> s[i].prev == s[i - 1])
  }

  // ----- blocks -----

  /** Take the first block off its list; the new first one inherits its stale link. */
  method PopBlock(head: Block, ghost s: seq<Block>) returns (rest: Block?)
    requires BlockList(head, s) && NoDuplicates(s)
    modifies (if head.next == null then {} else {head.next})`prev
    ensures s != [] && s[0] == head && BlockList(rest, s[1..])
  {
    rest := head.next;
    if head.next != null {
      head.next.prev := head.prev;
    }
    assert forall i :: 0 <= i < |s| - 1 ==> s[1..][i] == s[i + 1];
  }

  method PushBlock(b: Block, head: Block?, ghost s: seq<Block>)
    requires BlockList(head, s) && NoDuplicates(s) && b !in s
    modifies b`next, (if head == null then {} else {head})`prev
    ensures BlockList(b, [b] + s)
  {
    b.next := head;
    if b.next != null {
      b.next.prev := b;
    }
  }

  /** Take `b` out of the list, wherever it is. */
  method UnlinkBlock(b: Block, head: Block, ghost s: seq<Block>, ghost i: nat) returns (head': Block?)
    requires BlockList(head, s) && NoDuplicates(s) && i < |s| && s[i] == b
    modifies (if b == head then {} else {b.prev})`next, (if b.next == null then {} else {b.next})`prev
    ensures BlockList(head', s[..i] + s[i + 1..])
  {
    head' := head;
    if head == b {
      head' := b.next;
    } else {
      b.prev.next := b.next;
    }
    if b.next != null {
      b.next.prev := b.prev;
    }
  }

  /** `UnlinkBlock`, with a wider frame. */
  method CutBlock(b: Block, head: Block, ghost s: seq<Block>, ghost i: nat, ghost rest: seq<Block>)
    returns (head': Block?)
    requires BlockList(head, s) && NoDuplicates(s) && i < |s| && s[i] == b && rest == s[..i] + s[i + 1..]
    modifies s`next, s`prev
    ensures BlockList(head', rest) && (forall x :: x in rest ==> x in s)
  {
    assert i > 0 ==> s[i - 1] in s;
    assert i + 1 < |s| ==> s[i + 1] in s;
    head' := UnlinkBlock(b, head, s, i);
  }

  // ----- superblocks -----

  method PopSuper(head: Superblock, ghost s: seq<Superblock>) returns (rest: Superblock?)
    requires SuperList(head, s) && NoDuplicates(s)
    modifies (if head.next == null then {} else {head.next})`prev
    ensures s != [] && s[0] == head && SuperList(rest, s[1..])
  {
    rest := head.next;
    if head.next != null {
      head.next.prev := head.prev;
    }
    assert forall i :: 0 <= i < |s| - 1 ==> s[1..][i] == s[i + 1];
  }

  method PushSuper(b: Superblock, head: Superblock?, ghost s: seq<Superblock>)
    requires SuperList(head, s) && NoDuplicates(s) && b !in s
    modifies b`next, (if head == null then {} else {head})`prev
    ensures SuperList(b, [b] + s)
  {
    b.next := head;
    if b.next != null {
      b.next.prev := b;
    }
  }

  method UnlinkSuper(b: Superblock, head: Superblock, ghost s: seq<Superblock>, ghost i: nat)
    returns (head': Superblock?)
    requires SuperList(head, s) && NoDuplicates(s) && i < |s| && s[i] == b
    modifies (if b == head then {} else {b.prev})`next, (if b.next == null then {} else {b.next})`prev
    ensures SuperList(head', s[..i] + s[i + 1..])
  {
    head' := head;
    if head == b {
      head' := b.next;
    } else {
      b.prev.next := b.next;
    }
    if b.next != null {
      b.next.prev := b.prev;
    }
  }

  /** Unlinking at the position of `x` removes `x`. */
  lemma {:induction false} RemoveAt<T>(s: seq<T>, x: T) returns (i: nat)
    requires NoDuplicates(s) && x in s
    ensures i < |s| && s[i] == x && Remove(s, x) == s[..i] + s[i + 1..]
  {
    if s[0] == x {
      i := 0;
    } else {
      TailMembers(s);
      i := RemoveAt(s[1..], x);
      i := i + 1;
      assert s[..i] + s[i + 1..] == [s[0]] + (s[1..][..i - 1] + s[1..][i..]);
    }
  }
}
