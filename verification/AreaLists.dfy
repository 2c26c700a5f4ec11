/** The list that threads the areas of a tree in key order. */
module AreaLists {
  import opened Basics
  import opened SplayModel
  import opened VmAreas
  import opened Intervals

  ghost function At(s: seq<VmArea>, i: int): VmArea?
  {
    if 0 <= i < |s| then s[i] else null
  }

  /** `prev` and `next` spell out `s`. */
  ghost predicate Listed(s: seq<VmArea>)
    reads s`prev, s`next
  {
    && (forall i {:trigger s[i].prev} :: 0 <= i < |s| ==> s[i].prev == At(s, i - 1))
    && (forall i {:trigger s[i].next} :: 0 <= i < |s| ==> s[i].next == At(s, i + 1))
  }

  ghost function View(s: seq<VmArea>): (v: seq<Interval>)
    reads s`start, s`end, s`flags
    ensures |v| == |s|
    ensures forall i :: 0 <= i < |s| ==> v[i] == Interval(s[i].start, s[i].end, s[i].flags)
  {
    if s == [] then []
    else View(s[..|s| - 1]) + [Interval(s[|s| - 1].start, s[|s| - 1].end, s[|s| - 1].flags)]
  }

  /** The areas do not overlap. */
  ghost predicate Disjoint(s: seq<VmArea>)
    reads s`start, s`end
  {
    && (forall i :: 0 <= i < |s| ==> s[i].start <= s[i].end)
    && (forall i, j :: 0 <= i < j < |s| ==> s[i].end <= s[j].start)
  }

  /** Link `z` into the list in front of `t`. */
  method LinkBefore(z: VmArea, t: VmArea, ghost s: seq<VmArea>, ghost i: nat)
    requires Listed(s) && NoDuplicates(s) && z !in s && i < |s| && s[i] == t
    modifies z`prev, z`next, t`prev, (if t.prev == null then {} else {t.prev})`next
    ensures Listed(s[..i] + [z] + s[i..])
  {
    ghost var before := t.prev;
    z.prev := t.prev;
    z.next := t;
    if z.prev != null { z.prev.next := z; }
    t.prev := z;
    ghost var u := s[..i] + [z] + s[i..];
    forall j | 0 <= j < |u|
      ensures u[j].prev == At(u, j - 1) && u[j].next == At(u, j + 1)
    {
      if j < i {
        assert u[j] == s[j] && s[j] != t && s[j].prev == At(s, j - 1);
        assert j < i - 1 ==> s[j] != before && s[j].next == At(s, j + 1);
      } else if j > i {
        assert u[j] == s[j - 1];
        assert s[j - 1] != before && s[j - 1].next == At(s, j);
        assert j - 1 > i ==> s[j - 1].prev == At(s, j - 2);
      }
    }
  }

  /** Link `z` into the list behind `t`. */
  method LinkAfter(z: VmArea, t: VmArea, ghost s: seq<VmArea>, ghost i: nat)
    requires Listed(s) && NoDuplicates(s) && z !in s && i < |s| && s[i] == t
    modifies z`prev, z`next, t`next, (if t.next == null then {} else {t.next})`prev
    ensures Listed(s[..i + 1] + [z] + s[i + 1..])
  {
    ghost var after := t.next;
    z.prev := t;
    z.next := t.next;
    if z.next != null { z.next.prev := z; }
    t.next := z;
    ghost var u := s[..i + 1] + [z] + s[i + 1..];
    forall j | 0 <= j < |u|
      ensures u[j].prev == At(u, j - 1) && u[j].next == At(u, j + 1)
    {
      if j <= i {
        assert u[j] == s[j] && s[j] != after && s[j].prev == At(s, j - 1);
        assert j < i ==> s[j].next == At(s, j + 1);
      } else if j > i + 1 {
        assert u[j] == s[j - 1] && s[j - 1] != t && s[j - 1].next == At(s, j);
        assert j > i + 2 ==> s[j - 1] != after && s[j - 1].prev == At(s, j - 2);
      }
    }
  }

  /** Take `t` out of the list; its own links keep their values. */
  method Unlink(t: VmArea, ghost s: seq<VmArea>, ghost i: nat)
    requires Listed(s) && NoDuplicates(s) && i < |s| && s[i] == t
    modifies (if t.prev == null then {} else {t.prev})`next, (if t.next == null then {} else {t.next})`prev
    ensures Listed(s[..i] + s[i + 1..])
  {
    ghost var before, after := t.prev, t.next;
    if t.prev != null { t.prev.next := t.next; }
    if t.next != null { t.next.prev := t.prev; }
    ghost var u := s[..i] + s[i + 1..];
    forall j | 0 <= j < |u|
      ensures u[j].prev == At(u, j - 1) && u[j].next == At(u, j + 1)
    {
      if j < i {
        assert u[j] == s[j] && s[j] != after && s[j].prev == At(s, j - 1);
        assert j < i - 1 ==> s[j] != before && s[j].next == At(s, j + 1);
      } else {
        assert u[j] == s[j + 1] && s[j + 1] != before && s[j + 1].next == At(s, j + 2);
        assert j > i ==> s[j + 1] != after && s[j + 1].prev == At(s, j);
      }
    }
  }
}
