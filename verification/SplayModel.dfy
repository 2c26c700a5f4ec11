/**
  Top-down splaying on values.

  A `Tree` is the shape of a splay tree: which node hangs where.  The key of a node is not stored in
  the shape but looked up in a map, because the interval tree changes keys of nodes that stay where
  they are.  `Split` is what one splay does to a shape, written as a recursion on the search path;
  `SplayTree` shows that the loop that rewires the links computes exactly this function.
*/
module SplayModel {
  import opened Basics

  datatype Tree<T> = Leaf | Node(left: Tree<T>, item: T, right: Tree<T>)

  /** A tree taken apart at its new root, with the number of link steps that it took. */
  datatype Parts<T> = Parts(left: Tree<T>, item: T, right: Tree<T>, links: nat)

  ghost function Key<T>(ks: map<T, int>, x: T): int
  {
    if x in ks then ks[x] else 0
  }

  ghost function Items<T>(t: Tree<T>): set<T>
  {
    match t
    case Leaf => {}
    case Node(l, x, r) => Items(l) + {x} + Items(r)
  }

  ghost function Inorder<T>(t: Tree<T>): seq<T>
  {
    match t
    case Leaf => []
    case Node(l, x, r) => Inorder(l) + [x] + Inorder(r)
  }

  ghost function Size<T>(t: Tree<T>): nat
  {
    match t
    case Leaf => 0
    case Node(l, x, r) => Size(l) + 1 + Size(r)
  }

  /** No item occurs twice. */
  ghost predicate Distinct<T>(t: Tree<T>)
  {
    match t
    case Leaf => true
    case Node(l, x, r) =>
      && Distinct(l) && Distinct(r)
      && x !in Items(l) && x !in Items(r) && Items(l) !! Items(r)
  }

  /** The keys along `s` increase strictly: the search order, when `s` is an in-order traversal. */
  ghost predicate Sorted<T>(ks: map<T, int>, s: seq<T>)
  {
    forall i, j :: 0 <= i < j < |s| ==> Key(ks, s[i]) < Key(ks, s[j])
  }

  ghost predicate AllBelow<T>(ks: map<T, int>, s: seq<T>, a: int)
  {
    forall x :: x in s ==> Key(ks, x) < a
  }

  ghost predicate AllAbove<T>(ks: map<T, int>, a: int, s: seq<T>)
  {
    forall x :: x in s ==> a < Key(ks, x)
  }

  /** What splaying at `a` makes of a nonempty tree. */
  ghost function Split<T>(ks: map<T, int>, a: int, t: Tree<T>): Parts<T>
    requires t.Node?
    decreases t
  {
    var x := t.item;
    if a < Key(ks, x) then
      match t.left
      case Leaf => Parts(Leaf, x, t.right, 0)
      case Node(u, y, v) =>
        if a < Key(ks, y) then
          var rotated := Node(v, x, t.right);
          if u.Leaf? then
            Parts(Leaf, y, rotated, 0)
          else
            var p := Split(ks, a, u);
            Parts(p.left, p.item, Node(p.right, y, rotated), p.links + 1)
        else
          var p := Split(ks, a, t.left);
          Parts(p.left, p.item, Node(p.right, x, t.right), p.links + 1)
    else if Key(ks, x) < a then
      match t.right
      case Leaf => Parts(t.left, x, Leaf, 0)
      case Node(v, y, u) =>
        if Key(ks, y) < a then
          var rotated := Node(t.left, x, v);
          if u.Leaf? then
            Parts(rotated, y, Leaf, 0)
          else
            var p := Split(ks, a, u);
            Parts(Node(rotated, y, p.left), p.item, p.right, p.links + 1)
        else
          var p := Split(ks, a, t.right);
          Parts(Node(t.left, x, p.left), p.item, p.right, p.links + 1)
    else
      Parts(t.left, x, t.right, 0)
  }

  ghost function Join<T>(p: Parts<T>): Tree<T>
  {
    Node(p.left, p.item, p.right)
  }

  ghost function Splay<T>(ks: map<T, int>, a: int, t: Tree<T>): Tree<T>
  {
    if t.Leaf? then Leaf else Join(Split(ks, a, t))
  }

  /** How many link steps a splay takes. */
  ghost function Links<T>(ks: map<T, int>, a: int, t: Tree<T>): nat
  {
    if t.Leaf? then 0 else Split(ks, a, t).links
  }

  /** The last node that a plain binary search for `a` looks at. */
  ghost function SearchLast<T>(ks: map<T, int>, a: int, t: Tree<T>): T
    requires t.Node?
  {
    if a < Key(ks, t.item) && t.left.Node? then SearchLast(ks, a, t.left)
    else if Key(ks, t.item) < a && t.right.Node? then SearchLast(ks, a, t.right)
    else t.item
  }

  // ----- traversals and item sets -----

  lemma {:induction false} InorderItems<T>(t: Tree<T>)
    ensures Items(t) == set x | x in Inorder(t)
    ensures |Inorder(t)| == Size(t)
  {
    match t
    case Leaf =>
    case Node(l, x, r) =>
      InorderItems(l);
      InorderItems(r);
  }

  lemma {:induction false} SizeItems<T>(t: Tree<T>)
    requires Distinct(t)
    ensures Size(t) == |Items(t)|
  {
    if t.Node? {
      SizeItems(t.left);
      SizeItems(t.right);
    }
  }

  lemma NoDuplicatesParts<T>(l: seq<T>, x: T, r: seq<T>)
    ensures NoDuplicates(l + [x] + r)
       <==> NoDuplicates(l) && NoDuplicates(r) && x !in l && x !in r && (forall y :: y in l ==> y !in r)
  {
    var s := l + [x] + r;
    assert s[|l|] == x;
    assert forall i :: 0 <= i < |l| ==> s[i] == l[i];
    assert forall i :: 0 <= i < |r| ==> s[|l| + 1 + i] == r[i];
    if NoDuplicates(s) {
      forall i, j | 0 <= i < j < |r| ensures r[i] != r[j] {
        assert s[|l| + 1 + i] == r[i] && s[|l| + 1 + j] == r[j];
      }
    }
    if NoDuplicates(l) && NoDuplicates(r) && x !in l && x !in r && (forall y :: y in l ==> y !in r) {
      forall i, j | 0 <= i < j < |s| ensures s[i] != s[j] {
        assert i < |l| ==> s[i] in l;
        assert j > |l| ==> s[j] == r[j - |l| - 1] && s[j] in r;
        assert i > |l| ==> s[i] == r[i - |l| - 1];
      }
    }
  }

  lemma DisjointRanges<T>(a: seq<T>, b: seq<T>)
    ensures (set x | x in a) !! (set x | x in b) <==> (forall y :: y in a ==> y !in b)
  {
    var p, q := set x | x in a, set x | x in b;
    if p !! q {
      forall y | y in a ensures y !in b {
        assert y in p;
        assert y in b ==> y in q;
      }
    }
  }

  lemma {:induction false} DistinctInorder<T>(t: Tree<T>)
    ensures Distinct(t) <==> NoDuplicates(Inorder(t))
  {
    match t
    case Leaf =>
    case Node(l, x, r) =>
      InorderItems(l); InorderItems(r);
      DistinctInorder(l); DistinctInorder(r);
      NoDuplicatesParts(Inorder(l), x, Inorder(r));
      DisjointRanges(Inorder(l), Inorder(r));
  }

  // ----- what a splay preserves -----

  /** A splay moves no node in the traversal. */
  lemma {:induction false} SplitInorder<T>(ks: map<T, int>, a: int, t: Tree<T>)
    requires t.Node?
    ensures Inorder(Join(Split(ks, a, t))) == Inorder(t)
    decreases t
  {
    var x := t.item;
    if a < Key(ks, x) && t.left.Node? {
      var y, u, v := t.left.item, t.left.left, t.left.right;
      var tail := Inorder(v) + [x] + Inorder(t.right);
      assert Inorder(t) == Inorder(u) + [y] + tail;
      if a >= Key(ks, y) {
        SplitInorder(ks, a, t.left);
        var p := Split(ks, a, t.left);
        Regroup(Inorder(p.left), p.item, Inorder(p.right), x, Inorder(t.right));
      } else if u.Node? {
        SplitInorder(ks, a, u);
        var p := Split(ks, a, u);
        Regroup(Inorder(p.left), p.item, Inorder(p.right), y, tail);
        assert Inorder(Node(p.right, y, Node(v, x, t.right))) == Inorder(p.right) + [y] + tail;
      }
    } else if Key(ks, x) < a && t.right.Node? {
      var y, v, u := t.right.item, t.right.left, t.right.right;
      var front := Inorder(t.left) + [x] + Inorder(v);
      assert Inorder(t) == front + [y] + Inorder(u);
      if Key(ks, y) >= a {
        SplitInorder(ks, a, t.right);
        var p := Split(ks, a, t.right);
        Regroup(Inorder(t.left), x, Inorder(p.left), p.item, Inorder(p.right));
      } else if u.Node? {
        SplitInorder(ks, a, u);
        var p := Split(ks, a, u);
        Regroup(front, y, Inorder(p.left), p.item, Inorder(p.right));
        assert Inorder(Node(Node(t.left, x, v), y, p.left)) == front + [y] + Inorder(p.left);
      }
    }
  }

  lemma Regroup<T>(a: seq<T>, x: T, b: seq<T>, y: T, c: seq<T>)
    ensures a + [x] + (b + [y] + c) == (a + [x] + b) + [y] + c
  {
  }

  lemma SplayKeepsNodes<T>(ks: map<T, int>, a: int, t: Tree<T>)
    ensures Inorder(Splay(ks, a, t)) == Inorder(t)
    ensures Items(Splay(ks, a, t)) == Items(t)
    ensures Size(Splay(ks, a, t)) == Size(t)
    ensures Distinct(Splay(ks, a, t)) <==> Distinct(t)
  {
    if t.Node? {
      SplitInorder(ks, a, t);
      var s := Splay(ks, a, t);
      InorderItems(t); InorderItems(s);
      DistinctInorder(t); DistinctInorder(s);
    }
  }

  // ----- the splay as a search -----

  lemma SortedParts<T>(ks: map<T, int>, l: seq<T>, x: T, r: seq<T>)
    ensures Sorted(ks, l + [x] + r)
       <==> Sorted(ks, l) && Sorted(ks, r) && AllBelow(ks, l, Key(ks, x)) && AllAbove(ks, Key(ks, x), r)
  {
    if Sorted(ks, l + [x] + r) {
      SortedSplit(ks, l, x, r);
    }
    if Sorted(ks, l) && Sorted(ks, r) && AllBelow(ks, l, Key(ks, x)) && AllAbove(ks, Key(ks, x), r) {
      SortedJoin(ks, l, x, r);
    }
  }

  lemma SortedSplit<T>(ks: map<T, int>, l: seq<T>, x: T, r: seq<T>)
    requires Sorted(ks, l + [x] + r)
    ensures Sorted(ks, l) && Sorted(ks, r) && AllBelow(ks, l, Key(ks, x)) && AllAbove(ks, Key(ks, x), r)
  {
    var s := l + [x] + r;
    assert s[|l|] == x;
    assert forall i :: 0 <= i < |l| ==> s[i] == l[i];
    assert forall i :: 0 <= i < |r| ==> s[|l| + 1 + i] == r[i];
    forall i, j | 0 <= i < j < |r| ensures Key(ks, r[i]) < Key(ks, r[j]) {
      assert s[|l| + 1 + i] == r[i] && s[|l| + 1 + j] == r[j];
    }
  }

  lemma SortedJoin<T>(ks: map<T, int>, l: seq<T>, x: T, r: seq<T>)
    requires Sorted(ks, l) && Sorted(ks, r) && AllBelow(ks, l, Key(ks, x)) && AllAbove(ks, Key(ks, x), r)
    ensures Sorted(ks, l + [x] + r)
  {
    var s := l + [x] + r;
    forall i, j | 0 <= i < j < |s| ensures Key(ks, s[i]) < Key(ks, s[j]) {
      if i < |l| { assert s[i] in l; }
      if j > |l| { assert s[j] == r[j - |l| - 1] && s[j] in r; }
      if i > |l| { assert s[i] == r[i - |l| - 1]; }
    }
  }

  /** Every node other than the new root lies strictly on its side of the key. */
  lemma {:induction false} SplitSides<T>(ks: map<T, int>, a: int, t: Tree<T>)
    requires t.Node? && Sorted(ks, Inorder(t))
    ensures AllBelow(ks, Inorder(Split(ks, a, t).left), a)
    ensures AllAbove(ks, a, Inorder(Split(ks, a, t).right))
    decreases t
  {
    var x := t.item;
    SortedParts(ks, Inorder(t.left), x, Inorder(t.right));
    if a < Key(ks, x) && t.left.Node? {
      SortedParts(ks, Inorder(t.left.left), t.left.item, Inorder(t.left.right));
      if a >= Key(ks, t.left.item) {
        SplitSides(ks, a, t.left);
      } else if t.left.left.Node? {
        SplitSides(ks, a, t.left.left);
      }
    } else if Key(ks, x) < a && t.right.Node? {
      SortedParts(ks, Inorder(t.right.left), t.right.item, Inorder(t.right.right));
      if Key(ks, t.right.item) >= a {
        SplitSides(ks, a, t.right);
      } else if t.right.right.Node? {
        SplitSides(ks, a, t.right.right);
      }
    }
  }

  /** The new root is the node where an ordinary search for the key ends. */
  lemma {:induction false} SplitIsSearch<T>(ks: map<T, int>, a: int, t: Tree<T>)
    requires t.Node?
    ensures Split(ks, a, t).item == SearchLast(ks, a, t)
    decreases t
  {
    var x := t.item;
    if a < Key(ks, x) && t.left.Node? {
      if a >= Key(ks, t.left.item) {
        SplitIsSearch(ks, a, t.left);
      } else if t.left.left.Node? {
        SplitIsSearch(ks, a, t.left.left);
      }
    } else if Key(ks, x) < a && t.right.Node? {
      if Key(ks, t.right.item) >= a {
        SplitIsSearch(ks, a, t.right);
      } else if t.right.right.Node? {
        SplitIsSearch(ks, a, t.right.right);
      }
    }
  }

  /**
    Splaying is an exact search.  If some node has the key, it becomes the root; whatever the key,
    the new root sits at a position of the traversal such that all nodes before it have smaller keys
    than `a` and all nodes after it larger ones, so it is the key's predecessor or successor.
  */
  lemma SplayFinds<T>(ks: map<T, int>, a: int, t: Tree<T>) returns (i: nat)
    requires t.Node? && Sorted(ks, Inorder(t))
    ensures i < |Inorder(t)| && Inorder(t)[i] == Splay(ks, a, t).item == SearchLast(ks, a, t)
    ensures i == |Inorder(Splay(ks, a, t).left)|
    ensures forall j :: 0 <= j < i ==> Key(ks, Inorder(t)[j]) < a
    ensures forall j :: i < j < |Inorder(t)| ==> a < Key(ks, Inorder(t)[j])
    ensures forall x :: x in Inorder(t) && Key(ks, x) == a ==> x == Splay(ks, a, t).item
  {
    var p := Split(ks, a, t);
    SplitInorder(ks, a, t);
    SplitSides(ks, a, t);
    SplitIsSearch(ks, a, t);
    var s := Inorder(t);
    i := |Inorder(p.left)|;
    assert s == Inorder(p.left) + [p.item] + Inorder(p.right);
    forall j | 0 <= j < i ensures Key(ks, s[j]) < a {
      assert s[j] == Inorder(p.left)[j];
    }
    forall j | i < j < |s| ensures a < Key(ks, s[j]) {
      assert s[j] == Inorder(p.right)[j - i - 1];
    }
  }
}
