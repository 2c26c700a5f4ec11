/** The splay loop on linked nodes. */
module SplayTree {
  import opened SplayModel
  import opened VmAreas

  type Shape = Tree<VmArea>

  ghost function Top(t: Shape): (x: VmArea?)
    ensures t.Node? ==> x != null && x in Items(t)
  {
    if t.Leaf? then null else t.item
  }

  /** The child links of the nodes spell out `t`. */
  ghost predicate Linked(t: Shape)
    reads Items(t)`left, Items(t)`right
  {
    match t
    case Leaf => true
    case Node(l, x, r) => x.left == Top(l) && x.right == Top(r) && Linked(l) && Linked(r)
  }

  /**
    Parent links mirror child links, except for the left links of `noLeft` and the right links of
    `noRight`, and `top` is nobody's child.
  */
  ghost predicate Parented(s: set<VmArea>, top: VmArea?, noLeft: set<VmArea>, noRight: set<VmArea>)
    reads s`left, s`right, s`parent
  {
    && (forall x {:trigger x.left} :: x in s && x.left != null && x !in noLeft ==>
          x.left in s && x.left.parent == x && x.left != top)
    && (forall x {:trigger x.right} :: x in s && x.right != null && x !in noRight ==>
          x.right in s && x.right.parent == x && x.right != top)
  }

  // ----- side trees with a hole -----

  /**
    A side tree while it grows: a path of nodes, the last of which waits for a subtree.  In the left
    tree the path runs along right links, in the right tree along left links.
  */
  datatype Spine = Empty | Hang(up: Spine, item: VmArea, sub: Shape)

  ghost function SpineItems(s: Spine): set<VmArea>
  {
    match s
    case Empty => {}
    case Hang(up, x, sub) => SpineItems(up) + {x} + Items(sub)
  }

  ghost predicate SpineDistinct(s: Spine)
  {
    match s
    case Empty => true
    case Hang(up, x, sub) =>
      && SpineDistinct(up) && Distinct(sub)
      && x !in SpineItems(up) && x !in Items(sub) && SpineItems(up) !! Items(sub)
  }

  ghost function First(s: Spine): (x: VmArea?)
    ensures s.Hang? ==> x != null && x in SpineItems(s)
  {
    match s
    case Empty => null
    case Hang(up, x, _) => if up.Empty? then x else First(up)
  }

  /** The node with the hole; the sentinel while the side tree is empty. */
  ghost function Last(s: Spine, n: VmArea): (x: VmArea)
    ensures x in SpineItems(s) + {n}
  {
    if s.Empty? then n else s.item
  }

  ghost function PlugLeft(s: Spine, t: Shape): Shape
  {
    match s
    case Empty => t
    case Hang(up, x, sub) => PlugLeft(up, Node(sub, x, t))
  }

  ghost function PlugRight(s: Spine, t: Shape): Shape
  {
    match s
    case Empty => t
    case Hang(up, x, sub) => PlugRight(up, Node(t, x, sub))
  }

  ghost predicate LeftLinked(s: Spine)
    reads SpineItems(s)`left, (if s.Empty? then {} else SpineItems(s.up) + Items(s.sub))`right
  {
    match s
    case Empty => true
    case Hang(up, x, sub) =>
      && x.left == Top(sub) && Linked(sub)
      && (up.Hang? ==> up.item.right == x)
      && LeftLinked(up)
  }

  ghost predicate RightLinked(s: Spine)
    reads SpineItems(s)`right, (if s.Empty? then {} else SpineItems(s.up) + Items(s.sub))`left
  {
    match s
    case Empty => true
    case Hang(up, x, sub) =>
      && x.right == Top(sub) && Linked(sub)
      && (up.Hang? ==> up.item.left == x)
      && RightLinked(up)
  }

  lemma {:induction false} PlugLeftItems(s: Spine, t: Shape)
    ensures Items(PlugLeft(s, t)) == SpineItems(s) + Items(t)
    ensures Top(PlugLeft(s, t)) == if s.Hang? then First(s) else Top(t)
    decreases s
  {
    if s.Hang? {
      PlugLeftItems(s.up, Node(s.sub, s.item, t));
    }
  }

  lemma {:induction false} PlugRightItems(s: Spine, t: Shape)
    ensures Items(PlugRight(s, t)) == SpineItems(s) + Items(t)
    ensures Top(PlugRight(s, t)) == if s.Hang? then First(s) else Top(t)
    decreases s
  {
    if s.Hang? {
      PlugRightItems(s.up, Node(t, s.item, s.sub));
    }
  }

  /** Filling the hole of a linked left side tree with a linked tree gives a linked tree. */
  lemma {:induction false} PlugLeftLinked(s: Spine, t: Shape)
    requires LeftLinked(s) && Linked(t)
    requires s.Hang? ==> s.item.right == Top(t)
    ensures Linked(PlugLeft(s, t))
    decreases s
  {
    if s.Hang? {
      PlugLeftLinked(s.up, Node(s.sub, s.item, t));
    }
  }

  lemma {:induction false} PlugRightLinked(s: Spine, t: Shape)
    requires RightLinked(s) && Linked(t)
    requires s.Hang? ==> s.item.left == Top(t)
    ensures Linked(PlugRight(s, t))
    decreases s
  {
    if s.Hang? {
      PlugRightLinked(s.up, Node(t, s.item, s.sub));
    }
  }

  // ----- link surgery -----

  method MakeLeftChild(a: VmArea, b: VmArea?)
    requires a != b
    modifies a`left, a`parent, (if b == null then {} else {b})`parent
    ensures a.left == b
    ensures b != null ==> b.parent == a
    ensures a.parent == if old(a.parent) == b then null else old(a.parent)
  {
    a.left := b;
    if b != null { b.parent := a; }
    if a.parent == b { a.parent := null; }
  }

  method MakeRightChild(a: VmArea, b: VmArea?)
    requires a != b
    modifies a`right, a`parent, (if b == null then {} else {b})`parent
    ensures a.right == b
    ensures b != null ==> b.parent == a
    ensures a.parent == if old(a.parent) == b then null else old(a.parent)
  {
    a.right := b;
    if b != null { b.parent := a; }
    if a.parent == b { a.parent := null; }
  }

  /** The pieces of a tree around one link share no nodes, on whichever side the link leads. */
  ghost predicate Pieces(u: Shape, y: VmArea, v: Shape, t: VmArea, w: Shape)
  {
    && Distinct(u) && Distinct(v) && Distinct(w)
    && Items(u) !! Items(v) && Items(u) !! Items(w) && Items(v) !! Items(w)
    && y != t
    && y !in Items(u) && y !in Items(v) && y !in Items(w)
    && t !in Items(u) && t !in Items(v) && t !in Items(w)
  }

  lemma PiecesOfRotation(u: Shape, y: VmArea, v: Shape, t: VmArea, w: Shape)
    ensures Pieces(u, y, v, t, w) <==> Distinct(Node(Node(u, y, v), t, w))
    ensures Pieces(u, y, v, t, w) <==> Distinct(Node(u, y, Node(v, t, w)))
    ensures Items(Node(Node(u, y, v), t, w)) == Items(Node(u, y, Node(v, t, w)))
         == Items(u) + {y} + Items(v) + {t} + Items(w)
  {
    var a, b := Node(u, y, v), Node(v, t, w);
    assert Distinct(Node(a, t, w)) <==>
      Distinct(a) && Distinct(w) && t !in Items(a) && t !in Items(w) && Items(a) !! Items(w);
    assert Distinct(Node(u, y, b)) <==>
      Distinct(u) && Distinct(b) && y !in Items(u) && y !in Items(b) && Items(u) !! Items(b);
  }

  /** Rotate the left child `y` of `t` above it. */
  method RotateRight(t: VmArea, y: VmArea, ghost nodes: set<VmArea>,
                     ghost noLeft: set<VmArea>, ghost noRight: set<VmArea>)
    requires t in nodes && y in nodes && t != y && y == t.left && t.right != y
    requires y.right != null ==> y.right !in {t, y, y.left}
    requires Parented(nodes, t, noLeft, noRight) && {t, y} !! noLeft && {t, y} !! noRight
    modifies t`left, y`right, {t, y}`parent, (if y.right == null then {} else {y.right})`parent
    ensures t.left == old(y.right) && y.right == t
    ensures Parented(nodes, y, noLeft, noRight)
  {
    MakeLeftChild(t, y.right);
    MakeRightChild(y, t);
  }

  /** Rotate the right child `y` of `t` above it. */
  method RotateLeft(t: VmArea, y: VmArea, ghost nodes: set<VmArea>,
                    ghost noLeft: set<VmArea>, ghost noRight: set<VmArea>)
    requires t in nodes && y in nodes && t != y && y == t.right && t.left != y
    requires y.left != null ==> y.left !in {t, y, y.right}
    requires Parented(nodes, t, noLeft, noRight) && {t, y} !! noLeft && {t, y} !! noRight
    modifies t`right, y`left, {t, y}`parent, (if y.left == null then {} else {y.left})`parent
    ensures t.right == old(y.left) && y.left == t
    ensures Parented(nodes, y, noLeft, noRight)
  {
    MakeRightChild(t, y.left);
    MakeLeftChild(y, t);
  }

  // ----- the splay loop -----

  /**
    The state of the loop: the tree still to be searched, between the side trees that collect the
    nodes known to lie left and right of the key.  `n` is the sentinel that holds the roots of the
    side trees, `nodes` are all nodes of the tree.
  */
  datatype Zipper = Zipper(n: VmArea, left: Spine, cur: Shape, right: Spine, nodes: set<VmArea>)
  {
    /** The three trees share no nodes, and together they have all of them. */
    ghost predicate Apart()
    {
      && SpineDistinct(left) && Distinct(cur) && SpineDistinct(right)
      && SpineItems(left) !! Items(cur) && SpineItems(right) !! Items(cur) && SpineItems(left) !! SpineItems(right)
      && SpineItems(left) + Items(cur) + SpineItems(right) == nodes
      && n !in nodes
    }

    /** `Apart`, with the current tree taken apart at its root. */
    ghost predicate RootApart()
      requires cur.Node?
    {
      && SpineItems(left) !! Items(cur.left) && SpineItems(left) !! Items(cur.right)
      && SpineItems(left) !! SpineItems(right)
      && Items(cur.left) !! Items(cur.right)
      && Items(cur.left) !! SpineItems(right) && Items(cur.right) !! SpineItems(right)
      && cur.item !in SpineItems(left) && cur.item !in SpineItems(right)
      && cur.item !in Items(cur.left) && cur.item !in Items(cur.right)
      && SpineItems(left) + Items(cur.left) + {cur.item} + Items(cur.right) + SpineItems(right) == nodes
    }

    ghost function LinkedRight(): Zipper
      requires cur.Node?
    {
      Zipper(n, left, cur.left, Hang(right, cur.item, cur.right), nodes)
    }

    ghost function LinkedLeft(): Zipper
      requires cur.Node?
    {
      Zipper(n, Hang(left, cur.item, cur.left), cur.right, right, nodes)
    }

    ghost function LastLeft(): VmArea { Last(left, n) }

    ghost function LastRight(): VmArea { Last(right, n) }

    /** The child links of the three trees. */
    ghost predicate Unzipped()
      reads n, nodes, SpineItems(left), Items(cur), SpineItems(right)
    {
      && n.right == First(left) && n.left == First(right)
      && Linked(cur) && LeftLinked(left) && RightLinked(right)
    }

    /** The parent links, which are up to date except at the two holes. */
    ghost predicate Upward()
      reads n, nodes, SpineItems(left), SpineItems(right)
    {
      && (left.Hang? ==> First(left).parent == n) && (right.Hang? ==> First(right).parent == n)
      && Parented(nodes, Top(cur), {LastRight()}, {LastLeft()})
    }

    /** The tree that results if the current subtree ends up as `p`. */
    ghost function Zip(p: Parts<VmArea>): Shape
    {
      Node(PlugLeft(left, p.left), p.item, PlugRight(right, p.right))
    }
  }

  ghost function AtRoot(t: Shape): Parts<VmArea>
    requires t.Node?
  {
    Parts(t.left, t.item, t.right, 0)
  }

  lemma ApartAtRoot(z: Zipper)
    requires z.Apart() && z.cur.Node?
    ensures z.RootApart()
  {
  }

  lemma ApartLink(z: Zipper)
    requires z.Apart() && z.cur.Node?
    ensures z.LinkedRight().Apart() && z.LinkedLeft().Apart()
  {
  }

  /** What the loop knows about its variables. */
  ghost predicate Ready(z: Zipper, t: VmArea, l: VmArea, r: VmArea)
    reads z.n, z.nodes, SpineItems(z.left), Items(z.cur), SpineItems(z.right)
  {
    && z.cur.Node? && t == z.cur.item && l == z.LastLeft() && r == z.LastRight()
    && z.Apart() && z.Unzipped() && z.Upward() && z.n.parent == null
  }

  twostate lemma RightLinkSet(z: Zipper)
    requires z.Apart() && z.cur.Node?
    requires forall x :: x in z.nodes ==> x.right == old(x.right) && (x != z.LastRight() ==> x.left == old(x.left))
    requires z.LastRight().left == z.cur.item && z.n.right == old(z.n.right)
    requires z.right.Hang? ==> z.n.left == old(z.n.left)
    ensures old(z.Unzipped()) ==> z.LinkedRight().Unzipped()
  {
    ApartAtRoot(z);
    assert Linked(z.cur.left) == old(Linked(z.cur.left)) && Linked(z.cur.right) == old(Linked(z.cur.right));
    assert LeftLinked(z.left) == old(LeftLinked(z.left));
    assert RightLinked(z.right) == old(RightLinked(z.right));
  }

  twostate lemma LeftLinkSet(z: Zipper)
    requires z.Apart() && z.cur.Node?
    requires forall x :: x in z.nodes ==> x.left == old(x.left) && (x != z.LastLeft() ==> x.right == old(x.right))
    requires z.LastLeft().right == z.cur.item && z.n.left == old(z.n.left)
    requires z.left.Hang? ==> z.n.right == old(z.n.right)
    ensures old(z.Unzipped()) ==> z.LinkedLeft().Unzipped()
  {
    ApartAtRoot(z);
    assert Linked(z.cur.left) == old(Linked(z.cur.left)) && Linked(z.cur.right) == old(Linked(z.cur.right));
    assert LeftLinked(z.left) == old(LeftLinked(z.left));
    assert RightLinked(z.right) == old(RightLinked(z.right));
  }

  /** Hang `t` into the left-hand hole at `last`; the hole moves to `t`. */
  method MoveLeftHole(t: VmArea, last: VmArea, ghost n: VmArea, ghost nodes: set<VmArea>, ghost noRight: set<VmArea>)
    requires t in nodes && last in nodes + {n} && n !in nodes && last != t && last.parent != t
    requires Parented(nodes, t, {last}, noRight) && t !in noRight && (t.left != null ==> t.left != t.right)
    modifies last`left, last`parent, t`parent
    ensures last.left == t && t.parent == last && last.parent == old(last.parent)
    ensures Parented(nodes, t.left, {t}, noRight)
  {
    MakeLeftChild(last, t);
  }

  /** Hang `t` into the right-hand hole at `last`; the hole moves to `t`. */
  method MoveRightHole(t: VmArea, last: VmArea, ghost n: VmArea, ghost nodes: set<VmArea>, ghost noLeft: set<VmArea>)
    requires t in nodes && last in nodes + {n} && n !in nodes && last != t && last.parent != t
    requires Parented(nodes, t, noLeft, {last}) && t !in noLeft && (t.left != null ==> t.left != t.right)
    modifies last`right, last`parent, t`parent
    ensures last.right == t && t.parent == last && last.parent == old(last.parent)
    ensures Parented(nodes, t.right, noLeft, {t})
  {
    MakeRightChild(last, t);
  }

  lemma HoleParents(z: Zipper)
    requires z.Apart() && z.Unzipped() && z.Upward()
    ensures z.left.Hang? ==> z.left.item.parent in SpineItems(z.left) + {z.n}
    ensures z.right.Hang? ==> z.right.item.parent in SpineItems(z.right) + {z.n}
  {
    if z.left.Hang? && z.left.up.Hang? {
      assert z.left.up.item in SpineItems(z.left.up);
    }
    if z.right.Hang? && z.right.up.Hang? {
      assert z.right.up.item in SpineItems(z.right.up);
    }
  }

  method LinkRight(t: VmArea, last: VmArea, ghost l: VmArea, ghost z: Zipper)
    requires Ready(z, t, l, last) && z.cur.left.Node?
    modifies last`left, last`parent, t`parent
    ensures Ready(z.LinkedRight(), t.left, l, t)
  {
    ApartAtRoot(z);
    HoleParents(z);
    MoveLeftHole(t, last, z.n, z.nodes, {l});
    RightLinkSet(z);
    ApartLink(z);
  }

  method LinkLeft(t: VmArea, last: VmArea, ghost r: VmArea, ghost z: Zipper)
    requires Ready(z, t, last, r) && z.cur.right.Node?
    modifies last`right, last`parent, t`parent
    ensures Ready(z.LinkedLeft(), t.right, t, r)
  {
    ApartAtRoot(z);
    HoleParents(z);
    MoveRightHole(t, last, z.n, z.nodes, {r});
    LeftLinkSet(z);
    ApartLink(z);
  }

  twostate lemma LeftClosed(z: Zipper)
    requires z.Apart() && z.cur.Node?
    requires forall x :: x in z.nodes ==> x != z.LastRight() ==> x.left == old(x.left)
    requires forall x :: x in z.nodes ==> x != z.LastLeft() ==> x.right == old(x.right)
    requires z.LastLeft().right == Top(z.cur.left) && (z.left.Hang? ==> z.n.right == old(z.n.right))
    requires old(z.Unzipped())
    ensures Linked(PlugLeft(z.left, z.cur.left)) && z.n.right == Top(PlugLeft(z.left, z.cur.left))
  {
    ApartAtRoot(z);
    assert Linked(z.cur.left) == old(Linked(z.cur.left));
    assert LeftLinked(z.left) == old(LeftLinked(z.left));
    PlugLeftLinked(z.left, z.cur.left);
    PlugLeftItems(z.left, z.cur.left);
  }

  twostate lemma RightClosed(z: Zipper)
    requires z.Apart() && z.cur.Node?
    requires forall x :: x in z.nodes ==> x != z.LastRight() ==> x.left == old(x.left)
    requires forall x :: x in z.nodes ==> x != z.LastLeft() ==> x.right == old(x.right)
    requires z.LastRight().left == Top(z.cur.right) && (z.right.Hang? ==> z.n.left == old(z.n.left))
    requires old(z.Unzipped())
    ensures Linked(PlugRight(z.right, z.cur.right)) && z.n.left == Top(PlugRight(z.right, z.cur.right))
  {
    ApartAtRoot(z);
    assert Linked(z.cur.right) == old(Linked(z.cur.right));
    assert RightLinked(z.right) == old(RightLinked(z.right));
    PlugRightLinked(z.right, z.cur.right);
    PlugRightItems(z.right, z.cur.right);
  }

  /** Move the subtrees of `t` to the holes of the side trees, leaving the links of `t` out of date. */
  method MoveChildren(t: VmArea, l: VmArea, r: VmArea, ghost n: VmArea, ghost nodes: set<VmArea>)
    requires t in nodes && l in nodes + {n} && r in nodes + {n} && n !in nodes && l != t && r != t
    requires l == r ==> l == n
    requires Parented(nodes, t, {r}, {l}) && (t.left == null || t.left != t.right)
    requires t.left !in {l, r} && t.right !in {l, r}
    requires t.left != null ==> l == n || l.parent != t.left
    requires t.right != null ==> r == n || r.parent != t.right
    modifies l`right, r`left, {l, r}`parent
    modifies (if t.left == null then {} else {t.left})`parent, (if t.right == null then {} else {t.right})`parent
    ensures l.right == t.left && r.left == t.right
    ensures t.left != null ==> t.left.parent == l
    ensures t.right != null ==> t.right.parent == r
    ensures l != n ==> l.parent == old(l.parent)
    ensures r != n ==> r.parent == old(r.parent)
    ensures Parented(nodes, t, {t}, {t})
  {
    MakeRightChild(l, t.left);
    MakeLeftChild(r, t.right);
  }

  /** Fill the holes of the side trees with the subtrees of `t`. */
  method CloseSides(t: VmArea, l: VmArea, r: VmArea, ghost z: Zipper)
    requires z.Apart() && z.Unzipped() && z.Upward() && z.cur.Node?
    requires t == z.cur.item && l == z.LastLeft() && r == z.LastRight()
    modifies l`right, r`left, {l, r}`parent
    modifies (if t.left == null then {} else {t.left})`parent, (if t.right == null then {} else {t.right})`parent
    ensures Linked(PlugLeft(z.left, z.cur.left)) && z.n.right == Top(PlugLeft(z.left, z.cur.left))
    ensures Linked(PlugRight(z.right, z.cur.right)) && z.n.left == Top(PlugRight(z.right, z.cur.right))
    ensures z.n.right != null ==> z.n.right.parent == z.n
    ensures z.n.left != null ==> z.n.left.parent == z.n
    ensures Parented(z.nodes, t, {t}, {t})
  {
    ApartAtRoot(z);
    HoleParents(z);
    MoveChildren(t, l, r, z.n, z.nodes);
    LeftClosed(z);
    RightClosed(z);
  }

  /** Hang two trees below `t`. */
  method Crown(t: VmArea, a: VmArea?, b: VmArea?, ghost n: VmArea, ghost l: Shape, ghost r: Shape,
               ghost nodes: set<VmArea>)
    requires Items(l) !! Items(r) && t !in Items(l) && t !in Items(r) && n !in nodes
    requires Items(l) + {t} + Items(r) == nodes
    requires Linked(l) && Linked(r) && a == Top(l) && b == Top(r)
    requires (a != null ==> a.parent == n) && (b != null ==> b.parent == n)
    requires Parented(nodes, t, {t}, {t})
    modifies t`left, t`right, t`parent, (if a == null then {} else {a})`parent, (if b == null then {} else {b})`parent
    ensures Linked(Node(l, t, r))
    ensures Parented(nodes, t, {}, {})
    ensures t.parent == null
  {
    MakeLeftChild(t, a);
    MakeRightChild(t, b);
    t.parent := null;
    assert Linked(l) && Linked(r);
  }

  method Assemble(n: VmArea, l: VmArea, t: VmArea, r: VmArea, ghost z: Zipper)
    requires Ready(z, t, l, r) && n == z.n
    modifies n`left, n`right, n`parent, z.nodes`left, z.nodes`right, z.nodes`parent
    ensures Linked(z.Zip(AtRoot(z.cur)))
    ensures Parented(z.nodes, t, {}, {})
    ensures t.parent == null
  {
    ApartAtRoot(z);
    PlugLeftItems(z.left, z.cur.left);
    PlugRightItems(z.right, z.cur.right);
    CloseSides(t, l, r, z);
    Crown(t, n.right, n.left, n, PlugLeft(z.left, z.cur.left), PlugRight(z.right, z.cur.right), z.nodes);
  }

  ghost function RotatedRight(t: Shape): Shape
    requires t.Node? && t.left.Node?
  {
    Node(t.left.left, t.left.item, Node(t.left.right, t.item, t.right))
  }

  ghost function RotatedLeft(t: Shape): Shape
    requires t.Node? && t.right.Node?
  {
    Node(Node(t.left, t.item, t.right.left), t.right.item, t.right.right)
  }

  lemma RotationApart(z: Zipper)
    requires z.Apart() && z.cur.Node?
    ensures z.cur.left.Node? ==> z.(cur := RotatedRight(z.cur)).Apart()
    ensures z.cur.right.Node? ==> z.(cur := RotatedLeft(z.cur)).Apart()
  {
    var l, x, r := z.cur.left, z.cur.item, z.cur.right;
    if l.Node? { PiecesOfRotation(l.left, l.item, l.right, x, r); }
    if r.Node? { PiecesOfRotation(l, x, r.left, r.item, r.right); }
  }

  twostate lemma RightRotated(z: Zipper)
    requires z.Apart() && z.cur.Node? && z.cur.left.Node?
    requires forall x :: x in z.nodes ==> x != z.cur.item ==> x.left == old(x.left)
    requires forall x :: x in z.nodes ==> x != z.cur.left.item ==> x.right == old(x.right)
    requires z.n.left == old(z.n.left) && z.n.right == old(z.n.right)
    requires z.cur.item.left == old(z.cur.left.item.right) && z.cur.left.item.right == z.cur.item
    requires old(z.Unzipped())
    ensures z.(cur := RotatedRight(z.cur)).Unzipped()
  {
    var u, y, v, t, w := z.cur.left.left, z.cur.left.item, z.cur.left.right, z.cur.item, z.cur.right;
    PiecesOfRotation(u, y, v, t, w);
    assert old(Linked(Node(u, y, v)));
    assert Linked(u) == old(Linked(u)) && Linked(v) == old(Linked(v)) && Linked(w) == old(Linked(w));
    assert LeftLinked(z.left) == old(LeftLinked(z.left)) && RightLinked(z.right) == old(RightLinked(z.right));
  }

  twostate lemma LeftRotated(z: Zipper)
    requires z.Apart() && z.cur.Node? && z.cur.right.Node?
    requires forall x :: x in z.nodes ==> x != z.cur.right.item ==> x.left == old(x.left)
    requires forall x :: x in z.nodes ==> x != z.cur.item ==> x.right == old(x.right)
    requires z.n.left == old(z.n.left) && z.n.right == old(z.n.right)
    requires z.cur.item.right == old(z.cur.right.item.left) && z.cur.right.item.left == z.cur.item
    requires old(z.Unzipped())
    ensures z.(cur := RotatedLeft(z.cur)).Unzipped()
  {
    var w, t, v, y, u := z.cur.left, z.cur.item, z.cur.right.left, z.cur.right.item, z.cur.right.right;
    PiecesOfRotation(w, t, v, y, u);
    assert old(Linked(Node(v, y, u)));
    assert Linked(u) == old(Linked(u)) && Linked(v) == old(Linked(v)) && Linked(w) == old(Linked(w));
    assert LeftLinked(z.left) == old(LeftLinked(z.left)) && RightLinked(z.right) == old(RightLinked(z.right));
  }

  method RotateRightIn(t: VmArea, y: VmArea, ghost l: VmArea, ghost r: VmArea, ghost z: Zipper)
    requires Ready(z, t, l, r) && z.cur.left.Node? && y == t.left
    modifies t`left, y`right, {t, y}`parent, (if y.right == null then {} else {y.right})`parent
    ensures Ready(z.(cur := RotatedRight(z.cur)), y, l, r)
  {
    PiecesOfRotation(z.cur.left.left, y, z.cur.left.right, t, z.cur.right);
    assert Linked(z.cur.left);
    RotateRight(t, y, z.nodes, {r}, {l});
    RightRotated(z);
    RotationApart(z);
  }

  method RotateLeftIn(t: VmArea, y: VmArea, ghost l: VmArea, ghost r: VmArea, ghost z: Zipper)
    requires Ready(z, t, l, r) && z.cur.right.Node? && y == t.right
    modifies t`right, y`left, {t, y}`parent, (if y.left == null then {} else {y.left})`parent
    ensures Ready(z.(cur := RotatedLeft(z.cur)), y, l, r)
  {
    PiecesOfRotation(z.cur.left, t, z.cur.right.left, y, z.cur.right.right);
    assert Linked(z.cur.right);
    RotateLeft(t, y, z.nodes, {r}, {l});
    LeftRotated(z);
    RotationApart(z);
  }

  ghost predicate Keyed(ks: map<VmArea, int>, s: set<VmArea>)
    reads s`start
  {
    forall x :: x in s ==> Key(ks, x) == x.start
  }

  /** The current tree when an iteration that goes left links its root away, if it gets that far. */
  ghost function TurnRight(ks: map<VmArea, int>, a: int, z: Zipper): Zipper
    requires z.cur.Node? && z.cur.left.Node?
  {
    if a < Key(ks, z.cur.left.item) then z.(cur := RotatedRight(z.cur)) else z
  }

  ghost function TurnLeft(ks: map<VmArea, int>, a: int, z: Zipper): Zipper
    requires z.cur.Node? && z.cur.right.Node?
  {
    if Key(ks, z.cur.right.item) < a then z.(cur := RotatedLeft(z.cur)) else z
  }

  /** One iteration to the left leaves the final outcome of the splay unchanged. */
  lemma StepRightValue(ks: map<VmArea, int>, a: int, z: Zipper)
    requires z.cur.Node? && a < Key(ks, z.cur.item)
    ensures z.cur.left.Leaf? ==> Split(ks, a, z.cur) == AtRoot(z.cur)
    ensures z.cur.left.Node? ==>
      var z' := TurnRight(ks, a, z);
      if z'.cur.left.Leaf? then Split(ks, a, z.cur) == AtRoot(z'.cur)
      else
        && z.Zip(Split(ks, a, z.cur)) == z'.LinkedRight().Zip(Split(ks, a, z'.cur.left))
        && Split(ks, a, z.cur).links == Split(ks, a, z'.cur.left).links + 1
        && Size(z'.cur.left) < Size(z.cur)
  {
  }

  lemma StepLeftValue(ks: map<VmArea, int>, a: int, z: Zipper)
    requires z.cur.Node? && Key(ks, z.cur.item) < a
    ensures z.cur.right.Leaf? ==> Split(ks, a, z.cur) == AtRoot(z.cur)
    ensures z.cur.right.Node? ==>
      var z' := TurnLeft(ks, a, z);
      if z'.cur.right.Leaf? then Split(ks, a, z.cur) == AtRoot(z'.cur)
      else
        && z.Zip(Split(ks, a, z.cur)) == z'.LinkedLeft().Zip(Split(ks, a, z'.cur.right))
        && Split(ks, a, z.cur).links == Split(ks, a, z'.cur.right).links + 1
        && Size(z'.cur.right) < Size(z.cur)
  {
  }

  /** What becomes of the current tree if the loop goes on, or if it stops here. */
  ghost function Rest(ks: map<VmArea, int>, a: int, z: Zipper, more: bool): Parts<VmArea>
    requires z.cur.Node?
  {
    if more then Split(ks, a, z.cur) else AtRoot(z.cur)
  }

  /** An iteration for a key that is smaller than the current root's. */
  method StepRight(a: int, t0: VmArea, r0: VmArea, ghost l: VmArea, ghost ks: map<VmArea, int>, ghost z0: Zipper)
    returns (t: VmArea, r: VmArea, more: bool, ghost z: Zipper)
    requires Ready(z0, t0, l, r0) && Keyed(ks, z0.nodes) && a < t0.start
    modifies z0.nodes`left, z0.nodes`right, z0.nodes`parent, z0.n`left, z0.n`parent
    ensures Ready(z, t, l, r) && z.n == z0.n && z.nodes == z0.nodes
    ensures z.Zip(Rest(ks, a, z, more)) == z0.Zip(Split(ks, a, z0.cur))
    ensures Split(ks, a, z0.cur).links == Rest(ks, a, z, more).links + if more then 1 else 0
    ensures more ==> Size(z.cur) < Size(z0.cur)
  {
    StepRightValue(ks, a, z0);
    t, r, more, z := t0, r0, false, z0;
    if t.left != null {
      if a < t.left.start {
        var y := t.left;
        RotateRightIn(t, y, l, r, z);
        z := z.(cur := RotatedRight(z.cur));
        t := y;
      }
      assert z == TurnRight(ks, a, z0);
      if t.left != null {
        LinkRight(t, r, l, z);
        z := z.LinkedRight();
        r := t;
        t := t.left;
        more := true;
      }
    }
  }

  /** An iteration for a key that is larger than the current root's. */
  method StepLeft(a: int, t0: VmArea, l0: VmArea, ghost r: VmArea, ghost ks: map<VmArea, int>, ghost z0: Zipper)
    returns (t: VmArea, l: VmArea, more: bool, ghost z: Zipper)
    requires Ready(z0, t0, l0, r) && Keyed(ks, z0.nodes) && t0.start < a
    modifies z0.nodes`left, z0.nodes`right, z0.nodes`parent, z0.n`right, z0.n`parent
    ensures Ready(z, t, l, r) && z.n == z0.n && z.nodes == z0.nodes
    ensures z.Zip(Rest(ks, a, z, more)) == z0.Zip(Split(ks, a, z0.cur))
    ensures Split(ks, a, z0.cur).links == Rest(ks, a, z, more).links + if more then 1 else 0
    ensures more ==> Size(z.cur) < Size(z0.cur)
  {
    StepLeftValue(ks, a, z0);
    t, l, more, z := t0, l0, false, z0;
    if t.right != null {
      if t.right.start < a {
        var y := t.right;
        RotateLeftIn(t, y, l, r, z);
        z := z.(cur := RotatedLeft(z.cur));
        t := y;
      }
      assert z == TurnLeft(ks, a, z0);
      if t.right != null {
        LinkLeft(t, l, r, z);
        z := z.LinkedLeft();
        l := t;
        t := t.right;
        more := true;
      }
    }
  }

  /** One iteration of the loop. */
  method Step(a: int, t0: VmArea, l0: VmArea, r0: VmArea, ghost ks: map<VmArea, int>, ghost z0: Zipper)
    returns (t: VmArea, l: VmArea, r: VmArea, more: bool, ghost z: Zipper)
    requires Ready(z0, t0, l0, r0) && Keyed(ks, z0.nodes)
    modifies z0.nodes`left, z0.nodes`right, z0.nodes`parent, z0.n`left, z0.n`right, z0.n`parent
    ensures Ready(z, t, l, r) && z.n == z0.n && z.nodes == z0.nodes
    ensures z.Zip(Rest(ks, a, z, more)) == z0.Zip(Split(ks, a, z0.cur))
    ensures Split(ks, a, z0.cur).links == Rest(ks, a, z, more).links + if more then 1 else 0
    ensures more ==> Size(z.cur) < Size(z0.cur)
  {
    t, l, r, more, z := t0, l0, r0, false, z0;
    if a < t.start {
      t, r, more, z := StepRight(a, t, r, l, ks, z);
    } else if t.start < a {
      t, l, more, z := StepLeft(a, t, l, r, ks, z);
    }
  }

  /** The loop: descend until the search for `a` ends. */
  method Descend(a: int, t0: VmArea, n: VmArea, ghost ks: map<VmArea, int>, ghost z0: Zipper)
    returns (t: VmArea, l: VmArea, r: VmArea, ghost links: nat, ghost z: Zipper)
    requires n == z0.n && Ready(z0, t0, n, n) && Keyed(ks, z0.nodes)
    modifies z0.nodes`left, z0.nodes`right, z0.nodes`parent, n`left, n`right, n`parent
    ensures Ready(z, t, l, r) && z.n == z0.n && z.nodes == z0.nodes
    ensures z.Zip(AtRoot(z.cur)) == z0.Zip(Split(ks, a, z0.cur))
    ensures links == Split(ks, a, z0.cur).links
  {
    var more := true;
    t, l, r, links, z := t0, n, n, 0, z0;
    while more
      invariant Ready(z, t, l, r) && z.n == z0.n && z.nodes == z0.nodes
      invariant z.Zip(Rest(ks, a, z, more)) == z0.Zip(Split(ks, a, z0.cur))
      invariant links + Rest(ks, a, z, more).links == Split(ks, a, z0.cur).links
      decreases more, Size(z.cur)
    {
      t, l, r, more, z := Step(a, t, l, r, ks, z);
      if more { links := links + 1; }
    }
  }

  /**
    Splay the tree under `top` at `a`.  The links are rewired in place, and the result is `Splay` of
    the tree that was there: the same nodes, parent links that mirror the child links, a root without
    parent, and nothing that refers to the sentinel, which is not among the nodes.
  */
  method SplayAt(a: int, top: VmArea?, ghost ks: map<VmArea, int>, ghost tree: Shape, ghost nodes: set<VmArea>)
    returns (t: VmArea?, ghost links: nat)
    requires Distinct(tree) && Linked(tree) && top == Top(tree) && nodes == Items(tree)
    requires Parented(nodes, top, {}, {}) && Keyed(ks, nodes)
    modifies nodes`left, nodes`right, nodes`parent
    ensures Linked(Splay(ks, a, tree)) && t == Top(Splay(ks, a, tree))
    ensures Parented(nodes, t, {}, {}) && (t != null ==> t.parent == null)
    ensures links == Links(ks, a, tree)
  {
    links := 0;
    if top == null {
      return null, 0;
    }
    var n := new VmArea(null);
    ghost var z := Zipper(n, Empty, tree, Empty, nodes);
    var cur, l, r;
    cur, l, r, links, z := Descend(a, top, n, ks, z);
    Assemble(n, l, cur, r, z);
    t := cur;
  }
}
