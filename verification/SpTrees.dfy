/** The splay tree of areas: one set of nodes that is a search tree and a list at the same time. */
module SpTrees {
  import opened Basics
  import opened SplayModel
  import opened SplayTree
  import opened VmAreas
  import opened AreaLists
  import opened Intervals

  /** The order of the starts along `s` is strict. */
  ghost predicate Increasing(s: seq<VmArea>)
    reads s`start
  {
    forall i, j :: 0 <= i < j < |s| ==> s[i].start < s[j].start
  }

  ghost function Starts(s: set<VmArea>): map<VmArea, int>
    reads s`start
  {
    map x | x in s :: x.start
  }

  /** `t`, at position `i`, is where a search for `a` in `s` ends. */
  ghost predicate Nearest(s: seq<VmArea>, i: nat, t: VmArea, a: int)
    reads s`start
  {
    && i < |s| && s[i] == t
    && (forall j :: 0 <= j < i ==> s[j].start < a)
    && (forall j :: i < j < |s| ==> a < s[j].start)
  }

  /** `Nearest`, for the keys in `ks`. */
  ghost predicate NearestKey(ks: map<VmArea, int>, s: seq<VmArea>, i: nat, t: VmArea, a: int)
  {
    && i < |s| && s[i] == t
    && (forall j :: 0 <= j < i ==> Key(ks, s[j]) < a)
    && (forall j :: i < j < |s| ==> a < Key(ks, s[j]))
  }

  /** The views of one set of nodes: as a tree and as a list. */
  datatype Weave = Weave(shape: Shape, order: seq<VmArea>, nodes: set<VmArea>)
  {
    /** The views are about the same nodes, in the same order. */
    ghost predicate Agrees()
    {
      && nodes == Items(shape) && order == Inorder(shape) && Distinct(shape)
      && (forall x :: x in order ==> x in nodes)
    }

    /** The tree links alone: enough to splay, as is also the case for a subtree. */
    ghost predicate Rooted(t: VmArea?)
      reads nodes`left, nodes`right, nodes`parent, nodes`start
    {
      && Agrees() && t == Top(shape)
      && Linked(shape) && Parented(nodes, t, {}, {}) && Increasing(order)
    }

    /** The links realise both views, with `t` as the root of the tree. */
    ghost predicate Holds(t: VmArea?)
      reads nodes`left, nodes`right, nodes`parent, nodes`prev, nodes`next, nodes`start
    {
      && Agrees() && t == Top(shape)
      && Linked(shape) && Parented(nodes, t, {}, {}) && (t != null ==> t.parent == null)
      && Listed(order) && Increasing(order)
    }
  }

  // ----- searching -----

  /** Splaying keeps the nodes in place in the traversal, and brings the end of the search to the root. */
  lemma SearchEnds(shape: Shape, nodes: set<VmArea>, a: int) returns (i: nat)
    requires shape.Node? && nodes == Items(shape) && Increasing(Inorder(shape))
    ensures var s := Splay(Starts(nodes), a, shape);
      s.Node? && Items(s) == nodes && Inorder(s) == Inorder(shape) && (Distinct(s) <==> Distinct(shape))
      && NearestKey(Starts(nodes), Inorder(shape), i, s.item, a)
  {
    var ks, order := Starts(nodes), Inorder(shape);
    InorderItems(shape);
    assert forall j :: 0 <= j < |order| ==> order[j] in nodes && Key(ks, order[j]) == order[j].start;
    SplayKeepsNodes(ks, a, shape);
    i := SplayFinds(ks, a, shape);
  }

  lemma NearestByKey(ks: map<VmArea, int>, s: seq<VmArea>, i: nat, t: VmArea, a: int, nodes: set<VmArea>)
    requires NearestKey(ks, s, i, t, a) && Keyed(ks, nodes) && (forall x :: x in s ==> x in nodes)
    ensures Nearest(s, i, t, a)
  {
    assert forall j :: 0 <= j < |s| ==> s[j] in nodes && Key(ks, s[j]) == s[j].start;
  }

  /** `SplayAt`, seen as a search in the traversal. */
  method Search(a: int, top: VmArea, ghost m: Weave)
    returns (t: VmArea, ghost i: nat, ghost after: Shape, ghost links: nat)
    requires m.Rooted(top)
    modifies m.nodes`left, m.nodes`right, m.nodes`parent
    ensures m.(shape := after).Agrees() && t == Top(after)
    ensures Linked(after) && Parented(m.nodes, t, {}, {}) && t.parent == null
    ensures NearestKey(old(Starts(m.nodes)), m.order, i, t, a)
    ensures after == Splay(old(Starts(m.nodes)), a, m.shape) && links == Links(old(Starts(m.nodes)), a, m.shape)
  {
    ghost var ks := Starts(m.nodes);
    i := SearchEnds(m.shape, m.nodes, a);
    var s;
    s, links := SplayAt(a, top, ks, m.shape, m.nodes);
    after := Splay(ks, a, m.shape);
    t := s;
  }

  /** Splay the tree under `top`; nothing but its shape changes. */
  method SplayFrom(a: int, top: VmArea, ghost m: Weave)
    returns (t: VmArea, ghost i: nat, ghost m': Weave, ghost links: nat)
    requires m.Holds(top)
    modifies m.nodes`left, m.nodes`right, m.nodes`parent
    ensures m'.Holds(t) && m'.order == m.order && m'.nodes == m.nodes
    ensures Nearest(m.order, i, t, a)
    ensures m'.shape == Splay(old(Starts(m.nodes)), a, m.shape) && links == Links(old(Starts(m.nodes)), a, m.shape)
  {
    ghost var ks := Starts(m.nodes);
    ghost var shape;
    t, i, shape, links := Search(a, top, m);
    NearestByKey(ks, m.order, i, t, a, m.nodes);
    m' := m.(shape := shape);
  }

  // ----- a new root -----

  /** A tree with root `t` before, and with the new node `z` on top after. */
  datatype Topped = Topped(l: Shape, t: VmArea, r: Shape, z: VmArea, nodes: set<VmArea>)
  {
    ghost function Old(): Shape { Node(l, t, r) }

    /** `z` goes between the left subtree and `t`. */
    ghost function Before(): Shape { Node(l, z, Node(Leaf, t, r)) }

    /** `z` goes between `t` and the right subtree. */
    ghost function After(): Shape { Node(Node(l, t, Leaf), z, r) }

    ghost predicate New()
    {
      Distinct(Old()) && nodes == Items(Old()) && z !in nodes
    }
  }

  lemma ToppedShapes(p: Topped)
    requires p.New()
    ensures Distinct(p.Before()) && Items(p.Before()) == p.nodes + {p.z}
    ensures Distinct(p.After()) && Items(p.After()) == p.nodes + {p.z}
    ensures var i, s := |Inorder(p.l)|, Inorder(p.Old());
      && i < |s| && s[i] == p.t
      && Inorder(p.Before()) == s[..i] + [p.z] + s[i..]
      && Inorder(p.After()) == s[..i + 1] + [p.z] + s[i + 1..]
  {
    var a, b := Inorder(p.l), Inorder(p.r);
    assert Items(Node(Leaf, p.t, p.r)) == {p.t} + Items(p.r);
    assert Inorder(Node(Leaf, p.t, p.r)) == [p.t] + b;
    assert Inorder(Node(p.l, p.t, Leaf)) == a + [p.t];
    assert a + [p.z] + ([p.t] + b) == (a + [p.t] + b)[..|a|] + [p.z] + (a + [p.t] + b)[|a|..];
    assert (a + [p.t]) + [p.z] + b == (a + [p.t] + b)[..|a| + 1] + [p.z] + (a + [p.t] + b)[|a| + 1..];
  }

  twostate lemma ToppedBefore(p: Topped)
    requires p.New() && old(Linked(p.Old()))
    requires forall x :: x in p.nodes ==> x.right == old(x.right) && (x != p.t ==> x.left == old(x.left))
    requires p.z.left == old(p.t.left) && p.z.right == p.t && p.t.left == null
    ensures Linked(p.Before())
  {
    assert Linked(p.l) == old(Linked(p.l)) && Linked(p.r) == old(Linked(p.r));
    assert Linked(Node(Leaf, p.t, p.r));
  }

  twostate lemma ToppedAfter(p: Topped)
    requires p.New() && old(Linked(p.Old()))
    requires forall x :: x in p.nodes ==> x.left == old(x.left) && (x != p.t ==> x.right == old(x.right))
    requires p.z.right == old(p.t.right) && p.z.left == p.t && p.t.right == null
    ensures Linked(p.After())
  {
    assert Linked(p.l) == old(Linked(p.l)) && Linked(p.r) == old(Linked(p.r));
    assert Linked(Node(p.l, p.t, Leaf));
  }

  method HangBefore(z: VmArea, t: VmArea, ghost nodes: set<VmArea>)
    requires t in nodes && z !in nodes && z.parent == null && Parented(nodes, t, {}, {})
    requires t.left != null ==> t.left != t.right
    modifies z`left, z`right, z`parent, t`left, t`parent, (if t.left == null then {} else {t.left})`parent
    ensures z.left == old(t.left) && z.right == t && t.left == null
    ensures Parented(nodes + {z}, z, {}, {}) && z.parent == null
  {
    MakeLeftChild(z, t.left);
    MakeRightChild(z, t);
    t.left := null;
  }

  method HangAfter(z: VmArea, t: VmArea, ghost nodes: set<VmArea>)
    requires t in nodes && z !in nodes && z.parent == null && Parented(nodes, t, {}, {})
    requires t.left != null ==> t.left != t.right
    modifies z`left, z`right, z`parent, t`right, t`parent, (if t.right == null then {} else {t.right})`parent
    ensures z.right == old(t.right) && z.left == t && t.right == null
    ensures Parented(nodes + {z}, z, {}, {}) && z.parent == null
  {
    MakeRightChild(z, t.right);
    MakeLeftChild(z, t);
    t.right := null;
  }

  method GrowBefore(z: VmArea, t: VmArea, ghost p: Topped, ghost order: seq<VmArea>)
    requires p.New() && p.t == t && p.z == z && z.parent == null
    requires Linked(p.Old()) && Parented(p.nodes, t, {}, {})
    requires Listed(order) && Increasing(order)
    modifies z`left, z`right, z`parent, t`left, t`parent, (if t.left == null then {} else {t.left})`parent
    ensures Linked(p.Before()) && Parented(p.nodes + {z}, z, {}, {}) && z.parent == null
    ensures Listed(order) && Increasing(order)
  {
    HangBefore(z, t, p.nodes);
    ToppedBefore(p);
  }

  method GrowAfter(z: VmArea, t: VmArea, ghost p: Topped, ghost order: seq<VmArea>)
    requires p.New() && p.t == t && p.z == z && z.parent == null
    requires Linked(p.Old()) && Parented(p.nodes, t, {}, {})
    requires Listed(order) && Increasing(order)
    modifies z`left, z`right, z`parent, t`right, t`parent, (if t.right == null then {} else {t.right})`parent
    ensures Linked(p.After()) && Parented(p.nodes + {z}, z, {}, {}) && z.parent == null
    ensures Listed(order) && Increasing(order)
  {
    HangAfter(z, t, p.nodes);
    ToppedAfter(p);
  }

  method LinkAndGrowBefore(z: VmArea, t: VmArea, ghost p: Topped,
                           ghost s: seq<VmArea>, ghost i: nat, ghost u: seq<VmArea>)
    requires p.New() && p.t == t && p.z == z && z.parent == null
    requires Linked(p.Old()) && Parented(p.nodes, t, {}, {})
    requires Listed(s) && NoDuplicates(s) && z !in s && i < |s| && s[i] == t
    requires u == s[..i] + [z] + s[i..] && Increasing(u)
    modifies z`left, z`right, z`parent, t`left, t`parent, (if t.left == null then {} else {t.left})`parent
    modifies z`prev, z`next, t`prev, (if t.prev == null then {} else {t.prev})`next
    ensures Linked(p.Before()) && Parented(p.nodes + {z}, z, {}, {}) && z.parent == null
    ensures Listed(u) && Increasing(u)
  {
    LinkBefore(z, t, s, i);
    GrowBefore(z, t, p, u);
  }

  method LinkAndGrowAfter(z: VmArea, t: VmArea, ghost p: Topped,
                          ghost s: seq<VmArea>, ghost i: nat, ghost u: seq<VmArea>)
    requires p.New() && p.t == t && p.z == z && z.parent == null
    requires Linked(p.Old()) && Parented(p.nodes, t, {}, {})
    requires Listed(s) && NoDuplicates(s) && z !in s && i < |s| && s[i] == t
    requires u == s[..i + 1] + [z] + s[i + 1..] && Increasing(u)
    modifies z`left, z`right, z`parent, t`right, t`parent, (if t.right == null then {} else {t.right})`parent
    modifies z`prev, z`next, t`next, (if t.next == null then {} else {t.next})`prev
    ensures Linked(p.After()) && Parented(p.nodes + {z}, z, {}, {}) && z.parent == null
    ensures Listed(u) && Increasing(u)
  {
    LinkAfter(z, t, s, i);
    GrowAfter(z, t, p, u);
  }

  lemma IncreasingInsert(s: seq<VmArea>, k: nat, z: VmArea)
    requires Increasing(s) && k <= |s|
    requires forall j :: 0 <= j < k ==> s[j].start < z.start
    requires forall j :: k <= j < |s| ==> z.start < s[j].start
    ensures Increasing(s[..k] + [z] + s[k..])
  {
  }

  /** The views after `z` has been put in front of the root. */
  ghost function WithBefore(m: Weave, z: VmArea, i: nat): Weave
    requires m.shape.Node? && i <= |m.order|
  {
    Weave(Topped(m.shape.left, m.shape.item, m.shape.right, z, m.nodes).Before(),
          m.order[..i] + [z] + m.order[i..], m.nodes + {z})
  }

  /** The views after `z` has been put behind the root. */
  ghost function WithAfter(m: Weave, z: VmArea, i: nat): Weave
    requires m.shape.Node? && i < |m.order|
  {
    Weave(Topped(m.shape.left, m.shape.item, m.shape.right, z, m.nodes).After(),
          m.order[..i + 1] + [z] + m.order[i + 1..], m.nodes + {z})
  }

  lemma WithAgrees(m: Weave, z: VmArea, i: nat)
    requires m.Agrees() && m.shape.Node? && z !in m.nodes
    requires i < |m.order| && m.order[i] == m.shape.item
    ensures WithBefore(m, z, i).Agrees() && WithAfter(m, z, i).Agrees() && NoDuplicates(m.order)
  {
    var p := Topped(m.shape.left, m.shape.item, m.shape.right, z, m.nodes);
    ToppedShapes(p);
    DistinctInorder(m.shape);
    assert i == |Inorder(m.shape.left)|;
  }

  method PlantBefore(t: VmArea, z: VmArea, ghost m: Weave, ghost i: nat) returns (ghost m': Weave)
    requires m.Holds(t) && z !in m.nodes && z.parent == null
    requires Nearest(m.order, i, t, z.start) && z.start < t.start
    modifies m.nodes`left, m.nodes`right, m.nodes`parent, m.nodes`prev, m.nodes`next
    modifies z`left, z`right, z`parent, z`prev, z`next
    ensures m'.Holds(z) && m' == WithBefore(m, z, i)
  {
    m' := WithBefore(m, z, i);
    WithAgrees(m, z, i);
    IncreasingInsert(m.order, i, z);
    LinkAndGrowBefore(z, t, Topped(m.shape.left, t, m.shape.right, z, m.nodes), m.order, i, m'.order);
  }

  method PlantAfter(t: VmArea, z: VmArea, ghost m: Weave, ghost i: nat) returns (ghost m': Weave)
    requires m.Holds(t) && z !in m.nodes && z.parent == null
    requires Nearest(m.order, i, t, z.start) && t.start < z.start
    modifies m.nodes`left, m.nodes`right, m.nodes`parent, m.nodes`prev, m.nodes`next
    modifies z`left, z`right, z`parent, z`prev, z`next
    ensures m'.Holds(z) && m' == WithAfter(m, z, i)
  {
    m' := WithAfter(m, z, i);
    WithAgrees(m, z, i);
    IncreasingInsert(m.order, i + 1, z);
    LinkAndGrowAfter(z, t, Topped(m.shape.left, t, m.shape.right, z, m.nodes), m.order, i, m'.order);
  }

  // ----- taking the root away -----

  /** Child links do not lead out of a tree. */
  lemma {:induction false} LinkedClosed(t: Shape)
    requires Linked(t)
    ensures forall x {:trigger x.left} :: x in Items(t) && x.left != null ==> x.left in Items(t)
    ensures forall x {:trigger x.right} :: x in Items(t) && x.right != null ==> x.right in Items(t)
  {
    if t.Node? {
      LinkedClosed(t.left);
      LinkedClosed(t.right);
    }
  }

  /** A subtree has parent links of its own. */
  lemma Subtree(t: Shape, sub: Shape, nodes: set<VmArea>)
    requires Parented(nodes, Top(t), {}, {}) && Linked(sub) && Items(sub) <= nodes
    requires sub.Node? ==> sub.item.parent !in Items(sub)
    ensures Parented(Items(sub), Top(sub), {}, {})
  {
    LinkedClosed(sub);
  }

  lemma SubtreesAgree(m: Weave)
    requires m.Agrees() && m.shape.Node?
    ensures var l, r := m.shape.left, m.shape.right;
      && Weave(l, Inorder(l), Items(l)).Agrees() && Weave(r, Inorder(r), Items(r)).Agrees()
      && Items(l) !! Items(r) && m.shape.item !in Items(l) && m.shape.item !in Items(r)
      && Items(l) + {m.shape.item} + Items(r) == m.nodes
      && m.order == Inorder(l) + [m.shape.item] + Inorder(r)
  {
    InorderItems(m.shape.left);
    InorderItems(m.shape.right);
  }

  /** Hang the tree at `top` to the right of `z`, which has no right child. */
  method AttachRight(z: VmArea, top: VmArea?, ghost l: Shape, ghost r: Shape, ghost nodes: set<VmArea>)
    requires Items(l) !! Items(r) && Items(l) + Items(r) <= nodes && Distinct(l)
    requires l.Node? && z == l.item && l.right == Leaf && top == Top(r) && Linked(l) && Linked(r)
    requires Parented(Items(l), z, {}, {}) && Parented(Items(r), top, {}, {}) && z.parent == null
    modifies z`right, z`parent, (if top == null then {} else {top})`parent
    ensures Linked(Node(l.left, z, r)) && z.parent == null
    ensures Parented(Items(l) + Items(r), z, {}, {})
  {
    MakeRightChild(z, top);
    assert Linked(r) == old(Linked(r));
    assert Linked(l.left) == old(Linked(l.left));
  }

  /** A root that comes last in the traversal has no right subtree. */
  lemma LastRoot(m: Weave, i: nat)
    requires m.Agrees() && m.shape.Node? && i == |m.order| - 1 && m.order[i] == m.shape.item
    ensures m.shape.right == Leaf
  {
    DistinctInorder(m.shape);
    var l, r := m.shape.left, m.shape.right;
    assert m.order[|Inorder(l)|] == m.shape.item;
    InorderItems(r);
    assert r.Node? ==> Size(r) > 0;
  }

  ghost function LeftPart(m: Weave): Weave
    requires m.shape.Node?
  {
    Weave(m.shape.left, Inorder(m.shape.left), Items(m.shape.left))
  }

  /** The left subtree can be splayed on its own, and all of it lies below the root. */
  lemma LeftRooted(m: Weave, t: VmArea)
    requires m.Rooted(t) && m.shape.Node?
    ensures LeftPart(m).Rooted(t.left)
    ensures Parented(Items(m.shape.right), t.right, {}, {}) && Linked(m.shape.right)
    ensures forall j :: 0 <= j < |LeftPart(m).order| ==> LeftPart(m).order[j].start < t.start
  {
    var l, r := m.shape.left, m.shape.right;
    SubtreesAgree(m);
    assert l.Node? ==> l.item.parent == t;
    assert r.Node? ==> r.item.parent == t;
    Subtree(m.shape, l, m.nodes);
    Subtree(m.shape, r, m.nodes);
    assert forall j :: 0 <= j < |Inorder(l)| ==> Inorder(l)[j] == m.order[j];
    assert m.order[|Inorder(l)|] == t;
  }

  /** Splay the left subtree at the key of the root, which brings its last node to the top. */
  method SplayLeft(t: VmArea, top: VmArea, ghost m: Weave) returns (z: VmArea, ghost after: Shape)
    requires m.Rooted(top) && (forall j :: 0 <= j < |m.order| ==> m.order[j].start < t.start)
    modifies m.nodes`left, m.nodes`right, m.nodes`parent
    ensures m.(shape := after).Agrees() && z == Top(after) && after.right == Leaf
    ensures Linked(after) && Parented(m.nodes, z, {}, {}) && z.parent == null
    ensures z == m.order[|m.order| - 1]
  {
    ghost var ks, last, i := Starts(m.nodes), |m.order| - 1, 0;
    assert last >= 0 ==> Key(ks, m.order[last]) == m.order[last].start < t.start;
    ghost var links;
    z, i, after, links := Search(t.start, top, m);
    LastRoot(m.(shape := after), i);
  }

  lemma PrunedShape(l: Shape, r: Shape)
    requires l.Node? && l.right == Leaf && Distinct(l) && Distinct(r) && Items(l) !! Items(r)
    ensures var s := Node(l.left, l.item, r);
      Items(s) == Items(l) + Items(r) && Inorder(s) == Inorder(l) + Inorder(r) && Distinct(s)
  {
    assert Inorder(l) == Inorder(l.left) + [l.item];
  }

  /** Splay the left subtree of `t` and hang the right one below its new root. */
  method JoinSubtrees(t: VmArea, ghost left: Weave, ghost r: Shape, ghost nodes: set<VmArea>, ghost u: seq<VmArea>)
    returns (z: VmArea, ghost l: Shape)
    requires left.Rooted(t.left) && left.shape.Node? && t !in left.nodes
    requires t.right == Top(r) && left.nodes !! Items(r) && t !in Items(r) && left.nodes + Items(r) <= nodes
    requires Parented(Items(r), t.right, {}, {}) && Linked(r)
    requires forall j :: 0 <= j < |left.order| ==> left.order[j].start < t.start
    requires Listed(u) && Increasing(u)
    modifies left.nodes`left, left.nodes`right, left.nodes`parent, (if t.right == null then {} else {t.right})`parent
    ensures left.(shape := l).Agrees() && l.Node? && z == l.item && l.right == Leaf
    ensures Linked(Node(l.left, z, r)) && z.parent == null && z == left.order[|left.order| - 1]
    ensures Parented(left.nodes + Items(r), z, {}, {})
    ensures Listed(u) && Increasing(u)
  {
    hide Listed;
    hide Increasing;
    var y;
    y, l := SplayLeft(t, t.left, left);
    y.parent := null;
    assert Linked(r) == old(Linked(r));
    AttachRight(y, t.right, l, r, nodes);
    z := y;
  }

  /** The tree without its root `t`; the list `u` is carried along. */
  method Prune(t: VmArea, ghost m: Weave, ghost u: seq<VmArea>) returns (z: VmArea?, ghost shape: Shape)
    requires m.Agrees() && m.shape.Node? && t == m.shape.item
    requires t.left == Top(m.shape.left) && t.right == Top(m.shape.right)
    requires LeftPart(m).Rooted(t.left)
    requires Parented(Items(m.shape.right), t.right, {}, {}) && Linked(m.shape.right)
    requires forall j :: 0 <= j < |LeftPart(m).order| ==> LeftPart(m).order[j].start < t.start
    requires Listed(u) && Increasing(u)
    modifies (m.nodes - {t})`left, (m.nodes - {t})`right, (m.nodes - {t})`parent
    ensures z == Top(shape) && Linked(shape) && Parented(m.nodes - {t}, z, {}, {}) && (z != null ==> z.parent == null)
    ensures Items(shape) == m.nodes - {t} && Distinct(shape)
    ensures Inorder(shape) == Inorder(m.shape.left) + Inorder(m.shape.right)
    ensures m.shape.left.Node? ==> z == LeftPart(m).order[|LeftPart(m).order| - 1]
    ensures Listed(u) && Increasing(u)
  {
    ghost var l, r := m.shape.left, m.shape.right;
    SubtreesAgree(m);
    if t.left != null {
      ghost var l';
      z, l' := JoinSubtrees(t, LeftPart(m), r, m.nodes, u);
      shape := Node(l'.left, z, r);
      PrunedShape(l', r);
    } else {
      z, shape := t.right, r;
      if z != null {
        z.parent := null;
      }
    }
  }

  lemma IncreasingRemove(s: seq<VmArea>, i: nat)
    requires Increasing(s) && i < |s|
    ensures Increasing(s[..i] + s[i + 1..])
  {
  }

  lemma RootPosition(m: Weave, i: nat)
    requires m.Agrees() && m.shape.Node? && i < |m.order| && m.order[i] == m.shape.item
    ensures i == |Inorder(m.shape.left)| && NoDuplicates(m.order)
    ensures m.order[..i] == Inorder(m.shape.left) && m.order[i + 1..] == Inorder(m.shape.right)
    ensures m.shape.left.Node? <==> i > 0
    ensures m.shape.right.Node? <==> i < |m.order| - 1
  {
    DistinctInorder(m.shape);
    assert m.order[|Inorder(m.shape.left)|] == m.shape.item;
    InorderItems(m.shape.left);
    InorderItems(m.shape.right);
  }

  ghost function Without(m: Weave, i: nat, shape: Shape): Weave
    requires i < |m.order|
  {
    Weave(shape, m.order[..i] + m.order[i + 1..], m.nodes - {m.order[i]})
  }

  lemma WithoutAgrees(m: Weave, i: nat, shape: Shape)
    requires m.Agrees() && m.shape.Node? && i < |m.order| && m.order[i] == m.shape.item
    requires Items(shape) == m.nodes - {m.shape.item} && Distinct(shape)
    requires Inorder(shape) == Inorder(m.shape.left) + Inorder(m.shape.right)
    ensures Without(m, i, shape).Agrees()
  {
    RootPosition(m, i);
  }

  /** Take `t` out of the list, with the tree links unchanged. */
  method UnlinkRoot(t: VmArea, ghost m: Weave, ghost i: nat, ghost u: seq<VmArea>)
    requires m.Holds(t) && NoDuplicates(m.order) && i < |m.order| && m.order[i] == t
    requires u == m.order[..i] + m.order[i + 1..] && Increasing(u)
    modifies (m.nodes - {t})`prev, (m.nodes - {t})`next
    ensures m.Rooted(t) && Listed(u) && Increasing(u)
  {
    Unlink(t, m.order, i);
  }

  /** Take the root `t` out of the tree. */
  method PruneRoot(t: VmArea, ghost m: Weave, ghost u: seq<VmArea>) returns (z: VmArea?, ghost shape: Shape)
    requires m.Rooted(t) && m.shape.Node? && Listed(u) && Increasing(u)
    modifies (m.nodes - {t})`left, (m.nodes - {t})`right, (m.nodes - {t})`parent
    ensures z == Top(shape) && Linked(shape) && Parented(m.nodes - {t}, z, {}, {}) && (z != null ==> z.parent == null)
    ensures Items(shape) == m.nodes - {t} && Distinct(shape)
    ensures Inorder(shape) == Inorder(m.shape.left) + Inorder(m.shape.right)
    ensures m.shape.left.Node? ==> z == LeftPart(m).order[|LeftPart(m).order| - 1]
    ensures Listed(u) && Increasing(u)
  {
    LeftRooted(m, t);
    z, shape := Prune(t, m, u);
  }

  /** Take the root `t` out of the tree and the list. */
  method Uproot(t: VmArea, ghost m: Weave, ghost i: nat) returns (z: VmArea?, ghost m': Weave)
    requires m.Holds(t) && i < |m.order| && m.order[i] == t
    modifies (m.nodes - {t})`left, (m.nodes - {t})`right, (m.nodes - {t})`parent
    modifies (m.nodes - {t})`prev, (m.nodes - {t})`next
    ensures m'.Holds(z) && m' == Without(m, i, m'.shape)
    ensures i > 0 ==> z == m.order[i - 1]
  {
    RootPosition(m, i);
    IncreasingRemove(m.order, i);
    ghost var u, shape := m.order[..i] + m.order[i + 1..], m.shape;
    UnlinkRoot(t, m, i, u);
    z, shape := PruneRoot(t, m, u);
    WithoutAgrees(m, i, shape);
    m' := Without(m, i, shape);
  }

  // ----- containment -----

  ghost predicate Covers(x: VmArea, a: int)
    reads x
  {
    x.start <= a < x.end
  }

  /** Disjoint areas: at most one contains an address. */
  lemma CoversOnce(s: seq<VmArea>, a: int, x: VmArea, y: VmArea)
    requires Disjoint(s) && x in s && Covers(x, a) && y in s && Covers(y, a)
    ensures x == y
  {
  }

  /** The area that contains `a` is the one where the search for `a` ends, or the one before it. */
  lemma CoversNearest(s: seq<VmArea>, i: nat, t: VmArea, a: int, x: VmArea)
    requires Disjoint(s) && Nearest(s, i, t, a) && x in s && Covers(x, a)
    ensures if t.start <= a then x == t else i > 0 && x == s[i - 1]
  {
    var k :| 0 <= k < |s| && s[k] == x;
  }

  // ----- the tree object -----

  /** An area's links before it enters a tree. */
  method InitLinks(z: VmArea)
    modifies z`parent, z`left, z`right, z`prev, z`next
    ensures z.parent == null && z.left == null && z.right == null && z.prev == null && z.next == null
  {
    z.parent, z.left, z.right, z.prev, z.next := null, null, null, null, null;
  }

  class SpTree {
    var root: VmArea?
    ghost var m: Weave

    constructor ()
      ensures Valid() && m == Weave(Leaf, [], {}) && root == null
    {
      root, m := null, Weave(Leaf, [], {});
    }

    ghost predicate Valid()
      reads this, m.nodes`left, m.nodes`right, m.nodes`parent, m.nodes`prev, m.nodes`next, m.nodes`start
    {
      m.Holds(root)
    }

    /**
      Put `z` next to `t`, the node at position `i` where the search for its start ended; `z` becomes
      the root.  `t` need not be stored as the root yet.
    */
    method InsertHelper(t: VmArea?, z: VmArea, ghost i: nat)
      requires m.Holds(t) && (root == null <==> t == null) && z !in m.nodes
      requires z.parent == null && z.left == null && z.right == null && z.prev == null && z.next == null
      requires t != null ==> Nearest(m.order, i, t, z.start) && t.start != z.start
      modifies this, m.nodes`left, m.nodes`right, m.nodes`parent, m.nodes`prev, m.nodes`next
      modifies z`left, z`right, z`parent, z`prev, z`next
      ensures Valid() && root == z && m.nodes == old(m.nodes) + {z}
      ensures var s, k := old(m.order), Slot(old(m.order), i, t, z.start); m.order == s[..k] + [z] + s[k..]
    {
      ghost var m';
      if root == null {
        m' := Weave(Node(Leaf, z, Leaf), [z], {z});
      } else if z.start < t.start {
        m' := PlantBefore(t, z, m, i);
      } else {
        assert t.start < z.start;
        m' := PlantAfter(t, z, m, i);
      }
      root, m := z, m';
    }

    /** Make `z` the only area of the empty tree. */
    method Start(z: VmArea)
      requires Valid() && root == null
      requires z.parent == null && z.left == null && z.right == null && z.prev == null && z.next == null
      modifies this
      ensures Valid() && root == z && m == Weave(Node(Leaf, z, Leaf), [z], {z}) && old(m) == Weave(Leaf, [], {})
    {
      root, m := z, Weave(Node(Leaf, z, Leaf), [z], {z});
    }

    /** Take the root `t`, at position `i`, away. */
    method RemoveHelper(t: VmArea, ghost i: nat)
      requires m.Holds(t) && i < |m.order| && m.order[i] == t
      modifies this, (m.nodes - {t})`left, (m.nodes - {t})`right, (m.nodes - {t})`parent
      modifies (m.nodes - {t})`prev, (m.nodes - {t})`next
      ensures Valid() && m.nodes == old(m.nodes) - {t}
      ensures m.order == old(m.order[..i]) + old(m.order[i + 1..])
      ensures i > 0 ==> root == old(m.order)[i - 1]
    {
      var z;
      ghost var m';
      z, m' := Uproot(t, m, i);
      root, m := z, m';
    }

    /** Insert an area whose start is not in the tree yet; it becomes the root. */
    method Insert(z: VmArea) returns (ghost k: nat)
      requires Valid() && z !in m.nodes
      requires forall x :: x in m.nodes ==> x.start != z.start
      modifies this, m.nodes`left, m.nodes`right, m.nodes`parent, m.nodes`prev, m.nodes`next
      modifies z`left, z`right, z`parent, z`prev, z`next
      ensures Valid() && root == z && m.nodes == old(m.nodes) + {z}
      ensures k <= old(|m.order|) && m.order == old(m.order[..k]) + [z] + old(m.order[k..])
    {
      InitLinks(z);
      var t: VmArea? := root;
      ghost var i := 0;
      if t != null {
        ghost var links;
        t, i, m, links := SplayFrom(z.start, t, m);
      }
      k := Slot(m.order, i, t, z.start);
      InsertHelper(t, z, i);
    }

    /** Remove the area that starts at `a`; it keeps its bounds and flags. */
    method Extract(a: int) returns (t: VmArea, ghost i: nat)
      requires Valid() && (exists x :: x in m.order && x.start == a)
      modifies this, m.nodes`left, m.nodes`right, m.nodes`parent, m.nodes`prev, m.nodes`next
      ensures Valid() && t.start == a && m.nodes == old(m.nodes) - {t}
      ensures i < old(|m.order|) && t == old(m.order)[i]
      ensures m.order == old(m.order[..i]) + old(m.order[i + 1..])
    {
      ghost var links;
      t, i, m, links := SplayFrom(a, root, m);
      assert a == t.start;
      RemoveHelper(t, i);
    }

    /** Bring the end of the search for `a` to the root. */
    method SplayRoot(a: int) returns (ghost i: nat, ghost links: nat)
      requires Valid() && root != null
      modifies this, m.nodes`left, m.nodes`right, m.nodes`parent
      ensures Valid() && m.nodes == old(m.nodes) && m.order == old(m.order)
      ensures root != null && Nearest(m.order, i, root, a)
      ensures m.shape == Splay(old(Starts(m.nodes)), a, old(m.shape))
      ensures links == Links(old(Starts(m.nodes)), a, old(m.shape))
    {
      root, i, m, links := SplayFrom(a, root, m);
    }

    /** Find the area `x` that contains `a`; only the shape of the tree changes. */
    method Find(a: int, ghost x: VmArea) returns (n: VmArea, ghost links: nat)
      requires Valid() && Disjoint(m.order) && x in m.order && Covers(x, a)
      modifies this, m.nodes`left, m.nodes`right, m.nodes`parent
      ensures Valid() && m.nodes == old(m.nodes) && m.order == old(m.order)
      ensures n == x
      ensures m.shape == Splay(old(Starts(m.nodes)), a, old(m.shape))
      ensures links == Links(old(Starts(m.nodes)), a, old(m.shape))
    {
      ghost var i;
      i, links := SplayRoot(a);
      CoversNearest(m.order, i, root, a, x);
      if root.start <= a {
        assert a < root.end;
        n := root;
      } else {
        assert root.prev.start <= a;
        assert a < root.prev.end;
        n := root.prev;
      }
    }
  }

  /** Where an area that starts at `a` goes, next to the area `t` at position `i`. */
  ghost function Slot(s: seq<VmArea>, i: nat, t: VmArea?, a: int): (k: nat)
    requires t != null ==> i < |s|
    reads t
    ensures k <= |s|
  {
    if t == null then 0 else if a < t.start then i else i + 1
  }
}
