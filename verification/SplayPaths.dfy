/**
  What a splay does to the search path.  The path is cut into steps of one or two nodes: two, if the
  search goes on in the same direction after the first, which is where the tree is rotated.  `NewDepth`
  says from the directions alone at which depth every node of the path ends up.  What hangs off the path
  stays whole, and `SplayModel` shows that the traversal stays as it is.
*/
module SplayPaths {
  import opened Basics
  import opened SplayModel

  datatype Turn = ToLeft | ToRight | Found

  ghost function TurnAt<T>(ks: map<T, int>, a: int, x: T): Turn
  {
    if a < Key(ks, x) then ToLeft else if Key(ks, x) < a then ToRight else Found
  }

  /** The nodes that a plain binary search for `a` looks at. */
  ghost function Path<T>(ks: map<T, int>, a: int, t: Tree<T>): seq<T>
  {
    match t
    case Leaf => []
    case Node(l, x, r) =>
      match TurnAt(ks, a, x)
      case ToLeft => [x] + Path(ks, a, l)
      case ToRight => [x] + Path(ks, a, r)
      case Found => [x]
  }

  ghost function Turns<T>(ks: map<T, int>, a: int, t: Tree<T>): (w: seq<Turn>)
    ensures |w| == |Path(ks, a, t)| && (|w| == 0 <==> t.Leaf?)
    ensures forall i :: 0 <= i < |w| ==> w[i] == TurnAt(ks, a, Path(ks, a, t)[i])
    ensures forall i :: 0 <= i < |w| - 1 ==> w[i] != Found
  {
    match t
    case Leaf => []
    case Node(l, x, r) =>
      match TurnAt(ks, a, x)
      case ToLeft => [ToLeft] + Turns(ks, a, l)
      case ToRight => [ToRight] + Turns(ks, a, r)
      case Found => [Found]
  }

  /** The path ends where the search ends. */
  lemma {:induction false} PathEnds<T>(ks: map<T, int>, a: int, t: Tree<T>)
    requires t.Node?
    ensures var p := Path(ks, a, t); p != [] && p[0] == t.item && p[|p| - 1] == SearchLast(ks, a, t)
  {
    if a < Key(ks, t.item) && t.left.Node? { PathEnds(ks, a, t.left); }
    if Key(ks, t.item) < a && t.right.Node? { PathEnds(ks, a, t.right); }
  }

  // ----- depths -----

  /** How many nodes the first step of a search with these turns takes. */
  ghost function Stride(w: seq<Turn>): (k: nat)
    requires |w| >= 2
    ensures 1 <= k <= 2
  {
    if w[0] == w[1] then 2 else 1
  }

  /** Where the node at position `i` of the path lies after the splay. */
  ghost function NewDepth(w: seq<Turn>, i: nat): nat
    requires i < |w|
    decreases |w|
  {
    if |w| == 1 then 0
    else if |w| == Stride(w) then 1 - i
    else if i < Stride(w) then Stride(w) - i
    else NewDepth(w[Stride(w)..], i - Stride(w)) + if i < |w| - 1 && w[i] == w[0] then 1 else 0
  }

  /** How many link steps a search with these turns takes: one for each step but the last. */
  ghost function Steps(w: seq<Turn>): nat
    decreases |w|
  {
    if |w| <= 1 || |w| == Stride(w) then 0 else 1 + Steps(w[Stride(w)..])
  }

  ghost function Depth<T>(t: Tree<T>, x: T): nat
    requires x in Items(t)
  {
    if x == t.item then 0
    else if x in Items(t.left) then 1 + Depth(t.left, x)
    else 1 + Depth(t.right, x)
  }

  ghost predicate Placed<T>(p: Parts<T>, x: T, turn: Turn, depth: nat)
  {
    match turn
    case ToLeft => x in Items(p.right) && Depth(p.right, x) + 1 == depth
    case ToRight => x in Items(p.left) && Depth(p.left, x) + 1 == depth
    case Found => false
  }

  ghost predicate AllPlaced<T>(p: Parts<T>, s: seq<T>, w: seq<Turn>)
    requires |s| == |w|
  {
    forall i :: 0 <= i < |w| - 1 ==> Placed(p, s[i], w[i], NewDepth(w, i))
  }

  lemma SplitItems<T>(ks: map<T, int>, a: int, t: Tree<T>)
    requires t.Node? && Distinct(t)
    ensures var p := Split(ks, a, t); Items(Join(p)) == Items(t) && Distinct(Join(p))
  {
    assert Splay(ks, a, t) == Join(Split(ks, a, t));
    SplayKeepsNodes(ks, a, t);
  }

  /** Hanging the right part below `y` takes its nodes one level down. */
  lemma SinksRight<T>(p: Parts<T>, y: T, q: Tree<T>, links: nat, x: T, turn: Turn, depth: nat)
    requires Distinct(Node(p.right, y, q)) && Placed(p, x, turn, depth)
    ensures Placed(Parts(p.left, p.item, Node(p.right, y, q), links), x, turn, depth + if turn == ToLeft then 1 else 0)
  {
  }

  lemma SinksLeft<T>(p: Parts<T>, y: T, q: Tree<T>, links: nat, x: T, turn: Turn, depth: nat)
    requires Distinct(Node(q, y, p.left)) && Placed(p, x, turn, depth)
    ensures Placed(Parts(Node(q, y, p.left), p.item, p.right, links), x, turn, depth + if turn == ToRight then 1 else 0)
  {
  }

  /** A search that goes on to the left: its path, and its first step, with or without a rotation. */
  lemma StepLeft<T>(ks: map<T, int>, a: int, t: Tree<T>)
    requires t.Node? && t.left.Node? && a < Key(ks, t.item)
    ensures var s, w, y := Path(ks, a, t), Turns(ks, a, t), t.left;
      && |w| >= 2 && w[0] == ToLeft && s[0] == t.item && s[1] == y.item
      && (var k, p := Stride(w), Split(ks, a, t);
          var u, b := if k == 1 then y else y.left, if k == 1 then t.item else y.item;
          var q := if k == 1 then t.right else Node(y.right, t.item, t.right);
          && s[k..] == Path(ks, a, u) && w[k..] == Turns(ks, a, u)
          && (if u.Leaf? then p == Parts(Leaf, y.item, q, 0)
              else var p' := Split(ks, a, u); p == Parts(p'.left, p'.item, Node(p'.right, b, q), p'.links + 1)))
  {
    var u := t.left;
    assert Path(ks, a, t) == [t.item] + Path(ks, a, u) && Turns(ks, a, t) == [ToLeft] + Turns(ks, a, u);
  }

  /** A search that goes on to the right: its path, and its first step, with or without a rotation. */
  lemma StepRight<T>(ks: map<T, int>, a: int, t: Tree<T>)
    requires t.Node? && t.right.Node? && Key(ks, t.item) < a
    ensures var s, w, y := Path(ks, a, t), Turns(ks, a, t), t.right;
      && |w| >= 2 && w[0] == ToRight && s[0] == t.item && s[1] == y.item
      && (var k, p := Stride(w), Split(ks, a, t);
          var u, b := if k == 1 then y else y.right, if k == 1 then t.item else y.item;
          var q := if k == 1 then t.left else Node(t.left, t.item, y.left);
          && s[k..] == Path(ks, a, u) && w[k..] == Turns(ks, a, u)
          && (if u.Leaf? then p == Parts(q, y.item, Leaf, 0)
              else var p' := Split(ks, a, u); p == Parts(Node(q, b, p'.left), p'.item, p'.right, p'.links + 1)))
  {
    var u := t.right;
    assert Path(ks, a, t) == [t.item] + Path(ks, a, u) && Turns(ks, a, t) == [ToRight] + Turns(ks, a, u);
  }

  lemma FirstDepths(w: seq<Turn>)
    requires |w| >= 2
    ensures NewDepth(w, 0) == if Stride(w) == |w| then 1 else Stride(w)
    ensures Stride(w) == 2 && |w| > 2 ==> NewDepth(w, 1) == 1
  {
  }

  lemma RootDepth<T>(b: Tree<T>)
    requires b.Node?
    ensures b.item in Items(b) && Depth(b, b.item) == 0
  {
  }

  lemma SecondDepth<T>(b: Tree<T>)
    requires b.Node? && Distinct(b)
    ensures b.left.Node? ==> b.left.item in Items(b) && Depth(b, b.left.item) == 1
    ensures b.right.Node? ==> b.right.item in Items(b) && Depth(b, b.right.item) == 1
  {
  }

  lemma FirstLeft<T>(p: Parts<T>, s: seq<T>, w: seq<Turn>)
    requires |s| == |w| >= 2 && w[0] == ToLeft && p.right.Node? && Distinct(p.right)
    requires var k, b := Stride(w), p.right;
      if k == |w| then b.item == s[0]
      else b.item == s[k - 1] && (k == 2 ==> b.right.Node? && b.right.item == s[0])
    ensures forall i :: 0 <= i < Stride(w) && i < |w| - 1 ==> Placed(p, s[i], w[i], NewDepth(w, i))
  {
    hide NewDepth;
    hide Depth;
    hide Items;
    hide Distinct;
    FirstDepths(w);
    RootDepth(p.right);
    if Stride(w) == 2 && |w| > 2 { SecondDepth(p.right); }
  }

  lemma RestLeft<T>(p: Parts<T>, b: T, q: Tree<T>, links: nat, s: seq<T>, w: seq<Turn>)
    requires |s| == |w| >= 2 && w[0] == ToLeft && Stride(w) < |w| && Distinct(Node(p.right, b, q))
    requires AllPlaced(p, s[Stride(w)..], w[Stride(w)..])
    ensures forall i :: Stride(w) <= i < |w| - 1 ==>
      Placed(Parts(p.left, p.item, Node(p.right, b, q), links), s[i], w[i], NewDepth(w, i))
  {
    var k, p' := Stride(w), Parts(p.left, p.item, Node(p.right, b, q), links);
    forall i | k <= i < |w| - 1 ensures Placed(p', s[i], w[i], NewDepth(w, i)) {
      assert s[i] == s[k..][i - k] && w[i] == w[k..][i - k];
      SinksRight(p, b, q, links, s[i], w[i], NewDepth(w[k..], i - k));
    }
  }

  lemma {:induction false} PlacedLeft<T>(ks: map<T, int>, a: int, t: Tree<T>)
    requires t.Node? && t.left.Node? && Distinct(t) && a < Key(ks, t.item)
    ensures AllPlaced(Split(ks, a, t), Path(ks, a, t), Turns(ks, a, t))
    decreases t, 0
  {
    hide Split;
    hide Path;
    hide Turns;
    hide Placed;
    var p, s, w := Split(ks, a, t), Path(ks, a, t), Turns(ks, a, t);
    StepLeft(ks, a, t);
    SplitItems(ks, a, t);
    var k := Stride(w);
    FirstLeft(p, s, w);
    var u := if k == 1 then t.left else t.left.left;
    if u.Node? {
      var p' := Split(ks, a, u);
      PathPlaced(ks, a, u);
      RestLeft(p', p.right.item, p.right.right, p.links, s, w);
    }
  }

  lemma FirstRight<T>(p: Parts<T>, s: seq<T>, w: seq<Turn>)
    requires |s| == |w| >= 2 && w[0] == ToRight && p.left.Node? && Distinct(p.left)
    requires var k, b := Stride(w), p.left;
      if k == |w| then b.item == s[0]
      else b.item == s[k - 1] && (k == 2 ==> b.left.Node? && b.left.item == s[0])
    ensures forall i :: 0 <= i < Stride(w) && i < |w| - 1 ==> Placed(p, s[i], w[i], NewDepth(w, i))
  {
    hide NewDepth;
    hide Depth;
    hide Items;
    hide Distinct;
    FirstDepths(w);
    RootDepth(p.left);
    if Stride(w) == 2 && |w| > 2 { SecondDepth(p.left); }
  }

  lemma RestRight<T>(p: Parts<T>, b: T, q: Tree<T>, links: nat, s: seq<T>, w: seq<Turn>)
    requires |s| == |w| >= 2 && w[0] == ToRight && Stride(w) < |w| && Distinct(Node(q, b, p.left))
    requires AllPlaced(p, s[Stride(w)..], w[Stride(w)..])
    ensures forall i :: Stride(w) <= i < |w| - 1 ==>
      Placed(Parts(Node(q, b, p.left), p.item, p.right, links), s[i], w[i], NewDepth(w, i))
  {
    var k, p' := Stride(w), Parts(Node(q, b, p.left), p.item, p.right, links);
    forall i | k <= i < |w| - 1 ensures Placed(p', s[i], w[i], NewDepth(w, i)) {
      assert s[i] == s[k..][i - k] && w[i] == w[k..][i - k];
      SinksLeft(p, b, q, links, s[i], w[i], NewDepth(w[k..], i - k));
    }
  }

  lemma {:induction false} PlacedRight<T>(ks: map<T, int>, a: int, t: Tree<T>)
    requires t.Node? && t.right.Node? && Distinct(t) && Key(ks, t.item) < a
    ensures AllPlaced(Split(ks, a, t), Path(ks, a, t), Turns(ks, a, t))
    decreases t, 0
  {
    hide Split;
    hide Path;
    hide Turns;
    hide Placed;
    var p, s, w := Split(ks, a, t), Path(ks, a, t), Turns(ks, a, t);
    StepRight(ks, a, t);
    SplitItems(ks, a, t);
    var k := Stride(w);
    FirstRight(p, s, w);
    var u := if k == 1 then t.right else t.right.right;
    if u.Node? {
      var p' := Split(ks, a, u);
      PathPlaced(ks, a, u);
      RestRight(p', p.left.item, p.left.left, p.links, s, w);
    }
  }

  /** Every node of the path but the last lies on its side of the new root, at the depth that the turns say. */
  lemma {:induction false} PathPlaced<T>(ks: map<T, int>, a: int, t: Tree<T>)
    requires t.Node? && Distinct(t)
    ensures AllPlaced(Split(ks, a, t), Path(ks, a, t), Turns(ks, a, t))
    decreases t, 1
  {
    if a < Key(ks, t.item) && t.left.Node? {
      PlacedLeft(ks, a, t);
    } else if Key(ks, t.item) < a && t.right.Node? {
      PlacedRight(ks, a, t);
    }
  }
  // ----- what the splay makes of the path -----

  lemma {:induction false} LastOnTop(w: seq<Turn>)
    requires w != []
    ensures NewDepth(w, |w| - 1) == 0
    decreases |w|
  {
    if |w| > 1 && Stride(w) < |w| { LastOnTop(w[Stride(w)..]); }
  }

  /** The depth of every node of the search path, after the splay. */
  lemma SplayDepths<T>(ks: map<T, int>, a: int, t: Tree<T>, i: nat)
    requires t.Node? && Distinct(t) && i < |Path(ks, a, t)|
    ensures var x, s := Path(ks, a, t)[i], Splay(ks, a, t);
      x in Items(s) && Depth(s, x) == NewDepth(Turns(ks, a, t), i)
  {
    hide Path;
    hide Turns;
    hide NewDepth;
    var p, s, w := Split(ks, a, t), Path(ks, a, t), Turns(ks, a, t);
    SplitItems(ks, a, t);
    PathPlaced(ks, a, t);
    if i == |w| - 1 {
      LastOnTop(w);
      PathEnds(ks, a, t);
      SplitIsSearch(ks, a, t);
    } else {
      assert Placed(p, s[i], w[i], NewDepth(w, i));
      DepthInSide(p, s[i], w[i], NewDepth(w, i));
    }
  }

  lemma DepthInSide<T>(p: Parts<T>, x: T, turn: Turn, depth: nat)
    requires Distinct(Join(p)) && Placed(p, x, turn, depth)
    ensures x in Items(Join(p)) && Depth(Join(p), x) == depth
  {
  }

  /** What hangs off the search path. */
  ghost function Hanging<T>(ks: map<T, int>, a: int, t: Tree<T>): set<Tree<T>>
  {
    match t
    case Leaf => {}
    case Node(l, x, r) =>
      match TurnAt(ks, a, x)
      case ToLeft => Hanging(ks, a, l) + {r}
      case ToRight => Hanging(ks, a, r) + {l}
      case Found => {l, r}
  }

  ghost function Subtrees<T>(t: Tree<T>): set<Tree<T>>
  {
    match t
    case Leaf => {t}
    case Node(l, _, r) => {t} + Subtrees(l) + Subtrees(r)
  }

  lemma Hung<T>(t: Tree<T>)
    requires t.Node?
    ensures t.left in Subtrees(t) && t.right in Subtrees(t)
    ensures Subtrees(t.left) <= Subtrees(t) && Subtrees(t.right) <= Subtrees(t)
  {
  }

  ghost predicate Stays<T>(ks: map<T, int>, a: int, t: Tree<T>)
    requires t.Node?
  {
    var p := Split(ks, a, t);
    Hanging(ks, a, t) <= Subtrees(p.left) + Subtrees(p.right)
  }

  /** What hangs off the path stays whole. */
  lemma {:induction false} HangingStays<T>(ks: map<T, int>, a: int, t: Tree<T>)
    requires t.Node?
    ensures Stays(ks, a, t)
    decreases t, 1
  {
    if a < Key(ks, t.item) && t.left.Node? {
      HangingLeft(ks, a, t);
    } else if Key(ks, t.item) < a && t.right.Node? {
      HangingRight(ks, a, t);
    }
  }

  lemma {:induction false} HangingLeft<T>(ks: map<T, int>, a: int, t: Tree<T>)
    requires t.Node? && a < Key(ks, t.item) && t.left.Node?
    ensures Stays(ks, a, t)
    decreases t, 0
  {
    var u := if Stride(Turns(ks, a, t)) == 1 then t.left else t.left.left;
    StepLeft(ks, a, t);
    Hung(Split(ks, a, t).right);
    if Split(ks, a, t).right.right.Node? { Hung(Split(ks, a, t).right.right); }
    assert Hanging(ks, a, t) == Hanging(ks, a, t.left) + {t.right};
    assert u != t.left ==> Hanging(ks, a, t.left) == Hanging(ks, a, u) + {t.left.right};
    if u.Node? { HangingStays(ks, a, u); }
  }

  lemma {:induction false} HangingRight<T>(ks: map<T, int>, a: int, t: Tree<T>)
    requires t.Node? && Key(ks, t.item) < a && t.right.Node?
    ensures Stays(ks, a, t)
    decreases t, 0
  {
    var u := if Stride(Turns(ks, a, t)) == 1 then t.right else t.right.right;
    StepRight(ks, a, t);
    Hung(Split(ks, a, t).left);
    if Split(ks, a, t).left.left.Node? { Hung(Split(ks, a, t).left.left); }
    assert Hanging(ks, a, t) == Hanging(ks, a, t.right) + {t.left};
    assert u != t.right ==> Hanging(ks, a, t.right) == Hanging(ks, a, u) + {t.right.left};
    if u.Node? { HangingStays(ks, a, u); }
  }

  // ----- the number of link steps -----

  lemma {:induction false} LinksAreSteps<T>(ks: map<T, int>, a: int, t: Tree<T>)
    ensures Links(ks, a, t) == Steps(Turns(ks, a, t))
    decreases t
  {
    if t.Node? && a < Key(ks, t.item) && t.left.Node? {
      StepLeft(ks, a, t);
      LinksAreSteps(ks, a, if Stride(Turns(ks, a, t)) == 1 then t.left else t.left.left);
    } else if t.Node? && Key(ks, t.item) < a && t.right.Node? {
      StepRight(ks, a, t);
      LinksAreSteps(ks, a, if Stride(Turns(ks, a, t)) == 1 then t.right else t.right.right);
    }
  }

  lemma {:induction false} StepsHalve(w: seq<Turn>)
    requires w != []
    ensures Steps(w) + 1 <= |w| <= 2 * Steps(w) + 2
    decreases |w|
  {
    if |w| > 1 && Stride(w) < |w| { StepsHalve(w[Stride(w)..]); }
  }

  /** The link steps of a splay are at least half as many as the nodes that the search looks at. */
  lemma LinksHalvePath<T>(ks: map<T, int>, a: int, t: Tree<T>)
    requires t.Node?
    ensures Links(ks, a, t) + 1 <= |Path(ks, a, t)| <= 2 * Links(ks, a, t) + 2
  {
    LinksAreSteps(ks, a, t);
    StepsHalve(Turns(ks, a, t));
  }

  // ----- halving -----

  /** Depths on the path are halved, up to two levels, or one for a node on the other side than the first. */
  lemma {:induction false} DepthsHalve(w: seq<Turn>, i: nat)
    requires i < |w|
    ensures NewDepth(w, i) <= i / 2 + 2
    ensures w[i] != w[0] ==> NewDepth(w, i) <= (i + 1) / 2 + 1
    decreases |w|
  {
    if |w| > 1 && Stride(w) < |w| && i >= Stride(w) {
      DepthsHalve(w[Stride(w)..], i - Stride(w));
    }
  }

  /** A node at depth d on the search path is at depth d/2 + 2 at most after the splay. */
  lemma SplayHalves<T>(ks: map<T, int>, a: int, t: Tree<T>, i: nat)
    requires t.Node? && Distinct(t) && i < |Path(ks, a, t)|
    ensures var x, s := Path(ks, a, t)[i], Splay(ks, a, t);
      x in Items(t) && Depth(t, x) == i && x in Items(s) && Depth(s, x) <= i / 2 + 2
  {
    SplayDepths(ks, a, t, i);
    DepthsHalve(Turns(ks, a, t), i);
    PathDepth(ks, a, t, i);
  }

  lemma {:induction false} PathDepth<T>(ks: map<T, int>, a: int, t: Tree<T>, i: nat)
    requires Distinct(t) && i < |Path(ks, a, t)|
    ensures var x := Path(ks, a, t)[i]; x in Items(t) && Depth(t, x) == i
    decreases t
  {
    if i > 0 {
      var u := if a < Key(ks, t.item) then t.left else t.right;
      assert Path(ks, a, t)[i] == Path(ks, a, u)[i - 1];
      PathDepth(ks, a, u, i - 1);
    }
  }

  /** A search that never turns: two nodes a step, so that every second one rises to half its depth. */
  lemma {:induction false} StraightDepths(w: seq<Turn>, i: nat)
    requires i < |w| && (forall j :: 0 <= j < |w| ==> w[j] == w[0])
    ensures Steps(w) == (|w| - 1) / 2
    ensures NewDepth(w, i) ==
      if i == |w| - 1 then 0 else if i % 2 == 1 || i == |w| - 2 then i / 2 + 1 else i / 2 + 2
    decreases |w|
  {
    if |w| > 2 { StraightDepths(w[2..], if i < 2 then 0 else i - 2); }
  }

  /** A search that turns at every node: one node a step. */
  lemma {:induction false} ZigZagDepths(w: seq<Turn>, i: nat)
    requires i < |w| && (forall j :: 0 <= j < |w| - 1 ==> w[j] != Found && w[j] != w[j + 1])
    ensures i < |w| - 1 ==> (w[i] == w[0] <==> i % 2 == 0)
    ensures Steps(w) == |w| - 1
    ensures NewDepth(w, i) == if i == |w| - 1 then 0 else i / 2 + 1
    decreases |w|
  {
    if |w| > 1 { ZigZagDepths(w[1..], if i < 1 then 0 else i - 1); }
  }
  // ----- spines -----

  ghost function LeftSpine<T>(t: Tree<T>): seq<T>
  {
    match t
    case Leaf => []
    case Node(l, x, _) => [x] + LeftSpine(l)
  }

  ghost function RightSpine<T>(t: Tree<T>): seq<T>
  {
    match t
    case Leaf => []
    case Node(_, x, r) => [x] + RightSpine(r)
  }

  lemma {:induction false} SpineItems<T>(t: Tree<T>)
    ensures forall x :: x in LeftSpine(t) ==> x in Items(t)
  {
    if t.Node? { SpineItems(t.left); }
  }

  /**
    A splay for a key below all others: of the m nodes on the left spine, m/2 are still on a left spine
    afterwards, that of the root's right subtree, and the others have been rotated off it.
  */
  lemma {:induction false} LeftSpineHalves<T>(ks: map<T, int>, a: int, t: Tree<T>) returns (kept: seq<T>, rest: seq<T>)
    requires t.Node? && Distinct(t) && (forall x :: x in LeftSpine(t) ==> a < Key(ks, x))
    ensures var s := Splay(ks, a, t); s.left.Leaf? && LeftSpine(s.right) == kept + rest
    ensures |kept| == |LeftSpine(t)| / 2 && Links(ks, a, t) == (|LeftSpine(t)| - 1) / 2
    ensures forall x :: x in kept ==> x in LeftSpine(t)
    ensures forall x :: x in rest ==> x !in LeftSpine(t) && x in Items(t)
    decreases t
  {
    var u := t.left;
    SpineItems(t.left);
    if u.Leaf? {
      kept, rest := [], LeftSpine(t.right);
      SpineItems(t.right);
    } else {
      assert u.item in LeftSpine(t);
      SpineItems(u.left);
      if u.left.Leaf? {
        kept, rest := [t.item], LeftSpine(u.right);
        SpineItems(u.right);
      } else {
        assert LeftSpine(t) == [t.item, u.item] + LeftSpine(u.left);
        kept, rest := LeftSpineHalves(ks, a, u.left);
        kept := [u.item] + kept;
      }
    }
  }

  // ----- left and right -----

  ghost function Mirror<T>(t: Tree<T>): Tree<T>
  {
    match t
    case Leaf => Leaf
    case Node(l, x, r) => Node(Mirror(r), x, Mirror(l))
  }

  ghost function Negated<T>(ks: map<T, int>): map<T, int>
  {
    map x | x in ks :: -ks[x]
  }

  /** A splay treats left and right alike. */
  lemma {:induction false} SplitMirrors<T>(ks: map<T, int>, a: int, t: Tree<T>)
    requires t.Node?
    ensures var p := Split(ks, a, t);
      Split(Negated(ks), -a, Mirror(t)) == Parts(Mirror(p.right), p.item, Mirror(p.left), p.links)
    decreases t
  {
    if a < Key(ks, t.item) && t.left.Node? {
      if a >= Key(ks, t.left.item) {
        SplitMirrors(ks, a, t.left);
      } else if t.left.left.Node? {
        SplitMirrors(ks, a, t.left.left);
      }
    } else if Key(ks, t.item) < a && t.right.Node? {
      if Key(ks, t.right.item) >= a {
        SplitMirrors(ks, a, t.right);
      } else if t.right.right.Node? {
        SplitMirrors(ks, a, t.right.right);
      }
    }
  }

  lemma {:induction false} MirrorFacts<T>(t: Tree<T>)
    ensures Items(Mirror(t)) == Items(t) && (Distinct(Mirror(t)) <==> Distinct(t))
    ensures LeftSpine(Mirror(t)) == RightSpine(t) && Mirror(Mirror(t)) == t
  {
    if t.Node? {
      MirrorFacts(t.left);
      MirrorFacts(t.right);
    }
  }

  /** The mirror image of `LeftSpineHalves`. */
  lemma RightSpineHalves<T>(ks: map<T, int>, a: int, t: Tree<T>) returns (kept: seq<T>, rest: seq<T>)
    requires t.Node? && Distinct(t) && (forall x :: x in RightSpine(t) ==> Key(ks, x) < a)
    ensures var s := Splay(ks, a, t); s.right.Leaf? && RightSpine(s.left) == kept + rest
    ensures |kept| == |RightSpine(t)| / 2 && Links(ks, a, t) == (|RightSpine(t)| - 1) / 2
    ensures forall x :: x in kept ==> x in RightSpine(t)
    ensures forall x :: x in rest ==> x !in RightSpine(t) && x in Items(t)
  {
    var p := Split(ks, a, t);
    MirrorFacts(t);
    MirrorFacts(p.left);
    MirrorFacts(p.right);
    SplitMirrors(ks, a, t);
    kept, rest := LeftSpineHalves(Negated(ks), -a, Mirror(t));
  }
}
