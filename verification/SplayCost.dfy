/**
  Why splaying is fast.  The potential of a tree is the product of the sizes of all its subtrees; a
  splay that goes through many link steps pays for them by lowering the potential.  Working with
  products instead of sums of logarithms keeps everything in the integers.
*/
module SplayCost {
  import opened Basics
  import opened SplayModel
  import opened SplayPaths

  ghost function Potential<T>(t: Tree<T>): (w: nat)
    ensures w >= 1
  {
    match t
    case Leaf => 1
    case Node(l, x, r) =>
      PositiveProduct(Potential(l), Potential(r));
      PositiveProduct(Size(t), Potential(l) * Potential(r));
      Size(t) * (Potential(l) * Potential(r))
  }

  ghost function Pow(b: nat, e: nat): nat
  {
    if e == 0 then 1 else b * Pow(b, e - 1)
  }

  // ----- arithmetic -----

  lemma PositiveProduct(a: nat, b: nat)
    requires a >= 1 && b >= 1
    ensures a * b >= 1
  {
  }

  /** Two parts of a whole have a product of at most a quarter of its square. */
  lemma QuarterSquare(a: nat, b: nat, s: nat)
    requires a + b <= s
    ensures 4 * (a * b) <= s * s
  {
    var d := if a <= b then b - a else a - b;
    assert (a + b) * (a + b) == 4 * (a * b) + d * d;
    MulBoth(a + b, s, a + b, s);
  }

  /** Weighting a bound by the subtrees that a step leaves alone. */
  lemma Weigh(p: nat, g: nat, x: nat, wu: nat, w: nat)
    requires p * g <= x * wu
    ensures p * (w * g) <= x * (w * wu)
  {
    MulMono(p * g, x * wu, w);
    assert w * (p * g) == p * (w * g);
    assert w * (x * wu) == x * (w * wu);
  }

  /** `2 * p * (k * g) <= 2 * k * y * v`, and from there to any larger multiple of `v`. */
  lemma Step(p: nat, g: nat, k: nat, y: nat, v: nat, z: nat)
    requires p * g <= y * v && 2 * (k * y) <= z
    ensures 2 * p * (k * g) <= z * v
  {
    MulMono(p * g, y * v, 2 * k);
    assert 2 * k * (p * g) == 2 * p * (k * g);
    assert 2 * k * (y * v) == 2 * (k * y) * v;
    MulMono(2 * (k * y), z, v);
  }

  /**
    One iteration, in numbers.  `u` is the size of the subtree that is searched next, `s` of the whole
    tree, `b` of the side tree that the root goes to, `v` the potential of the pieces, `g` that of the
    two side trees after the rest of the search, and `p` two to the number of its iterations.
  */
  lemma RotationArithmetic(p: nat, g: nat, v: nat, u: nat, b: nat, q: nat, m: nat, s: nat)
    requires p * g <= 2 * (u * u) * v
    requires b <= s && u + q <= s && u <= m
    ensures 2 * p * (b * q * g) <= 4 * b * s * (s * m * v)
    ensures 2 * p * (b * q * g) <= 2 * (s * s) * (s * m * v)
  {
    RotationInequalities(u, b, q, m, s);
    RotationFactors(b, q, u);
    Step(p, g, b * q, 2 * (u * u), v, 4 * (b * (s * s * m)));
    Step(p, g, b * q, 2 * (u * u), v, s * s * s * m);
    Reassociate(b, s, m, v);
  }

  lemma RotationFactors(b: nat, q: nat, u: nat)
    ensures 2 * (b * q * (2 * (u * u))) == 4 * (b * (q * u * u)) == b * (4 * (q * u)) * u
  {
  }

  lemma Reassociate(b: nat, s: nat, m: nat, v: nat)
    ensures 4 * (b * (s * s * m)) * v == 4 * b * s * (s * m * v)
    ensures s * s * s * m * v <= 2 * (s * s) * (s * m * v)
  {
    MulAssociates(s * s, m, v);
    MulAssociates(s, m, v);
    MulAssociates(s, s, m * v);
    MulAssociates(b, s * s * m, v);
    MulAssociates(s * s, s * m, v);
    MulAssociates(s * s, s, m);
    var x, y := s * m * v, s * s;
    assert 4 * (b * (s * x)) == 4 * b * s * x;
    assert y * x <= 2 * y * x;
  }

  lemma MulAssociates(a: nat, b: nat, c: nat)
    ensures (a * b) * c == a * (b * c)
  {
  }

  lemma RotationInequalities(u: nat, b: nat, q: nat, m: nat, s: nat)
    requires b <= s && u + q <= s && u <= m
    ensures b * (q * u * u) <= b * (s * s * m)
    ensures b * (4 * (q * u)) * u <= s * s * s * m
  {
    FirstRotationInequality(u, b, q, m, s);
    SecondRotationInequality(u, b, q, m, s);
  }

  lemma FirstRotationInequality(u: nat, b: nat, q: nat, m: nat, s: nat)
    requires u + q <= s && u <= m
    ensures b * (q * u * u) <= b * (s * s * m)
  {
    MulBoth(q, s, u, s);
    MulBoth(q * u, s * s, u, m);
    MulMono(q * u * u, s * s * m, b);
  }

  lemma SecondRotationInequality(u: nat, b: nat, q: nat, m: nat, s: nat)
    requires b <= s && u + q <= s && u <= m
    ensures b * (4 * (q * u)) * u <= s * s * s * m
  {
    QuarterSquare(q, u, s);
    MulBoth(b, s, 4 * (q * u), s * s);
    MulBoth(b * (4 * (q * u)), s * (s * s), u, m);
    MulAssociates(s, s, s);
  }

  lemma LinkArithmetic(p: nat, g: nat, v: nat, u: nat, b: nat, s: nat)
    requires p * g <= 2 * (u * u) * v && u <= s
    ensures 2 * p * (b * g) <= 4 * b * s * (s * v)
  {
    MulBoth(u, s, u, s);
    MulMono(u * u, s * s, b);
    Step(p, g, b, 2 * (u * u), v, 4 * (b * (s * s)));
    assert 4 * (b * (s * s)) * v == 4 * b * s * (s * v);
  }

  /** A link followed by an iteration that sends its root to the other side, of size `a`. */
  lemma ZigZagArithmetic(p: nat, g: nat, v: nat, u: nat, a: nat, b: nat, s: nat)
    requires p * g <= 4 * a * u * v && u <= s && a + b <= s
    ensures 2 * p * (b * g) <= 2 * (s * s) * (s * v)
  {
    QuarterSquare(a, b, s);
    MulBoth(4 * (a * b), s * s, u, s);
    ZigZagFactors(a, b, u);
    Step(p, g, b, 4 * a * u, v, 2 * (s * s * s));
    MulAssociates(s * s, s, v);
    assert 2 * (s * s * s) * v == 2 * (s * s) * (s * v);
  }

  lemma ZigZagFactors(a: nat, b: nat, u: nat)
    ensures 2 * (b * (4 * a * u)) == 2 * (4 * (a * b) * u)
  {
  }

  /** A link that is the last one. */
  lemma LastLinkArithmetic(g: nat, v: nat, b: nat, s: nat)
    requires g <= v && b <= s && s >= 1
    ensures 2 * (b * g) <= 2 * (s * s) * (s * v)
  {
    MulBoth(1, s, s, s);
    MulBoth(b, s, g, v);
    MulBoth(1, s * s, s * v, s * v);
    assert s * s * (s * v) == (s * s) * (s * v);
  }

  // ----- one splay -----

  /** The potential of the two side trees that a splay produces. */
  ghost function After<T>(p: Parts<T>): nat
  {
    Potential(p.left) * Potential(p.right)
  }

  /** The side tree that the root is sent to. */
  ghost function RootSide<T>(ks: map<T, int>, a: int, t: Tree<T>): Tree<T>
    requires t.Node?
  {
    if a < Key(ks, t.item) then Split(ks, a, t).right else Split(ks, a, t).left
  }

  lemma SplitSizes<T>(ks: map<T, int>, a: int, t: Tree<T>)
    requires t.Node?
    ensures Size(Split(ks, a, t).left) + 1 + Size(Split(ks, a, t).right) == Size(t)
  {
    SplayKeepsNodes(ks, a, t);
  }

  lemma RotationProducts(l: nat, r: nat, b: nat, q: nat, v: nat, w: nat, s: nat, m: nat, u: nat)
    ensures l * (b * (r * (q * (v * w)))) == b * q * (v * w * (l * r))
    ensures (b * ((q * (w * v)) * l)) * r == b * q * (v * w * (l * r))
    ensures s * ((m * (u * v)) * w) == s * m * (v * w * u) == s * (w * (m * (v * u)))
  {
    var c := v * w;
    assert l * (b * (r * (q * c))) == b * q * (c * (l * r));
    assert (b * ((q * c) * l)) * r == b * q * (c * (l * r));
    assert w * v == c;
    assert (m * (u * v)) * w == m * (c * u);
    assert w * (m * (v * u)) == m * (c * u);
    MulAssociates(s, m, c * u);
  }

  /** What an iteration does to sizes and potentials, as far as the accounting is concerned. */
  datatype Account = Account(links: nat, after: nat, before: nat, size: nat, side: nat)
  {
    ghost predicate Bounded()
    {
      && (links == 0 ==> after <= before)
      && Pow(2, links) * after <= 2 * (size * size) * before
      && (links > 0 ==> Pow(2, links) * after <= 4 * side * size * before)
    }
  }

  ghost function AccountOf<T>(ks: map<T, int>, a: int, t: Tree<T>): Account
    requires t.Node?
  {
    var p := Split(ks, a, t);
    Account(p.links, After(p), Potential(t), Size(t), Size(RootSide(ks, a, t)))
  }

  lemma RotationAccount(x: Account, y: Account, q: nat, m: nat, c: nat)
    requires x.Bounded() && y.links == x.links + 1
    requires y.after == y.side * q * (c * x.after) && y.before == y.size * m * (c * x.before)
    requires y.side <= y.size && x.size + q <= y.size && x.size <= m
    ensures y.Bounded()
  {
    var p := Pow(2, x.links);
    Weigh(p, x.after, 2 * (x.size * x.size), x.before, c);
    RotationArithmetic(p, c * x.after, c * x.before, x.size, y.side, q, m, y.size);
  }

  lemma LinkAccount(x: Account, y: Account, c: nat)
    requires x.Bounded() && y.links == x.links + 1
    requires y.after == y.side * (c * x.after) && y.before == y.size * (c * x.before)
    requires x.size <= y.size && 1 <= y.size && y.side <= y.size
    requires x.links > 0 ==> x.side + y.side <= y.size
    ensures y.Bounded()
  {
    var p := Pow(2, x.links);
    Weigh(p, x.after, 2 * (x.size * x.size), x.before, c);
    LinkArithmetic(p, c * x.after, c * x.before, x.size, y.side, y.size);
    if x.links == 0 {
      MulMono(x.after, x.before, c);
      LastLinkArithmetic(c * x.after, c * x.before, y.side, y.size);
    } else {
      Weigh(p, x.after, 4 * x.side * x.size, x.before, c);
      ZigZagArithmetic(p, c * x.after, c * x.before, x.size, x.side, y.side, y.size);
    }
  }

  lemma StopAccount(y: Account)
    requires y.links == 0 && y.after <= y.before && 1 <= y.size
    ensures y.Bounded()
  {
    LastLinkArithmetic(y.after, y.before, 1, 1);
    MulBoth(1, y.size, 1, y.size);
    MulBoth(1, 2 * (y.size * y.size), y.after, y.before);
  }

  /** `RotationAccount`, with the potentials multiplied out as the two mirror images of the step have them. */
  lemma RotationCost(x: Account, y: Account, q: nat, m: nat, l: nat, r: nat, v: nat, w: nat)
    requires x.Bounded() && y.links == x.links + 1 && x.after == l * r
    requires y.after == l * (y.side * (r * (q * (v * w)))) || y.after == (y.side * ((q * (w * v)) * l)) * r
    requires y.before == y.size * ((m * (x.before * v)) * w) || y.before == y.size * (w * (m * (v * x.before)))
    requires y.side <= y.size && x.size + q <= y.size && x.size <= m
    ensures y.Bounded()
  {
    RotationProducts(l, r, y.side, q, v, w, y.size, m, x.before);
    RotationAccount(x, y, q, m, v * w);
  }

  lemma RotatesRight<T>(ks: map<T, int>, a: int, t: Tree<T>)
    requires t.Node? && t.left.Node? && t.left.left.Node?
    requires a < Key(ks, t.item) && a < Key(ks, t.left.item)
    requires AccountOf(ks, a, t.left.left).Bounded()
    ensures AccountOf(ks, a, t).Bounded()
  {
    var u, v, w := t.left.left, t.left.right, t.right;
    var p1, rot := Split(ks, a, u), Node(v, t.item, w);
    SplitSizes(ks, a, u);
    assert Potential(rot) == Size(rot) * (Potential(v) * Potential(w));
    assert Potential(t.left) == Size(t.left) * (Potential(u) * Potential(v));
    RotationCost(AccountOf(ks, a, u), AccountOf(ks, a, t), Size(rot), Size(t.left),
                 Potential(p1.left), Potential(p1.right), Potential(v), Potential(w));
  }

  lemma RotatesLeft<T>(ks: map<T, int>, a: int, t: Tree<T>)
    requires t.Node? && t.right.Node? && t.right.right.Node?
    requires Key(ks, t.item) < a && Key(ks, t.right.item) < a
    requires AccountOf(ks, a, t.right.right).Bounded()
    ensures AccountOf(ks, a, t).Bounded()
  {
    var u, v, w := t.right.right, t.right.left, t.left;
    var p1, rot := Split(ks, a, u), Node(w, t.item, v);
    SplitSizes(ks, a, u);
    assert Potential(rot) == Size(rot) * (Potential(w) * Potential(v));
    assert Potential(t.right) == Size(t.right) * (Potential(v) * Potential(u));
    RotationCost(AccountOf(ks, a, u), AccountOf(ks, a, t), Size(rot), Size(t.right),
                 Potential(p1.left), Potential(p1.right), Potential(v), Potential(w));
  }

  lemma LinkProducts(l: nat, r: nat, b: nat, w: nat, s: nat, u: nat)
    ensures l * (b * (r * w)) == b * (w * (l * r))
    ensures (b * (w * l)) * r == b * (w * (l * r))
    ensures s * (u * w) == s * (w * u)
  {
  }

  lemma LinksRight<T>(ks: map<T, int>, a: int, t: Tree<T>)
    requires t.Node? && t.left.Node? && Key(ks, t.left.item) <= a < Key(ks, t.item)
    requires AccountOf(ks, a, t.left).Bounded()
    ensures AccountOf(ks, a, t).Bounded()
  {
    var u, w := t.left, t.right;
    var p1 := Split(ks, a, u);
    SplitSizes(ks, a, u);
    LinkProducts(Potential(p1.left), Potential(p1.right), Size(Node(p1.right, t.item, w)), Potential(w),
                   Size(t), Potential(u));
    LinkAccount(AccountOf(ks, a, u), AccountOf(ks, a, t), Potential(w));
  }

  lemma LinksLeft<T>(ks: map<T, int>, a: int, t: Tree<T>)
    requires t.Node? && t.right.Node? && Key(ks, t.item) < a <= Key(ks, t.right.item)
    requires AccountOf(ks, a, t.right).Bounded()
    ensures AccountOf(ks, a, t).Bounded()
  {
    var u, w := t.right, t.left;
    var p1 := Split(ks, a, u);
    SplitSizes(ks, a, u);
    LinkProducts(Potential(p1.left), Potential(p1.right), Size(Node(w, t.item, p1.left)), Potential(w),
                   Size(t), Potential(u));
    LinkAccount(AccountOf(ks, a, u), AccountOf(ks, a, t), Potential(w));
  }

  lemma StopProducts(m: nat, s: nat, q: nat, v: nat, w: nat)
    requires 1 <= m && q <= s
    ensures q * (v * w) <= s * ((m * v) * w) && q * (w * v) <= s * (w * (m * v))
  {
    MulMono(1, m, v * w);
    MulBoth(q, s, v * w, m * (v * w));
    MulAssociates(m, v, w);
  }

  /** A splay that ends right after a rotation. */
  lemma StopsRotated<T>(ks: map<T, int>, a: int, t: Tree<T>)
    requires t.Node? && Split(ks, a, t).links == 0
    requires (a < Key(ks, t.item) && t.left.Node?) || (Key(ks, t.item) < a && t.right.Node?)
    ensures After(Split(ks, a, t)) <= Potential(t) || Split(ks, a, t) == Parts(t.left, t.item, t.right, 0)
  {
    var l, r := t.left, t.right;
    if a < Key(ks, t.item) {
      assert Potential(l) == Size(l) * Potential(l.right);
      StopProducts(Size(l), Size(t), Size(Node(l.right, t.item, r)), Potential(l.right), Potential(r));
    } else {
      assert Potential(r) == Size(r) * Potential(r.left);
      StopProducts(Size(r), Size(t), Size(Node(l, t.item, r.left)), Potential(r.left), Potential(l));
    }
  }

  /** A splay that ends without a link: at the root, or right after a rotation. */
  lemma Stops<T>(ks: map<T, int>, a: int, t: Tree<T>)
    requires t.Node? && Split(ks, a, t).links == 0
    ensures AccountOf(ks, a, t).Bounded()
  {
    var p := Split(ks, a, t);
    if p == Parts(t.left, t.item, t.right, 0) {
      MulMono(1, Size(t), After(p));
    } else {
      StopsRotated(ks, a, t);
    }
    StopAccount(AccountOf(ks, a, t));
  }

  lemma {:induction false} SplitAccount<T>(ks: map<T, int>, a: int, t: Tree<T>)
    requires t.Node?
    ensures AccountOf(ks, a, t).Bounded()
    decreases t
  {
    if Split(ks, a, t).links == 0 {
      Stops(ks, a, t);
    } else if a < Key(ks, t.item) {
      if a < Key(ks, t.left.item) {
        SplitAccount(ks, a, t.left.left);
        RotatesRight(ks, a, t);
      } else {
        SplitAccount(ks, a, t.left);
        LinksRight(ks, a, t);
      }
    } else {
      if Key(ks, t.right.item) < a {
        SplitAccount(ks, a, t.right.right);
        RotatesLeft(ks, a, t);
      } else {
        SplitAccount(ks, a, t.right);
        LinksLeft(ks, a, t);
      }
    }
  }

  /**
    The cost of one splay: two to the number of link steps is paid for by a drop in potential, up to
    a factor that is cubic in the number of nodes.
  */
  lemma SplayPotential<T>(ks: map<T, int>, a: int, t: Tree<T>)
    requires t.Node?
    ensures Pow(2, Links(ks, a, t)) * Potential(Splay(ks, a, t)) <= 2 * Pow(Size(t), 3) * Potential(t)
  {
    SplitAccount(ks, a, t);
    SplayKeepsNodes(ks, a, t);
    var n, p, g := Size(t), Pow(2, Links(ks, a, t)), After(Split(ks, a, t));
    PowThree(n);
    Rooted(p, g, n, Potential(t));
  }

  lemma Rooted(p: nat, g: nat, n: nat, w: nat)
    requires p * g <= 2 * (n * n) * w
    ensures p * (n * g) <= 2 * (n * (n * n)) * w
  {
    MulMono(p * g, 2 * (n * n) * w, n);
    assert n * (p * g) == p * (n * g);
    assert n * (2 * (n * n) * w) == 2 * (n * (n * n)) * w;
  }

  lemma PowThree(n: nat)
    ensures Pow(n, 3) == n * (n * n)
  {
    assert Pow(n, 1) == n && Pow(n, 2) == n * Pow(n, 1);
  }

  // ----- runs -----

  ghost function SplayAll<T>(ks: map<T, int>, keys: seq<int>, t: Tree<T>): Tree<T>
  {
    if keys == [] then t else SplayAll(ks, keys[1..], Splay(ks, keys[0], t))
  }

  ghost function LinksAll<T>(ks: map<T, int>, keys: seq<int>, t: Tree<T>): nat
  {
    if keys == [] then 0 else Links(ks, keys[0], t) + LinksAll(ks, keys[1..], Splay(ks, keys[0], t))
  }

  /** How many nodes the searches of a run look at. */
  ghost function PathsAll<T>(ks: map<T, int>, keys: seq<int>, t: Tree<T>): nat
  {
    if keys == [] then 0 else |Path(ks, keys[0], t)| + PathsAll(ks, keys[1..], Splay(ks, keys[0], t))
  }

  /** A run is its first part and then the rest, and a run of one key is one splay. */
  lemma {:induction false} RunsAdd<T>(ks: map<T, int>, keys: seq<int>, more: seq<int>, t: Tree<T>)
    ensures SplayAll(ks, keys + more, t) == SplayAll(ks, more, SplayAll(ks, keys, t))
    ensures LinksAll(ks, keys + more, t) == LinksAll(ks, keys, t) + LinksAll(ks, more, SplayAll(ks, keys, t))
    ensures PathsAll(ks, keys + more, t) == PathsAll(ks, keys, t) + PathsAll(ks, more, SplayAll(ks, keys, t))
    ensures |keys| == 1 ==>
      && SplayAll(ks, keys, t) == Splay(ks, keys[0], t) && LinksAll(ks, keys, t) == Links(ks, keys[0], t)
      && PathsAll(ks, keys, t) == |Path(ks, keys[0], t)|
    decreases keys
  {
    if keys == [] {
      assert keys + more == more;
    } else {
      assert (keys + more)[0] == keys[0] && (keys + more)[1..] == keys[1..] + more;
      RunsAdd(ks, keys[1..], more, Splay(ks, keys[0], t));
    }
  }

  /** Over a run, the link steps are at least half as many as the nodes that the searches look at. */
  lemma {:induction false} RunPaths<T>(ks: map<T, int>, keys: seq<int>, t: Tree<T>)
    requires t.Node?
    ensures LinksAll(ks, keys, t) + |keys| <= PathsAll(ks, keys, t) <= 2 * LinksAll(ks, keys, t) + 2 * |keys|
    decreases keys
  {
    if keys != [] {
      LinksHalvePath(ks, keys[0], t);
      RunPaths(ks, keys[1..], Splay(ks, keys[0], t));
    }
  }

  lemma {:induction false} PowAdd(b: nat, e: nat, f: nat)
    ensures Pow(b, e + f) == Pow(b, e) * Pow(b, f)
  {
    if e > 0 {
      PowAdd(b, e - 1, f);
      MulAssociates(b, Pow(b, e - 1), Pow(b, f));
    }
  }

  lemma {:induction false} PowMono(b: nat, c: nat, e: nat)
    requires b <= c
    ensures Pow(b, e) <= Pow(c, e)
  {
    if e > 0 {
      PowMono(b, c, e - 1);
      MulBoth(b, c, Pow(b, e - 1), Pow(c, e - 1));
    }
  }

  lemma {:induction false} PowPow(b: nat, e: nat, f: nat)
    ensures Pow(Pow(b, e), f) == Pow(b, e * f)
  {
    if f > 0 {
      PowPow(b, e, f - 1);
      PowAdd(b, e, e * (f - 1));
      assert e + e * (f - 1) == e * f;
    }
  }

  /** Powers of two compare like their exponents. */
  lemma {:induction false} PowOrder(e: nat, f: nat)
    requires Pow(2, e) <= Pow(2, f)
    ensures e <= f
  {
    if e > f {
      PowAdd(2, e - f, f);
      PowAtLeast(2, f);
      PowAtLeast(2, e - f - 1);
      MulMono(2, Pow(2, e - f), Pow(2, f));
      assert false;
    }
  }

  lemma {:induction false} PowAtLeast(b: nat, e: nat)
    requires b >= 1
    ensures Pow(b, e) >= 1
  {
    if e > 0 {
      PowAtLeast(b, e - 1);
      PositiveProduct(b, Pow(b, e - 1));
    }
  }

  lemma {:induction false} PotentialBound<T>(t: Tree<T>, n: nat)
    requires Size(t) <= n
    ensures Potential(t) <= Pow(n, Size(t))
  {
    if t.Node? {
      PotentialBound(t.left, n);
      PotentialBound(t.right, n);
      MulBoth(Potential(t.left), Pow(n, Size(t.left)), Potential(t.right), Pow(n, Size(t.right)));
      PowAdd(n, Size(t.left), Size(t.right));
      MulBoth(Size(t), n, Potential(t.left) * Potential(t.right), Pow(n, Size(t.left) + Size(t.right)));
    }
  }

  lemma {:induction false} RunPotential<T>(ks: map<T, int>, keys: seq<int>, t: Tree<T>)
    requires t.Node?
    ensures Pow(2, LinksAll(ks, keys, t)) * Potential(SplayAll(ks, keys, t))
         <= Pow(2 * Pow(Size(t), 3), |keys|) * Potential(t)
    decreases keys
  {
    if keys != [] {
      var t1, k := Splay(ks, keys[0], t), 2 * Pow(Size(t), 3);
      var l0, l1 := Links(ks, keys[0], t), LinksAll(ks, keys[1..], t1);
      SplayKeepsNodes(ks, keys[0], t);
      SplayPotential(ks, keys[0], t);
      RunPotential(ks, keys[1..], t1);
      RunStep(Pow(2, l0), Pow(2, l1), Potential(SplayAll(ks, keys, t)), Potential(t1), Potential(t),
              k, Pow(k, |keys| - 1));
      PowAdd(2, l0, l1);
    }
  }

  lemma RunStep(p0: nat, p1: nat, w2: nat, w1: nat, w0: nat, k: nat, ks: nat)
    requires p1 * w2 <= ks * w1 && p0 * w1 <= k * w0
    ensures p0 * p1 * w2 <= k * ks * w0
  {
    MulMono(p1 * w2, ks * w1, p0);
    MulMono(p0 * w1, k * w0, ks);
    assert p0 * p1 * w2 == p0 * (p1 * w2);
    assert p0 * (ks * w1) == ks * (p0 * w1);
    assert ks * (k * w0) == k * ks * w0;
  }

  /** What a run of `m` splays on `n` nodes may cost when the logarithm of `n` is at most `h`. */
  ghost function Budget(m: nat, n: nat, h: nat): nat
  {
    m + (3 * m + n) * h
  }

  /**
    Amortised logarithmic cost.  Any run of m splays on a tree of n nodes, whatever its shape and
    whatever the keys, takes at most m + (3m + n) * h link steps, where h is any bound on the binary
    logarithm of n.
  */
  lemma RunCost<T>(ks: map<T, int>, keys: seq<int>, t: Tree<T>, h: nat)
    requires t.Node? && Size(t) <= Pow(2, h)
    ensures LinksAll(ks, keys, t) <= |keys| + (3 * |keys| + Size(t)) * h
  {
    var total, after := LinksAll(ks, keys, t), Potential(SplayAll(ks, keys, t));
    RunPotential(ks, keys, t);
    RunBudget(t, |keys|, h);
    MulMono(1, after, Pow(2, total));
    PowOrder(total, Budget(|keys|, Size(t), h));
  }

  /** Amortised logarithmic cost of the searches: the nodes that they look at, over the whole run. */
  lemma RunSearchCost<T>(ks: map<T, int>, keys: seq<int>, t: Tree<T>, h: nat)
    requires t.Node? && Size(t) <= Pow(2, h)
    ensures PathsAll(ks, keys, t) <= 4 * |keys| + 2 * ((3 * |keys| + Size(t)) * h)
  {
    RunCost(ks, keys, t, h);
    RunPaths(ks, keys, t);
  }

  lemma RunBudget<T>(t: Tree<T>, m: nat, h: nat)
    requires Size(t) <= Pow(2, h)
    ensures Pow(2 * Pow(Size(t), 3), m) * Potential(t) <= Pow(2, Budget(m, Size(t), h))
  {
    var n := Size(t);
    Exponents(m, n, h);
    PowAdd(2, (1 + 3 * h) * m, h * n);
    FactorBound(n, m, h);
    PotentialBound(t, Pow(2, h));
    PowPow(2, h, n);
    MulBoth(Pow(2 * Pow(n, 3), m), Pow(2, (1 + 3 * h) * m), Potential(t), Pow(2, h * n));
  }

  lemma Exponents(m: nat, n: nat, h: nat)
    ensures (1 + 3 * h) * m + h * n == Budget(m, n, h)
  {
  }

  lemma FactorBound(n: nat, m: nat, h: nat)
    requires n <= Pow(2, h)
    ensures Pow(2 * Pow(n, 3), m) <= Pow(2, (1 + 3 * h) * m)
  {
    CubeBound(n, h);
    PowMono(2 * Pow(n, 3), Pow(2, 1 + 3 * h), m);
    PowPow(2, 1 + 3 * h, m);
  }

  lemma CubeBound(n: nat, h: nat)
    requires n <= Pow(2, h)
    ensures 2 * Pow(n, 3) <= Pow(2, 1 + 3 * h)
  {
    PowMono(n, Pow(2, h), 3);
    PowPow(2, h, 3);
  }
}
