/** What a run of look-ups on a tree finds, and what it costs. */
module FindRuns {
  import opened Basics
  import opened SplayModel
  import opened SplayPaths
  import opened SplayCost
  import opened VmAreas
  import opened AreaLists
  import opened SplayTree
  import opened SpTrees

  /** Look up one address after the other; `xs` are the areas that contain them. */
  method FindEach(sp: SpTree, keys: seq<int>, ghost xs: seq<VmArea>) returns (ns: seq<VmArea>, ghost links: nat)
    requires sp.Valid() && Disjoint(sp.m.order) && |xs| == |keys|
    requires forall i :: 0 <= i < |xs| ==> xs[i] in sp.m.order && Covers(xs[i], keys[i])
    modifies sp, sp.m.nodes`left, sp.m.nodes`right, sp.m.nodes`parent
    ensures sp.Valid() && sp.m.nodes == old(sp.m.nodes) && sp.m.order == old(sp.m.order)
    ensures ns == xs
    ensures sp.m.shape == SplayAll(old(Starts(sp.m.nodes)), keys, old(sp.m.shape))
    ensures links == LinksAll(old(Starts(sp.m.nodes)), keys, old(sp.m.shape))
    decreases |keys|
  {
    hide SpTree.Valid;
    if keys == [] {
      ns, links := [], 0;
    } else {
      var n;
      ghost var more;
      n, links := sp.Find(keys[0], xs[0]);
      ns, more := FindEach(sp, keys[1..], xs[1..]);
      ns, links := [n] + ns, links + more;
    }
  }

  lemma RunBound<T>(ks: map<T, int>, keys: seq<int>, t: Tree<T>, n: nat, h: nat)
    requires Distinct(t) && n == |Items(t)| && (t.Node? || keys == []) && n <= Pow(2, h)
    ensures LinksAll(ks, keys, t) <= |keys| + (3 * |keys| + n) * h
    ensures LinksAll(ks, keys, t) + |keys| <= PathsAll(ks, keys, t) <= 2 * LinksAll(ks, keys, t) + 2 * |keys|
  {
    hide *;
    SizeItems(t);
    if t.Node? {
      RunCost(ks, keys, t, h);
      RunPaths(ks, keys, t);
    } else {
      NoRun(ks, t);
      MulMono(0, 3 * |keys| + n, h);
    }
  }

  lemma NoRun<T>(ks: map<T, int>, t: Tree<T>)
    ensures LinksAll(ks, [], t) == 0 && PathsAll(ks, [], t) == 0
  {
  }

  /**
    A run of look-ups finds every area that is asked for.  For m look-ups in a tree of n areas it takes at
    most m + (3m + n) * h link steps, where h bounds the binary logarithm of n, and the areas that the
    searches pass are at most twice as many as link steps and look-ups together.
  */
  method FindAll(sp: SpTree, keys: seq<int>, ghost xs: seq<VmArea>, ghost h: nat)
    returns (ns: seq<VmArea>, ghost links: nat, ghost passed: nat)
    requires sp.Valid() && Disjoint(sp.m.order) && |xs| == |keys|
    requires forall i :: 0 <= i < |xs| ==> xs[i] in sp.m.order && Covers(xs[i], keys[i])
    requires |sp.m.nodes| <= Pow(2, h)
    modifies sp, sp.m.nodes`left, sp.m.nodes`right, sp.m.nodes`parent
    ensures sp.Valid() && sp.m.nodes == old(sp.m.nodes) && sp.m.order == old(sp.m.order)
    ensures ns == xs
    ensures links == LinksAll(old(Starts(sp.m.nodes)), keys, old(sp.m.shape))
    ensures passed == PathsAll(old(Starts(sp.m.nodes)), keys, old(sp.m.shape))
    ensures links <= |keys| + (3 * |keys| + |sp.m.nodes|) * h
    ensures links + |keys| <= passed <= 2 * links + 2 * |keys|
  {
    hide *;
    ShapeFacts(sp, keys, xs);
    RunBound(Starts(sp.m.nodes), keys, sp.m.shape, |sp.m.nodes|, h);
    passed := PathsAll(Starts(sp.m.nodes), keys, sp.m.shape);
    ns, links := FindEach(sp, keys, xs);
  }

  lemma ShapeFacts(sp: SpTree, keys: seq<int>, xs: seq<VmArea>)
    requires sp.Valid() && |xs| == |keys| && (forall i :: 0 <= i < |xs| ==> xs[i] in sp.m.order)
    ensures Distinct(sp.m.shape) && sp.m.nodes == Items(sp.m.shape) && (sp.m.shape.Node? || keys == [])
  {
    if keys != [] { assert xs[0] in sp.m.order; }
  }
}
