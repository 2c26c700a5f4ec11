/** Runs of faults on one tree, by any number of threads, and the whole life of a tree. */
module FaultRuns {
  import opened Basics
  import opened Protection
  import opened SplayModel
  import opened Intervals
  import opened VmAreas
  import opened AreaLists
  import opened SpTrees
  import opened VmaAlloc
  import opened Owners
  import opened TreeViews
  import AllocModel
  import Allocators
  import FindMods
  import TreeRemoval

  // ----- stories that grow -----

  /** For every node of the tree, the pool of the thread that owns the block it lies in. */
  ghost function Hands(sp: SpTree, alloc: Allocators.Allocator): map<VmArea, Option<MPool>>
    reads sp, alloc
  {
    map x | x in sp.m.nodes :: OwnerOf(alloc.st, x)
  }

  /** The areas that stay keep their owners, and the new ones have the owner `p`. */
  ghost predicate Passes(h: map<VmArea, Option<MPool>>, h': map<VmArea, Option<MPool>>, p: MPool)
  {
    forall x :: x in h' ==> h'[x] == if x in h then h[x] else Some(p)
  }

  /**
    A run so far: which pages were faulted, by the threads with which pools, and what the tree showed and
    whose areas it had before the first fault and after each.
  */
  datatype Story = Story(faults: seq<int>, pools: seq<MPool>,
                         views: seq<seq<Interval>>, hands: seq<map<VmArea, Option<MPool>>>)
  {
    /** Each fault changes the intervals as it should, and adds only areas of the thread that met it. */
    ghost predicate Told(page: int)
    {
      && |pools| == |faults| && |hands| == |views| && IsTrace(views, faults, page)
      && (forall i :: 0 <= i < |views| ==> |hands[i]| == |views[i]|)
      && (forall i :: 0 <= i < |pools| ==> Passes(hands[i], hands[i + 1], pools[i]))
    }

    /** The story ends with what the tree shows and has. */
    ghost predicate Now(sp: SpTree, alloc: Allocators.Allocator)
      reads sp, alloc, sp.m.order`start, sp.m.order`end, sp.m.order`flags
    {
      && |views| == |hands| == |faults| + 1
      && views[|faults|] == View(sp.m.order) && hands[|faults|] == Hands(sp, alloc)
    }

    ghost function Then(a: int, p: MPool, v: seq<Interval>, h: map<VmArea, Option<MPool>>): Story
    {
      Story(faults + [a], pools + [p], views + [v], hands + [h])
    }
  }

  lemma TraceEnd(trace: seq<seq<Interval>>, faults: seq<int>, page: int)
    requires page > 0 && Allowed(faults, page) && IsTrace(trace, faults, page)
    ensures var v := trace[|faults|];
      && v == Run(faults, page) && Canonical(v, page)
      && (forall b :: b % page == 0 ==> Lookup(v, b) == FlagsAfter(Count(faults, b)))
  {
    assert faults[..|faults|] == faults;
    TraceRefines(trace, faults, page, |faults|);
  }

  lemma NextEnabled(done: seq<int>, a: int, page: int)
    requires page > 0 && Allowed(done + [a], page)
    ensures Allowed(done, page) && WellFormed(Run(done, page), page) && a % page == 0
    ensures Lookup(Run(done, page), a) != Some(WRITE)
  {
    var faults := done + [a];
    assert faults[..|done|] == done && faults[|done|] == a;
    RunEnabled(faults, page, |done|);
    AllowedEarly(faults, page, |done|);
  }

  lemma TraceStep(trace: seq<seq<Interval>>, done: seq<int>, a: int, v: seq<Interval>, page: int)
    requires IsTrace(trace, done, page) && v == Fault(trace[|done|], page, a)
    ensures IsTrace(trace + [v], done + [a], page) && |trace| == |done| + 1
  {
    hide Fault;
  }

  lemma AnyOrder(faults: seq<int>, page: int)
    requires page > 0 && Allowed(faults, page)
    ensures forall g :: multiset(g) == multiset(faults) ==> Run(g, page) == Run(faults, page)
  {
    forall g | multiset(g) == multiset(faults) ensures Run(g, page) == Run(faults, page) {
      RunOrderIndependent(faults, g, page);
    }
  }

  lemma StoryThen(story: Story, a: int, p: MPool, v: seq<Interval>, h: map<VmArea, Option<MPool>>, page: int)
    requires story.Told(page) && v == Fault(story.views[|story.faults|], page, a) && |h| == |v|
    requires Passes(story.hands[|story.faults|], h, p)
    ensures story.Then(a, p, v, h).Told(page)
  {
    hide Fault;
    hide Passes;
    TraceStep(story.views, story.faults, a, v, page);
    var s, n := story.Then(a, p, v, h), |story.faults|;
    assert forall i :: 0 <= i <= n ==> s.hands[i] == story.hands[i];
    assert forall i :: 0 <= i < n ==> s.pools[i] == story.pools[i];
  }

  lemma StoryEnd(story: Story, sp: SpTree, alloc: Allocators.Allocator, page: int)
    requires page > 0 && story.Told(page) && story.Now(sp, alloc) && Allowed(story.faults, page)
    ensures var v := View(sp.m.order);
      && v == Run(story.faults, page) && Canonical(v, page)
      && (forall b :: b % page == 0 ==> Lookup(v, b) == FlagsAfter(Count(story.faults, b)))
  {
    TraceEnd(story.views, story.faults, page);
  }

  lemma AsManyHands(sp: SpTree, alloc: Allocators.Allocator)
    requires sp.Valid()
    ensures |Hands(sp, alloc)| == |View(sp.m.order)|
  {
    assert Hands(sp, alloc).Keys == sp.m.nodes;
    InorderItems(sp.m.shape);
    SizeItems(sp.m.shape);
  }

  lemma HandedPasses(st: St, nodes: set<VmArea>, sp: SpTree, alloc: Allocators.Allocator,
                     h: map<VmArea, Option<MPool>>, p: MPool)
    requires HandedOn(st, nodes, alloc.st, sp.m.nodes, Some(p)) && h == map x | x in nodes :: OwnerOf(st, x)
    ensures Passes(h, Hands(sp, alloc), p)
  {
  }

  lemma StoryLast(story: Story, sp: SpTree, alloc: Allocators.Allocator)
    requires story.Now(sp, alloc)
    ensures var n := |story.faults|;
      && |story.views| == |story.hands| == n + 1 && story.views[n] == View(sp.m.order)
      && story.hands[n] == map x | x in sp.m.nodes :: OwnerOf(alloc.st, x)
  {
  }

  lemma StoryNow(story: Story, a: int, p: MPool, sp: SpTree, alloc: Allocators.Allocator)
    requires |story.views| == |story.hands| == |story.faults| + 1
    ensures story.Then(a, p, View(sp.m.order), Hands(sp, alloc)).Now(sp, alloc)
  {
    hide View;
    hide Hands;
  }

  /** A page that has not been faulted yet is absent. */
  lemma FirstTime(done: seq<int>, a: int, v: seq<Interval>, page: int)
    requires page > 0 && a % page == 0
    requires forall b :: b % page == 0 ==> Lookup(v, b) == FlagsAfter(Count(done, b))
    ensures a !in done ==> Lookup(v, a) == None
  {
  }

  // ----- a run on a tree -----

  /** `FindMod` by one of several threads: the pools of all of them stay fit for use. */
  method FaultAmong(sp: SpTree, page: int, a: int, alloc: Allocators.Allocator, pool: MPool,
                    ghost callers: set<MPool>, ghost others: set<VmArea>)
    returns (n: VmArea)
    requires page > 0 && WellFormed(View(sp.m.order), page) && a % page == 0
    requires Lookup(View(sp.m.order), a) != Some(WRITE)
    requires sp.Valid() && alloc.Valid() && Owned(alloc, sp.m.nodes, others)
    requires pool in callers && forall q :: q in callers ==> Allocators.Known(alloc.st, q)
    modifies sp, sp.m.nodes, alloc, pool, FreeAreas(alloc.st)
    modifies alloc.st.supers.Keys, alloc.st.blocks.Keys, alloc.st.pools.Keys`head
    ensures sp.Valid() && View(sp.m.order) == Fault(old(View(sp.m.order)), page, a)
    ensures n in sp.m.order && n.start <= a && a + page <= n.end
    ensures alloc.Valid() && Owned(alloc, sp.m.nodes, others)
    ensures forall q :: q in callers ==> Allocators.Known(alloc.st, q)
    ensures Grown(sp, alloc, pool) && GrownBy(sp, alloc, callers)
    ensures HandedOn(old(alloc.st), old(sp.m.nodes), alloc.st, sp.m.nodes, Some(pool))
    ensures Lookup(old(View(sp.m.order)), a) == None ==> pool in alloc.st.pools
  {
    hide Allocators.Sound;
    hide SpTree.Valid;
    hide Owned;
    hide HandedOn;
    hide Areas;
    hide FreeAreas;
    hide Fault;
    hide Lookup;
    hide WellFormed;
    n := FindMods.FindMod(sp, page, a, alloc, pool, others);
  }

  /** One more fault: the tree goes on telling its story. */
  method FaultNext(sp: SpTree, alloc: Allocators.Allocator, pool: MPool, a: int, page: int,
                   ghost callers: set<MPool>, ghost story: Story, ghost others: set<VmArea>)
    returns (n: VmArea, ghost story': Story)
    requires page > 0 && story.Told(page) && story.Now(sp, alloc) && Allowed(story.faults + [a], page)
    requires sp.Valid() && alloc.Valid() && Owned(alloc, sp.m.nodes, others)
    requires pool in callers && forall q :: q in callers ==> Allocators.Known(alloc.st, q)
    modifies sp, sp.m.nodes, alloc, pool, FreeAreas(alloc.st)
    modifies alloc.st.supers.Keys, alloc.st.blocks.Keys, alloc.st.pools.Keys`head
    ensures story' == story.Then(a, pool, View(sp.m.order), Hands(sp, alloc))
    ensures story'.Told(page) && story'.Now(sp, alloc)
    ensures sp.Valid() && n in sp.m.order && n.start <= a && a + page <= n.end
    ensures alloc.Valid() && Owned(alloc, sp.m.nodes, others)
    ensures forall q :: q in callers ==> Allocators.Known(alloc.st, q)
    ensures GrownBy(sp, alloc, callers) && (a !in story.faults ==> pool in alloc.st.pools)
  {
    hide *;
    NextEnabled(story.faults, a, page);
    StoryEnd(story, sp, alloc, page);
    FirstTime(story.faults, a, View(sp.m.order), page);
    StoryLast(story, sp, alloc);
    ghost var st, nodes := alloc.st, sp.m.nodes;
    n := FaultAmong(sp, page, a, alloc, pool, callers, others);
    HandedPasses(st, nodes, sp, alloc, story.hands[|story.faults|], pool);
    AsManyHands(sp, alloc);
    StoryThen(story, a, pool, View(sp.m.order), Hands(sp, alloc), page);
    story' := story.Then(a, pool, View(sp.m.order), Hands(sp, alloc));
    StoryNow(story, a, pool, sp, alloc);
  }

  lemma FirstFirst(before: seq<int>, faults: seq<int>, page: int)
    requires page > 0 && Allowed(before + faults, page) && faults != []
    ensures Allowed(before + [faults[0]], page) && before + [faults[0]] + faults[1..] == before + faults
  {
    var all := before + faults;
    assert all[..|before| + 1] == before + [faults[0]];
    AllowedEarly(all, page, |before| + 1);
  }

  /** The threads that met a page first have pools with blocks. */
  ghost predicate Served(before: seq<int>, faults: seq<int>, pools: seq<MPool>, known: set<MPool>)
    requires |pools| == |faults|
  {
    forall i :: 0 <= i < |faults| && faults[i] !in before + faults[..i] ==> pools[i] in known
  }

  lemma ServedFirst(before: seq<int>, faults: seq<int>, pools: seq<MPool>, known: set<MPool>)
    requires |pools| == |faults| && faults != [] && (faults[0] !in before ==> pools[0] in known)
    requires Served(before + [faults[0]], faults[1..], pools[1..], known)
    ensures Served(before, faults, pools, known)
  {
    forall i | 0 <= i < |faults| && faults[i] !in before + faults[..i] ensures pools[i] in known {
      if i > 0 {
        assert before + faults[..i] == before + [faults[0]] + faults[1..][..i - 1];
        assert faults[1..][i - 1] == faults[i] && pools[1..][i - 1] == pools[i];
      }
    }
  }

  /**
    Every fault of `faults`, one after the other, each by the thread whose pool is at its position; the
    tree goes on telling its story.
  */
  method FaultEach(sp: SpTree, alloc: Allocators.Allocator, pools: seq<MPool>, faults: seq<int>, page: int,
                   ghost callers: set<MPool>, ghost story: Story, ghost others: set<VmArea>)
    returns (ghost story': Story)
    requires page > 0 && |pools| == |faults| && Allowed(story.faults + faults, page)
    requires story.Told(page) && story.Now(sp, alloc)
    requires sp.Valid() && alloc.Valid() && Owned(alloc, sp.m.nodes, others)
    requires forall q :: q in pools ==> q in callers
    requires forall q :: q in callers ==> Allocators.Known(alloc.st, q)
    modifies sp, sp.m.nodes, alloc, callers, FreeAreas(alloc.st)
    modifies alloc.st.supers.Keys, alloc.st.blocks.Keys, alloc.st.pools.Keys`head
    ensures story'.faults == story.faults + faults && story'.pools == story.pools + pools
    ensures story.views <= story'.views && story.hands <= story'.hands
    ensures story'.Told(page) && story'.Now(sp, alloc)
    ensures Served(story.faults, faults, pools, alloc.st.pools.Keys)
    ensures sp.Valid() && alloc.Valid() && Owned(alloc, sp.m.nodes, others)
    ensures forall q :: q in callers ==> Allocators.Known(alloc.st, q)
    ensures GrownBy(sp, alloc, callers)
    decreases |faults|
  {
    hide Allocators.Sound;
    hide Allocators.Known;
    hide SpTree.Valid;
    hide Owned;
    hide FreeAreas;
    hide View;
    hide Hands;
    hide Allowed;
    hide Story.Told;
    hide Story.Now;
    hide Served;
    if faults == [] {
      story' := story;
      NoneServed(story.faults, faults, pools, alloc.st.pools.Keys);
    } else {
      FirstFirst(story.faults, faults, page);
      var n;
      ghost var now;
      n, now := FaultNext(sp, alloc, pools[0], faults[0], page, callers, story, others);
      assert sp.m.nodes <= Areas(sp, alloc) && FreeAreas(alloc.st) <= Areas(sp, alloc);
      story' := FaultEach(sp, alloc, pools[1..], faults[1..], page, callers, now, others);
      ServedFirst(story.faults, faults, pools, alloc.st.pools.Keys);
    }
  }

  lemma NoneServed(before: seq<int>, faults: seq<int>, pools: seq<MPool>, known: set<MPool>)
    requires |pools| == |faults| && faults == []
    ensures Served(before, faults, pools, known)
  {
  }

  /** The story of an empty tree. */
  lemma NoStory(sp: SpTree, alloc: Allocators.Allocator, page: int)
    requires sp.Valid() && sp.root == null
    ensures var story := Story([], [], [[]], [map[]]); story.Told(page) && story.Now(sp, alloc)
  {
    assert Hands(sp, alloc) == map[];
  }

  lemma Fewest(v: seq<Interval>, page: int)
    requires page > 0 && Canonical(v, page)
    ensures forall t :: WellFormed(t, page) && SameMap(v, t, page) ==> |v| <= |t|
  {
    forall t | WellFormed(t, page) && SameMap(v, t, page) ensures |v| <= |t| { CanonicalShortest(v, t, page); }
  }

  /**
    A run from the empty tree.  Each page of the tree has the flags that its own faults lead to, whatever
    their order was, and the tree has as few areas as a tree with these pages can have.
  */
  method FaultAll(sp: SpTree, alloc: Allocators.Allocator, pools: seq<MPool>, faults: seq<int>, page: int,
                  ghost callers: set<MPool>, ghost others: set<VmArea>)
    returns (ghost story: Story)
    requires page > 0 && |pools| == |faults| && Allowed(faults, page)
    requires sp.Valid() && sp.root == null && alloc.Valid() && Owned(alloc, sp.m.nodes, others)
    requires forall q :: q in pools ==> q in callers
    requires forall q :: q in callers ==> Allocators.Known(alloc.st, q)
    modifies sp, sp.m.nodes, alloc, callers, FreeAreas(alloc.st)
    modifies alloc.st.supers.Keys, alloc.st.blocks.Keys, alloc.st.pools.Keys`head
    ensures story.Told(page) && story.Now(sp, alloc) && story.faults == faults && story.pools == pools
    ensures Served([], faults, pools, alloc.st.pools.Keys)
    ensures sp.Valid() && View(sp.m.order) == Run(faults, page) && Canonical(View(sp.m.order), page)
    ensures forall b :: b % page == 0 ==> Lookup(View(sp.m.order), b) == FlagsAfter(Count(faults, b))
    ensures forall g :: multiset(g) == multiset(faults) ==> View(sp.m.order) == Run(g, page)
    ensures forall t :: WellFormed(t, page) && SameMap(View(sp.m.order), t, page) ==> |View(sp.m.order)| <= |t|
    ensures alloc.Valid() && Owned(alloc, sp.m.nodes, others)
    ensures forall q :: q in callers ==> Allocators.Known(alloc.st, q)
    ensures GrownBy(sp, alloc, callers)
  {
    hide *;
    NoStory(sp, alloc, page);
    assert [] + faults == faults && [] + pools == pools;
    story := FaultEach(sp, alloc, pools, faults, page, callers, Story([], [], [[]], [map[]]), others);
    StoryEnd(story, sp, alloc, page);
    AnyOrder(faults, page);
    Fewest(View(sp.m.order), page);
  }

  // ----- the life of a tree -----

  lemma NothingHeld(alloc: Allocators.Allocator)
    requires alloc.Valid() && alloc.st.live == {}
    ensures alloc.st.supers == map[] && alloc.st.blocks == map[] && alloc.st.areas == map[]
    ensures forall p :: p in alloc.st.pools ==> alloc.st.pools[p] == []
  {
    AllocModel.NothingLeft(alloc.st, alloc.caps);
  }

  method NewTree(alloc: Allocators.Allocator) returns (sp: SpTree)
    requires alloc.Valid()
    ensures fresh(sp) && sp.Valid() && sp.root == null && sp.m.nodes == {}
    ensures alloc.Valid() && Owned(alloc, sp.m.nodes, alloc.st.live)
  {
    hide Allocators.Sound;
    assert FreeAreas(alloc.st) !! alloc.st.live;
    sp := new SpTree();
    assert alloc.Valid() == old(alloc.Valid());
  }

  /** An empty tree meets its faults, and is freed. */
  method FaultAndFree(sp: SpTree, alloc: Allocators.Allocator, pools: seq<MPool>, faults: seq<int>, page: int,
                      ghost callers: set<MPool>, ghost others: set<VmArea>)
    requires page > 0 && |pools| == |faults| && Allowed(faults, page)
    requires sp.Valid() && sp.root == null && sp.m.nodes == {}
    requires alloc.Valid() && Owned(alloc, sp.m.nodes, others)
    requires forall q :: q in pools ==> q in callers
    requires forall q :: q in callers ==> Allocators.Known(alloc.st, q)
    modifies sp, alloc, callers, FreeAreas(alloc.st)
    modifies alloc.st.supers.Keys, alloc.st.blocks.Keys, alloc.st.pools.Keys`head
    ensures sp.m.nodes == {} && alloc.Valid() && alloc.st.live == others
    ensures GrownBy(sp, alloc, callers) && Served([], faults, pools, alloc.st.pools.Keys)
    ensures forall q :: q in callers ==> Allocators.Known(alloc.st, q)
  {
    hide Allocators.Sound;
    hide SpTree.Valid;
    hide FreeAreas;
    hide View;
    hide Canonical;
    hide SameMap;
    hide WellFormed;
    hide Lookup;
    hide Run;
    hide Story.Told;
    hide Story.Now;
    hide Served;
    hide Handed;
    hide Owned;
    hide Allowed;
    ghost var story := FaultAll(sp, alloc, pools, faults, page, callers, others);
    assert sp.m.nodes <= Areas(sp, alloc);
    ghost var freed := TreeRemoval.FreeTree(sp, alloc, others);
  }

  /** A tree is made, meets its faults, and is freed: the allocator has the areas in use that it had before. */
  method Lifetime(alloc: Allocators.Allocator, pools: seq<MPool>, faults: seq<int>, page: int,
                  ghost callers: set<MPool>)
    requires page > 0 && |pools| == |faults| && Allowed(faults, page) && alloc.Valid()
    requires forall q :: q in pools ==> q in callers
    requires forall q :: q in callers ==> Allocators.Known(alloc.st, q)
    modifies alloc, callers, FreeAreas(alloc.st)
    modifies alloc.st.supers.Keys, alloc.st.blocks.Keys, alloc.st.pools.Keys`head
    ensures alloc.Valid() && alloc.st.live == old(alloc.st.live)
    ensures alloc.st.live == {} ==> alloc.st.supers == map[] && alloc.st.blocks == map[] && alloc.st.areas == map[]
    ensures forall x :: x in FreeAreas(alloc.st) && x !in old(FreeAreas(alloc.st)) ==> fresh(x)
    ensures fresh(alloc.st.supers.Keys - old(alloc.st.supers.Keys))
    ensures fresh(alloc.st.blocks.Keys - old(alloc.st.blocks.Keys))
    ensures old(alloc.st.pools.Keys) <= alloc.st.pools.Keys <= old(alloc.st.pools.Keys) + callers
    ensures Served([], faults, pools, alloc.st.pools.Keys)
    ensures forall q :: q in callers ==> Allocators.Known(alloc.st, q)
  {
    hide Allocators.Sound;
    hide Allocators.Known;
    hide SpTree.Valid;
    hide FreeAreas;
    hide Owned;
    hide Allowed;
    hide Served;
    var sp := NewTree(alloc);
    FaultAndFree(sp, alloc, pools, faults, page, callers, alloc.st.live);
    assert FreeAreas(alloc.st) <= Areas(sp, alloc);
    if alloc.st.live == {} { NothingHeld(alloc); }
  }
}
