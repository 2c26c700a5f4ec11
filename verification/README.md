# A verified model of the virtual memory areas

The repository keeps track of virtual memory areas: intervals of addresses with protection flags. This
project models the three parts that do so, and proves what they are for.

**The tree of areas** (`src/sp_tree.c`). One set of nodes is a splay tree, a doubly linked list and a set
of intervals at once. `SplayModel` is a splay as a function on tree shapes, `SplayTree` the loop that
rewires the links and computes exactly this function. `SplayPaths` says where every node of the search path
ends up, which is what halves the path, and `SplayCost` bounds the link steps and the lengths of the searches
of a run; `FindRuns` carries the bounds over to look-ups on the tree object.
`SpTrees` holds the tree object: insertion, removal and search keep the links, the list and the search
order together. `Intervals` is what the tree means: a list of intervals that compresses a map from pages
to flags. `Fault` is the effect of a page fault on that list, and every run of faults keeps the list the
shortest one for its map. `FindMods` is the code of `sp_tree_find_mod_and_lock`, proved to change the
areas of the tree as `Fault` changes the list, with the areas coming from and going back to the allocator.
`FaultRuns` puts whole runs of faults by any number of threads on a tree, from the empty tree to the freed one.

**The allocator of areas** (`src/vma_alloc.c`). `AllocModel` is the allocator as a state machine, in which
each call of any thread is one step, with an invariant that every run keeps: areas are handed out once,
counters add up, blocks and superblocks are in their pools exactly while they are partly used, and memory
goes back to the system as soon as it is not in use. `Owners` adds whose blocks the areas come from.
`VmaAlloc`, `VmaGrow`, `VmaRelease`, `BlockSetup` and
`Allocators` are the same calls on linked blocks and superblocks; each is proved to be one step of the
state machine. `Layout` and `Bits` are about addresses: where the blocks and areas of a superblock lie, and
why masking the address of an area gives its block.

**Allocations indexed by the tree** (`src/malloc.c`). `Mallocs` shows that freeing a pointer into an
allocation gives back the mapping that was made for it, from its first byte to its last.

Where the source works on memory, so does the model: areas, blocks, superblocks, pools, the tree and the
allocator are classes whose links and counters are reassigned. Ghost values (the shape and order of a tree,
the state of the allocator, the intervals shown) say what the links realise.

## Repairs

`sp_tree_find_mod_and_lock` does not do everything that its comments say. `FindMods` follows it with these
changes, and `AsWritten` says for each what goes wrong without it and exactly when nothing does.

- The result of the splay at line 428 is not stored. `FindMods.Locate` stores it as the root. As written,
  the insertions at lines 520, 521, 568 and 616 and the exit without a merge lose nodes unless the search
  ends at the stored root. The paths for an absent page do not depend on this, and `FindMods.Add` does not
  ask for it.
- The new area of a prefix or suffix split (lines 559-562, 607-610) keeps the flags that its memory
  happens to hold. `FindMods` gives it the promoted flags of the area that is split.
- Where the page is a whole area (lines 622-658), its flags are never promoted, and the test for the merge
  with the next area looks at the flags of the area before. `FindMods.OnePage` promotes the flags once and
  compares each neighbour with them.
- Promotion takes READ to WRITE, but WRITE to 7. `FindMods.FindMod` asks that the page is not writable yet;
  `Intervals.FaultWellFormed` shows that the flags stay READ and WRITE exactly under this condition.

The comment at lines 423-427 says that the root after the splay has the greatest start that is not above
the address. The root is the address's predecessor or successor, which is what the code relies on and what
`SplayModel.SplayFinds` states.

## Model

| member | source | states |
|---|---|---|
| SplayModel.SplitInorder | src/sp_tree.c:136-196 | no node changes its place in the traversal, on any tree and key |
| SplayModel.SplayKeepsNodes | src/sp_tree.c:136-196 | a splay keeps the nodes, their number and the traversal, and makes no node occur twice |
| SplayModel.SplitSides | src/sp_tree.c:148-193 | in a search tree, all nodes of the left part have smaller keys than the one searched for, all of the right part larger ones |
| SplayModel.SplitIsSearch | src/sp_tree.c:46-50 | the new root is the last node that a plain binary search looks at |
| SplayModel.SplayFinds | src/sp_tree.c:43-51 | exact search: a node with the key becomes the root; otherwise the root is the key's predecessor or successor in the traversal |
| SplayPaths.PathEnds | src/sp_tree.c:46-50 | the search path starts at the root and ends where the new root comes from |
| SplayPaths.SplayDepths | src/sp_tree.c:148-195 | the depth of every node of the search path after the splay, from the turns of the search alone: pairs of equal turns are rotated, others are linked one by one |
| SplayPaths.HangingStays | src/sp_tree.c:148-195 | every subtree that hangs off the search path is still a subtree |
| SplayPaths.LinksAreSteps | src/sp_tree.c:148-188 | the number of link steps, exactly, from the turns of the search |
| SplayPaths.LinksHalvePath | src/sp_tree.c:148-188 | a search that looks at d nodes takes between d/2 - 1 and d - 1 link steps |
| SplayPaths.SplayHalves | src/sp_tree.c:27-39 | a node at depth d on the search path is at depth d/2 + 2 at most afterwards |
| SplayPaths.StraightDepths | src/sp_tree.c:153-168 | a search that never turns: the exact depths and the exact number of link steps |
| SplayPaths.ZigZagDepths | src/sp_tree.c:165-167 | a search that turns at every node: one link step a node, and the exact depths |
| SplayPaths.LeftSpineHalves | src/sp_tree.c:149-168 | a key below all others and m nodes on the left spine: m/2 of them are on the left spine of the root's right subtree, the others are not |
| SplayPaths.RightSpineHalves | src/sp_tree.c:169-184 | the mirror image |
| SplayPaths.SplitMirrors | src/sp_tree.c:149-184 | the left and the right branch of the loop are mirror images |
| SplayCost.RunsAdd | src/sp_tree.c:148-193 | links and path lengths of a run are those of its first part and of the rest, and for one key those of one splay |
| SplayCost.RunPaths | src/sp_tree.c:148-193 | over any run, the searches look at no more than twice as many nodes as there are link steps and splays together |
| SplayCost.RunSearchCost | src/sp_tree.c:27-39 | the searches of any m splays on n nodes look at no more than 4m + 2(3m + n)h nodes if n is at most 2^h |
| SplayCost.SplayPotential | src/sp_tree.c:148-193 | two to the number of link steps times the potential after is at most 2n^3 times the potential before |
| SplayCost.RunPotential | src/sp_tree.c:148-193 | the same over any run of splays, with the bounds multiplied |
| SplayCost.RunCost | src/sp_tree.c:27-39 | any m splays on n nodes take at most m + (3m + n)h link steps if n is at most 2^h; the loop's last pass, which links nothing, is one more per splay |
| FindRuns.FindEach | src/sp_tree.c:337-381 | a run of look-ups on a tree object finds each area, and its links and shape are those of the run of splays |
| FindRuns.FindAll | src/sp_tree.c:27-39 | m look-ups in a tree object of n areas take at most m + (3m + n)h link steps in all if n is at most 2^h, and pass at least half as many links as areas |
| SplayTree.MakeLeftChild | src/sp_tree.c:92-95 | the child link and the child's parent link; the parent link of a node that hung under its new child is cleared |
| SplayTree.MakeRightChild | src/sp_tree.c:92-95 | the same on the right |
| SplayTree.Step | src/sp_tree.c:149-187 | one iteration keeps the tree that the remaining search and the two side trees stand for, and takes one link from the count |
| SplayTree.Descend | src/sp_tree.c:148-188 | the loop ends, with the two side trees and the new root of the splay, after the number of links that the function says |
| SplayTree.Assemble | src/sp_tree.c:189-195 | the side trees and the children of the root become one tree with correct parent links and without the sentinel |
| SplayTree.SplayAt | src/sp_tree.c:136-196 | in place: the links spell out the splay of the tree that was there, parent links mirror child links, the root has no parent, and the links made are counted |
| AreaLists.LinkBefore | src/sp_tree.c:76-80 | the list with the new area in front of the given one, and nothing else changed |
| AreaLists.LinkAfter | src/sp_tree.c:82-86 | the list with the new area behind the given one |
| AreaLists.Unlink | src/sp_tree.c:88-90 | the list without the area |
| SpTrees.SplayFrom | src/sp_tree.c:136-196 | only the shape changes; tree and list still agree, and the new root is where the search in the list ends |
| SpTrees.PlantBefore | src/sp_tree.c:209-215 | the new root goes before the old one, in the tree and in the list |
| SpTrees.PlantAfter | src/sp_tree.c:216-224 | the new root goes behind the old one, in the tree and in the list |
| SpTrees.Uproot | src/sp_tree.c:228-248 | the root is gone from tree and list, and its left neighbour, if it has one, is the root |
| SpTrees.InitLinks | src/sp_tree.c:105-114 | all links of a new area are null |
| SpTrees.CoversNearest | src/sp_tree.c:350-367 | of disjoint areas, the one that contains the address is where the search ends, or the one before it |
| SpTrees.CoversOnce | src/sp_tree.c:350-367 | at most one of them contains the address |
| SpTrees.SpTree.constructor | src/sp_tree.c:252-262 | the empty tree |
| SpTrees.SpTree.InsertHelper | src/sp_tree.c:200-225 | the area is the root, and in its place in the order; the assertion on the starts holds |
| SpTrees.SpTree.RemoveHelper | src/sp_tree.c:228-248 | the area has left tree and list |
| SpTrees.SpTree.Insert | src/sp_tree.c:282-303 | one more area, in its place, and the root |
| SpTrees.SpTree.Extract | src/sp_tree.c:307-325 | the area that starts at the address is the one that leaves |
| SpTrees.SpTree.SplayRoot | src/sp_tree.c:353-353 | the end of the search is stored as the root, the order stays, and shape and link count are those of the splay |
| SpTrees.SpTree.Find | src/sp_tree.c:337-381 | all assertions hold, and the result is the area that contains the address, wherever it is; only the shape changes, at the cost of one splay |
| Protection.PromoteValues | src/sp_tree.c:97-101 | READ is promoted to WRITE, WRITE to 7 |
| Intervals.FaultLookup | src/sp_tree.c:386-672 | a fault gives the page its new flags and leaves every other address alone |
| Intervals.FaultWellFormed | src/sp_tree.c:100-101 | the intervals stay sorted, disjoint, on page boundaries and READ or WRITE exactly if the page was not writable |
| Intervals.FaultCanonical | src/sp_tree.c:458-493 | no two intervals that touch have the same flags, if none had before |
| Intervals.CanonicalUnique | src/sp_tree.c:498-658 | two lists in this form that agree on all pages are the same list |
| Intervals.CanonicalShortest | src/sp_tree.c:498-658 | no list of page-aligned intervals with the same pages is shorter than one in this form |
| Intervals.RunRefines | src/sp_tree.c:386-672 | for the list: after a run that never hits a writable page, a page is absent, READ or WRITE if it was faulted never, once or twice |
| Intervals.RunEnabled | src/sp_tree.c:386-672 | for the list: along such a run every fault meets what it asks for |
| Intervals.TraceRefines | src/sp_tree.c:386-672 | any sequence of lists that goes from one to the next by a fault is that of the run, with the properties above at every point; `FaultRuns.FaultEach` shows that calls on a tree yield one |
| Intervals.RunOrderIndependent | src/sp_tree.c:458-493 | for the list: it depends on how often each page was faulted, not on the order |
| FaultCases.SearchLocates | src/sp_tree.c:430-438 | the page lies in the interval where the search ends, in the one before, or in none |
| FaultCases.FaultMiddle | src/sp_tree.c:498-525 | page inside an interval: three intervals, no merge |
| FaultCases.FaultPrefix | src/sp_tree.c:526-573 | page at the front: it moves to the interval before if that touches and is WRITE, else stands alone |
| FaultCases.FaultSuffix | src/sp_tree.c:574-621 | page at the back: it moves to the interval behind if that touches and is WRITE, else stands alone |
| FaultCases.FaultWhole | src/sp_tree.c:622-658 | page that is an interval: WRITE, merged |
| FaultCases.MergeInTurn | src/sp_tree.c:458-493 | merging with one neighbour and then with the other is merging with both |
| TreeViews.NewArea | src/sp_tree.c:449-453 | an area that was not in use, with the given contents and no links; the tree is as it was |
| TreeViews.InsertArea | src/sp_tree.c:456-456 | the intervals with the new one in its slot; the allocator is as it was |
| TreeViews.TakeRoot | src/sp_tree.c:467-467 | the intervals without that of the root |
| TreeViews.DropArea | src/sp_tree.c:123-132 | the area is not live any more; the tree is as it was |
| TreeViews.SetStart | src/sp_tree.c:489-489 | a key changes inside the tree, between those of its neighbours: tree, list and search order still hold |
| FindMods.FirstArea | src/sp_tree.c:398-421 | empty tree: the fault on the empty list |
| FindMods.Locate | src/sp_tree.c:428-438 | the area that contains the page is found, or there is none |
| FindMods.Add | src/sp_tree.c:444-497 | absent page: the fault, whether the splayed root has been stored or not |
| FindMods.MergePrev | src/sp_tree.c:458-475 | merge with the area before if it touches and has the same flags; the freed area is given back |
| FindMods.MergeNext | src/sp_tree.c:477-493 | the same with the area behind |
| FindMods.MergeBoth | src/sp_tree.c:458-493 | both merges; the returned area is in the tree and contains the page, but need not be the root |
| FindMods.MidSplit | src/sp_tree.c:498-525 | the fault on a page inside an area; the page's area is the root |
| FindMods.PrefixMigrate | src/sp_tree.c:529-555 | the page moves to the area before, which becomes the root |
| FindMods.PrefixSplit | src/sp_tree.c:556-572 | the page becomes an area of its own in front of the rest |
| FindMods.SuffixMigrate | src/sp_tree.c:577-603 | the page moves to the area behind, which becomes the root |
| FindMods.SuffixSplit | src/sp_tree.c:604-620 | the page becomes an area of its own behind the rest |
| FindMods.OnePage | src/sp_tree.c:622-658 | the fault on a page that is a whole area |
| FindMods.FindMod | src/sp_tree.c:386-672 | on any well-formed tree the intervals change as under a fault, the result contains the page, and the live areas are the nodes and those that were live outside the tree; nothing comes into reach that was not new, free or the caller's pool, so calls can follow each other; nodes that were there keep their owners, and new ones lie in blocks of the caller's pool, which has one if the page was absent |
| FaultRuns.FaultAmong | src/sp_tree.c:386-672 | a fault by one thread leaves the pools of all threads fit for use |
| FaultRuns.FaultNext | src/sp_tree.c:386-672 | along a run from the empty tree, a call meets what `FindMod` asks for, and the tree goes on telling its story; on a page that is new, the thread's pool gets a block if it has none |
| FaultRuns.FaultEach | src/sp_tree.c:386-672 | any run of calls, continued from any point, tells the story of the run: what the tree shows after each fault, and that the areas which that fault added lie in blocks of the thread that met it, while the others keep their owners; tree, list and allocator still agree |
| FaultRuns.FaultAll | src/sp_tree.c:386-672 | after any run of calls from the empty tree each page has the flags that its own faults lead to, the areas are the same for every order of the faults, no list with these pages has fewer, and each area was added for the thread whose block it lies in |
| FaultRuns.Lifetime | src/sp_tree.c:252-278 | a new tree, a run of faults and freeing the tree leave the allocator with the live areas from before, and with no memory at all if there were none |
| TreeRemoval.Remove | src/sp_tree.c:307-333 | the area at the address leaves the tree and is given back |
| TreeRemoval.FreeTree | src/sp_tree.c:266-278 | ends with every node given back exactly once, and no other area; nothing new comes into reach |
| AsWritten.PrefixSplitNeeds | src/sp_tree.c:559-571 | without the repair, a prefix split is right exactly if the new memory holds WRITE |
| AsWritten.SuffixSplitNeeds | src/sp_tree.c:607-619 | the same for a suffix split |
| AsWritten.PrefixSplitFails | src/sp_tree.c:559-571 | two READ pages and zeroed memory: the first page loses all protection bits |
| AsWritten.SuffixSplitFails | src/sp_tree.c:607-619 | the same for the second of the two pages |
| AsWritten.OnePageNeeds | src/sp_tree.c:622-658 | without the repair, this case is right exactly for the stated flags and distances of the neighbours |
| AsWritten.OnePageFails | src/sp_tree.c:641-642 | a page on its own is not promoted; with a neighbour behind it only, a null link is followed |
| AsWritten.StaleRootNeeds | src/sp_tree.c:520-521 | an insertion next to the root from before the splay keeps all nodes exactly if the search ends there |
| AsWritten.StaleRootReaches | src/sp_tree.c:622-658 | the root from before the splay leads to all nodes under the same condition |
| AsWritten.StaleRootFails | src/sp_tree.c:428-428 | two areas and a fault on the first page of the second: the tree loses the rest of the second area, which the fault leaves READ |
| AllocModel.TakeBetween | src/vma_alloc.c:555-571 | taking an area completes an allocation with the invariant restored |
| AllocModel.StealBetween | src/vma_alloc.c:408-430 | stealing a block keeps the invariant but for that block |
| AllocModel.AddBetween | src/vma_alloc.c:294-318 | a new superblock keeps the invariant but for being unused |
| AllocModel.PutBetween | src/vma_alloc.c:598-641 | taking an area back keeps the invariant but for a block that is empty now; the asserted count is right |
| AllocModel.UnpoolBetween | src/vma_alloc.c:458-495 | returning a block keeps the invariant but for a superblock that is unused now; the asserted count is right |
| AllocModel.DropInv | src/vma_alloc.c:331-380 | giving a superblock back restores the invariant; it was in the global pool |
| AllocModel.AllocSafe | src/vma_alloc.c:514-582 | an allocation keeps the invariant and hands out an area that was not live, or fails exactly if nothing is within reach and the system has no memory |
| AllocModel.FreeSafe | src/vma_alloc.c:585-648 | a release keeps the invariant and ends the life of exactly one area |
| AllocModel.RunSafe | src/vma_alloc.c:514-648 | the invariant holds in every state of every run of any number of threads |
| AllocModel.AreasDisjoint | src/vma_alloc.c:555-558 | no area is on two free lists, or free and live |
| AllocModel.BlocksDisjoint | src/vma_alloc.c:541-544 | no block is on two lists |
| AllocModel.BlockPlacement | src/vma_alloc.c:563-571 | used and free areas of a block add up; it is in its owner's pool exactly while partly used |
| AllocModel.SuperPlacement | src/vma_alloc.c:422-430 | used and unused blocks of a superblock add up; it is in the global pool exactly while partly used |
| AllocModel.GiveBack | src/vma_alloc.c:465-476 | superblocks held are at most as many as blocks in use, and these at most as many as live areas |
| AllocModel.NothingLeft | src/vma_alloc.c:672-673 | when no area is live, nothing is held and every pool is empty |
| BlockLists.PopBlock | src/vma_alloc.c:565-568 | the rest of the list, whose first block may have a stale link back |
| BlockLists.PushBlock | src/vma_alloc.c:459-463 | the list with the block in front; its own link back is left alone |
| BlockLists.UnlinkBlock | src/vma_alloc.c:609-617 | the list without the block, in the same order, although the first link back may be stale |
| BlockLists.PopSuper | src/vma_alloc.c:424-427 | the same for superblocks |
| BlockLists.PushSuper | src/vma_alloc.c:485-489 | the same for superblocks |
| BlockLists.UnlinkSuper | src/vma_alloc.c:340-348 | the same for superblocks |
| BlockLists.RemoveAt | src/vma_alloc.c:339-348 | unlinking removes exactly one element |
| BlockSetup.FillBlock | src/vma_alloc.c:238-245 | the free list of a block has as many different areas as the block holds |
| BlockSetup.AppendBlock | src/vma_alloc.c:226-232 | the list of a superblock with one more block |
| BlockSetup.SetupLists | src/vma_alloc.c:209-249 | all blocks with all their areas, each once, linked and unused |
| VmaGrow.NewSuper | src/vma_alloc.c:296-317 | an unused superblock |
| VmaGrow.Expand | src/vma_alloc.c:288-327 | the links realise the state with the new superblock in the global pool |
| VmaAlloc.PopArea | src/vma_alloc.c:554-561 | the first free area of the block is handed out |
| VmaAlloc.TrimPool | src/vma_alloc.c:563-571 | a block without free areas leaves its pool; the asserted count is right |
| VmaAlloc.TakeFrom | src/vma_alloc.c:554-571 | the links realise the state after taking an area |
| VmaAlloc.TakeBlock | src/vma_alloc.c:407-430 | the first unused block leaves its superblock, and this the global pool if it was the last; the asserted count is right |
| VmaAlloc.Adopt | src/vma_alloc.c:540-544 | the block is the only one of the pool, which is recorded as its owner |
| VmaAlloc.StealFrom | src/vma_alloc.c:389-442 | the links realise the state after stealing a block |
| VmaRelease.PushArea | src/vma_alloc.c:597-602 | the area is the first free one of its block |
| VmaRelease.Requeue | src/vma_alloc.c:630-635 | the block is the first of its pool |
| VmaRelease.LeavePool | src/vma_alloc.c:608-617 | the block is gone from its pool, and nothing else is |
| VmaRelease.Shelve | src/vma_alloc.c:458-466 | the block is the first unused one of its superblock |
| VmaRelease.ReturnBlock | src/vma_alloc.c:447-506 | the links realise the state after returning the block, and after giving the superblock back if it is unused; the asserted count is right |
| VmaRelease.PutSuper | src/vma_alloc.c:331-348 | the links realise the state without the superblock |
| VmaRelease.Refill | src/vma_alloc.c:626-641 | a block that had been full is back in its pool; the asserted count is right |
| VmaRelease.FreeArea | src/vma_alloc.c:586-648 | the links realise the state after the release |
| Owners.AllocOwners | src/vma_alloc.c:521-581 | an allocation hands out an area from a block that the caller's pool owns; no live area changes its owner |
| Owners.FreeOwners | src/vma_alloc.c:586-648 | a release by whatever thread changes the owner of no other live area |
| Owners.LiveOwned | src/vma_alloc.c:529-581 | every live area lies in a block that some pool owns |
| Owners.RunOwners | src/vma_alloc.c:514-648 | over any run of any threads, an area stays with the pool that asked for it until it is given back |
| Allocators.InitPool | src/vma_alloc.c:521-527 | on its first use a pool is made empty, and a pool in use is left alone |
| Allocators.StealBlock | src/vma_alloc.c:530-535 | a block is stolen, from a new superblock if need be, unless there is no memory |
| Allocators.AllocArea | src/vma_alloc.c:529-581 | the links realise the state after the allocation, and the result is its area |
| Allocators.Allocator.constructor | src/vma_alloc.c:652-664 | nothing is held |
| Allocators.Allocator.Alloc | src/vma_alloc.c:514-582 | one step of the state machine: an area that was not live, or null exactly if nothing is within reach and the system has no memory; the area lies in a block that the caller's pool owns, and no live area changes its owner |
| Allocators.Allocator.Free | src/vma_alloc.c:586-648 | one step of the state machine, by any thread; no other live area changes its owner |
| Bits.NotIs | src/vma_alloc.c:197-197 | the complement of a word, as a number |
| Bits.MaskRounds | src/vma_alloc.c:197-197 | masking with the complement of 2^k - 1 rounds down to a multiple of 2^k |
| Bits.AlignIsLeast | src/malloc.c:44-44 | the least page multiple that is not below the argument, exactly if the sum does not wrap around |
| Layout.AsManyAsFit | src/vma_alloc.c:112-115 | the areas of a block and the blocks of a superblock fit behind the header, and one more would not, for every geometry |
| Layout.LayAreas | src/vma_alloc.c:239-245 | the addresses of the areas of a block, in closed form; there is no room for one more |
| Layout.LayBlocks | src/vma_alloc.c:209-249 | as many blocks and areas as the counters say, which is as many as fit, at these addresses |
| Layout.BlockInside | src/vma_alloc.c:114-115 | every block lies inside the superblock, behind its header |
| Layout.AreaInside | src/vma_alloc.c:112-113 | every area lies inside its block, behind the block's header |
| Layout.AreasApart | src/vma_alloc.c:238-245 | different areas do not overlap |
| Layout.OwnBlock | src/vma_alloc.c:194-198 | masking any address inside a block gives the block |
| Layout.OwnBlockOfArea | src/vma_alloc.c:194-198 | masking an area's address gives the area's own block |
| Layout.SourceSizes | src/vma_alloc.c:109-115 | 63 blocks, and at least two areas each exactly if header and two areas fit |
| Mallocs.RangesDisjoint | src/malloc.c:71-73 | disjoint mappings make the described ranges disjoint, in the order of the tree |
| Mallocs.LengthSuffices | src/malloc.c:54-57 | the mapping holds the area and the requested bytes exactly if the computation of its length does not wrap around; a size beyond the last page gets no room at all |
| Mallocs.OocHeap.constructor | src/malloc.c:44-55 | an empty index; the sizes that the other calls compute with are the given ones |
| Mallocs.OocHeap.LengthMeasured | src/malloc.c:54-56 | the two parts of the length are the least page multiples that hold the area and the bytes |
| Mallocs.OocHeap.Malloc | src/malloc.c:47-92 | one more area, which describes exactly the requested bytes, behind a first part that is the least page multiple to hold the area, in a mapping that ends at the least page boundary behind the bytes; or null and nothing changed, and the mapping, if there was one, goes back whole |
| Mallocs.OocHeap.Free | src/malloc.c:95-119 | for any pointer into the range, base and length are those of the mapping that was made |

## Left out

- Locks and interleavings inside a call: every public call is one atomic step, and locks are absent. The
  source reads some links before it takes the lock, and takes locks in different orders.
- Lock-contention counters, debug output, `vma_gpool_gather` and `vma_gpool_show`: statistics.
- `src/sched.c`, `src/aio.c`, `bench/` and `apps/mm.c`: contexts, signals, file access and benchmarks.
- Memory from the system: a superblock, its blocks and its areas are new objects, so a block's address
  stands for the object itself, and the model cannot show that released memory is used again. `AllocModel`
  only asks that memory from the system is not in use, so the runs there do include reuse. `Layout` says
  what the objects' addresses are.
- `S_superblock_list_destroy` only writes into memory that is about to be released.
- FindMods.FindMod: `vma_alloc` is taken to succeed there, because the source does not test its result.
- FindMods.FindMod: pages and addresses are unbounded integers, so a page at the very end of the address
  space is not modelled.
- Allocators.Allocator.Alloc: whether the system has memory is a parameter.
- Allocators.Allocator.constructor: both capacities are at least 2, which the source's constants meet for
  the sizes in `Layout.SourceSizes`.
- Allocators.Allocator.Free: the block of an area is a field of the area; `Layout.OwnBlockOfArea` shows that
  the source's mask computes it.
- BlockSetup.SetupLists: a new block's `mpool` is null in the model and undefined in the source; it is set
  before it is read.
- Mallocs.OocHeap.Free: the source's removal also passes the node to `vma_free` although it comes from a
  mapping; here it only leaves the tree, and its bounds stay readable. A pointer that is in no range, as
  the one from an allocation of size 0, is outside the contract: the source's assertion fails there.
- Mallocs.OocHeap.Malloc: asks that the computation of the length does not wrap around, which the source does
  not test. `Mallocs.LengthSuffices` shows that the mapping is too short for every other size, and what the
  source does with such a mapping is not modelled. What `mmap` and `mprotect` answer is a parameter.
- SplayCost.RunCost: about runs of splays on a fixed set of nodes; insertions and removals in between are
  not counted, and neither is the last pass of the loop of each splay, which links nothing.
