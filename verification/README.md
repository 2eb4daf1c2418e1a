# Points-to and call-path algorithms of OhaLLVM

OhaLLVM is a predicated points-to analysis and slicer. Under the passes that walk LLVM code lies a layer of graph and
set algorithms on plain integer ids. This project models that layer in Dafny and proves what it is relied on for.

- **Condensation.** Tarjan's algorithm merges strongly connected nodes while it is still searching, through a
  union-find (`RunTarjans.dfy`, `CgOpt.dfy`, `UnionFind.dfy`) or through representative pointers (`SegTarjans.dfy`,
  `Seg.dfy`). The argument itself is made once, on values: `TarjanCore.dfy` is the search, `TarjanSearch.dfy` ties it
  to the arrays of the code, `Condensation.dfy` is about the classes and the merged graph. `SegTopo.dfy` is the
  depth-first order on the result.
- **Call paths.** On the condensed graph `CsCfg.dfy` enumerates all call paths with a memo table, `PathCounts.dfy`
  says how often it lists each of them, and `ContextStacks.dfy` interns a stack by its set of frames, which is sound
  because a path in an acyclic graph is determined by its frames (`CallPaths.dfy`).
- **Sparse bitmaps.** `BitmapNode.dfy` has one block, `BitmapLists.dfy` the recursive merges and what they mean,
  `BitmapMerges.dfy` the one-pass merges step by step, `SparseBitmap.dfy` the class with its search cursor,
  `BitmapIterator.dfy` the shifting iterator.
- **The constraint graph.** `AndersFacts.dfy` says what a class of nodes is owed, `AndersRuns.dfy` has whole runs as
  values and shows that the order of their steps does not matter, `DeliveryRuns.dfy` that difference propagation
  (`Deliveries.dfy`) hands out every element exactly once, whatever is told and merged in between, and
  `ConstraintKinds.dfy` what each kind of constraint leaves in a class. `AndersGraph.dfy` is the graph with merging,
  batch and incremental building and update sets; every method is steps of such a run.
- **Renumbering and searches.** `ObjectMap.dfy` lowers ids, `Worklist.dfy` and `LLVMHelper.dfy` search backward over
  blocks, `CsFcnCFG.dfy` queries and copies function graphs, `SolveHelpers.dfy` has the order on bitmaps and the
  two-heap worklist, `BddVec.dfy` turns decision diagrams into cached vectors.

`Basics.dfy` has shared definitions, `Graphs.dfy` reachability through predecessor edges. `Seals.dfy` explains how
large definitions are kept out of proofs that do not look inside them; what only hands such a fact on also hides it.

Ids are natural numbers, an absent id is -1 or `None`. A vector of values is a sequence, a linked list of blocks is a
sequence with an index as its iterator. Private loops of one source function are sometimes methods of their own, named
in a comment. `lib/SpecCsCFG.cpp` has the same `findPath` and `findPathsFromMain` as `lib/CsCFG.cpp` and is covered by
the same model.

## Where the code is not what it seems

- `findPath` appends one more copy of the main node's path each time it arrives there (lib/CsCFG.cpp:186), so every
  path is listed as often as the turn of its first site says (`PathCounts.DistinctMeans`, `DiamondListsTwice`).
- The result of `SparseBitmap::operator&=` is not a change flag (include/util.h:1668, include/util.h:1686).
- `SparseBitmap::operator-` reads the block past the end of its operand when the receiver reaches further
  (include/util.h:1543), and may leave blocks without bits (`BitmapMerges.MinusWrong`).
- `clear` leaves the search cursor behind (include/util.h:1326); it is not used again while the list is empty.
- Two bitmap iterators that have not ended always compare equal (include/util.h:1747-1752); only the comparison with
  the end iterator is meaningful (`BitmapIterators.EqualTooSoon`).
- `UnionFind::merge` on one class raises its rank (include/util.h:783-786).
- `Graph::merge` compares the new representative with `lhs` and not with its representative (include/CgOpt.h:233), so
  a representative may lose its data (`CgOpt.RepLosesData`).
- `AndersNode::merge` leaves indirect calls on the node that stops being a representative
  (include/AndersGraph.h:238-261; `AndersRuns.CallLeftBehind`), so where a call ends up depends on whether it was added
  before or after the merge (`AndersRuns.CallsDiffer`).
- `addSucc` does not filter special values and self edges as `addCopyEdge` does (include/AndersGraph.h:208-215).
- The renumbering of the object map takes the strong flags from the value mapping (include/ObjectMap.h:1162), and
  `lowerUsed` does not rename the object set or the object limit (`ObjectMaps.WeakBecomesStrong`, `ObjSetGoesStale`).
- `lowerObjects` would count an object that is also a special id twice, and its assertion at include/ObjectMap.h:961
  would fail (`ObjectMaps.SpecialObjectOverruns`). This is only conceivable: every id put in the object set is a new
  one (include/ObjectMap.h:329-451), and the default constructor, which could do otherwise, is not part of this model.
- `findDirectPreds` reports a node before it looks whether it was visited (src/CsFcnCFG.cpp:42-43), hence repeats
  (`CsFcnCFGs.SelfCallRepeats`).
- The heap entries of the worklist return their priority as a signed number (include/SolveHelpers.h:137), so priorities
  from 2^31 on come first (`SolveHelpers.HighPriorityFirst`).

## Model

| member | source | states |
|---|---|---|
| TarjanCore.EnterInv | include/RunTarjans.h:70-79 | Opening a node keeps the invariant of the search: the stack is the part of the graph that is not finished, each node on it reaches the nodes above it, nothing finished has an edge to it. |
| TarjanCore.ReturnInv | include/RunTarjans.h:91-93 | Coming back from the visit of a predecessor with its lowlink restores the loop invariant of the caller. |
| TarjanCore.StackedInv | include/RunTarjans.h:94-96 | A predecessor that is on the stack lowers the lowlink by its index and keeps the loop invariant. |
| TarjanCore.SegmentIsComponent | include/RunTarjans.h:100-109 | When lowlink equals index, the nodes from v to the top of the stack are exactly those that v reaches and that reach v. |
| TarjanCore.KeepPost | include/RunTarjans.h:100-127 | When lowlink is below index, returning leaves v on the stack and keeps the promise of a visit. |
| TarjanCore.PopPost | include/RunTarjans.h:100-122 | Popping that segment restores the caller's stack and keeps the promise of a visit. |
| TarjanSearch.AllDone | include/RunTarjans.h:37-54 | When every node was started from, same representative means mutually reachable in the original graph, and the visit log is complete and in order. |
| TarjanSearch.LoggedOnce | include/RunTarjans.h:124-126 | scc_visit fires at most once for each component. |
| TarjanSearch.LoggedInOrder | include/RunTarjans.h:27-126 | scc_visit fires for a component only after every component it reaches through predecessor edges. |
| Condensation.CompleteReps | include/RunTarjans.h:100-122 | Redirecting the popped segment to any one of its members keeps 'same representative exactly when mutually reachable' for finished nodes. |
| Condensation.CompleteLog | include/RunTarjans.h:124-126 | Logging the finished component keeps the log in topological order. |
| Condensation.CollectedMerge | include/CgOpt.h:104-113 | Moving sets from one representative to another keeps: each representative holds exactly the union of what its members were given. |
| Condensation.QuotientReach | include/RunTarjans.h:100-122 | Classes reach each other in the merged graph exactly when their members did in the original. |
| Condensation.QuotientAcyclic | include/RunTarjans.h:100-122 | The merged graph has no cycle but self-loops. |
| Condensation.MergedGraph | include/RunTarjans.h:37-127 | After a run the graph of representatives is the quotient of the starting graph: acyclic, and with its reachability. |
| RunTarjans.DoRunTarjans.constructor | include/RunTarjans.h:37-54 | The whole run over a union-find graph with any starting representatives whose data lives on them: same representative exactly for mutually reachable nodes, one ordered visit per component, every representative has the gathered predecessors, points-to sets and indirect flag of its class, the marks ref have not moved, and the result can be searched again. |
| RunTarjans.StartsAgain | include/RunTarjans.h:37-54 | What a run leaves meets the conditions of a run: nodes merged away are empty up to a flag that their class has too. |
| RunTarjans.SecondRunMergesNothing | include/RunTarjans.h:37-54 | A second run changes no representative. |
| RunTarjans.DoRunTarjans.Visit | include/RunTarjans.h:70-98 | One recursive visit keeps the run's invariant and promises lowlink, stack and finished components to its caller. |
| RunTarjans.DoRunTarjans.Complete | include/RunTarjans.h:100-126 | Popping and merging a component leaves its members on one representative with all their data, and logs the node it was entered by. |
| RunTarjans.GatheredEdges | include/CgOpt.h:33-37 | The predecessor lists gathered on representatives name exactly the edges between classes, so the merged-graph theorem applies to them. |
| SegTarjans.RunTarjans.constructor | include/Tarjans.h:32-46 | The same theorem for the run over SEG nodes, where removed nodes have no representative. |
| SegTarjans.RunTarjans.Visit | include/Tarjans.h:62-94 | One recursive visit of the SEG twin. |
| SegTarjans.RunTarjans.Complete | include/Tarjans.h:96-176 | Popping a component of the SEG twin, uniting every popped node into the one it was entered by, which is logged. |
| SegTarjans.KeptUnite | include/Tarjans.h:172-173 | unite keeps the edges between classes although it drops edges to the receiver and renames the others. |
| CgOpt.OptGraph.AddNode | include/CgOpt.h:206-213 | A new node is empty and its own representative; nothing else changes. |
| CgOpt.OptGraph.Merge | include/CgOpt.h:215-240 | Joins exactly the two classes and says on which of the two nodes the data ends up; merging a class with itself changes nothing. |
| CgOpt.UnitedFields | include/CgOpt.h:104-113 | Field by field, what moves: predecessors in order, points-to sets, implicit edges and the indirect flag, but not the mark ref; no other node changes. |
| CgOpt.GatheredMerge | include/CgOpt.h:104-113 | When the data goes to the new representative, every representative still holds exactly its class's data. |
| CgOpt.MergeKeepsDataOnRep | include/CgOpt.h:229-237 | After merging two classes every representative still holds exactly what its class was given, if and only if lhs is itself a representative, or the other class has the higher rank, or both nodes were empty and the winner has any flag of the loser. |
| CgOpt.RepLosesData | include/CgOpt.h:229-237 | A graph of three ids on which a merge through an id that is no representative takes the points-to set away from its class. |
| UnionFind.CompressKeepsRoots | include/util.h:762-771 | Path compression changes no representative and keeps ranks increasing along parent links. |
| UnionFind.LinkJoins | include/util.h:773-787 | Linking two roots joins exactly their two classes. |
| UnionFind.RankBoundAfterMerge | include/util.h:779-786 | A merge keeps 2^rank at most the class size exactly when the two roots differ or the class has room for one more rank. |
| UnionFind.SelfMergeBreaksRankBound | include/util.h:783-786 | A singleton merged with itself breaks that bound. |
| UnionFind.UnionFind.constructor | include/util.h:746-749 | Every id starts as its own class with rank 0. |
| UnionFind.UnionFind.Add | include/util.h:751-755 | The new id is its own class; the others are as before. |
| UnionFind.UnionFind.Find | include/util.h:762-771 | Terminates, returns the representative and changes no class and no rank. |
| UnionFind.UnionFind.Merge | include/util.h:773-787 | Joins exactly the two classes. |
| UnionFind.MergedMeans | include/util.h:773-787 | The root of higher rank represents both, the first argument's on a tie, and only a tie raises a rank: that root's, by one. |
| UnionFind.RenamedForest | include/util.h:794-819 | Renaming a forest by a permutation gives a forest. |
| UnionFind.RenamedRoot | include/util.h:794-819 | The root of a renamed id is the renamed root. |
| UnionFind.UnionFind.Remap | include/util.h:794-819 | After remap by any permutation p, find(p[x]) is p[find(x)] and ranks have moved along. |
| Seg.CompressKeepsReps | include/SEG.h:1072-1089 | Path compression in getRep changes no representative, removed nodes included. |
| Seg.SEG.GetRep | include/SEG.h:1072-1089 | Returns the representative, or -1 where the chain ends at a removed node, and changes none. |
| Seg.SEG.Unite | include/SEG.h:371-405 | The receiver represents both nodes and has the edges of both, renamed to representatives, without edges to itself and to removed nodes; the other node is left empty. |
| Seg.UnitedMeans | include/SEG.h:371-405 | Which ids the lists have afterwards: those of the receiver, the other node's successors, and the representatives of the other node's edges except the receiver itself; the instructions move, and no other node changes. |
| Seg.MovedEdges | include/SEG.h:371-405 | Those lists still name exactly the edges between classes. |
| Seg.SEG.Unique | include/SEG.h:211-229 | The edge lists of the node become the strictly sorted lists of representatives they name. |
| Seg.SEG.CleanGraph | include/SEG.h:972-976 | Does that for every representative and nothing else. |
| Seg.CleanedMeans | include/SEG.h:211-229 | Both lists of a representative are strictly sorted and have exactly the representatives that were named; all other nodes and all instructions stay. |
| Seg.CleanedClassGraph | include/SEG.h:972-976 | Cleaning keeps the graph of classes. |
| SegTopo.TopoIterator.All | include/SEG.h:707-732 | The list has every representative exactly once and, on an acyclic graph of classes, each after its predecessors (before them when reversed). |
| SegTopo.TopoIterator.From | include/SEG.h:689-704 | The same for the nodes that reach, through predecessor edges, from one start. |
| SegTopo.TopoIterator.Visit | include/SEG.h:802-825 | One visit adds exactly the unmarked nodes reached, in order. |
| SegTopo.PostIsTopoOrder | include/SEG.h:802-825 | The order in which visits end is a topological order. |
| CallPaths.PathDistinct | lib/CsCFG.cpp:181-251 | On an acyclic graph a call path never repeats a frame. |
| CallPaths.CallPathMeans | lib/CsCFG.cpp:181-251 | A call path starts at main, and each frame is a predecessor of the next and different from it. |
| CallPaths.SameFramesSamePath | lib/ContextInfo.cpp:279-305 | On an acyclic graph two paths from the main node with the same set of frames are the same path. |
| CallPaths.PathExists | lib/CsCFG.cpp:303-307 | A node has a path from the main node exactly when it reaches it through predecessors. |
| CsCfg.Condense | lib/CsCFG.cpp:165-171 | Condensing and cleaning gives an acyclic graph of strictly sorted representative lists, with the reachability of the original. |
| CsCfg.CondensedReady | lib/CsCFG.cpp:165-171 | The same as a statement about the lists before and after. |
| CsCfg.SourceIsRep | lib/CsCFG.cpp:115-123 | The main node, which has no predecessors, stays its own representative. |
| CsCfg.CsCFG.FindPath | lib/CsCFG.cpp:181-251 | Terminates, fills the entry of the node, keeps every finished entry but the end node's, and keeps: each entry has exactly the paths from the main node, each as often as the turn in which the path's first site asked for main's paths. The new table is a function of the graph and the old table. |
| CsCfg.CsCFG.FindPredPaths | lib/CsCFG.cpp:208-245 | The loop over predecessors collects exactly the paths that go through them, with those multiplicities; no predecessor occurs twice. |
| PathCounts.Visited | lib/CsCFG.cpp:208-245 | One round of the loop over predecessors: copying an entry adds each of its paths once, and main's entry has one copy more at each arrival. |
| PathCounts.DistinctMeans | lib/CsCFG.cpp:183-187 | A list with those multiplicities is free of repeats exactly when at most one site below the end is entered from main. |
| PathCounts.DiamondListsTwice | lib/CsCFG.cpp:183-187 | Two sites after main and one after both: of the two paths one is listed twice. |
| CsCfg.CsCFG.CopyAll | lib/CsCFG.cpp:238-244 | Appends every path of a predecessor, extended by the node. |
| CsCfg.CsCFG.FindPathsFromMain | lib/CsCFG.cpp:253-315 | Returns exactly the paths to the end's class, none of them twice if and only if at most one site on the way has main among its predecessors; cached answers are kept and, cached or not, the answer is the very list of an enumeration that starts with an empty table. |
| ContextStacks.StackCache.Find | lib/ContextInfo.cpp:279-305 | One id per set of frames, never 0, stable once given; a new set gets the next id and its stack is stored. |
| ContextStacks.SameIdSamePath | lib/ContextInfo.cpp:279-305 | Two paths of an acyclic graph get the same id exactly when they are the same path. |
| ContextStacks.StoredStack | include/ContextInfo.h:313-318 | The stack stored for a path's id is that path. |
| ContextStacks.OrderIsLost | lib/ContextInfo.cpp:282-290 | Without that restriction the set forgets the order: two different stacks get one id. |
| ContextStacks.StackCache.ParentId | lib/ContextInfo.cpp:307-325 | Computed once and then kept; the id of the stack without its last frame, and the empty stack's own id. |
| ContextStacks.ParentOfPath | lib/ContextInfo.cpp:307-325 | For a path, the parent is the id of the path without its last frame. |
| ContextStacks.StackCache.Push | lib/ContextInfo.cpp:338-368 | No stack for a repeated or invalid frame, the non-context stack for itself, else the id of the longer stack. |
| ContextStacks.PopUndoesPush | lib/ContextInfo.cpp:307-325 | The parent of a pushed stack is the stack it was pushed on. |
| BitmapNodes.OrAssign | include/util.h:1115-1131 | Word by word union of two blocks with an exact change flag. |
| BitmapNodes.CountDrops | include/util.h:1139-1147 | Intersecting lowers the bit count unless it changes nothing, which is why counting detects a change. |
| BitmapNodes.AndAssign | include/util.h:1133-1151 | Intersection of two blocks of one index with an exact change flag; blocks of different indexes are left alone. |
| BitmapNodes.OrWithIntersect | include/util.h:1170-1194 | a or (b and c) on blocks, with an exact change flag. |
| SparseBitmaps.SparseBitmap.FindClosest | include/util.h:1920-1946 | From any legal cursor: the block of the index, or a neighbour of the place where it belongs, or the end. |
| SparseBitmaps.SparseBitmap.Test | include/util.h:1332-1345 | Membership. |
| SparseBitmaps.SparseBitmap.Reset | include/util.h:1391-1409 | Removes exactly the id, drops an empty block and leaves a legal cursor. |
| SparseBitmaps.SparseBitmap.Set | include/util.h:1411-1430 | Adds exactly the id. |
| SparseBitmaps.SparseBitmap.TestAndSet | include/util.h:1432-1457 | Adds exactly the id and returns true exactly when it was absent. |
| SparseBitmaps.SparseBitmap.OrAssign | include/util.h:1617-1646 | Leaves the union in canonical form and returns true exactly when an id was added; the operand may be the receiver. |
| SparseBitmaps.SparseBitmap.OrWithIntersect | include/util.h:1459-1521 | Adds the ids in both operands (all of the first when there is no second) and returns true exactly when one was new; either operand may be the receiver. |
| SparseBitmaps.SparseBitmap.AndAssign | include/util.h:1649-1690 | Leaves the intersection in canonical form; the result is AndFlag. |
| BitmapMerges.AndFlagExact | include/util.h:1668-1686 | When the result of operator&= is no change flag: exactly for a subset that ends in the same block (true without a change) and for a loss not in the last shared block of lists that end apart (false with one). |
| BitmapMerges.AndFlagWrong | include/util.h:1668-1686 | Both errors occur, on one and two ids. |
| BitmapLists.DropsLastMeans | include/util.h:1668-1670 | If the last shared block loses a bit, an id is lost. |
| SparseBitmaps.SparseBitmap.Minus | include/util.h:1523-1553 | Defined exactly when rhs is empty or reaches at least as far as the receiver; then the difference, and canonical exactly when every block of the receiver keeps an id. |
| BitmapMerges.MinusWrong | include/util.h:1523-1553 | {0, 128} - {0} reaches past the end of its operand, and {0} - {0} keeps a block without ids. |
| SparseBitmaps.SparseBitmap.AddSorted | include/util.h:1555-1590 | Adds exactly an ascending list, with an exact change flag. |
| SparseBitmaps.SparseBitmap.Equals | include/util.h:1594-1610 | True exactly when both have the same ids. |
| BitmapLists.SameMembers | include/util.h:1594-1610 | A canonical list is determined by its ids. |
| SparseBitmaps.SameMembersSameHash | include/util.h:1694-1706 | Bitmaps with the same ids hash alike, for any hash of a word. |
| BitmapLists.UnionChange | include/util.h:1617-1646 | The recursive union is canonical, has the ids of both, and is the left list exactly when it adds none. |
| BitmapLists.MeetChange | include/util.h:1649-1690 | The recursive intersection is canonical, has the shared ids, and is the left list exactly when nothing is lost. |
| BitmapLists.MinusMeans | include/util.h:1523-1553 | The recursive difference is sorted, has the ids of the left alone, and is canonical exactly when every block keeps one. |
| BitmapIterators.BitmapIterator.constructor | include/util.h:1716-1723 | Starts at the first member, or at the end of an empty bitmap. |
| BitmapIterators.BitmapIterator.NextBsPos | include/util.h:1773-1785 | Shifts the first set bit out: the current id followed by the rest is what was left. |
| BitmapIterators.BitmapIterator.AdvanceBit | include/util.h:1822-1852 | One step over words and blocks: ends exactly when nothing is left, else moves to the next member. |
| BitmapIterators.BitmapIterator.EqualMeans | include/util.h:1747-1752 | Two iterators of a bitmap compare equal exactly when both or neither have ended, which is right exactly when one has ended or both stand at the same id. |
| BitmapIterators.EqualTooSoon | include/util.h:1747-1752 | In every bitmap with two ids, the first two positions compare equal. |
| BitmapIterators.MembersAscending | include/util.h:1736-1745 | The listed ids are strictly increasing and exactly the members. |
| BitmapIterators.Iterate | include/util.h:1861-1875 | A loop from begin to end yields that list. |
| BitmapIterators.Rebuild | include/util.h:1555-1590 | Adding an iteration to an empty bitmap gives an equal bitmap. |
| AndersGraphs.AndersNode.GetUpdateSet | include/AndersGraph.h:137-148 | Together with the earlier deliveries since the last reset it delivers every element of the points-to set exactly once. |
| Deliveries.DeliveredOnce | include/AndersGraph.h:137-148 | Each delivered element came in exactly one delivery. |
| Deliveries.DeliveredAgain | include/AndersGraph.h:252-254 | The first delivery after a reset is the whole set. |
| AndersGraphs.AndersNode.AddCopyEdge | include/AndersGraph.h:169-182 | No edge from or to the integer and null values or to itself; true exactly when the edge is new. |
| AndersGraphs.AndersNode.AddCopyEdges | include/AndersGraph.h:184-198 | Adds the whole set but the two special values and returns an exact change flag; unlike addCopyEdge it allows a self edge. |
| AndersGraphs.AndersNode.AddSucc | include/AndersGraph.h:208-215 | A copy edge for offset 0, a gep edge otherwise, with the source's result. |
| AndersGraphs.AndersNode.Merge | include/AndersGraph.h:238-261 | Takes over sets, edges and constraints, empties the other node and resets delivery; indirect calls stay. |
| AndersRuns.MergeLosesCalls | include/AndersGraph.h:238-261 | Representatives still have the indirect calls of their class after a merge exactly when the loser had none. |
| AndersRuns.CallLeftBehind | include/AndersGraph.h:238-261 | A call that a merge of two nodes leaves on the node that no longer represents it. |
| AndersGraphs.AndersGraph.AddConstraint | src/AndersGraph.cpp:13-100 | Returns the representative of the source of a copy or load, of the destination of a store or address-of; nothing for constraints on null, copies out of it aside. One step of the run, which leaves the indirect calls and deliveries of all nodes as they were. |
| ConstraintKinds.OneConstraint | src/AndersGraph.cpp:13-100 | What one constraint changes, by its kind: an address-of adds its source to the points-to set of its destination, a load is kept by its source, a store by its destination, a copy is an edge or a gep edge of its source. |
| ConstraintKinds.RunPoints | src/AndersGraph.cpp:62-87 | After any run a class points to exactly the sources of the address-of constraints added with a destination in the class and neither end null. |
| ConstraintKinds.RunCopies | src/AndersGraph.cpp:88-94 | It has exactly the copy edges of copies without offset from the class to a target that is not null, and those that edge steps let pass. |
| ConstraintKinds.RunGeps | include/AndersGraph.h:208-215 | It has each gep edge as often as copies with that offset were added from members of the class. |
| ConstraintKinds.RunKeeps | src/AndersGraph.cpp:29-61 | It keeps each load of its sources and each store of its destinations as often as it was added, neither end null. |
| AndersGraphs.AndersGraph.ClassHolds | src/AndersGraph.cpp:13-275 | All of this for the classes of the graph itself, from the constraints and edges of its whole history. |
| AndersGraphs.AndersGraph.AddIndirConstraint | src/AndersGraph.cpp:102-111 | The call goes to the representative of the called value, as one step of the run; the data and deliveries of all nodes stay as they were. |
| AndersFacts.CalledAt | src/AndersGraph.cpp:150-152 | After a list of calls each node has what it had, followed by the calls whose value it represents, in order. |
| AndersGraphs.AndersGraph.AddCopyEdge | include/AndersGraph.h:169-182 | On the representative of an id, as one step of the run: told exactly when the filter lets it pass, and true exactly when a node changed; no delivery is reset. |
| AndersGraphs.AndersGraph.AddCopyEdges | include/AndersGraph.h:184-198 | The same for a whole set of targets. |
| AndersGraphs.AndersGraph.Fill | src/AndersGraph.cpp:113-155 | The batch build: as many nodes as ids, each told its constraints in order, then given its indirect calls; nothing delivered yet. |
| ConstraintKinds.FillLeaves | src/AndersGraph.cpp:113-155 | Every node afterwards: exactly the points-to elements, copy edges, gep edges, loads and stores that the listed constraints give it, kind by kind. |
| AndersFacts.MaxIdMeans | src/AndersGraph.cpp:115-127 | The largest id is 0 or one that a constraint mentions. |
| AndersGraphs.AndersGraph.UpdateGraphForCons | src/AndersGraph.cpp:198-275 | The incremental step: new nodes, the new constraints in order on the current representatives, then the new indirect calls, and the list of representatives told; old nodes keep what they have delivered. |
| AndersGraphs.AndersGraph.Merge | src/AndersGraph.cpp:182-196 | Joins the two classes, the data on the new representative; both nodes start delivering anew and no other node does. The invariant of every run holds again. |
| AndersGraphs.AndersGraph.UpdateSetOf | include/AndersGraph.h:326-330 | On the representative of an id, as one step of the run: returns exactly what it has not delivered since it last started anew; all data and every other node's deliveries stay as they were. |
| AndersGraphs.AndersGraph.Redeliver | src/Solve.cpp:678-680 | clearOldPtsto on the representative of an id: that node starts delivering anew, nothing else changes. |
| AndersFacts.BatchIsIncremental | src/AndersGraph.cpp:113-275 | For every split of the constraints and of the indirect calls, fill then update gives each node the same data and the same calls as fill on all; only ids that new arguments mention are added, empty. |
| AndersFacts.TouchedMeans | src/AndersGraph.cpp:246-253 | The returned ids are exactly the representatives of the sources of copies and loads and of the destinations of stores and address-of constraints, those on null aside; no other node changed. |
| AndersFacts.MaxArgMeans | src/AndersGraph.cpp:230-239 | Beyond the constraints only an argument id extends the graph. |
| AndersFacts.SummedStep | src/AndersGraph.cpp:13-100 | Adding a constraint keeps: every node holds exactly what its class was told. |
| AndersFacts.SummedMerge | include/AndersGraph.h:238-261 | So does a merge, in any order of the lists. |
| AndersFacts.SameFactsAlike | src/AndersGraph.cpp:182-275 | The same facts and the same partition into classes, whichever members represent them, give every id the same data up to the order of gep edges and constraints. |
| AndersRuns.RunMeans | src/AndersGraph.cpp:182-196 | After any run of growing, adding constraints, copy edges and indirect calls, merging, delivering and resetting: a node that represents no class is empty, and a representative has exactly what its members were told. |
| AndersRuns.SamePairsSameClasses | src/AndersGraph.cpp:182-196 | The partition depends only on the set of pairs that were joined. |
| AndersRuns.RunsAgree | src/AndersGraph.cpp:182-275 | Two runs that add as many nodes, join the same pairs and tell the same facts agree on the class of every id up to order, whatever the order of their steps and whichever members represent. |
| AndersRuns.MergesBetween | src/AndersGraph.cpp:113-275 | Filling, merging and then updating gives every id the same class and, up to order, the same data as filling with everything and merging then; deliveries may go on meanwhile. The nodes have the same indirect calls if and only if the called value of every new call still represents itself. |
| AndersRuns.CallsDiffer | src/AndersGraph.cpp:182-275 | Of two calls through merged values, updating after the merge puts both on one node, and filling before it leaves each on its own. |
| AndersFacts.CalledSame | src/AndersGraph.cpp:102-111 | Representatives place a list of calls as if nothing had been merged exactly when every called value represents itself. |
| AndersRuns.RunJoin | src/AndersGraph.cpp:182-196 | Merging distinct representatives keeps the whole run invariant, the size bound of the union-find included. |
| AndersRuns.RanInv | src/AndersGraph.cpp:13-275 | Every run keeps the invariant. |
| DeliveryRuns.RanDelivering | include/AndersGraph.h:125-148 | In every run each node has delivered disjoint parts of its points-to set. |
| DeliveryRuns.LastStart | include/AndersGraph.h:125-148 | In every run each node has a step since which it was not created, reset or merged. |
| DeliveryRuns.AnswersSince | include/AndersGraph.h:137-148 | What a node has delivered is exactly what its update sets returned since that step, whatever happened to other nodes. |
| DeliveryRuns.AnswersDisjoint | include/AndersGraph.h:137-148 | At any time in any run these update sets are disjoint parts of its points-to set. |
| DeliveryRuns.DeliveredSinceStart | include/AndersGraph.h:137-148 | Right after an update set of a class, in any run: since its representative last started anew, the update sets contained each element of the points-to set exactly once, and these elements are exactly what members of the class were ever told to point to. |
| DeliveryRuns.MergeDeliversAgain | include/AndersGraph.h:238-261 | The first update set after a merge is everything the two classes pointed to. |
| ObjectMaps.ObjectMap.LowerUsed | include/ObjectMap.h:973-1000 | Renumbers representatives first; find commutes with it, values, strong flags, all tables and aliases move along and still agree with each other; the object set and the object limit stay as they were. |
| ObjectMaps.ObjSetStillNames | include/ObjectMap.h:973-1000 | The object set still names the objects exactly when it has every id that an object moves to, which the representatives determine. |
| ObjectMaps.LimitStillBounds | include/ObjectMap.h:973-1000 | A limit below which the objects lie still bounds them exactly when all ids below it are representatives or none from it on is. |
| ObjectMaps.ObjSetGoesStale | include/ObjectMap.h:973-1000 | A map with two merged ids after the default ones, for which both become wrong. |
| ObjectMaps.LowUsedPermutes | include/ObjectMap.h:973-991 | That renumbering is a permutation. |
| ObjectMaps.LowUsedOrder | include/ObjectMap.h:973-991 | Representatives come first and both groups keep their order. |
| ObjectMaps.LowUsedIdempotent | include/ObjectMap.h:973-1000 | Afterwards the representatives are exactly the first ids, and a second lowerUsed moves nothing. |
| ObjectMaps.ObjectMap.LowerObjects | include/ObjectMap.h:906-970 | Special ids stay, objects follow in order, the rest after them, and all tables move along; possible exactly when no special id is an object, and otherwise only the object limit changes before the assertion fails. |
| ObjectMaps.LowObjectsPermutes | include/ObjectMap.h:906-958 | That renumbering is a permutation. |
| ObjectMaps.LowObjectsOrder | include/ObjectMap.h:906-958 | The ids below 5 stay, the objects follow them and then the rest, in the old order within each group. |
| ObjectMaps.LowMap | include/ObjectMap.h:906-960 | The loops build it; with a special object the new ids run past the map, so it is no permutation. |
| ObjectMaps.SpecialObjectOverruns | include/ObjectMap.h:906-961 | If the special id 0 were an object, one id more would be given out than there are. |
| ObjectMaps.ObjectMap.UpdateInternal | include/ObjectMap.h:1089-1176 | Every table to and from ids, the aliases, the functions, the mapping and the representatives are renamed by the permutation; strong flags are taken from the mapping. The value, flag and representative of every id are stated outright. |
| ObjectMaps.ToMoved | include/ObjectMap.h:1089-1101 | Every value, object, return, vararg, constant and name keeps its entry, with the new id. |
| ObjectMaps.FromMoved | include/ObjectMap.h:1103-1147 | What each table had under an id it has under the new id, and nothing else; the struct table included. |
| ObjectMaps.OthersMoved | include/ObjectMap.h:1113-1158 | Aliases and what they stand for, alias lists element by element, the function list in order and the function set have the new ids. |
| ObjectMaps.RenamedInverse | include/ObjectMap.h:1089-1120 | Renaming keys and values keeps the two maps inverse to each other. |
| ObjectMaps.AgreementKept | include/ObjectMap.h:1089-1158 | Tables that agreed still agree: values and names are found under their ids, aliases are listed under their objects, the function set has the ids of the listed functions. |
| ObjectMaps.StrongSurvives | include/ObjectMap.h:1159-1164 | The strong flags survive exactly when they said which ids have a value. |
| ObjectMaps.WeakBecomesStrong | include/ObjectMap.h:1159-1164 | The first id after the default ones has a value and is not strong: under every renumbering it becomes strong. |
| LLVMHelpers.FindAllPreds | include/LLVMHelper.h:54-120 | Terminates and returns, each once, exactly the wanted instructions up to the start in its block and those of blocks that lead to it. |
| LLVMHelpers.LeadsToWalk | include/LLVMHelper.h:74-112 | The blocks found are the ends of such walks from the start block. |
| LLVMHelpers.LeadsFreely | include/LLVMHelper.h:83-88 | Without a profile a block leads to the start exactly when a walk of at least one step against the edges goes from the start to it. |
| LLVMHelpers.LeadsAlongUsed | include/LLVMHelper.h:83-88 | With a profile exactly when there is such a walk whose blocks after the first are all among the used ones. |
| LLVMHelpers.TailNeedsCycle | include/LLVMHelper.h:93-105 | The rest of the start block is returned exactly when a walk of at least one step along used blocks leads from that block back to it. |
| Worklists.Worklist.Pop | include/util.h:930-943 | Takes the last item of the current vector, swapping in the next one when it is used up; nothing is lost or repeated. |
| Worklists.SearchVisit | include/LLVMHelper.h:77-112 | Visiting an item and pushing its predecessors keeps the invariant of a backward search. |
| Worklists.SearchDone | include/LLVMHelper.h:77-112 | With the worklist empty, exactly what the roots reach has been visited. |
| CsFcnCFGs.CsFcnCFG.AddNode | include/CsFcnCFG.h:86-90 | A new node at the end, without predecessors. |
| CsFcnCFGs.CsFcnCFG.FindDirectPreds | src/CsFcnCFG.cpp:17-59 | As a set exactly the nodes reached backward through candidates; each as often as it is the start or a predecessor of a visited node. |
| CsFcnCFGs.BackwardMeans | src/CsFcnCFG.cpp:17-59 | A node is reached backward exactly when a walk of predecessors leads from the start to it on which every node's function is a candidate. |
| CsFcnCFGs.NoRepeats | src/CsFcnCFG.cpp:42-47 | No pair is reported twice exactly when the start precedes no visited node and every other visited node precedes only one. |
| CsFcnCFGs.SelfCallRepeats | src/CsFcnCFG.cpp:42-47 | A node that precedes itself is reported twice. |
| CsFcnCFGs.CsFcnCFG.CopyNodes | src/CsFcnCFG.cpp:61-95 | Old nodes are untouched; node i of the other graph is copied to a fresh id, with its function, its predecessors at their new ids, and every call-info id renumbered. |
| CsFcnCFGs.CopyCommutes | src/CsFcnCFG.cpp:17-95 | Asking the copy finds exactly the copies of the nodes found in the original. |
| CsFcnCFGs.CopyAnswers | src/CsFcnCFG.cpp:17-95 | It reports the copy of every pair exactly as often as asking the original reports the pair, and nothing else. |
| CsFcnCFGs.OldAnswers | src/CsFcnCFG.cpp:61-95 | Old nodes answer as before. |
| CsFcnCFGs.OldAnswersAsOften | src/CsFcnCFG.cpp:61-95 | With every pair as often as before. |
| SolveHelpers.BitmapLT | include/SolveHelpers.h:30-56 | Compares the iterations in step: the first difference decides, and of two bitmaps where one continues the other the longer is less. |
| SolveHelpers.LessThanPrefix | include/SolveHelpers.h:47-53 | A list is less than each of its proper prefixes. |
| SolveHelpers.LessAtFirst | include/SolveHelpers.h:36-45 | Otherwise the first difference decides. |
| SolveHelpers.BitmapOrder | include/SolveHelpers.h:30-56 | On canonical bitmaps a strict total order; incomparable exactly when equal. |
| SolveHelpers.Worklist.Push | include/SolveHelpers.h:117-120 | The entry waits for the next generation; the invariant of every run is kept. |
| SolveHelpers.Worklist.Pop | include/SolveHelpers.h:95-115 | The front of the current heap, or of the next one once it is empty; the invariant of every run is kept. |
| SolveHelpers.GenerationDone | include/SolveHelpers.h:87-159 | In any run nothing is lost or repeated, each generation pops exactly what was pushed for it, in order. |
| SolveHelpers.OrderMeans | include/SolveHelpers.h:141-148 | The heaps put lower unsigned priority first, ties by larger node, exactly for two priorities in the same half of the 32-bit range. |
| SolveHelpers.PopsMeant | include/SolveHelpers.h:95-148 | Within a generation, entries of one half are popped in that order; across the halves the higher priority comes first. |
| SolveHelpers.HighPriorityFirst | include/SolveHelpers.h:141-148 | Priority 2^31 is popped before priority 1. |
| BddVecs.BddToVector | include/SolveHelpers.h:548-608 | Appends exactly the numbers with a bit for each variable of domain 0 that is set where the assignment has 1 and clear where it has neither 1 nor -1, each once, on the fast paths as on the general loop. |
| BddVecs.DigitsMean | include/SolveHelpers.h:559-572 | The masks built from an assignment are those of its values: -1 free, 1 set, anything else clear. |
| BddVecs.FreeTwo | include/SolveHelpers.h:579-588 | The fast path for two free bits lists exactly the matching numbers. |
| BddVecs.ValueMatches | include/SolveHelpers.h:597-607 | Every choice of the free bits gives a matching number, and different choices different numbers. |
| BddVecs.MatchIsValue | include/SolveHelpers.h:597-607 | Every matching number is the value of a choice. |
| BddVecs.FillVector | include/SolveHelpers.h:530-543 | The sorted vector has each number once for every assignment it matches. |
| BddVecs.StrictIffDisjoint | include/SolveHelpers.h:530-543 | It lists exactly the members, and is strictly ascending exactly when the assignments are disjoint. |
| BddVecs.MatchingCounts | include/SolveHelpers.h:530-543 | A number is in the vector as often as there are assignments that it satisfies. |
| BddVecs.VecCache.Evict | include/SolveHelpers.h:512-531 | Terminates below the limit, having erased exactly the entry that the clock chooses. |
| BddVecs.EvictedMeans | include/SolveHelpers.h:512-531 | That entry is the first unmarked one, and the marks before it are cleared; if all are marked it is the first, and all marks are cleared. |
| BddVecs.EvictedKeeps | include/SolveHelpers.h:512-531 | That leaves one entry less, the others with their ids and vectors, in order. |
| BddVecs.VecCache.GetBddVec | include/SolveHelpers.h:498-546 | The sorted vector of exactly the numbers that satisfy an assignment of the diagram, from the cache or computed; says which entries the cache holds afterwards, that those that stay keep their vectors, and that the size stays within the limit. |

## Left out

- LLVM passes and code traversal: instructions, blocks, functions and call sites are ids with a predecessor relation.
- Runs of Tarjan's algorithm with a `should_visit` other than the default one, which visits every node, and a `scc_visit` that changes nodes: it is observed as a log of calls, while the one of src/CgOptimize.cpp:458-492 adds labels to points-to sets and cleans predecessor lists as components are completed, so what a run says of the gathered data is for the default one.
- `HCDNodeBase` (include/CgOpt.h:133-180): its `unite` moves a set of ids as that of the other nodes does, and also overwrites the base id with the other node's valid one.
- The fixed capacities `MaxStacks` and `MaxContexts` and their assertions; ids are unbounded.
- 32-bit wrap-around of Tarjan indexes, node ids and vector elements; only the signed reading of heap priorities and the 64-bit block hash are modelled.
- SparseBitmaps.SparseBitmap.Minus: yields no bitmap where the source reads past the end of its operand, because that read has no defined value.
- ObjectMaps.ObjectMap.LowerObjects: stops at the failing assertion, because a build without assertions goes on to write outside its vectors.
- BddVecs.BddToVector: has no bound on the number of free bits, where the source asserts at most 25, and adds the masks of unset bits that the source ors in.
- SparseBitmaps.SameMembersSameHash: says that equal bitmaps hash alike, not what the hash is or how well it spreads.
- The assertion that address-of constraints name allocated ids (src/AndersGraph.cpp:83).
- `std::sort`, the heap functions and the maps of the standard library are modelled by what they promise.
- Points-to sets on decision diagrams are finite sets; a diagram is an id with the assignments that the library yields for it, and ids are stable.
- The dynamic filter on points-to sets, gep offsets, and copying or moving bitmaps and iterators between objects.
- `intersects`, `count`, `singleton` and `PagedBitmap` of the bitmap file.
- The solver's own steps on nodes and constraints, value numbering before the graph is built, and `mapIn`.
- `Context` population, slicing, instrumentation, debug output and command-line options.
- `createSCC` of the SEG, a third copy of Tarjan's algorithm, and the edge and allocation orders used only for containers.
