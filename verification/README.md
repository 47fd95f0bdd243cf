# A verified model of MEMOIR

MEMOIR is a compiler and runtime for programs over collections: sequences, associative
arrays, tensors and structs. This project models the parts whose correctness is a matter of
algorithms rather than of LLVM, and proves what those parts are for.

`dafny verify dfyconfig.toml` checks all of it.

## What is modelled

**Graphs.** `GraphLite` is the adjacency-list container under the compiler's graphs, with its
two neighbour maps, its property list and its edge counter updated in place. Its invariant is
that both directions of every edge are recorded with one property, and that the property list
has exactly one entry per edge. `Digraphs` reads it as a plain digraph, with walks and
reachability. On that view stand `Traversals` (depth-first and breadth-first order),
`TopologicalOrder`, `TarjanScc` and `Condensation`. `condense` joins components only by edges
between their roots, because an edge to a node that is no root is refused by the container;
the real quotient of the graph can have more edges, and which ones depends on the roots the
search happens to pick. `QuotientIffWhollyJoined` says for which graphs the condensation is the
quotient however the components are keyed: those in which an edge from one component to
another joins every member of the one to every member of the other. Removing a node with a
self-loop erases one entry of the property list twice, which is undefined.

**Live ranges.** `ValueRanges` has the bound expressions and the two merges. `LiveRanges` runs
the solver over the condensation and characterises it: on every graph, success leaves each
root the range that its own preset or the one edge from another root gives it, and on a graph
whose components are single nodes the solver succeeds exactly when the constraints have a
solution, and then leaves that solution. The constraint of a copy adds the range of its start
index in machine words; `ShiftSoundIff` says exactly when the sum covers the elements copied.
`LiveRangeGraph` builds the constraint graph of an SSA program, which succeeds exactly when no
PHI has a version twice and every read index has a range. `UseChains` has what the constraints
come to on the instructions alone: a version has the range of its one user, and so that of the
index that reads the end of its chain. `LiveRangePipeline` shows that the graph has no cycle and
at most one solution, which is that one, and carries it through to `DeadElementElimination`,
which confines writes and inserts to the live range of the version they define. A guarded insert makes a sequence shorter, so an unguarded access later in the
program can fall out of range: the pass never changes a value that is read
(`ReadsUnchanged`), but it can make a run fail, and `RewrittenRunsIff` says exactly when it
does not, by lengths computed from the guards alone. `UnguardedWriteBreaks` is a program that
fails. The constraints the compiler implements never give a range to the operand of an insert,
so the pass with its own analysis (`EliminateDeadElements`) needs no such condition; it
completes exactly when the graph can be built, nothing is inserted and every version has one
user.

**Fields.** `Programs` is a small whole-program language with structs, calls, loops and
associative arrays, with the runtime's semantics for struct fields and for missing keys.
`FieldUses` is the call-graph traversal of field elision. It passes its visited set by value,
so it explores every simple path and ends on every call graph. The entry's list is always
exact. The other lists are exact when the recursions are foreseen, which the call graph shows
before the pass: of several functions that call each other, each learns its fields from calls
made before any that calls back, or calls back one that does. Direct self-calls do no harm. In
general the lists are exact exactly when no callee has a field that its caller lacks, which is
a condition on the lists the traversal leaves. `FieldElision`
computes the argument order, the collections of `main` and the rewritten program, and proves
that every run, ended or not, shows the same, provided that no function `main` reaches calls
`main`: `ReentrantMainBreaks` is a program that loses a write otherwise. `DeadFieldElimination`
runs the descending loop over a struct definition, with its 16-bit counter, for definitions of
any size; it leaves the intended definitions exactly when 16 bits do for each, and every run
of the intended program shows the same with the dead fields removed and the others renumbered.

**PHI placement.** `PhiPlacement` is the worklist of SSA construction. Its result is the least
set of eligible blocks closed under dominance frontiers, and a PHI put in for one name does
not change the eligible blocks of another. Dominance has its meaning from the paths of the
control-flow graph, and `OneDefinition` proves what the placement is for: one and the same
definition or PHI of a name in scope comes last on all paths to a block.

**The runtime's collections.** `HashTables` is the open-addressing table, proved equal to a map
over allocation, writes and growth; removal clears one slot, and `ClearIsDeletionIff` says for
every table exactly when that is deletion. It always is for keys whose hash values have
different remainders by the capacity. `Sequences` has the in-place and the versioned
operations and runs of both; swapping two ranges of one sequence with itself means the same in
both forms exactly when nothing moves (`SelfSwapAgreesIff`). `Vectors` and `PowersOfTwo` are the hand-written two-ended vector
with its bit trick, `Tensors` the flattened tensor.

Nodes, blocks and functions are identified by numbers that stand for their addresses.
Iteration over an unordered container takes the elements in any order, so every result holds
for all orders. Where the code iterates over a loop and updates fields, the model is a class
or a method with the same loop; where the result is a rewritten program, it is a function on
program trees.

## Where code and comments differ

The model follows the code.

- `compiler/memoir/analysis/src/LiveRangeConstraintGraph.cpp:53-54` speaks of an edge from the
  used value to the user; the edge goes from the user to the used value.
- `runtime/backend/vector/vector.h:336-338` names a move that starts behind the removed range;
  the index it computes lies behind the last element, and the length is in bytes.
- `compiler/memoir/transforms/dead_field_elimination/src/DeadFieldElimination.hpp:130-147` collects
  the escaping struct types, and nothing reads them afterwards.

## Model

| member | source | states |
|---|---|---|
| TarjanScc.PoppedIsScc | compiler/memoir/support/Graph.hpp:207-217 | when a root is left, the stack from it on is one strong component, maximal and mutually reachable |
| TarjanScc.TreeEdge | compiler/memoir/support/Graph.hpp:195-198 | the bookkeeping of the search survives a recursive call and the minimum taken after it |
| TarjanScc.OtherEdge | compiler/memoir/support/Graph.hpp:202-204 | and an edge to a node already numbered, whether it is stacked or in a finished component |
| TarjanScc.RootLeaves | compiler/memoir/support/Graph.hpp:208-217 | leaving a root adds its component and restores what the caller relies on |
| TarjanScc.NonRootStays | compiler/memoir/support/Graph.hpp:207-220 | a node with a lower low link stays stacked, with a path to a node still being visited |
| TarjanScc.TogetherIffMutual | compiler/memoir/support/Graph.hpp:177-179 | two nodes share a component exactly when each reaches the other |
| TarjanScc.Tarjan.PopComponent | compiler/memoir/support/Graph.hpp:211-216 | the popping loop takes exactly the stack from n on |
| TarjanScc.Tarjan.Visit | compiler/memoir/support/Graph.hpp:181-220 | one call of the recursive helper keeps the invariant of the search and numbers n; it ends on every graph |
| TarjanScc.Tarjan.Run | compiler/memoir/support/Graph.hpp:222-242 | the components are a partition of the nodes into strong components, each keyed by a member |
| Traversals.DepthFirstOrder | compiler/memoir/support/Graph.hpp:54-86 | lists exactly the reachable nodes, each once, in an order a depth-first search can take |
| Traversals.DepthFirstBetween | compiler/memoir/support/Graph.hpp:52-64 | in such an order, between a node and one it does not lead to there is a node that does, whenever an edge jumps over it |
| Traversals.BreadthFirstOrder | compiler/memoir/support/Graph.hpp:88-109 | lists exactly the reachable nodes, each once, by non-decreasing shortest distance |
| TopologicalOrder.Sorter.Visit | compiler/memoir/support/Graph.hpp:111-147 | a finished visit has placed the node after all it reaches; a failed one has found a cycle |
| TopologicalOrder.TopologicalOrder | compiler/memoir/support/Graph.hpp:150-175 | an order is returned exactly for a graph without cycles, self-loops included; it lists every node once and every edge goes forward |
| TopologicalOrder.TopologicalIsAcyclic | compiler/memoir/support/Graph.hpp:149-175 | a graph with such an order has no cycle |
| Condensation.Condense | compiler/memoir/support/Graph.hpp:326-365 | the nodes are the components, the edges are exactly the graph's edges between roots of different components, with their properties |
| Condensation.CondensationJoinsRoots | compiler/memoir/support/Graph.hpp:344-361 | the same on the plain digraphs |
| Condensation.JoinedRootsAcyclic | compiler/memoir/analysis/src/LiveRangeAnalysis.cpp:112-136 | a condensation has no cycle, so the topological order that is dereferenced unchecked exists |
| Condensation.QuotientIffWhollyJoined | compiler/memoir/support/Graph.hpp:349-360 | the condensation is the quotient of the graph for every choice of roots exactly when an edge between two components joins all their members |
| Condensation.QuotientEdgeLost | compiler/memoir/support/Graph.hpp:349-360 | a graph whose quotient has an edge that the condensation lacks |
| GraphLite.DirectedGraph.AddNode | compiler/memoir/support/graph_lite.h:422-435 | a new node is added with its property, a known one is left alone |
| GraphLite.DirectedGraph.AddEdge | compiler/memoir/support/graph_lite.h:503-531 | an edge is added in both directions with one property, unless an end is missing or it is there |
| GraphLite.DirectedGraph.RemoveEdge | compiler/memoir/support/graph_lite.h:1180-1200 | removal through an iterator takes away the edge, its mirror and its property |
| GraphLite.DirectedGraph.PurgeOuts | compiler/memoir/support/graph_lite.h:1271-1306 | purging clears the mirrors and the properties of all outgoing edges, and leaves the node's own list |
| GraphLite.DirectedGraph.RemoveNode | compiler/memoir/support/graph_lite.h:1309-1336 | the node and the edges at it are gone, a missing node changes nothing, and the removal is undefined exactly for a node with a self-loop |
| GraphLite.DirectedGraph.GetEdge | compiler/memoir/support/Graph.hpp:45-50 | the scan over the outgoing edges finds the property that both ends record, and falls through exactly when there is no such edge |
| GraphLite.EdgeAddedConsistent | compiler/memoir/support/graph_lite.h:522-530 | adding an edge keeps the invariant and changes no other edge or property |
| GraphLite.EdgeRemovedConsistent | compiler/memoir/support/graph_lite.h:1187-1199 | removing an edge keeps the invariant |
| GraphLite.NodeRemovedConsistent | compiler/memoir/support/graph_lite.h:1318-1335 | removing a node keeps the invariant |
| GraphLite.NodeRemovedKeeps | compiler/memoir/support/graph_lite.h:1318-1335 | exactly the edges at the node are gone, the others have their properties |
| GraphLite.EdgeCountIsOutDegreeSum | compiler/memoir/support/graph_lite.h:529 | in every reachable state the edge counter is the sum of the out-degrees |
| GraphLite.ErasedTwiceIffSelfLoop | compiler/memoir/support/graph_lite.h:1302-1304 | the two purges erase a property twice exactly for a self-loop |
| GraphLite.ViewOf | compiler/memoir/support/Graph.hpp:40-43 | the view through outgoing edges is well formed and its incoming edges are the recorded ones |
| ValueRanges.ConjunctiveIsIntersection | compiler/memoir/analysis/src/LiveRangeAnalysis.cpp:289-315 | an index is in the conjunctive merge exactly when it is in both ranges, a missing one bounding nothing |
| ValueRanges.DisjunctiveIsHull | compiler/memoir/analysis/src/LiveRangeAnalysis.cpp:260-287 | the disjunctive merge of ranges that hold something is the least range around both, a missing one holding nothing |
| ValueRanges.ShiftSoundIff | compiler/memoir/analysis/src/LiveRangeConstraintGraph.cpp:189-215 | the range a copy hands to its source contains every source element the copy reads exactly when the upper bounds add up without wrapping around, or there is no such element |
| LiveRanges.SolutionMeetsConstraints | compiler/memoir/analysis/src/LiveRangeAnalysis.cpp:150-205 | in a solution, what an edge makes of its source's range is nothing or the target's range |
| LiveRanges.SolutionsAgree | compiler/memoir/analysis/src/LiveRangeAnalysis.cpp:150-172 | every solution agrees with the ranges found so far in the order |
| LiveRanges.NoSolution | compiler/memoir/analysis/src/LiveRangeAnalysis.cpp:167-171 | where the unimplemented merge or constraint is met, the constraints have no solution |
| LiveRanges.EvaluateRoot | compiler/memoir/analysis/src/LiveRangeAnalysis.cpp:153-172 | the root of a component gets the range its incoming edges justify, or the merge is met |
| LiveRanges.EvaluateScc | compiler/memoir/analysis/src/LiveRangeAnalysis.cpp:176-204 | the other nodes of a component change, and nothing else; with success every edge to them from outside or from the root is met by the ranges, without it some constraint is unsupported or meets a second range |
| LiveRanges.Evaluate | compiler/memoir/analysis/src/LiveRangeAnalysis.cpp:110-223 | every range found is preset or comes along an edge; success justifies the range of every root by the edges between roots and meets every such edge, and a failure is due to an edge that is unsupported or makes a second range; with single-node components one pass succeeds exactly when there is a solution, and leaves it |
| LiveRangeGraph.AddUse | compiler/memoir/analysis/src/LiveRangeConstraintGraph.cpp:41-58 | both nodes and the edge from the user to the used version are in the graph; the assertion fails exactly when the edge was there |
| LiveRangeGraph.AddIndexUse | compiler/memoir/analysis/src/LiveRangeConstraintGraph.cpp:60-73 | the index with its range and its edge to the collection are in the graph |
| LiveRangeGraph.AddUses | compiler/memoir/analysis/src/LiveRangeConstraintGraph.cpp:75-229 | every use of the instruction has its edge and constraint, exactly when no operand is used twice; what the constraints come to is LiveRangePipeline.SolvableIff |
| LiveRangeGraph.Construct | compiler/memoir/analysis/src/LiveRangeAnalysis.cpp:42-108 | the constraint graph of the whole program, exactly when no PHI repeats a version and every read index has a range |
| LiveRangeGraph.SoundIsSingletons | compiler/memoir/analysis/src/LiveRangeAnalysis.cpp:112-136 | for a program whose uses follow their definitions, no two nodes of the constraint graph reach each other |
| LiveRangePipeline.SolvableIff | compiler/memoir/analysis/src/LiveRangeConstraintGraph.cpp:41-158 | the constraints have a solution exactly when nothing is inserted and each version can have the range of its users, at most one of which has one |
| LiveRangePipeline.SolutionRanges | compiler/memoir/analysis/src/LiveRangeAnalysis.cpp:110-223 | a solution has ranges for all versions exactly when every version has one user, and they are the ranges at the ends of the chains of users |
| UseChains.RangesIffUsedOnce | compiler/memoir/analysis/src/LiveRangeConstraintGraph.cpp:41-73 | the uses give all versions ranges exactly when every version has one user |
| UseChains.ChainEnds | compiler/memoir/analysis/src/LiveRangeConstraintGraph.cpp:60-73 | then the chain of users of each version ends at an index value with a range |
| LiveRangePipeline.SolutionUnique | compiler/memoir/analysis/src/LiveRangeAnalysis.cpp:110-223 | the constraints of a program have at most one solution |
| LiveRangePipeline.SolutionCovers | compiler/memoir/analysis/src/LiveRangeConstraintGraph.cpp:41-58 | a solution's ranges contain, at every use, the ranges of the users, and every index read |
| LiveRangePipeline.SolutionPreservesReads | compiler/memoir/analysis/src/LiveRangeAnalysis.cpp:225-232 | guarding by any solution leaves every read of every run as it was |
| LiveRangePipeline.EliminateDeadElements | compiler/memoir/transforms/dead_element_elimination/src/DeadElementElimination.hpp:69-247 | on the instructions alone: the pass completes exactly when no PHI repeats a version, every index read has a range, nothing is inserted and every version has one user; then every available write is confined to the range of the index at the end of its chain, a write outside leaves its version equal to its source, nothing else changes, and the program runs whenever it ran before and reads the same |
| DeadElementElimination.WriteAgrees | compiler/memoir/transforms/dead_element_elimination/src/DeadElementElimination.hpp:134-188 | a write outside its range may be left out; one below the bound can be carried out on the shorter sequence |
| DeadElementElimination.InsertAgrees | compiler/memoir/transforms/dead_element_elimination/src/DeadElementElimination.hpp:190-235 | a skipped insert agrees with the real one at all indices below the upper bound |
| DeadElementElimination.RewriteConfines | compiler/memoir/transforms/dead_element_elimination/src/DeadElementElimination.hpp:134-235 | in every state a rewritten write is carried out inside its range and leaves the sequence alone outside, an insert likewise below its upper bound; only an insert bounded from below alone cannot be rewritten |
| DeadElementElimination.ConfinedWrite | compiler/memoir/transforms/dead_element_elimination/src/DeadElementElimination.hpp:134-188 | in a run, the version of such a write equals its source exactly where the write is left out |
| DeadElementElimination.ConfinedInsert | compiler/memoir/transforms/dead_element_elimination/src/DeadElementElimination.hpp:190-235 | the same of an insert |
| DeadElementElimination.RewrittenStep | compiler/memoir/transforms/dead_element_elimination/src/DeadElementElimination.hpp:134-235 | one rewritten instruction yields a value that agrees within its range |
| DeadElementElimination.RewrittenRunsIff | compiler/memoir/transforms/dead_element_elimination/src/DeadElementElimination.hpp:69-247 | the rewritten program runs exactly when its unguarded writes and inserts have room in the lengths that the guards leave, and then all its versions agree within their ranges |
| DeadElementElimination.RunLengths | compiler/memoir/transforms/dead_element_elimination/src/DeadElementElimination.hpp:134-235 | in a run that does not fail every sequence has the length computed from the guards, and every access its room |
| DeadElementElimination.ReadsUnchanged | compiler/memoir/transforms/dead_element_elimination/src/DeadElementElimination.hpp:69-247 | whenever both programs run to their end, every read finds the value it found before |
| DeadElementElimination.NoGuardedInsertRuns | compiler/memoir/transforms/dead_element_elimination/src/DeadElementElimination.hpp:134-188 | without a guarded insert every run still succeeds |
| DeadElementElimination.BelowBoundsRuns | compiler/memoir/transforms/dead_element_elimination/src/DeadElementElimination.hpp:190-235 | nor does a run fail whose unguarded accesses lie below the bounds of their ranges |
| DeadElementElimination.UnguardedWriteBreaks | compiler/memoir/transforms/dead_element_elimination/src/DeadElementElimination.hpp:190-235 | a program with ranges sound for every use that ran and fails after the rewrite |
| DeadElementElimination.Program.Run | compiler/memoir/transforms/dead_element_elimination/src/DeadElementElimination.hpp:69-247 | the loop over the live ranges confines each available write and insert to its range and changes nothing else; it ends early exactly for a missing range or an insert bounded from below alone |
| FieldUses.LastExit | compiler/memoir/transforms/field_elision/src/FieldElision.hpp:353-384 | a path to another function leaves a function for good at some call, so what is missing below the visited set is found above it |
| FieldUses.NoWayBack | compiler/memoir/transforms/field_elision/src/FieldElision.hpp:365-373 | where no other function calls back, no path comes back to a visited caller |
| FieldUses.CoversNode | compiler/memoir/transforms/field_elision/src/FieldElision.hpp:353-394 | merging the callees' fields and its own covers everything a function reaches around its callers |
| FieldUses.CoveredIsExact | compiler/memoir/transforms/field_elision/src/FieldElision.hpp:353-394 | when that is all it reaches, its list is exact |
| FieldUses.EarlyHasAll | compiler/memoir/transforms/field_elision/src/FieldElision.hpp:353-383 | a function that learns its fields from calls made before any that calls back has them all when it is called back |
| FieldUses.ExactIffClosed | compiler/memoir/transforms/field_elision/src/FieldElision.hpp:365-383 | on every call graph, all lists are exact exactly when no callee has a field its caller lacks |
| FieldUses.MutualRecursionMisses | compiler/memoir/transforms/field_elision/src/FieldElision.hpp:365-373 | two functions calling each other, one of which misses a field it uses |
| FieldUses.LoopForeseen | compiler/memoir/transforms/field_elision/src/FieldElision.hpp:365-373 | two functions calling each other on which nothing is missed |
| FieldUses.InsertUnique | compiler/memoir/support/InternalDatatypes.hpp:131-142 | an element is added unless it is there |
| FieldUses.Traversal.Visit | compiler/memoir/transforms/field_elision/src/FieldElision.hpp:326-397 | the traversal ends on every call graph and covers what the function reaches around the visited ones; a visited callee hands over all that is listed for it, every new field is the function's own or a callee's, and the visited functions' lists stay as they are |
| FieldUses.Traversal.Follow | compiler/memoir/transforms/field_elision/src/FieldElision.hpp:353-383 | after a call site the caller's list has what is listed for the callee, visited or not, and got nothing else |
| FieldUses.Traversal.TraverseFrom | compiler/memoir/transforms/field_elision/src/FieldElision.hpp:399-417 | exactly the reachable functions get a list; the entry's list is exact, and all are if in every recursion of several functions each learns its fields early or calls back one that does, in particular if functions call themselves at most directly |
| FieldElision.InsertOrdered | compiler/memoir/support/InternalDatatypes.hpp:116-128 | insertion into the ordered list keeps it sorted by type and without duplicates |
| FieldElision.GraphIsProgram | compiler/memoir/transforms/field_elision/src/FieldElision.hpp:353-394 | the call graph has exactly the calls and the candidate accesses of the program's statements |
| FieldElision.ArgumentOrder | compiler/memoir/transforms/field_elision/src/FieldElision.hpp:457-486 | the order lists exactly the groups with a used field, each once |
| FieldElision.ArgumentOrders | compiler/memoir/transforms/field_elision/src/FieldElision.hpp:447-487 | the functions with used fields have one, the others none |
| FieldElision.Allocate | compiler/memoir/transforms/field_elision/src/FieldElision.hpp:563-595 | main gets one collection per group, whose default is the field's initial value; a group of several fields ends the pass |
| FieldElision.BoundRightly | compiler/memoir/transforms/field_elision/src/FieldElision.hpp:552-557 | the k-th extra argument meets the k-th extra parameter: each parameter stands for the collection of its group |
| FieldElision.ListsAlign | compiler/memoir/transforms/field_elision/src/FieldElision.hpp:654-668 | every access and every call of a reachable function finds its collections defined |
| FieldElision.NoneLeft | compiler/memoir/transforms/field_elision/src/FieldElision.hpp:597-783 | no access to an elided field is left in a rewritten statement |
| FieldElision.AllocAgrees | runtime/src/detail/objects.cpp:36-47 | a new struct agrees with collections that do not know it yet |
| FieldElision.AssocReadAgrees | runtime/src/detail/collections.cpp:300-308 | an elided read finds the field's value, written or not, and changes no other |
| FieldElision.AssocWriteAgrees | runtime/src/detail/collections.cpp:372-374 | an elided write changes one field of one struct |
| FieldElision.Simulates | compiler/memoir/transforms/field_elision/src/FieldElision.hpp:597-783 | every statement of the rewritten program does what the original does, step for step |
| FieldElision.SameBehaviour | compiler/memoir/transforms/field_elision/src/FieldElision.hpp:597-783 | every defined run shows the same observations and result, and an unfinished one the same so far |
| FieldElision.Elide | compiler/memoir/transforms/field_elision/src/FieldElision.hpp:419-783 | the pass rewrites by the traversal's lists, leaves no access to an elided field, and ends early exactly for a group of several fields; it preserves all runs if main is entered once and recursions are foreseen, or the lists are closed under calls |
| FieldElision.ReentrantRewritten | compiler/memoir/transforms/field_elision/src/FieldElision.hpp:496-499 | what the pass makes of a main that calls itself |
| FieldElision.ReentrantMainBreaks | compiler/memoir/transforms/field_elision/src/FieldElision.hpp:563-595 | that program shows another value afterwards, as each main has collections of its own |
| DeadFieldElimination.KeptAt | compiler/memoir/transforms/dead_field_elimination/src/DeadFieldElimination.hpp:221-284 | a live field is found at its index minus the number of dead fields below it |
| DeadFieldElimination.NewIndexMonotone | compiler/memoir/transforms/dead_field_elimination/src/DeadFieldElimination.hpp:238-284 | live fields keep their order and none share an index |
| DeadFieldElimination.KeptUpdate | compiler/memoir/transforms/dead_field_elimination/src/DeadFieldElimination.hpp:221-284 | writing a live field and dropping the dead ones commute |
| DeadFieldElimination.Definition.Remove | compiler/memoir/transforms/dead_field_elimination/src/DeadFieldElimination.hpp:234-283 | one dead field moves every access above it down by one |
| DeadFieldElimination.Definition.Transform | compiler/memoir/transforms/dead_field_elimination/src/DeadFieldElimination.hpp:213-321 | after the descending loop every live access has its new index and the definition holds the live fields in order |
| DeadFieldElimination.LeftIsRightIff | compiler/memoir/transforms/dead_field_elimination/src/DeadFieldElimination.hpp:221-230 | for any number of fields, the definition left by the 16-bit loop is right exactly when it finds nothing dead or leaves nothing live above its start |
| DeadFieldElimination.LiveIsAccessed | compiler/memoir/transforms/dead_field_elimination/src/DeadFieldElimination.hpp:155-200 | a field is live exactly when some statement of the program reads or writes it, and a type is seen exactly when some statement is about its structs |
| DeadFieldElimination.Analyze | compiler/memoir/transforms/dead_field_elimination/src/DeadFieldElimination.hpp:155-200 | the live fields of every struct type with their accesses |
| DeadFieldElimination.Eliminate | compiler/memoir/transforms/dead_field_elimination/src/DeadFieldElimination.hpp:203-321 | all definitions and accesses end as the loops leave them, which is as the rewritten program has them exactly when 16 bits do for every definition |
| DeadFieldElimination.ExecInNewLayout | runtime/src/detail/objects.cpp:71-83 | every statement does in the new layout what it did in the old one |
| DeadFieldElimination.SameBehaviour | compiler/memoir/transforms/dead_field_elimination/src/DeadFieldElimination.hpp:203-321 | every defined run shows the same without the dead fields |
| PhiPlacement.Function.TryInsert | compiler/memoir/transforms/ssa_construction/src/Pass.cpp:220-264 | a PHI is inserted exactly in an eligible block, with the name once for each predecessor |
| PhiPlacement.Function.Cross | compiler/memoir/transforms/ssa_construction/src/Pass.cpp:209-273 | one round adds the eligible part of a frontier, and queues each added block once |
| PhiPlacement.Function.Place | compiler/memoir/transforms/ssa_construction/src/Pass.cpp:205-274 | the worklist ends, with exactly the least closed set of eligible blocks: a block gets a PHI only if the name is defined on every path to each predecessor and no PHI there has it, and frontier blocks of definitions and PHIs do whenever that holds |
| PhiPlacement.EligibleIff | compiler/memoir/transforms/ssa_construction/src/Pass.cpp:220-248 | the dominance test holds exactly when the name is defined on every path from the entry to every predecessor |
| PhiPlacement.SameDefinitions | compiler/memoir/transforms/ssa_construction/src/Pass.cpp:205-274 | where a PHI may be put and is not, the definitions and PHIs on every path to the block are those on every path to any predecessor |
| PhiPlacement.LastOnEveryPath | compiler/memoir/transforms/ssa_construction/src/Pass.cpp:205-274 | the last definition or PHI on one path to a block where the name is in scope is on every path to it |
| PhiPlacement.OneDefinition | compiler/memoir/transforms/ssa_construction/src/Pass.cpp:205-274 | so one and the same definition or PHI comes last on all paths to the block |
| PhiPlacement.OthersKeepEligible | compiler/memoir/transforms/ssa_construction/src/Pass.cpp:235-248 | PHIs of other names leave the eligible blocks of a name as they were |
| PhiPlacement.Function.PlaceAll | compiler/memoir/transforms/ssa_construction/src/Pass.cpp:154-275 | over all names, each block gets exactly one PHI per name placed there, on top of those it had, and each placement is right on the graph as it was |
| PhiPlacement.PlacementsDetermined | compiler/memoir/transforms/ssa_construction/src/Pass.cpp:205-274 | whatever order the frontiers are walked in, every run puts the same PHIs in the same blocks |
| HashTables.MaskIsRemainder | runtime/backend/hashtable/hashtable.h:258 | masking by a power of two less one is the remainder |
| HashTables.FindIsMap | runtime/backend/hashtable/hashtable.h:254-278 | probing finds exactly the entries of the map |
| HashTables.StoreKeeps | runtime/backend/hashtable/hashtable.h:281-312 | storing where the probe stops updates the map and keeps every entry findable |
| HashTables.SlotsAreEntries | runtime/backend/hashtable/hashtable.h:309 | the taken slots are as many as the entries, so a table not full has a free slot |
| HashTables.ClearIsDeletionIff | runtime/backend/hashtable/hashtable.h:363-367 | clearing a slot is deletion exactly when no other key's probe path crosses it |
| HashTables.NextFreeUncrossed | runtime/backend/hashtable/hashtable.h:363-375 | which is the case when the next slot is free |
| HashTables.AtRemainder | runtime/backend/hashtable/hashtable.h:281-312 | keys whose hash values have different remainders all lie at the slot of their remainder |
| HashTables.ApartUncrossed | runtime/backend/hashtable/hashtable.h:354-379 | so no probe path crosses a slot |
| HashTables.HashTable.Has | runtime/backend/hashtable/hashtable.h:254-278 | whether the key is in the map |
| HashTables.HashTable.Read | runtime/backend/hashtable/hashtable.h:329-352 | the value of the key, zero if it is missing |
| HashTables.HashTable.Size | runtime/backend/hashtable/hashtable.h:418-421 | the number of entries |
| HashTables.HashTable.Expand | runtime/backend/hashtable/hashtable.h:383-416 | the same map in twice the capacity, which stays a power of two |
| HashTables.HashTable.Write | runtime/backend/hashtable/hashtable.h:315-327 | map update, with the load kept at most half; an entry goes to the slot of its hash value's remainder if that is free |
| HashTables.HashTable.Remove | runtime/backend/hashtable/hashtable.h:354-379 | the entry is gone from the slots; the table is valid again exactly when no probe path crossed its slot, and whenever the hash values of the keys have different remainders |
| Sequences.SwapRunsAt | runtime/src/mut_operations.cpp:126-130 | what the element-by-element swap leaves at each index, for ranges that overlap or not |
| Sequences.SwapRunsKeepElements | runtime/src/mut_operations.cpp:109-131 | the swap keeps the multiset of elements |
| Sequences.SwapApart | runtime/src/mut_operations.cpp:126-130 | ranges that do not overlap change places |
| Sequences.SequenceAlloc.Append | runtime/src/mut_operations.cpp:59-77 | growing and copying is insertion at the end |
| Sequences.SequenceAlloc.Swap | runtime/src/mut_operations.cpp:80-106 | two sequences exchange the ranges, or one its own element by element when it is given twice, or an assertion ends the program with nothing changed |
| Sequences.SequenceAlloc.SwapWithin | runtime/src/mut_operations.cpp:109-131 | the same within one sequence |
| Sequences.SequenceAlloc.Split | runtime/src/mut_operations.cpp:135-158 | the range moves to a new sequence |
| Sequences.SplitInsert | runtime/src/mut_operations.cpp:135-158 | inserting it again at the same point restores the sequence |
| Sequences.InsertedElement | runtime/src/ssa_operations.cpp:100-122 | a new version with the element, the argument untouched |
| Sequences.InsertedSequence | runtime/src/ssa_operations.cpp:130-158 | a new version with the sequence inserted |
| Sequences.RemovedRange | runtime/src/ssa_operations.cpp:162-188 | a new version without the range |
| Sequences.SwappedRanges | runtime/src/ssa_operations.cpp:193-243 | two new versions with the ranges exchanged |
| Sequences.SwappedWithin | runtime/src/ssa_operations.cpp:248-292 | a new version with the ranges swapped |
| Sequences.RunInPlace | runtime/src/mut_operations.cpp:18-131 | a list of operations in place leaves the contents it means |
| Sequences.RunVersions | runtime/src/ssa_operations.cpp:96-292 | the same list as versions ends with the same contents, and at its end every earlier version is unchanged |
| Sequences.SelfSwapAgreesIff | runtime/src/ssa_operations.cpp:223-243 | swapping ranges of one sequence given twice: the in-place contents are the first new version exactly when the ranges are empty or the same |
| Sequences.SelfSwapAgreesSecondIff | runtime/src/ssa_operations.cpp:223-243 | and likewise the second |
| Vectors.Move | runtime/backend/vector/vector.h:336-348 | copying forwards or backwards is one simultaneous move, overlapping or not |
| PowersOfTwo.SmearFills | runtime/backend/vector/vector.h:282-288 | the six or-shifts set every bit below the highest |
| PowersOfTwo.NextPowerOfTwoIff | runtime/backend/vector/vector.h:282-289 | in 64 bits the trick gives the least power of two at least n exactly from 1 to 2^63, and 0 elsewhere |
| Vectors.Vector.Allocate | runtime/backend/vector/vector.h:281-300 | n elements in the middle of that capacity; above 2^63 the capacity wraps around to none and the vector is not valid |
| Vectors.Vector.Remove | runtime/backend/vector/vector.h:323-352 | range deletion in every branch but the one that pulls the back part down, which copies as many bytes as it should copy elements |
| Vectors.BackShiftWrong | runtime/backend/vector/vector.h:333-341 | whenever that branch is taken, for elements of any width, there is a storage for which it is wrong |
| Vectors.Vector.InsertElement | runtime/backend/vector/vector.h:448-515 | sequence insertion, growth included, defined exactly when there is room behind the last element or the vector is completely full |
| Vectors.Vector.Swap | runtime/backend/vector/vector.h:517-531 | the element-by-element swap of the runtime |
| Tensors.FlatInLength | runtime/src/detail/collections.cpp:59-100 | every index tuple in range flattens below the allocated length |
| Tensors.NonIncreasingIsInjective | runtime/src/detail/collections.cpp:85-100 | if the lengths other than 1 never grow, different tuples have different places |
| Tensors.Collision | runtime/src/detail/collections.cpp:94-96 | if they grow and none is 0, two tuples share a place |
| Tensors.InjectiveIff | runtime/src/detail/collections.cpp:85-100 | exactly when different tuples have different places |
| Tensors.Tensor.Flatten | runtime/src/detail/collections.cpp:85-99 | the place of a tuple, or the range assertion |
| Tensors.Tensor.Set | runtime/src/detail/collections.cpp:114-130 | a write reaches its tuple, and changes no other exactly where places are different |

## Left out

- TarjanScc.Tarjan.Run: indices do not wrap around at 2^32, because that needs a graph of more than four billion nodes.
- LiveRanges.Evaluate: with components of several nodes no condition known before the call is given for success, and edges into a member that is no root are only covered by EvaluateScc at the time it is evaluated, because the merges inside a component are unimplemented in the compiler and depend on the identity of range objects and on the order of the members.
- LiveRanges.EvaluateScc: an edge between two members that are no roots is not said to be met at the end, because its source can get its range after its target has been evaluated.
- LiveRangePipeline.EliminateDeadElements: a live range that is missing is a null dereference in the compiler; the model ends the pass there, because the run is undefined.
- LiveRangePipeline.AddUses: multi-dimensional reads, which the compiler warns about and skips, are not instructions of the model.
- FieldElision.Elide: call graphs with recursions that are not foreseen are covered only when the traversal's lists come out closed under calls, because otherwise collections can be missing.
- FieldElision.Elide: a main that is entered again is not covered, although a program whose entries of main share no struct shows the same; whether they do is not visible in the call graph.
- FieldElision.Elide: functions without a body and calls through pointers appear only in the call graph of FieldUses, because a struct passed to them escapes and its type is not elided.
- DeadFieldElimination.Eliminate: accesses name fields of their type, because one beyond the definition is undefined before the pass as well.
- Vectors.Vector.Remove: the bytes of an element lie in memory from the lowest to the highest, as on the supported targets.
- Tensors.Tensor.Set: the 32-bit arithmetic of the index is unbounded here, because lengths are assumed to stay below 2^31.
- HashTables.HashTable.Expand: overflow of the capacity and failure of the allocation, which end the program.
- PhiPlacement.Function.Place: dominance and the frontiers of reachable blocks are taken to be what the compiler's analyses promise; computing them is not modelled.
- PhiPlacement.OneDefinition: names that had a PHI before are not covered, because which blocks then lack one depends on the values of those PHIs.
- The pointer-keyed table variant, the nesting table and the library-backed back ends.
- Escape analysis of struct values and nested structs as fields; accesses are reads and writes of single fields.
- The selection of definition blocks of a name in SSA construction, its renaming and its clean-up.
- `sequence_copy` of the versioned operations, which erases its argument; so the program language has no copies, and their constraint is modelled in ValueRanges and LiveRanges alone. Sequence views and slices.
- `insert_range` of the vector and removal of edges by value.
- Range analysis, materialisation of bounds, type and liveness analysis, and all LLVM plumbing.
