# Loop fission: a verified model

The repository distributes a loop over several loops in two ways. `gcc-fission.patch.c` plans a distribution
inside GCC: a reduced dependence graph, partitions of statements that share scalars (with cheap scalars
recomputed in several partitions), strongly connected components of the partitions, and a topological order of
the components. `lib/splitpass` does it in LLVM: `DG.cpp` orients memory dependences, `BP.cpp` groups
instructions, and `splitpass2.cpp` clones the loop once per group and erases the rest from each clone.

This project models both, proves the algorithms against what they are for, and ties them to the meaning of the
loop. For GCC: running the planned loops one after the other leaves the memory that the original loop leaves, exactly
under a stated condition (`PlanNecessity.DistributePreserves`). For LLVM: the blocks that the pass leaves are run on a
small machine with registers, memory, phi nodes and branches, and compute what the function computed, exactly under
stated conditions (`PlanFission.FissionLoop`).

How it is organised:

- `Options`, `Digraph`: an optional value; paths, reachability, transposition.
- `DepthFirst`, `SearchFacts`, `SearchForest`, `Components`, `ComponentMembers`, `TopologicalOrder`: the timed
  depth-first search, its forest, the two-pass component numbering and the bucket order, as functions on values, and their theory.
- `ReducedGraph`, `EdgeCreation`, `PartitionGraph`, `Plan`: the same procedures as methods that write vertex
  fields, push onto lists and swap edge ends in place, each proved to compute exactly those functions.
- `StatementGraph`, `PartitionMeaning`, `PlanMeaning`: what partitions, components and the plan mean.
- `Distribution`, `Recomputation`, `PlanSafety`, `PlanNecessity`: executions of a loop and of the loops it is split
  into, and when the plan is safe.
- `LoopDependences`, `RegisterPartitions`, `PartitionEdges`, `SccGroups`, `Regrouping`, `GroupPlan`: `DG.cpp`, `BP.cpp`.
- `LoopSplit`, `SplitOrder`, `LoopCopies`, `SplitPass`, `LoopErasure`, `SplitRun`, `SplitResult`, `SplitLoops`:
  `splitpass2.cpp`, the control-flow graph and the copies.
- `Execution`, `LoopCode`, `CodeFission`, `SplitMeaning`: running the blocks, and what the split function computes.
- `PlanFission`, `GroupSurvival`: from the reported facts to the split function, and which instructions survive.

Where the code does not do what one would expect, the model follows the code:

- `new_prdg_edge` takes sink before source (`gcc-fission.patch.c:597-599`), but both callers pass source before sink
  (700-701, 873-874). The stored edges therefore run against the dependences, and the plan as listed runs the loop
  of a sink before the loop of its source. `PlanNecessity.ListedPreservesIff` says exactly when the listed plan still
  preserves the memory, `PlanNecessity.TwoStatementsBreak` gives a loop whose memory it changes, and
  `PlanSafety.ReversedPlanPreserves` shows that the plan read from its end is always safe.
- `build_scc` refreshes `visited_tmp` before it marks the new group, so the next search starts from marks that are
  one round old. Groups are always sound and cover everything; they are the components, in order, exactly
  under the condition of `SccGroups.ExactIffInputOrdered`, and `SccGroups.SplitComponent` shows a failure.
- `runOnFunction` makes no loop for the last two groups, taking them to be the increment and the branch, but
  the groups come in the order of addresses. Exactly the instructions of the last two groups are lost
  (`GroupSurvival.SurvivesInOneLoop`); `GroupSurvival.BodyLost` shows a loop that loses its whole body.
- The branch of a block between header and latch is analysed and erased like any other instruction
  (`splitpass2.cpp:249-265`), so with exact groups such a block loses its end in all copies but one
  (`GroupSurvival.MiddleBlockLosesEnd`), and the split function is then right only where the loop does not complete an
  iteration (`SplitMeaning.SplitComputesLoopIff`). The loops of `example/ppt_example.simple.ll` are of this kind.
- `CreateOneLoop` sets the first successor of the clone's header to the body (145-148). If the header named the exit
  first, that overwrites the way out, and the clone is never left (`SplitOrder.SpliceKeepsOrderIff`,
  `SplitMeaning.CaughtComputesIff`).
- `correct_partitions_p` writes `!len == 1`, which only repeats its test for emptiness; `MarkPartitions` proves the
  property its comment describes.
- The comment on the enumeration of groupings in `BP.cpp:321-329` is the wrong way round: index 0 merges everything
  and the last index cuts everywhere.
- The search inside `topological_sort` writes component number 0 over every vertex of the component graph.

## Model

| member | source | states |
|---|---|---|
| `EdgeCreation.CountScalar` | gcc-fission.patch.c:1198-1240 | the scalar edges are counted right: as many as definition and use pairs inside the graph |
| `EdgeCreation.CountData` | gcc-fission.patch.c:1244-1256 | the data edges are counted right: one for every distance vector of a dependent relation |
| `EdgeCreation.CreateEdges` | gcc-fission.patch.c:1334-1419 | one edge, in table order, for every distance vector of a dependent relation and for every use in a statement of the graph, and no other; the first lead from the statement of b to that of a if the relation is reversed and from a to b otherwise, their kind says which reference reads, their level is the first positive distance; the others lead from definition to use; exactly the slots counted are filled |
| `EdgeCreation.AllTold` | gcc-fission.patch.c:1277-1419 | the same for the list of edges that count and fill follow: nothing is missing, doubled or out of order |
| `EdgeCreation.OutInOrder` | gcc-fission.patch.c:1328-1329 | a vertex lists exactly the edges that leave it, in the order in which they were made |
| `EdgeCreation.ListedOnce` | gcc-fission.patch.c:1328-1329 | each edge is once in the list of its source, once in the list of its sink, and in no other list |
| `EdgeCreation.CreatedIsValid` | gcc-fission.patch.c:1603-1658 | the graph so made meets everything the partitioning requires of it |
| `ReducedGraph.Rdg.CanRecompute` | gcc-fission.patch.c:714-729 | true exactly if no array statement is the statement itself or a scalar ancestor of it |
| `StatementGraph.MovesMeaning` | gcc-fission.patch.c:733-752 | what one_prdg reaches from a non-recomputable root, as paths: the non-recomputable statements connected to the root, and the scalar ancestors of those |
| `ReducedGraph.Rdg.OnePartition` | gcc-fission.patch.c:733-752 | the recursive marking appends p to exactly the lists of the statements reached from v, once, and changes no other list |
| `ReducedGraph.Rdg.CorrectPartitions` | gcc-fission.patch.c:756-776 | what correct_partitions_p really tests: some partition, and no statement without one |
| `ReducedGraph.Rdg.MarkPartitions` | gcc-fission.patch.c:782-819 | the partition lists are exact, no partition is without an array statement, partitions are numbered in the order of their first array statements in the list, and every statement carries its numbers in rising order |
| `PartitionMeaning.FirstListed` | gcc-fission.patch.c:803-806 | every partition has a first array statement in the list |
| `PartitionMeaning.RootedIsExact` | gcc-fission.patch.c:714-819 | each non-recomputable statement is in one partition; two share it exactly if scalar edges among non-recomputable statements connect them; a recomputable one is in p exactly if it feeds a member of p, and in all partitions if it feeds none |
| `PartitionMeaning.RootsOwnPartitions` | gcc-fission.patch.c:803-806 | every partition has its root array statement |
| `PartitionMeaning.OnePartitionIsExact` | gcc-fission.patch.c:793-801 | without array statements the single partition is exact too |
| `PartitionGraph.Prdg.DfsVisit` | gcc-fission.patch.c:386-418 | the recursive visit, writing fields in place, ends in the state that the function Visit gives; the facts below are about that function |
| `SearchFacts.VisitKeeps` | gcc-fission.patch.c:386-418 | every visit keeps the invariant: no edge from a finished to a white vertex, a component finishes no earlier than what it reaches, intervals nested or disjoint |
| `SearchFacts.WhitePathTheorem` | gcc-fission.patch.c:386-418 | a visit finishes exactly the vertices reached by paths white at its start, with intervals inside that of the vertex visited |
| `Components.SearchDone` | gcc-fission.patch.c:424-443 | on every graph the search finishes every vertex at clock 2n, with the invariant |
| `Components.FinishTimesDistinct` | gcc-fission.patch.c:1699-1720 | discovery and finish times lie in 1..2n and differ, and intervals are nested or disjoint, so buckets never collide or overflow |
| `SearchForest.PredecessorForest` | gcc-fission.patch.c:386-443 | predecessors after a search: none exactly where all vertices before it in the list were finished first; elsewhere an edge leads from the predecessor, whose interval holds that of the vertex, and earlier edges of the predecessor led to what was discovered before |
| `PartitionGraph.Prdg.Transpose` | gcc-fission.patch.c:506-519 | all edges turned around in place, nothing else changed |
| `PartitionGraph.Prdg.SortByFinish` | gcc-fission.patch.c:479-487 | the insertions list the vertices as FinishOrder does |
| `Components.FinishOrderSorted` | gcc-fission.patch.c:479-487 | that list is sorted by finish time |
| `Components.SearchIsFirstPass` | gcc-fission.patch.c:424-443 | after the first search, whatever u reaches finishes no later than some member of the component of u |
| `Components.RootVisit` | gcc-fission.patch.c:491-501 | each root visit of the second pass finishes exactly the component of the root, all of it new |
| `Components.NumberCorrect` | gcc-fission.patch.c:524-535 | on every graph: equal numbers exactly for mutually reachable vertices, the numbers used are exactly 1..k, and no stored edge leads to a smaller number |
| `SearchForest.NumberedForest` | gcc-fission.patch.c:449-501 | after the numbering exactly the first discovered vertex of each component has no predecessor, and components are numbered by falling first finish times of these vertices |
| `PartitionGraph.Prdg.Scc` | gcc-fission.patch.c:524-535 | the in-place procedure computes that numbering and leaves the edges as they were |
| `ComponentMembers.NumberPushes` | gcc-fission.patch.c:398-401 | every statement carries the numbers of the components of its partitions and no others |
| `Plan.PartitionEdges` | gcc-fission.patch.c:863-878 | one edge for each data dependence, naming it, in the same order, stored from the partition of its sink to that of its source |
| `Plan.BuildPrdg` | gcc-fission.patch.c:838-881 | exact partitions numbered in order, and the partition graph built from them: vertex k - 1 holds, in order, the statements that carry k |
| `Plan.BuildSccGraph` | gcc-fission.patch.c:654-708 | the components of the partition graph, and the component graph built from them |
| `PlanMeaning.SameComponent` | gcc-fission.patch.c:654-708 | two array statements share a component exactly if their partitions reach each other |
| `PlanMeaning.ComponentGraphAcyclic` | gcc-fission.patch.c:654-708 | the component graph has no cycle but self-loops |
| `PartitionGraph.Prdg.TopologicalSort` | gcc-fission.patch.c:1691-1725 | filling and draining the buckets gives the list Order |
| `TopologicalOrder.OrderIsPermutation` | gcc-fission.patch.c:1691-1725 | every vertex is listed once, by falling finish time |
| `TopologicalOrder.OrderTopologicalIff` | gcc-fission.patch.c:1691-1725 | the list is a topological order exactly if the graph has no cycle but self-loops |
| `Plan.Distribute` | gcc-fission.patch.c:1778-1796 | do_distribution from the dependence graph on: exact partitions, components, and a plan that is a permutation with every stored edge pointing forward |
| `PlanMeaning.SinkFirst` | gcc-fission.patch.c:597-609 | as listed, the plan puts the sink of a dependence between two components before its source, since build_prdg and build_scc_graph pass source and sink in the other order (lines 700-701, 873-874) |
| `PlanMeaning.ReversedRespects` | gcc-fission.patch.c:700-701 | read from its end, the plan respects every dependence |
| `PlanMeaning.RespectsIff` | gcc-fission.patch.c:873-874 | as listed, the plan respects the dependences exactly if every data dependence lies on a cycle of the partition graph |
| `Plan.PlanAndDependences` | gcc-fission.patch.c:1778-1796 | both facts for the graphs that do_distribution builds |
| `Distribution.StepLaw` | example/ppt_example_manual_split.c:11-20 | an operation of a run writes what it computes from the values its cells hold then, in order, and changes no other cell |
| `Recomputation.StatementLaw` | gcc-fission.patch.c:733-752 | a statement of a loop combines the registers of its operands in that loop and the cells it loads, and writes the cell it stores to or its own register in that loop |
| `Distribution.Reorder` | example/ppt_example_manual_split.c:11-20 | two orders that agree on all conflicting pairs compute the same store |
| `Distribution.DistributionPreserves` | lib/splitpass/splitpass2.cpp:207-285 | for every body, trip count and store: running groups as consecutive full loops computes what the loop computes, if no dependence leads from a later group to an earlier one |
| `Recomputation.CopiesLegal` | gcc-fission.patch.c:733-752 | copies of recomputed statements, each with registers of its own loop, introduce no dependence to an earlier loop |
| `Recomputation.LoopFollows` | gcc-fission.patch.c:733-752 | the loop with recomputed copies, run unsplit, has after every iteration the memory of the original and the right value in each register |
| `Recomputation.RecomputationPreserves` | gcc-fission.patch.c:733-819 | splitting with recomputation preserves the memory, if each array statement is in one loop with all its scalar ancestors and no data dependence leads to an earlier loop |
| `PlanSafety.PlanSound` | gcc-fission.patch.c:654-708 | in any plan each array statement is in one loop, with all its scalar ancestors |
| `PlanSafety.ReversedPlanPreserves` | gcc-fission.patch.c:1778-1796 | for every body, described program, trip count and store: the plan read from its end preserves the memory |
| `PlanNecessity.ListedPlanBreaks` | gcc-fission.patch.c:1778-1796 | for every data dependence off the cycles, a program with that dependence whose memory the listed plan changes |
| `PlanNecessity.ListedPreservesIff` | gcc-fission.patch.c:1778-1796 | as listed, the plan preserves the memory of every described program, trip count and store exactly if every data dependence lies on a cycle of the partition graph |
| `PlanNecessity.DistributePreserves` | gcc-fission.patch.c:1747-1800 | the same for the graphs that do_distribution builds; read from its end the plan always preserves it |
| `PlanNecessity.TwoStatementsBreak` | gcc-fission.patch.c:1778-1796 | two statements on which every plan that can be computed is backwards and changes the memory of some program |
| `LoopDependences.PairDecided` | lib/splitpass/DG.cpp:53-72 | the test of one pair, against the map built so far, agrees with the orientation defined independently of iteration |
| `LoopDependences.BuildDependences` | lib/splitpass/DG.cpp:45-86 | with a symmetric oracle x -> y is recorded exactly if LT is reported, or EQ and x is earlier in the body, or no direction at all; register edges are the uses in the body |
| `RegisterPartitions.DualMap` | lib/splitpass/BP.cpp:65-81 | the symmetric closure, for every map, although the map iterated over grows |
| `RegisterPartitions.RemoveDuplicates` | lib/splitpass/BP.cpp:261-276 | at most one element is to be removed, the root of the search, and the erasing leaves exactly the others |
| `RegisterPartitions.Dfs` | lib/splitpass/BP.cpp:247-282 | the search returns each new vertex once and marks all of them, although its root is never marked by the caller; across the recursion the root is entered once more than the vertices newly marked, these once each |
| `RegisterPartitions.BuildPartition` | lib/splitpass/BP.cpp:82-106 | exactly the connected components of a symmetric graph, each element once |
| `PartitionEdges.FindEdges` | lib/splitpass/BP.cpp:121-144 | an edge between two partitions exactly if a memory dependence leads from a member of one to a member of the other |
| `SccGroups.DfsScc` | lib/splitpass/BP.cpp:213-245 | what a search returns and marks, for any marks it starts from: exactly what is reached outside them |
| `SccGroups.BuildScc` | lib/splitpass/BP.cpp:146-211 | all rounds, including the stale marks of the root searches; every partition is in some group |
| `SccGroups.GroupsAreMutual` | lib/splitpass/BP.cpp:146-211 | for every graph the members of a group reach each other |
| `SccGroups.ExactIffInputOrdered` | lib/splitpass/BP.cpp:146-211 | the groups are the components, each once, in dependence order, exactly if the components listed by first member already are in dependence order |
| `SccGroups.SplitComponent` | lib/splitpass/BP.cpp:170-181 | on a cycle listed after a partition it leads to, the stale marks split the component and put a partition into two groups |
| `GroupPlan.PlanGroups` | lib/splitpass/BP.cpp:28-32 | the whole analysis: components through registers, edges from oriented dependences, groups, and the list of each group, which is that of its partitions one behind the other: multiset and length are the sums of theirs, and nothing is twice in it |
| `GroupPlan.ListsArePermutation` | lib/splitpass/BP.cpp:193-203 | where the groups are exact, every analysed instruction is in exactly one list, once: all lists together are a permutation of the instructions |
| `GroupPlan.RegroupedShares` | lib/splitpass/BP.cpp:473-505 | regrouping shares out what was shared out, each instruction once |
| `GroupPlan.DependenceRises` | lib/splitpass/BP.cpp:146-211 | where the groups are exact and ordered, no dependence of a sound analysis leads to an earlier group |
| `Regrouping.Decode` | lib/splitpass/BP.cpp:347-352 | the shift and subtract loop gives the binary digits of the index |
| `Regrouping.ValueInjective` | lib/splitpass/BP.cpp:346-352 | an index has one string of digits |
| `Regrouping.SizesOfMerged` | lib/splitpass/BP.cpp:354-366 | the size list of an index is that of the plan rebuilt from it |
| `Regrouping.FlatOfMerged` | lib/splitpass/BP.cpp:473-483 | regrouping keeps every instruction, in order |
| `Regrouping.CheckPartition` | lib/splitpass/BP.cpp:293-519 | the first index of least score wins, its plan is built, and the last two entries follow unchanged |
| `Regrouping.BestOfAllCuts` | lib/splitpass/BP.cpp:456-461 | no other choice of cuts scores less |
| `Regrouping.ChosenIsBest` | lib/splitpass/BP.cpp:456-505 | of all ways to group the entries but the last two, the cuts chosen make sizes that score least, and no smaller index ties |
| `Regrouping.NeighboursJoined` | lib/splitpass/BP.cpp:473-505 | two neighbours are merged exactly if the digit between them is 0, and the last two are entries of their own |
| `Regrouping.InItsPlace` | lib/splitpass/BP.cpp:473-505 | where every old entry ends up in the new list, the last two included, and that nothing else is there |
| `Regrouping.PlacesRise` | lib/splitpass/BP.cpp:473-505 | no entry overtakes another, and the last two stay apart from the rest |
| `PlanFission.RegroupingPreserves` | lib/splitpass/BP.cpp:466-505 | whichever cuts win, no dependence leads to an earlier entry of the new list, and its entries run as loops compute what the loop computes |
| `SplitPass.Function.CloneBlocks` | lib/splitpass/splitpass2.cpp:78-103 | copies of the blocks appended, with maps from old to new and from new to old |
| `SplitPass.Function.Link` | lib/splitpass/splitpass2.cpp:141-148 | the first successor of every block of the clone is set to the next block, that of the last to the header |
| `SplitPass.Function.CreateOneLoop` | lib/splitpass/splitpass2.cpp:65-166 | all steps together make the function Splice, the clone and its instMap, whichever successor the header names first |
| `LoopSplit.SpliceKeepsWellFormed` | lib/splitpass/splitpass2.cpp:78-156 | after a splice the incoming blocks of every phi node are again the predecessors of its block, if the header names the next block first |
| `SplitOrder.SpliceInOrder` | lib/splitpass/splitpass2.cpp:65-166 | cloning the first of a row of such loops makes the clone the second |
| `SplitOrder.SpliceKeepsOrderIff` | lib/splitpass/splitpass2.cpp:141-148 | a splice keeps the row in order and the phi nodes right exactly if the header names the next block of its loop first |
| `SplitOrder.ExitFirstLoopBreaks` | lib/splitpass/splitpass2.cpp:141-148 | a loop whose header names the exit first: its clone is never left, and a phi node of the exit is wrong |
| `SplitOrder.SpliceRestarts` | lib/splitpass/splitpass2.cpp:114-135 | all loops of the row still start from the same values |
| `SplitOrder.ControlRunsInOrder` | lib/splitpass/splitpass2.cpp:223-246 | every walk from the first header to the exit runs the loops one after the other, each some number of times |
| `SplitOrder.EveryTourIsWalk` | lib/splitpass/splitpass2.cpp:223-246 | and every choice of trip counts is such a walk |
| `LoopCopies.CloneIsCopy` | lib/splitpass/splitpass2.cpp:84-112 | every block of a clone is the block it was copied from, opcodes and operands included, with the values of the loop moved by one distance |
| `LoopCopies.ClonePrivate` | lib/splitpass/splitpass2.cpp:106-111 | what only later erasable instructions of the loop use is, copied, only used by later erasable instructions of the clone |
| `LoopErasure.NoUseLeft` | lib/splitpass/splitpass2.cpp:249-282 | when the reverse loops over blocks and instructions come to an instruction of another group, nothing in the function uses it any more |
| `LoopErasure.EraseOthers` | lib/splitpass/splitpass2.cpp:249-283 | all blocks after the header, the last first: what is left are the instructions of the group in order, the last two of the latch, and the branches that are in the group |
| `SplitRun.CloneKeepsPicture` | lib/splitpass/splitpass2.cpp:224-232 | every call of CreateOneLoop keeps order, initial values, well-formedness, copies and privacy |
| `SplitResult.EraseFromAll` | lib/splitpass/splitpass2.cpp:241-285 | group i is what the i-th loop that runs keeps |
| `SplitResult.ErasedCopy` | lib/splitpass/splitpass2.cpp:270-281 | what is left of a clone is the copy of what would be left of the loop |
| `SplitLoops.EndsKeptIff` | lib/splitpass/splitpass2.cpp:249-283 | every block of every copy keeps its end exactly if there is no block between header and latch, or the branch of each such block is in every group that gets a loop |
| `SplitLoops.SplitLoop` | lib/splitpass/splitpass2.cpp:207-285 | the whole transformation of one loop of any length; the loops are left in order exactly if the header names the body first and all ends are kept |
| `SplitLoops.ThreeBlockLoopLosesEnd` | lib/splitpass/splitpass2.cpp:249-265 | a loop with one block between header and latch that meets every requirement and loses an end |
| `GroupSurvival.MiddleBlockLosesEnd` | lib/splitpass/splitpass2.cpp:249-265 | with exact groups every loop that is split and has such a block loses an end |
| `GroupSurvival.SurvivesInOneLoop` | lib/splitpass/splitpass2.cpp:212-285 | with exact groups an instruction survives in exactly one of the loops made (two fewer than there are groups) if and only if it is in neither of the last two groups |
| `GroupSurvival.AllSurviveIff` | lib/splitpass/splitpass2.cpp:212-285 | all erasable instructions survive, each once, exactly if the last two groups hold none of them |
| `GroupSurvival.BodyLost` | lib/splitpass/splitpass2.cpp:212-285 | a plan with exact groups, in an order that addresses may give, after which neither statement of the loop is left |
| `GroupSurvival.BodyPlanFits` | lib/splitpass/splitpass2.cpp:207-285 | with the groups in body order the same loop meets all conditions of FissionLoop, in every state, for a meaning in which it stores |
| `Execution.StoreThenLoad` | example/ppt_example.c:11-16 | a load from the cell last stored to finds what was stored |
| `Execution.StoreElsewhere` | example/ppt_example.c:11-16 | a store to another cell makes no difference to what a load finds |
| `Execution.RunsInTurn` | lib/splitpass/splitpass2.cpp:207-285 | instructions run from the first to the last |
| `Execution.EnteringLaw` | lib/splitpass/splitpass2.cpp:117-135 | by an edge each phi node takes what its first operand for that edge held before any of them changed; memory and other registers stay |
| `Execution.NextLaw` | lib/splitpass/splitpass2.cpp:141-156 | after its phi nodes and instructions a block with an end leads to the successor that its branch chooses, and one without end nowhere |
| `Execution.ReachesIffRun` | lib/splitpass/splitpass2.cpp:207-285 | control comes to the exit exactly if a chain of such steps leads there |
| `Execution.ReachesOnce` | lib/splitpass/splitpass2.cpp:207-285 | control comes to the exit in one state only |
| `LoopCode.HeadersSame` | lib/splitpass/splitpass2.cpp:106-135 | in every iteration the header of a copy computes what the header of the loop computes, whatever statements the copy leaves out |
| `LoopCode.TripsSame` | lib/splitpass/splitpass2.cpp:106-135 | so a copy runs as often as the loop |
| `CodeFission.LoadStays` | lib/splitpass/splitpass2.cpp:223-285 | what a statement loads in its iteration is what remains in its own register, in whatever order the statements are run |
| `CodeFission.LoadsReadMemory` | lib/splitpass/splitpass2.cpp:223-285 | loads read memory: in the loop, and in the copy that keeps the load, its register holds what its cell holds in the store that the operations before it leave |
| `CodeFission.MemoryPreserved` | lib/splitpass/splitpass2.cpp:223-285 | the copies, run one after the other, leave the memory that the loop leaves, if no dependence leads to an earlier group |
| `SplitMeaning.CopyIsCode` | lib/splitpass/splitpass2.cpp:84-135 | the code of each loop of the split function is the code of the loop with the statements of its group, values moved |
| `SplitMeaning.SplitComputesLoopIff` | lib/splitpass/splitpass2.cpp:207-285 | for every meaning of the opcodes and every state: the split function comes to the exit exactly if the function did, with the same memory, registers and phi values, if and only if all ends are kept or the loop does not complete an iteration |
| `SplitMeaning.CaughtComputesIff` | lib/splitpass/splitpass2.cpp:141-148 | a loop whose header named the exit first computes after the split what it computed exactly where it never came to the exit |
| `PlanFission.PlannedGroupsClosed` | lib/splitpass/BP.cpp:82-106 | every group of the plan, regrouped or not, holds definitions and uses together, as the erasing needs |
| `PlanFission.AnalysedInOrder` | lib/splitpass/DG.cpp:14-40 | instructions are analysed block by block, each block from its first instruction to its branch |
| `PlanFission.FissionLoop` | lib/splitpass/splitpass2.cpp:201-285 | from the reported facts to the split function: regrouped exactly if the heuristics are on and there are three groups, then by the best cut; with more than three lists one loop for each but the last two, each with what its list holds, one after the other exactly under the conditions above; and exactly then the function computes what it computed |

## Left out

- Integers are unbounded: `int` clocks, list lengths and the exponent in `check_partition` do not wrap around.
- GCC trees, VECs and statement iterators, and LLVM values, uses and pass registration: statements, instructions, phi
  nodes, blocks and operands are small datatypes and objects, known by number.
- `compute_data_dependences_for_loop` and LLVM's `DependenceAnalysis`: parameters, with `Recomputation.Describes`,
  `LoopDependences.Symmetric` and `GroupPlan.Sound` saying what is assumed of them.
- `loop_is_good_p` (`gcc-fission.patch.c:1509-1600`): appears as preconditions; scalar edges are acyclic
  (`StatementGraph.Ranked`) and a scalar operand is computed earlier in the same iteration.
- `create_vertices` and `build_rdg`: the statement list, relations and use lists are inputs of `EdgeCreation`; edge
  fields that only the dump reads (references, colour) are not kept.
- Generating the distributed loops: the GCC pass stops at the plan, so the loops whose meaning is proved are those
  the plan describes, each with scalar registers of its own.
- Operand closure for leftover scalars: `mark_partitions` puts a scalar that feeds nothing into all partitions while
  its operands may be in fewer (811-814); its value is never used, and closure is claimed for array statements.
- `VEC_lower_bound` is not in the repository; it is modelled as the usual binary search.
- Order of `std::map` and `std::set` iteration by address: any order, except in `dual_dg_map`, where the iterator runs
  over the keys in rising order while keys are added.
- Vectors used as map keys in `build_scc`: partitions are known by their position in the list, so two partitions with
  equal contents would be told apart; `BuildPartition` shows that there are none.
- The early returns of `buildDG` for calls, returns and extra branches, and its recursion over inner loops.
- The three scores of `check_partition`: any scoring function over the size lists; the division by zero that empty
  scores could cause is not modelled.
- Regrouping.CheckPartition: needs an entry besides the last two; with none the code allocates an array of size -1 and
  reads the first entry of empty arrays, which has no meaning to model. `PlanFission.FissionLoop` keeps the groups then.
- SplitMeaning.SplitComputesLoopIff: assumes of the meaning of the opcodes that the header and the last instruction of
  the latch do not touch memory. `DG.cpp:20` leaves the header out of the analysis, and `splitpass2.cpp:256-260` keeps
  the last instruction in every copy, so such accesses would be repeated and unordered.
- Single assignment and dominance, which LLVM checks before a pass runs: `SplitMeaning.Ssa`, for the values of the loop.
- What the header, the increment, the exit and the rest of the function use: `LoopCopies.Private` assumes that they use
  no instruction that may be erased, that blocks after the header have no phi nodes, and that the latch has an
  instruction before its branch; the code takes this for granted (`splitpass2.cpp:255-260`).
- Loops that are not a chain with one way in and one way out, which the code leaves unchecked (`splitpass2.cpp:67-68`).
- The value of a store: it has none in LLVM; the machine of `Execution` sets its register to 0.
- Dumping, printing, allocation and freeing, and the pass drivers over all loops of a function.
- `lib/splitpass/splitpass.cpp`, `lib/splitpass/splitpass_scc.cpp`, `scc/scc.cpp`, `scc/gene_scc.cpp`: earlier or
  unfinished versions of the same algorithms.
- The LAMP profiler, its passes and tools, build files and scripts.
