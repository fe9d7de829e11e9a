# Models of lzhlib

lzhlib is a C++ template library. This project models four of its components in Dafny and
proves what each is for.

**Matrix chains.** `MatrixAlgebra.dfy`, `ChainPlan.dfy` and `ChainExecutor.dfy` model the
compile-time optimiser that plans a chain of matrix products and the executor that follows the
plan. `ChainPlan.Resolve` fills the cost and split arrays in `size_t` arithmetic that wraps at
`top + 1`, a parameter. `ChainExecutor.MultiplyMatrices` plans a chain, runs the plan and counts
its scalar multiplications. Elements are unbounded integers (`modulus == 0`) or integers modulo
`modulus`, reduced after every operation.

**Lists and pool.** `IndexedList.dfy` models rings linked by indices into one vector; a ghost
sequence names the members of a ring. `ValueRepo.dfy` builds the object pool from a used and an
unused ring. `Pool.dfy` is the same pool as a value, used and free lists and a table of values:
each method of `ValueRepo` is proved to make exactly the step given there, and whole runs are
studied on that value. The largest `size_t`, which is also the null index, is a parameter.

**Graphs.** `GraphElements.dfy`, `GraphBase.dfy`, `UndirectedGraph.dfy` and `DirectedGraph.dfy`
store vertices and edges in two pools. An adjacency set is a sequence sorted by edge id.
Exceptions become `Err` results, with the state they leave behind.

**Queue and thread pool.** `Queue.dfy` models the two-lock queue as a step system: `Next(s, t, m)`
is one atomic action of thread `t`, a thread waiting for a lock stays where it is, and every
write of `push` and `pop_head` is a step of its own. `After` runs a schedule. The state carries
the histories `chain`, `pushed`, `popped`, `returned` and `drained`, which no step reads to decide
what the program does. `QueueCalls.dfy` says what single calls answer, in any schedule and when
their thread alone moves; `PoolCalls.dfy` does the same for the pool. `ThreadPool.dfy` embeds that system: a thread is at a point of the pool's code and,
while it is inside a call on the queue, at a program counter there. Running tasks may submit.
The invariants `Inv` and `PoolInv` are proved for every step of every thread. `PoolDrain.dfy`
shows that a closed pool comes to rest: it bounds the steps left and finds a thread that can move.
`WorkerlessPool.dfy` follows one client of a pool without workers.

`Outcomes.dfy` and `Sequences.dfy` hold the option and result types and two predicates on
sequences.

## What the proofs found

- A plan whose true cost fits `size_t` is optimal even if other sums in the table wrap around; one
  that does not fit is the dearer one whenever any order fits (`ChainPlan.PlanIsOptimal`,
  `ChainPlan.OverflowMisplans` for a chain of three). `ChainPlan.SmallSizesFit` bounds the sizes so
  that nothing wraps.
- A candidate equal to the `size_t` maximum never replaces the default split, so the recorded split
  is then a minimiser but not the least one (`ChainPlan.LeastSplitIff`). Chains of three never get
  there; `ChainPlan.DefaultSplitStands` gives a chain of six, of sizes that matrices can have, whose
  sums wrap.
- As arithmetic on `size_t`, the guard of `grow` refuses one size that would not wrap, unless the
  `size_t` maximum minus one is a multiple of three (`Pools.GuardGap`, with the 64-bit value in
  `Pools.GuardGap64`). No vector of slots reaches that size.
- `add_edge` allocates the edge before it looks up the ends. With a dead end it throws and leaves
  a live edge that the adjacency sets do not know (`DeadEndLeaks` in both graph modules). The
  postconditions of both `AddEdge` methods say exactly when sets and edges still agree.
- The directed `remove_vertex` leaves the edges into the vertex live, so they dangle, and since its
  id is the next one given out, the next vertex added inherits them
  (`DirectedGraphs.NextVertexInheritsEdge`).
- `remove_associated_edge` erases whatever the lookup returned, which is undefined for a missing
  edge. While sets and edges agree, no graph operation reaches that case. After a leak
  `remove_edge` can: `RemovalDefined` in both graph modules is the exact condition, and
  `FirstEdgeBreaksRemoval` a run that violates it.
- A pool without workers returns from `stop` with its tasks queued for ever
  (`ThreadPools.StoppedIsFinished` states the equivalence, `WorkerlessPools.NoWorkerLeavesTask` a
  run).

## Model

| member | source | states |
|---|---|---|
| MatrixAlgebra.ProductAssociative | include/lzhlib/graphics/matrix.hpp:204-220 | regrouping three matrices does not change their product |
| MatrixAlgebra.SumExchange | include/lzhlib/graphics/matrix.hpp:212-218 | the double sum behind one element may be taken in either order |
| MatrixAlgebra.ProductIsSum | include/lzhlib/graphics/matrix.hpp:212-218 | element i, j of a product is the sum of the products of row i's and column j's entries |
| MatrixAlgebra.NormRepresents | include/lzhlib/graphics/matrix.hpp:215-217 | reduction leaves integers alone for modulus 0, and otherwise gives a number in [0, modulus) that differs by a multiple of it |
| MatrixAlgebra.ReduceStands | include/lzhlib/graphics/matrix.hpp:215-217 | so for every element of a reduced matrix |
| MatrixAlgebra.DotModExact | include/lzhlib/graphics/matrix.hpp:215-217 | accumulating modulo 2^w gives the exact sum of products reduced once |
| MatrixAlgebra.ProductModExact | include/lzhlib/graphics/matrix.hpp:204-220 | the machine product of reduced matrices is the reduced exact product |
| ChainPlan.WrapModulo | include/lzhlib/graphics/matrix.hpp:108-109 | what a size_t operation drops is a multiple of the maximum plus one |
| ChainPlan.WrappedSumBound | include/lzhlib/graphics/matrix.hpp:108-109 | the candidate computed in size_t is at most the exact sum, and equal to it when that fits |
| ChainPlan.Resolve | include/lzhlib/graphics/matrix.hpp:89-119 | the two arrays hold the recursive cost and split of every chain i..j, and zero elsewhere |
| ChainPlan.TrySplits | include/lzhlib/graphics/matrix.hpp:104-115 | one cell pair is computed from the shorter chains and no other cell changes |
| ChainPlan.ScanInRange | include/lzhlib/graphics/matrix.hpp:105-114 | every recorded split lies in [i, j), whatever the arithmetic did, so the executor recursion ends |
| ChainPlan.ScanLeast | include/lzhlib/graphics/matrix.hpp:104-115 | in size_t arithmetic, the inner loop keeps the least candidate and the first split reaching it, or the default when none is below the maximum |
| ChainPlan.SplitMinimises | include/lzhlib/graphics/matrix.hpp:103-115 | the recorded split attains the recorded cost, and no split has a smaller candidate as the loop computes them |
| ChainPlan.LeastSplitIff | include/lzhlib/graphics/matrix.hpp:104-114 | the recorded split is the least minimiser if and only if the cost is below the maximum or only one split exists; for an odd maximum two places to split are safe too |
| ChainPlan.MaximumStands | include/lzhlib/graphics/matrix.hpp:104-114 | a recorded cost equal to the maximum means that all candidates are equal to it and the default split stands |
| ChainPlan.DefaultSplitStands | include/lzhlib/graphics/matrix.hpp:104-114 | a chain of six with 64-bit sizes, any two of which multiply to less than 2^63, whose five sums all wrap to the maximum: the last split is kept although the first is as good |
| ChainPlan.CandidateBelowExact | include/lzhlib/graphics/matrix.hpp:108-109 | a candidate is at most the exact sum, and equal to it when that fits |
| ChainPlan.CostIsLowerBound | include/lzhlib/graphics/matrix.hpp:89-119 | no parenthesisation of i..j costs less than cost[i][j], whatever wraps |
| ChainPlan.PlannedIsValid | include/lzhlib/graphics/matrix.hpp:148-160 | the table turned into constants always describes trees |
| ChainPlan.TableDescribesPlan | include/lzhlib/graphics/matrix.hpp:148-160 | the tree read off that table is the plan the splits describe |
| ChainPlan.PlanAttainsCost | include/lzhlib/graphics/matrix.hpp:89-119 | the tree read off the splits costs exactly cost[i][j] if and only if its cost fits size_t |
| ChainPlan.PlanIsOptimal | include/lzhlib/graphics/matrix.hpp:84-119 | a tree whose cost fits is a cheapest one; if any tree over the chain fits, the plan is a cheapest one if and only if it fits |
| ChainPlan.NoOverflowFits | include/lzhlib/graphics/matrix.hpp:84-119 | if no candidate in the table overflows, every plan fits and is a cheapest one |
| ChainPlan.SolutionType | include/lzhlib/graphics/matrix.hpp:148-160 | copies the solution array into constants that agree with it above the diagonal |
| ChainPlan.SmallSizesFit | include/lzhlib/graphics/matrix.hpp:108-109 | a bound on the largest dimension and the chain length under which no candidate overflows |
| ChainPlan.OverflowMisplans | include/lzhlib/graphics/matrix.hpp:108-114 | a chain of three with 64-bit sizes for which the dearer order, which does not fit, is chosen over one that does |
| ChainExecutor.ConsistentIffSized | include/lzhlib/graphics/matrix.hpp:74-83 | the generated sizes describe every matrix exactly if the chain passes the consistency check |
| ChainExecutor.FoldSplits | include/lzhlib/graphics/matrix.hpp:209-210 | multiplying the products of two adjacent parts gives the product of the whole |
| ChainExecutor.FoldFromRight | include/lzhlib/graphics/matrix.hpp:199-220 | multiplying a chain from the right gives what multiplying it from the left gives |
| ChainExecutor.TreeMeansFold | include/lzhlib/graphics/matrix.hpp:199-220 | every parenthesisation has the meaning of the left-to-right product |
| ChainExecutor.MultiplyPair | include/lzhlib/graphics/matrix.hpp:211-219 | the triple loop computes the machine product, which for elements in range stands for the exact one element by element, with rows times inner times columns multiplications |
| ChainExecutor.Accumulate | include/lzhlib/graphics/matrix.hpp:214-218 | the inner loop fills one element and leaves all others alone |
| ChainExecutor.MultiplyHelper | include/lzhlib/graphics/matrix.hpp:199-220 | along any table of usable splits: the reduced left-to-right product, with the work of the table's tree |
| ChainExecutor.MultiplyMatrices | include/lzhlib/graphics/matrix.hpp:221-235 | end to end: for modulus 0 the left-to-right product itself, otherwise elements in [0, modulus) that differ from it by multiples of modulus; as many multiplications as the plan really costs, which the sizes decide; that is the planned number if and only if it fits size_t, and then no order beats it; if any order fits, it is least if and only if it fits |
| IndexedLists.RingFramed | include/lzhlib/list/indexed_list.hpp:88-123 | an operation on one ring leaves every disjoint ring in the same storage as it was |
| IndexedLists.SplicedCycle | include/lzhlib/list/indexed_list.hpp:167-175 | the four link writes of insert_impl insert the node before `next` in the ring |
| IndexedLists.CutCycle | include/lzhlib/list/indexed_list.hpp:176-183 | the link writes of remove_impl delete one node from the ring |
| IndexedLists.CycleRotate | include/lzhlib/list/indexed_list.hpp:111-112 | inserting before the head without moving the head appends at the end |
| IndexedLists.IndexedList.Resize | include/lzhlib/list/indexed_list.hpp:62-65 | old nodes keep values and links, new nodes are unlinked |
| IndexedLists.IndexedList.FormList | include/lzhlib/list/indexed_list.hpp:73-87 | fails exactly on an empty or out-of-range interval; else links begin..end-1 in order and nothing else, wrapped temporary links included |
| IndexedLists.IndexedList.Push | include/lzhlib/list/indexed_list.hpp:88-91 | prepends a node, to an empty list as well |
| IndexedLists.IndexedList.Pop | include/lzhlib/list/indexed_list.hpp:92-105 | drops the first node, unlinks it, and empties a list of one |
| IndexedLists.IndexedList.Insert | include/lzhlib/list/indexed_list.hpp:107-114 | the new list has the node at the place of the given one, or at the end when that is null, the nodes before and after as they were, and the node as head exactly when it comes first |
| IndexedLists.IndexedList.Remove | include/lzhlib/list/indexed_list.hpp:115-123 | the list without that member, the others in order; the head moves on exactly when it was first |
| IndexedLists.IndexedList.Clear | include/lzhlib/list/indexed_list.hpp:124-130 | unlinks every node and keeps the values |
| IndexedLists.IndexedList.InsertImpl | include/lzhlib/list/indexed_list.hpp:167-175 | inserts into the cycle at the position of `next`, changing links of that cycle only |
| IndexedLists.IndexedList.RemoveImpl | include/lzhlib/list/indexed_list.hpp:176-183 | removes from a cycle of two or more and unlinks the node |
| Pools.GrownSizeFits | include/lzhlib/repository/value_repo.hpp:377-382 | the guard implies that the grown size does not wrap |
| Pools.GuardGap | include/lzhlib/repository/value_repo.hpp:379-382 | in size_t arithmetic, the guard refuses a size whose successor would not wrap exactly at one value, when top - 1 is no multiple of three |
| Pools.GuardGap64 | include/lzhlib/repository/value_repo.hpp:379-382 | that value for 64-bit sizes |
| Pools.GrowPartitioned | include/lzhlib/repository/value_repo.hpp:375-385 | growing keeps the partition of the slots and the live objects and yields a free slot |
| Pools.ReuseRefines | include/lzhlib/repository/value_repo.hpp:260-275 | taking the first free slot adds one id that was not live, with the given value |
| Pools.ReleaseRefines | include/lzhlib/repository/value_repo.hpp:276-293 | freeing a slot removes that id from the map and no other |
| Pools.LiveSize | include/lzhlib/repository/value_repo.hpp:34 | there are as many live objects as used slots |
| Pools.AssignRefines | include/lzhlib/repository/value_repo.hpp:260-275 | an assignment throws exactly when every slot is live and the guard forbids growing; else a dead id becomes live |
| Pools.StepRefines | include/lzhlib/repository/value_repo.hpp:246-293 | each call keeps the partition and does to the partial map what its reply says; on a dead id it throws index_out_of_range at or above the capacity, and below it the error of its kind |
| Pools.RunRefinesMap | include/lzhlib/repository/value_repo.hpp:246-293 | over any run, recycling and growth included, the pool is the map a client reconstructs from calls and replies |
| Pools.NextReply | include/lzhlib/repository/value_repo.hpp:246-293 | after any run the next call answers as that map does |
| Pools.GrowthIsAmortised | include/lzhlib/repository/value_repo.hpp:373-385 | over any run the slots copied by growth are at most three per assignment, and capacity stays within 1.5 times the peak live count |
| Pools.IdsAreNotNull | include/lzhlib/repository/value_repo.hpp:375-385 | in every reachable state capacity fits size_t and no live id is the null index |
| Pools.MostRecentFirst | include/lzhlib/repository/value_repo.hpp:260-293 | over any run of a pool that started empty, the used list is in order of assignment, the latest first |
| ValueRepos.ValueRepo.Sized | include/lzhlib/repository/value_repo.hpp:86-91 | fails exactly for size 0; else all slots are free, in order |
| ValueRepos.ValueRepo.IsIdUsed | include/lzhlib/repository/value_repo.hpp:240-243 | true exactly for live ids |
| ValueRepos.ValueRepo.Check | include/lzhlib/repository/value_repo.hpp:367-390 | at or above the capacity index_out_of_range, below it the given error for an unused slot |
| ValueRepos.ValueRepo.GetObject | include/lzhlib/repository/value_repo.hpp:246-259 | returns the object of a live id, and throws the right error otherwise |
| ValueRepos.ValueRepo.SetObject | include/lzhlib/repository/value_repo.hpp:246-252 | writing through the returned reference changes that object only |
| ValueRepos.ValueRepo.AssignObject | include/lzhlib/repository/value_repo.hpp:260-266 | makes the step of the value model: throws exactly when the pool is full, changing nothing; else the next free id becomes live with the value |
| ValueRepos.ValueRepo.ReuseObject | include/lzhlib/repository/value_repo.hpp:267-275 | moves the first free slot to the front of the used ring, growing first if there is none |
| ValueRepos.ValueRepo.GrowStorage | include/lzhlib/repository/value_repo.hpp:375-385 | throws exactly when the guard says so, else appends the new slots as the free ring |
| ValueRepos.ValueRepo.RemoveObject | include/lzhlib/repository/value_repo.hpp:276-283 | destroys the object and frees its slot, which is the next one assigned; on a dead id throws the error for its place and changes nothing |
| ValueRepos.ValueRepo.ReturnObject | include/lzhlib/repository/value_repo.hpp:284-293 | frees the slot and leaves the object in it; on a dead id throws the error for its place and changes nothing |
| ValueRepos.ValueRepo.NextIdAdvances | include/lzhlib/repository/value_repo.hpp:303-309 | next_id goes to the next most recent assignment, and from the last id to the end |
| ValueRepos.ValueRepo.PrevIdRetreats | include/lzhlib/repository/value_repo.hpp:310-318 | prev_id goes the other way, from the end to the last id |
| ValueRepos.ValueRepo.PrevUndoesNext | include/lzhlib/repository/value_repo.hpp:303-318 | prev_id(next_id(x)) is x for every live x |
| ValueRepos.ValueRepo.StepsThatThrow | include/lzhlib/repository/value_repo.hpp:303-318 | stepping back from the first id, or stepping from an id outside the storage other than the end, throws |
| ValueRepos.ValueRepo.Walk | include/lzhlib/repository/value_repo.hpp:295-309 | the forward walk ends after visiting every live id once, in the order of the used list |
| ValueRepos.ValueRepo.Execute | include/lzhlib/repository/value_repo.hpp:246-293 | any one call makes the step of the value model, reply included |
| ValueRepos.ValueRepo.ExecuteAll | include/lzhlib/repository/value_repo.hpp:246-309 | any run of calls ends in the state and with the replies of the value model, and in a pool that started empty the walk then visits the most recently assigned id first |
| ValueRepos.ValueRepo.WalkBack | include/lzhlib/repository/value_repo.hpp:310-318 | the backward walk visits the reverse sequence |
| GraphElements.InsertRef | include/lzhlib/graph/vertex.hpp:119-122 | set insertion by edge id: kept sorted, dropped exactly when the id is there |
| GraphElements.EraseRef | include/lzhlib/graph/vertex.hpp:123-127 | erases the entry with this edge id and no other |
| GraphElements.AssociatedEdge | include/lzhlib/graph/vertex.hpp:144-153 | the scan finds the least edge id to the given end, or reports that there is none |
| GraphElements.FreshKey | include/lzhlib/graph/vertex.hpp:119-122 | no entry carries a dead edge id, so inserting a recycled id is never dropped |
| GraphElements.AgreeAddEdge | include/lzhlib/graph/undirected_graph.hpp:42-49 | adding an edge between different live ends keeps sets and edges the same relation |
| GraphElements.AgreeRemoveEdge | include/lzhlib/graph/undirected_graph.hpp:54-60 | both entries exist and dropping them with the edge keeps the agreement |
| GraphElements.DetachOne | include/lzhlib/graph/undirected_graph.hpp:33-37 | one iteration finds the entry at the other end and drops it with the edge |
| GraphElements.AllDetached | include/lzhlib/graph/undirected_graph.hpp:30-39 | when the loop is through, exactly the edges at the vertex are gone from both places |
| GraphElements.AgreeRemoveVertex | include/lzhlib/graph/undirected_graph.hpp:30-39 | removing a vertex with its edges keeps the agreement |
| GraphElements.DegreesSumToTwiceEdges | include/lzhlib/graph/undirected_graph.hpp:30-60 | the degrees add up to twice the number of live edges |
| GraphBases.GraphBase.AddVertex | include/lzhlib/graph/graph_base.hpp:39-43 | throws exactly when the vertex pool is full; else a vertex without edges under the next free id, which was not live |
| GraphBases.GraphBase.Neighbors | include/lzhlib/graph/graph_base.hpp:25-33 | the opposite ends in order of edge id |
| GraphBases.GraphBase.AssociatedVertices | include/lzhlib/graph/graph_base.hpp:45-48 | the two ends of a live edge |
| UndirectedGraphs.UndirectedGraph.AddVertex | include/lzhlib/graph/graph_base.hpp:39-43 | the same; sets and edges that agreed still do |
| GraphBases.GraphBase.NewEdge | include/lzhlib/graph/undirected_graph.hpp:44-45 | throws exactly when the edge pool is full; else the next free id becomes a live edge that no adjacency set knows |
| UndirectedGraphs.UndirectedGraph.AddEdge | include/lzhlib/graph/undirected_graph.hpp:41-49 | succeeds exactly when the edge pool is not full and both ends are live, and adds the two entries and nothing else; with a dead end it throws for the first one and the edge leaks; the agreement is kept exactly when the pool is full or both ends are live and different |
| UndirectedGraphs.DeadEndLeaks | include/lzhlib/graph/undirected_graph.hpp:41-49 | the leak in an empty graph: the call throws and edge 0 is live |
| UndirectedGraphs.UndirectedGraph.RemoveEdge | include/lzhlib/graph/undirected_graph.hpp:54-60 | in any state in which it erases nothing missing: removes the edge and its two entries and nothing else, or throws for the first lookup that fails, after erasing the first entry when only the second end is dead; while sets and edges agree that covers every call, and succeeds exactly for live edges |
| UndirectedGraphs.RecycledEndBreaksRemoval | include/lzhlib/graph/undirected_graph.hpp:41-60 | a leaked edge whose dead end is taken over by the next vertex has two live ends, and its removal would erase a missing entry |
| UndirectedGraphs.FirstEdgeBreaksRemoval | include/lzhlib/graph/undirected_graph.hpp:41-60 | that run from an empty graph, with edge 0 between vertices 0 and 1 |
| UndirectedGraphs.UndirectedGraph.GetEdge | include/lzhlib/graph/undirected_graph.hpp:62-69 | the least edge id joining the two, whichever set is scanned; else the error of the first dead end, or "no such edge" between live ones |
| UndirectedGraphs.UndirectedGraph.GetEdgeFromBothEnds | include/lzhlib/graph/undirected_graph.hpp:62-69 | the calls for (x, y) and (y, x) return the same edge, or fail together |
| UndirectedGraphs.UndirectedGraph.RemoveEdgeBetween | include/lzhlib/graph/undirected_graph.hpp:50-53 | removes that least edge and its two entries and nothing else |
| UndirectedGraphs.UndirectedGraph.DetachNext | include/lzhlib/graph/undirected_graph.hpp:33-37 | one iteration of the loop, on the two pools |
| UndirectedGraphs.UndirectedGraph.RemoveVertex | include/lzhlib/graph/undirected_graph.hpp:30-39 | removes the vertex, exactly its edges, and their entries at the other ends; its id is the next one given out |
| UndirectedGraphs.UndirectedGraph.Handshake | include/lzhlib/graph/undirected_graph.hpp:30-60 | summed over the live vertices, the degrees are twice the live edge count |
| DirectedGraphs.DirectedAdd | include/lzhlib/graph/directed_graph.hpp:36-42 | adding an edge at a live first end keeps sets and edges in agreement, loops included |
| DirectedGraphs.DirectedRemove | include/lzhlib/graph/directed_graph.hpp:47-52 | the entry exists and dropping it with the edge keeps the agreement |
| DirectedGraphs.OutgoingEdges | include/lzhlib/graph/directed_graph.hpp:25-33 | the entries of a vertex are exactly the live edges out of it |
| DirectedGraphs.DirectedGraph.AddEdge | include/lzhlib/graph/directed_graph.hpp:35-42 | succeeds exactly when the edge pool is not full and the first end is live; the agreement is kept exactly when the pool is full or that end is live; and no edge dangles afterwards exactly when the second end is live too |
| DirectedGraphs.DeadEndLeaks | include/lzhlib/graph/directed_graph.hpp:35-42 | the leak in an empty graph: the call throws and edge 0 is live |
| DirectedGraphs.DirectedGraph.RemoveEdge | include/lzhlib/graph/directed_graph.hpp:47-52 | in any state in which it erases nothing missing: removes a live edge and its entry, or throws and changes nothing |
| DirectedGraphs.RecycledEndBreaksRemoval | include/lzhlib/graph/directed_graph.hpp:35-52 | a leaked edge whose dead first end is taken over by the next vertex looks whole, and its removal would erase a missing entry |
| DirectedGraphs.FirstEdgeBreaksRemoval | include/lzhlib/graph/directed_graph.hpp:35-52 | that run from an empty graph |
| DirectedGraphs.DirectedGraph.GetEdge | include/lzhlib/graph/directed_graph.hpp:53-56 | the least edge id from x to y, or an error when there is none |
| DirectedGraphs.DirectedGraph.RemoveEdgeBetween | include/lzhlib/graph/directed_graph.hpp:43-46 | removes that least edge and its entry and nothing else |
| DirectedGraphs.DirectedGraph.RemoveVertex | include/lzhlib/graph/directed_graph.hpp:25-33 | removes exactly the outgoing edges; no edge dangles afterwards exactly when none came in from elsewhere; the id is the next one given out |
| DirectedGraphs.NextVertexInheritsEdge | include/lzhlib/graph/directed_graph.hpp:25-33 | an edge into the removed vertex from elsewhere points at the next vertex added |
| Queues.PopIsSafe | include/lzhlib/thread/queue.hpp:144-149 | no pop follows a null pointer or returns a node without a value |
| Queues.InvNext | include/lzhlib/thread/queue.hpp:97-176 | any step of any thread keeps the invariant: lock owners, chain, half-linked tail, moved-out head |
| Queues.WalkMeetsChain | include/lzhlib/thread/queue.hpp:104-110 | following the links from the front to the tail meets exactly the queued values |
| Queues.FirstInFirstOut | include/lzhlib/thread/queue.hpp:97-176 | in every interleaving, values popped and then those met along the links are the values pushed, in order; with the tail lock free the tail is blank and last |
| Queues.NothingLostOrDuplicated | include/lzhlib/thread/queue.hpp:97-176 | in every interleaving each value pushed is queued, held by one pop, or returned once |
| Queues.OutcomesHold | include/lzhlib/thread/queue.hpp:97-122 | an accepted value is in the queue's history, push throws only when closed, and "closed and drained" is reported only of a sealed queue |
| QueueCalls.FoundMeansEmpty | include/lzhlib/thread/queue.hpp:135-176 | a pop that is going to sleep or to answer that nothing was there has been in its call since a moment at which no value was queued |
| QueueCalls.EmptyAnswerIsTrue | include/lzhlib/thread/queue.hpp:150-176 | in every schedule, a pop that answered "empty" or "timed out" saw a moment between its beginning and its end at which no value was queued |
| QueueCalls.PopAlone | include/lzhlib/thread/queue.hpp:135-176 | from any state with both locks free, a pop whose thread alone moves takes the first value if there is one; else try_pop answers "empty", a wait on a closed queue "closed and drained", and a wait on an open one sleeps |
| QueueCalls.SleepEnds | include/lzhlib/thread/queue.hpp:156-165 | a sleeper that wakes looks again, and a timed one may give up |
| QueueCalls.GivingUpEnds | include/lzhlib/thread/queue.hpp:150-176 | an empty-handed pop releases the head lock and answers |
| QueueCalls.PushAlone | include/lzhlib/thread/queue.hpp:97-112 | from any state with the tail lock free, a push whose thread alone moves appends its value to an open queue and throws on a closed one |
| Queues.InvTailRead | include/lzhlib/thread/queue.hpp:135-143 | reading the front as the tail on the final check of a wait means no push can be past its own check |
| Queues.SealedStays | include/lzhlib/thread/queue.hpp:104-110 | once closed, empty and without a committed push, the queue stays so at every step |
| Queues.DrainedIsFinal | include/lzhlib/thread/queue.hpp:114-122 | after a wait has reported "closed and drained" no push succeeds in any later state and the queue stays empty |
| Queues.UnblockedMoves | include/lzhlib/thread/queue.hpp:97-176 | a thread inside a call always moves unless a lock it asks for is held |
| Queues.SomeoneMoves | include/lzhlib/thread/queue.hpp:135-149 | the owner of the tail lock, or of the head lock while that is free, can move: the two locks cannot deadlock |
| ThreadPools.StepInv | include/lzhlib/thread/thread_pool.hpp:85-144 | any step of any worker, client or running task keeps the pool invariant |
| ThreadPools.StepStops | include/lzhlib/thread/thread_pool.hpp:85-97 | with the flag set, the holder of the stop lock is still closing or joining, or all workers have exited |
| ThreadPools.StepTasks | include/lzhlib/thread/thread_pool.hpp:104-120 | no task enters the queue twice and no future is handed out for a task that did not |
| ThreadPools.StepRuns | include/lzhlib/thread/thread_pool.hpp:127-144 | what workers have popped is what they are running or have finished |
| ThreadPools.AcceptedInOnePlace | include/lzhlib/thread/thread_pool.hpp:104-144 | in every run each task with a future is in exactly one place, once: queued, held by a worker, or finished |
| ThreadPools.RefusedMeansStopped | include/lzhlib/thread/thread_pool.hpp:110-118 | a push refused after the first check had passed means that the pool is stopped |
| PoolCalls.FirstCheck | include/lzhlib/thread/thread_pool.hpp:106-109 | in every state, the first check of submit turns away exactly when the pool is stopped, and else a new task is on its way |
| PoolCalls.LeavesPush | include/lzhlib/thread/thread_pool.hpp:110-119 | in every state, a thread that leaves the push of its task has a future for it, or the pool is stopped |
| PoolCalls.SubmitAlone | include/lzhlib/thread/thread_pool.hpp:104-120 | on a pool that is not stopped, a submit whose thread alone moves ends with a future for a new task that is in the queue, from a client and from a running task |
| PoolCalls.StopAlone | include/lzhlib/thread/thread_pool.hpp:85-97 | a call of stop whose thread alone moves has stopped the pool and closed the queue after four steps, or returned from a stopped pool after three |
| PoolCalls.JoinsExited | include/lzhlib/thread/thread_pool.hpp:92-96 | the join loop passes a worker exactly when it has exited, and ends after the last |
| PoolCalls.UnlocksAndReturns | include/lzhlib/thread/thread_pool.hpp:85-97 | then stop releases its lock and returns |
| PoolCalls.WorkerAlone | include/lzhlib/thread/thread_pool.hpp:127-134 | a worker that asks for a task and alone moves is soon running the first one queued, or has exited when the queue is closed and holds none |
| PoolCalls.TaskEnds | include/lzhlib/thread/thread_pool.hpp:132-143 | a task that ends is finished, and its worker asks for the next |
| ThreadPools.ExitedIsFinished | include/lzhlib/thread/thread_pool.hpp:127-144 | once all workers have exited, the finished tasks are the pushed ones if and only if there is a worker or nothing was pushed |
| ThreadPools.StoppedIsFinished | include/lzhlib/thread/thread_pool.hpp:80-97 | when any stop has returned, the finished tasks are the pushed ones if and only if there is a worker or nothing was pushed; with a worker, every future's task has run exactly once and none is queued or held |
| ThreadPools.StopIsFinal | include/lzhlib/thread/thread_pool.hpp:80-97 | after that no task is made, pushed or run in any later state, and futures still being handed out belong to finished tasks |
| WorkerlessPools.NoWorkerLeavesTask | include/lzhlib/thread/thread_pool.hpp:85-97 | a run of a pool without workers in which stop returns while the submitted task is still queued |
| PoolDrains.StepUsesWork | include/lzhlib/thread/thread_pool.hpp:127-144 | in a closed pool every step that changes anything, where running tasks do nothing but end, lowers a bound on the tasks queued and the steps left |
| PoolDrains.EventUsesWork | include/lzhlib/thread/thread_pool.hpp:85-144 | in a closed pool any step at all changes nothing, lowers that bound, or begins a call of submit or stop and raises it by a fixed amount at most |
| PoolDrains.SomeoneStirs | include/lzhlib/thread/thread_pool.hpp:80-97 | in every reachable state some thread can move, unless all calls have returned and all workers have exited: no deadlock between stop, workers and the queue's locks |
| PoolDrains.DrainIsBounded | include/lzhlib/thread/thread_pool.hpp:127-144 | however threads are scheduled and whatever they choose, a closed pool makes no more changing steps than that bound plus a fixed amount for each call begun |
| PoolDrains.SettledIsFinished | include/lzhlib/thread/thread_pool.hpp:80-97 | a closed pool at rest has no worker left and, if it had one, has run every task pushed exactly once |
| PoolDrains.RestIsReachable | include/lzhlib/thread/thread_pool.hpp:80-97 | from every state of a closed pool some schedule of moves and task ends alone, no longer than the bound, leads to rest |
| PoolDrains.DrainCompletes | include/lzhlib/thread/thread_pool.hpp:80-97 | every schedule of a closed pool is so bounded; after it a schedule without new calls brings all calls back and all workers home; and then, with workers, every task pushed has been run exactly once |

## Left out

- Wake-ups: the notifications are no steps, and a sleeping thread may wake at any step. That a blocked consumer is woken is not stated, since push and close notify without the lock the waiter checks under; the termination of draining takes it for granted, and also that running tasks end.
- Time: a timed wait may give up whenever its predicate has just failed.
- The queue and the thread pool are values stepped by functions and not classes, since their interest is in interleavings; ownership of nodes is modelled by `chain` and by the nodes a thread holds, and freeing a node is not.
- The vector's own size limit and failing allocation, which would make `resize` throw before the guard of `grow` does; "throws exactly when the pool is full" is meant without them.
- The state after a leak is followed through `add_vertex` and `remove_edge` only; the other graph operations are modelled where sets and edges agree.
- Thread creation and its failure, futures and packaged tasks beyond "a task runs once", and calls of stop from inside a task, which the source forbids.
- The public `reuse_object` on its own, which marks a slot used without a value, appears only as the first half of an assignment.
- References into the pool: a write through one is the call `SetObject`.
- Vertices are read from and written back to the pool as values, so address stability and aliasing between references into the pool are not captured; the loop of remove_vertex runs over the set as it was at the start, which no iteration of a loop-free graph changes.
- Values whose constructors or assignments throw, moved-from values, and the difference between assigning to a kept value and constructing one.
- List calls with stale indices or with nodes linked elsewhere, and pop on an empty list, are excluded by preconditions, as the source checks none of them; shrink_to_fit only affects memory.
- UndirectedGraphs.UndirectedGraph.RemoveEdge: loops, which the source enters once and erases twice; `AddEdge` states that they break the agreement.
- `adjacent` on vertices and graphs: it searches a set ordered by edge id by opposite vertex, so it decides nothing in general.
- ChainExecutor.MultiplyPair: a zero inner dimension, for which the source reads element 0 of an empty row; floating-point, signed-overflow and mixed element types, whose products are not associative.
- The template encoding of the split table beyond its contents, and the expression nodes that collect a chain before it is multiplied.
- ChainPlan.PlanIsOptimal: when no order of a chain has a cost that fits size_t, whether the plan is a cheapest one is left open.
- Readers, stream operators, optional, tuple_ext, iterators as objects (the id walks are modelled), and build files.
