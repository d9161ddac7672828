# MemHawk: a verified model

MemHawk is a heap profiler. A library inside the profiled process attributes every allocation and free to a stack
trace, keeps tallies per thread, and writes cumulative snapshots to a file. A symbolizer replays the file into a call
graph with totals per node and per frame. A small tool builds flame graph tables from weighted paths. This project models
the accounting behind that pipeline and proves what each stage keeps, from a single allocation to the number at the root
of the reader's call graph.

`dafny verify dfyconfig.toml` checks the whole project.

## The parts

**Compressed trie of the flame graph** (`TrieShape`, `TrieLog`, `TrieCanon`, `TrieTop`, `TrieListing`, `Trie`). The trie
is a class whose node list, path buffer and edges change in place. A ghost log records every append; a ghost list names
every node by its whole path. The invariant `Books` says that the nodes form a tree, that spans spell the names, that
every total and value is the sum the log gives for the node's name, that every logged path has a node, and that no node
is superfluous. Splitting, adding and counting keep it in every intermediate state of an append. From it follow the
canonical shape, independence of the order of appends, and a complete description of the table that `GetTop` returns,
stated on the rows and the log alone. With values of any sign, what a listed path passes over yields to it; with
nonnegative ones the table is globally best.

**Call graph of the reader** (`Groups`, `TreeSums`, `CallTree`, `CallGraph`, `CallTheorems`, `RootFrame`,
`RecurringFrames`). Values are elements of any commutative group; the wrapping counters of the source are one instance.
Two ghost sequences, what is posted but not applied and what is applied but not yet passed on, make the bookkeeping of a
batched bottom-up update exact after every single elementary step. Totals per node and per frame, independence of
batching, and the root total are consequences.

**Writer, reader, restart** (`Snapshots`, `Writer`, `Restart`, `Attribution`, `Reader`, `Localizer`, `Telescoping`,
`Session`, `TracePaths`). The writer keeps cumulative summaries and sends what changed; the reader takes differences and
posts them to the leaf of the trace. A ghost list of posts and a ghost set of interned paths determine the whole graph:
its nodes up to their numbers, their own values and totals, and every frame's values. So two readings of a file, with or
without a restart in between, give the same graph. As a trace's path is fixed before its first value is posted, the
differences under any set of paths add up to the writer's cumulative values of the traces with those paths. `TracePaths`
says which paths these are, position by position, and that traces with the same callers meet in the callers' node.

**Concurrent accounting** (`Accounting`, `AccountingRuns`, `Ring`, `Places`, `Conservation`, `EndToEnd`, `Exact`,
`Counted`, `SavedPaths`, `Guards`, `Reclaim`, `ReclaimTheorems`, `GuardedProfile`). Every section under a lock is one
action of a state machine; threads, nested operations of the profiler itself, thread exit and the draining worker
interleave freely. For every trace, and for every set of traces, the parts always add up to the operations submitted.
`EndToEnd` turns such a run into writer events and proves that the reader shows the totals written, and that after a
complete drain every node and every frame shows the cost of exactly the operations on the traces below it. `Ring` says
exactly when operations are skipped, and `Exact` and `Counted` what the reader shows when none are: the numbers and
sizes of the allocations and frees themselves. `Places` says what each tracker holds at every moment. `SavedPaths` adds
where the traces come from: an operation counts at the node of its raw stack trace as it is shown, external traces
collapsed and without null frames, the profiler's own as they are; each flush looks traces up in the trackers as they
stand. `Reclaim` lets trackers be given back by the finalizers of `Guards`, drains included, and `GuardedProfile`
carries such runs to the reader's root total.

**Bit-packing codec** (`Bits`, `Codec`, `CodecRoundTrip`). Words are sequences of 32 bits, lowest first, and the
masks and shifts of the source are functions on them. `Compress` and `Decompress` are loops over iterators and arrays.

**Recursion collapsing** (`Collapse`, `CollapseTheorems`, `CollapseCopies`). The scalar form and the 8-wide form fill a
table and compact an array in place; both are proved against one function. The naive form has its own. Both functions
only cut repeated blocks, leave no frame next to itself, and reduce recursion anywhere in a stack to one round.

**Interning and caches** (`Names`, `Interning`, `StaticStore`, `StaticTracker`, `Recent`, `Lru`, `CachedInterning`,
`SettledTrackers`, `SavedIds`, `ThreadTrackers`, `TraceIds`). A trie of parent links, a store of compressed traces in
fixed arrays, and a cache of recently used traces in front of a tracker. `TraceIds` puts the ids of both trackers side
by side.

## Modelling decisions

- The clock, the unwinder, the lookup of a trace by its id inside the writer, the hash function and the symbolization of
  an address are parameters. Every flush has its own lookup, which is asked for a trace only the first time that it is
  written. Symbolization is a fixed function from addresses to frame ids; `Localizer` says which ids it can give.
- The order in which a hash map or hash set is visited is a nondeterministic choice; results are proved for every order.
  A priority queue pops any item that no other item precedes.
- Signed counters of the profiled process are elements of the same wrapping group as those of the reader; totals of the
  flame graph trie are unbounded integers. Node and trace counters do not overflow.
- Each locked section is one atomic step.
- The tree that interns traces is part of the one tracker class that uses it, and its callback is written out where it
  is called, so that the node list and the node counter visibly move together.
- Stack traces hold at most 64 frames where the source's buffers demand it. The collapse depth is any number; the
  source's 32-bit loop counter agrees with that for depths below 2^32 - 1.

Where code and expectation differ, the model follows the code:

- `GetTop(0)` returns one row, the root.
- The naive collapse form returns 1 for an empty trace.
- The reader compares trace ids with `2_i32.saturating_pow(31)`, which is 2^31 - 1 and not 2^31. `ExternalShownAsOwn`
  gives a run in which an external trace is therefore shown under the profiler's own root; `ExternalIff` says that this
  happens in no run whose trie has at most 2^31 - 1 nodes, and in every other. The profiler's own traces are always
  recognized.
- The frame total of the root's own frame id counts other nodes that carry this id a second time. `RootFrameCountsTwice`
  is such a graph, and `RootFrameExactIff` says that the two totals agree for all values exactly when no other node has
  the id. Whoever calls `construct_path` directly can build such a graph. In the symbolizer it takes an address whose
  library name is empty with an inlined frame named "root" without a location: `RootIdIff`. The writer sends the path of
  the program for a module without a name, so its files do not contain such a library.
- A frame's own value leaves out what is posted under paths on which the frame occurs before it ends them.
  `RecursionIsMissing` is such a graph with the path [f, f]; `OwnIsHeldIff` and `OnlyFirstIff` say that own values are
  complete for all values exactly when no interned path contains the frame twice.
- A drain of the guards gives back trackers whose threads may still use them. `DrainShares` is a run after which two
  threads use one tracker; `ExclusiveIff` is the exact condition. Amounts are not lost (`GuardedRunConserves`), and the
  source drains only when the profiler is destroyed.
- The writer marks trace 0 as written when it opens the file. If no trace without frames was interned by then, such traces
  are later shown under the unknown frame and not at the root: `ExternalNamed`.
- The naive collapse form differs from the other two at every depth above 1; `FormsAgreeIff` is the exact condition.

## Model

| member | source | states |
|---|---|---|
| TrieShape.Descend | source/flamegraph/src/graph.h:42-69 | a node's name that lies below another node's name is reached through the edge for the next key, and the child there is a prefix of it |
| TrieShape.Unique | source/flamegraph/src/graph.h:42-69 | no two nodes of a trie have the same path |
| TrieShape.ThroughSpan | source/flamegraph/src/graph.h:301-342 | a node name that enters another node's span goes through all of it |
| TrieShape.SpanOfNode | source/flamegraph/src/graph.h:175-202 | spans are in bounds, the root's is empty, every other one is nonempty and starts with the key of its edge |
| TrieLog.SplitTree | source/flamegraph/src/graph.h:317-341 | splitting a span keeps the tree: parents, edges and names fit together, and the split node keeps its stem |
| TrieLog.SplitSpans | source/flamegraph/src/graph.h:317-341 | after a split both spans still spell the names of their nodes |
| TrieLog.SplitBooks | source/flamegraph/src/graph.h:317-341 | a split keeps all books at once: sums, coverage of the log and the absence of superfluous nodes, in the middle of an append |
| TrieLog.AddTree | source/flamegraph/src/graph.h:55-67 | hanging a new leaf with a fresh path span under a missing edge keeps tree and spans |
| TrieLog.AddBooks | source/flamegraph/src/graph.h:55-67 | the new leaf keeps all books; it is not superfluous because the path being appended ends there |
| TrieLog.AdvanceBooks | source/flamegraph/src/graph.h:52-68 | adding the value to a node's total and stepping to the child keeps the books of a half-done append |
| TrieLog.FinishBooks | source/flamegraph/src/graph.h:70-71 | adding the value at the last node turns the half-done append into one more log entry |
| Trie.CompressedTrie.constructor | source/flamegraph/src/graph.h:33-36 | the empty trie has the root only and an empty log |
| Trie.CompressedTrie.CreatePath | source/flamegraph/src/graph.h:293-299 | the path is appended to the buffer and the span covers exactly it |
| Trie.CompressedTrie.SplitPath | source/flamegraph/src/graph.h:301-342 | the result is the longest common prefix of span and path; the trie changes only when the span is longer, and then by exactly that split |
| Trie.CompressedTrie.NextNode | source/flamegraph/src/graph.h:52-68 | an existing edge is followed, a missing one gets a leaf with the rest of the path; the value is counted at the node left behind |
| Trie.CompressedTrie.Advance | source/flamegraph/src/graph.h:42-69 | one round of the loop keeps the walk on the path and consumes an element, except once at the root |
| Trie.CompressedTrie.AccountAt | source/flamegraph/src/graph.h:70-71 | total and value of the last node grow by the value, nothing else changes |
| Trie.CompressedTrie.Append | source/flamegraph/src/graph.h:38-72 | every append keeps the invariant with exactly one more log entry, adds at most two nodes, none if the path was there, and the loop ends |
| TrieCanon.NamedIff | source/flamegraph/src/graph.h:42-69 | a path has a node exactly when it is the root, was appended, or is where two appended paths part |
| TrieCanon.NodeBranches | source/flamegraph/src/graph.h:317-341 | a node with two children is a place where two appended paths part |
| TrieCanon.SumsOfPermutation | source/flamegraph/src/graph.h:38-72 | the sums of a log do not depend on its order |
| TrieCanon.OrderDoesNotMatter | source/flamegraph/src/graph.h:38-72 | tries of two orders of the same appends have the same nodes up to numbering: name, stem, total, value, edge keys and children |
| TrieCanon.SameSize | source/flamegraph/src/graph.h:38-72 | and the same number of nodes |
| TrieCanon.TotalIsLocal | source/flamegraph/src/graph.h:52-71 | every total is the node's own value plus the totals of its children |
| TrieTop.PosUnique | source/flamegraph/src/graph.h:228-240 | two positions on spans with the same path are the same position |
| TrieTop.SelectClosed | source/flamegraph/src/graph.h:89-127 | popping a first item keeps the selection closed under ancestors |
| TrieTop.SelectFrontier | source/flamegraph/src/graph.h:89-127 | after popping an item and pushing what it opens, the queue again holds exactly the opened and unselected positions |
| TrieTop.SelectedCount | source/flamegraph/src/graph.h:89-127 | selected positions are distinct prefixes of appended paths, and all of them once the queue is empty |
| TrieTop.LeftOut | source/flamegraph/src/graph.h:89-127 | on the way to every unselected position waits a queued one |
| TrieTop.FirstPassesOver | source/flamegraph/src/graph.h:89-127 | with values of any sign: when an item is popped, every path it passes over has, past the fork, a prefix that is no heavier |
| TrieTop.SelectGreedy | source/flamegraph/src/graph.h:89-127 | popping a first item keeps this for the whole selection |
| TrieTop.GreedyIsChosen | source/flamegraph/src/graph.h:89-127 | so a selected path is never lighter than an alternative left out at a fork on the way to it |
| TrieTop.GreedyIsBest | source/flamegraph/src/graph.h:89-127 | and with nonnegative values best-first selection is globally optimal: nothing selected is lighter than anything left out |
| TrieListing.HeaviestKey | source/flamegraph/src/graph.h:278-285 | the key found outranks all others by total and then by key |
| TrieListing.OrderedChildren | source/flamegraph/src/graph.h:278-285 | all children, each once, by decreasing total and then decreasing key |
| TrieListing.SpanRow | source/flamegraph/src/graph.h:247-267 | the row of a position on a span has the depth, key, total and value of its path, the value only at the span's end |
| TrieListing.SpanCut | source/flamegraph/src/graph.h:247-254 | where the selection ends inside a span, nothing below it is selected, so the branch is listed completely |
| TrieListing.SpanWhole | source/flamegraph/src/graph.h:247-267 | a whole span lists everything of the branch that is not below a child |
| TrieListing.JoinListings | source/flamegraph/src/graph.h:286-290 | appending the listing of a child's branch keeps preorder, uniqueness and the order of siblings |
| TrieListing.DecodeListing | source/flamegraph/src/graph.h:242-291 | the depth and key columns alone determine the path of every row of a preorder listing |
| Trie.CompressedTrie.PushSpan | source/flamegraph/src/graph.h:114-126 | all positions of a child's span are queued with their totals and depths |
| Trie.CompressedTrie.PushChildren | source/flamegraph/src/graph.h:114-126 | exactly the positions that selecting the node's end opens are queued |
| Trie.CompressedTrie.PushOpened | source/flamegraph/src/graph.h:106-126 | a position inside a span opens nothing, the end of a span opens its children |
| Trie.CompressedTrie.Select | source/flamegraph/src/graph.h:89-127 | the loop selects an ancestor-closed set of up to the count, stops early only when nothing is left, and for values of any sign every path a selected one passes over yields to it: past the fork there is something no heavier |
| Trie.CompressedTrie.RetrieveSpan | source/flamegraph/src/graph.h:247-267 | the rows of a span up to its first unselected position |
| Trie.CompressedTrie.RetrieveOwn | source/flamegraph/src/graph.h:245-277 | a node's own rows, the root's single row included, and whether its children follow |
| Trie.CompressedTrie.RetrieveChildren | source/flamegraph/src/graph.h:278-290 | the branches of all children in order, giving a listing of exactly the selected part of the node's branch |
| Trie.CompressedTrie.RetrieveNodes | source/flamegraph/src/graph.h:242-291 | the recursive listing appends exactly the selected part of a branch, in preorder |
| Trie.ListingIsTop | source/flamegraph/src/graph.h:74-131 | selection and listing together give what GetTop promises |
| Trie.CompressedTrie.GetTop | source/flamegraph/src/graph.h:74-131 | as many rows as asked for or as there are prefixes; rebuilding paths from the rows gives an ancestor-closed set of appended prefixes, each once, in preorder, with the sums under and at the path; with values of any sign no alternative left out at a fork on the way to a listed path is heavier than that path, and with nonnegative values nothing left out is heavier than anything listed |
| Counters.WrappingIsLawful | source/rust/memhawk_core/src/proto/schema.rs:20-112 | the wrapping 64-bit counters form a commutative group |
| Counters.SubIsMinus | source/rust/memhawk_core/src/proto/schema.rs:100-112 | the source's subtraction is addition of the inverse |
| TreeSums.SubtreeSum | source/rust/memhawk_core/src/graph.rs:281-296 | if every total is the own value plus the children's totals, then it is the sum over the subtree |
| TreeSums.HeadSum | source/rust/memhawk_core/src/graph.rs:232-248 | summing totals over the first node of each path that carries a mark equals summing own values over all nodes whose path carries it |
| CallTree.OwnStep | source/rust/memhawk_core/src/graph.rs:260-279 | applying one pending difference to a node and its frame keeps the books, moving the amount from pending to credit |
| CallTree.TotalStep | source/rust/memhawk_core/src/graph.rs:281-296 | applying one credit to a node's total and its frame keeps the books, moving the credit to the parent, and nowhere at the root |
| CallGraph.TraceUnique | source/rust/memhawk_core/src/graph.rs:180-202 | two nodes with the same trace are the same node |
| CallGraph.GrowShape | source/rust/memhawk_core/src/graph.rs:204-216 | a new node keeps parents, levels and first-on-path marks right, leaves all traces alone and has its parent's trace plus its key |
| CallGraph.ChainSpellsTrace | source/rust/memhawk_core/src/graph.rs:322-332 | the parent chain of a node carries the frames of its trace in order |
| CallGraph.Graph.constructor | source/rust/memhawk_core/src/graph.rs:128-149 | the new graph has the root only, with nothing posted |
| CallGraph.Graph.Restore | source/rust/memhawk_core/src/graph.rs:163-173 | saving what was restored gives the saved state back |
| CallGraph.Graph.AggregateOnFrame | source/rust/memhawk_core/src/graph.rs:232-248 | own value or total of the node's frame grows by the difference, and the frame is marked modified |
| CallGraph.Graph.ApplySelf | source/rust/memhawk_core/src/graph.rs:260-279 | one difference is applied to one node in every place it belongs |
| CallGraph.Graph.SelfPhase | source/rust/memhawk_core/src/graph.rs:260-279 | all differences of a level are applied, in any order, and added to what the level passes up |
| CallGraph.Graph.ApplyTotal | source/rust/memhawk_core/src/graph.rs:281-296 | one amount is added to one total and owed to the parent |
| CallGraph.Graph.TotalPhase | source/rust/memhawk_core/src/graph.rs:281-296 | all amounts of a level are passed to the level above, and the root's to nobody |
| CallGraph.Graph.ProcessLevel | source/rust/memhawk_core/src/graph.rs:259-297 | one level is finished and removed from the postponed map |
| CallGraph.Graph.ProcessPostponedUpdates | source/rust/memhawk_core/src/graph.rs:250-298 | nothing is postponed any more, the books are exact, and only aggregates have changed |
| CallGraph.Graph.AddNode | source/rust/memhawk_core/src/graph.rs:204-216 | one node with nothing posted is added behind a missing edge, and its trace is the parent's plus the key |
| CallGraph.Graph.Follow | source/rust/memhawk_core/src/graph.rs:184-195 | an existing edge is followed and nothing changes; behind a missing one exactly one node and one edge are added |
| CallGraph.Graph.MarkAsLeaf | source/rust/memhawk_core/src/graph.rs:197-200 | a node is reported as a new leaf only the first time |
| CallGraph.Graph.ConstructPath | source/rust/memhawk_core/src/graph.rs:180-202 | the node returned has exactly the given trace; old nodes, what is posted and the totals stay; every node added is on the trace; it is a new leaf unless it was marked before |
| CallGraph.Graph.PostponeDiffUpdate | source/rust/memhawk_core/src/graph.rs:222-230 | what was posted to the node grows by the difference, whether or not others wait there |
| CallGraph.Graph.ConsumeModifications | source/rust/memhawk_core/src/graph.rs:300-320 | exactly the modified frames, nodes and new leaves are handed out with their current values, and forgotten; everything ever handed out together gives the current frame values |
| CallGraph.Graph.Backtrace | source/rust/memhawk_core/src/graph.rs:322-332 | the loop returns the parent chain of the node from the root |
| CallTheorems.TotalIsSubtreeSum | source/rust/memhawk_core/src/graph.rs:250-298 | in every reachable state a node's total is the sum of own values over its subtree, wrapping and with the root counted once |
| CallTheorems.OwnIsPosted | source/rust/memhawk_core/src/graph.rs:260-279 | with nothing pending, own values are exactly what was posted |
| CallTheorems.RootTotalIsPosted | source/rust/memhawk_core/src/graph.rs:250-298 | and the root total is the sum of everything ever posted |
| CallTheorems.FrameTotalIsPathSum | source/rust/memhawk_core/src/graph.rs:232-248 | a frame's total is the sum of own values of exactly the nodes whose path contains the frame, each once however often it recurs |
| CallTheorems.RootFrameExcess | source/rust/memhawk_core/src/graph.rs:232-248 | the root frame's total is the root total plus the own values of all nodes with the root's frame id on their trace |
| RootFrame.RootFrameExactIff | source/rust/memhawk_core/src/graph.rs:232-248 | for a group with more than one element, the root frame's total is the root total for all values over a shape exactly when no other node of the shape has the root's frame id |
| RootFrame.OnePostCountsTwice | source/rust/memhawk_core/src/graph.rs:232-298 | a single difference posted below a node with the root's frame id counts twice in the root frame's total and once in the root's |
| RootFrame.RootFrameCountsTwice | source/rust/memhawk_core/src/graph.rs:180-298 | a graph built by one interned path and one posted difference whose root frame's total is not the root's |
| RecurringFrames.OwnLacks | source/rust/memhawk_core/src/graph.rs:260-279 | what the nodes of a frame hold is the frame's own value plus what those of them hold that are not first on their path |
| RecurringFrames.OwnIsHeldIff | source/rust/memhawk_core/src/graph.rs:260-279 | for a group with more than one element, a frame's own value is what its nodes hold, for all values over a shape, exactly when all its nodes are first on their paths |
| RecurringFrames.OnlyFirstIff | source/rust/memhawk_core/src/graph.rs:180-202 | all nodes of a frame are first on their paths exactly when no interned path contains the frame twice |
| RecurringFrames.RecursionIsMissing | source/rust/memhawk_core/src/graph.rs:180-298 | after one difference posted under the path [f, f] the frame has nothing as its own, although its nodes hold the difference |
| CallTheorems.BatchingDoesNotMatter | source/rust/memhawk_core/src/graph.rs:222-298 | two graphs of the same shape with the same posts agree on all node and frame values, however the updates were batched |
| Writer.ProtoWriter.AccountSnapshot | source/memhawk/src/impl/writers/proto_writer.cpp:115-129 | every summary is added to the cumulative one of its trace, the total grows by the total, and the traces are marked changed |
| Writer.ProtoWriter.PtrId | source/memhawk/src/impl/writers/proto_writer.cpp:198-208 | a known address keeps its id and announces nothing; a new one gets the next id and exactly one entry that announces it |
| Writer.ProtoWriter.AddStacktrace | source/memhawk/src/impl/writers/proto_writer.cpp:187-210 | the ids written stand for the trace's addresses in order, each less one, and every new id is announced |
| Writer.ProtoWriter.WriteStackOnce | source/memhawk/src/impl/writers/proto_writer.cpp:148-152 | the stack of a trace is written, if it can be found, exactly when the trace was never written before |
| Writer.ProtoWriter.FlushData | source/memhawk/src/impl/writers/proto_writer.cpp:131-160 | the snapshot holds the current cumulative value of exactly the changed traces, the running total, and stacks for the traces never written before that the finder knows |
| Attribution.NewNodeIsEmpty | source/rust/memhawk_core/src/graph.rs:204-216 | nothing was posted under the path of a node that is new |
| Attribution.AttributionPosts | source/rust/symbolizer/src/processor.rs:345-350 | posting to a leaf changes the sum of exactly the path of that leaf |
| Attribution.RegionSum | source/rust/symbolizer/src/processor.rs:345-350 | the shares of the nodes in a set of paths add up to the differences posted in that set |
| Attribution.WithinIsPrefix | source/rust/memhawk_core/src/graph.rs:180-202 | a node lies in another node's subtree exactly when its trace extends the other's |
| Attribution.TotalIsPosts | source/rust/memhawk_core/src/graph.rs:250-298 | a node's total is the sum of everything ever posted under its trace and the traces that extend it |
| Attribution.FrameTotalIsPosts | source/rust/memhawk_core/src/graph.rs:232-248 | a frame's total is the sum of everything posted under paths that contain it; the root's frame adds the root's total |
| Attribution.FrameOwnIsPosts | source/rust/memhawk_core/src/graph.rs:232-279 | a frame's own value is the sum of everything posted under paths that end with it and do not contain it before |
| Attribution.SpannedGrows | source/rust/memhawk_core/src/graph.rs:180-202 | interning a path keeps the nodes exactly those of the prefixes of the interned paths, and the leaf marks exactly those of the paths |
| Attribution.NodeIffBegins | source/rust/memhawk_core/src/graph.rs:180-202 | a path has a node exactly when it begins an interned path |
| Attribution.SpannedIsReserved | source/rust/memhawk_core/src/graph.rs:180-202 | no node but the root has the root's frame id exactly when no interned path contains it |
| Attribution.SamePostsSameNodes | source/rust/memhawk_core/src/graph.rs:180-298 | graphs with the same posts and interned paths have for every node a node with the same trace, key, marks, own value and total |
| Reader.Processor.constructor | source/rust/symbolizer/src/processor.rs:95-118 | a new reader knows nothing and has posted nothing |
| Reader.Processor.Restore | source/rust/symbolizer/src/processor.rs:120-150 | saving what was restored gives the saved state back |
| Reader.Processor.LeafFor | source/rust/symbolizer/src/processor.rs:333-344 | the leaf has the trace's path, or the unknown frame's for a trace never described |
| Reader.Processor.PostValue | source/rust/symbolizer/src/processor.rs:345-350 | the difference to the trace's last value is posted to its leaf, and the value becomes the last one |
| Reader.Processor.ProcessAllocSummary | source/rust/symbolizer/src/processor.rs:322-352 | the difference to the last value is posted under the trace's path and the value remembered; a summary without a value changes nothing |
| Reader.Processor.ProcessAllocations | source/rust/symbolizer/src/processor.rs:296-307 | all changed summaries are applied in order, failing ones skipped |
| Reader.Processor.LearnPtrs | source/rust/symbolizer/src/processor.rs:384-387 | later addresses replace earlier ones of the same id |
| Reader.Processor.ProcessStack | source/rust/symbolizer/src/processor.rs:394-419 | the trace is interned at the symbols of its known addresses, the last id first, under the profiler's root from id 2^31 - 1 on; `SymbolsSpell` and `ResolvedSplits` say where each of them stands |
| Reader.Processor.ProcessStacktraces | source/rust/symbolizer/src/processor.rs:384-420 | all new addresses are learnt before the stacks are resolved with them |
| Reader.Processor.ProcessModifications | source/rust/symbolizer/src/processor.rs:207-228 | everything posted is propagated; handed out are all new leaves, the own values of exactly the nodes posted to, and frame values that bring everything handed out before up to date |
| Reader.Processor.Process | source/rust/symbolizer/src/processor.rs:166-205 | a snapshot is skipped exactly when it is not newer than the newest one; otherwise tables, last values and posts change as the snapshot says, and the root total is the sum of all last values |
| Reader.Processor.NodeIsPosts | source/rust/symbolizer/src/processor.rs:322-352 | after every snapshot a node's own value is the sum of all differences ever posted under its path, and its total that of all posted under paths that extend it |
| Reader.Processor.FrameIsPosts | source/rust/memhawk_core/src/graph.rs:232-298 | after every snapshot every frame's own value and total are the sums over the posts whose paths end with it as new, or contain it |
| RecurringFrames.OwnIsAllEnding | source/rust/symbolizer/src/processor.rs:207-228 | after every snapshot, if no interned path contains a frame twice, its own value is the sum of everything posted under paths that end with it, for the root's frame together with the root's own |
| Reader.Processor.RootFrameIsRoot | source/rust/symbolizer/src/processor.rs:384-420 | as long as symbolization never gives the root's frame id, the root's frame has the root's total |
| Reader.Processor.RootIsTotal | source/rust/memhawk_core/src/graph.rs:250-298 | after every snapshot the root total is the sum of the last values of all traces |
| Restart.ReadsReachMaximum | source/rust/symbolizer/src/processor.rs:166-177 | after reading a file the gate stands at the largest timestamp of the file and what it stood at before |
| Restart.OldSnapshotsAreSkipped | source/rust/symbolizer/src/processor.rs:170-176 | a file whose timestamps are not beyond the gate changes nothing |
| Restart.SameReading | source/rust/symbolizer/src/processor.rs:166-205 | if processing a snapshot is deterministic, so is reading a file |
| Restart.ReadsInTwoParts | source/rust/symbolizer/src/main.rs:132-159 | reading a file is reading its first part and then its second part |
| Restart.RestartIsTransparent | source/rust/symbolizer/src/main.rs:106-177 | for any timestamps, reading a part, and then the whole file from its start in the state reached, ends exactly where one reading of the whole file ends |
| Reader.ReadFile | source/rust/symbolizer/src/main.rs:156-158 | the loop over the messages follows the gated reading of their accounts |
| Reader.Reopen | source/rust/symbolizer/src/processor.rs:120-164 | save and restore give an equal state, and the restored reader is sound |
| Reader.SameAccountsSameGraph | source/rust/symbolizer/src/processor.rs:120-164 | two readers with the same tables, last values, posts and paths have graphs that differ at most in node numbers: traces, keys, marks, own values, totals and all frame values agree |
| Reader.SameFileSameGraph | source/rust/symbolizer/src/processor.rs:166-205 | two readings of a file from the start have the same state and the same graph |
| Reader.ReadWithRestart | source/rust/symbolizer/src/main.rs:106-177 | read a part, save, restore, read the whole file: the state follows the gated reading of the whole file from an empty reader |
| Reader.CompareRestart | source/rust/symbolizer/src/main.rs:106-177 | beside an uninterrupted reading of the same file, the restarted one has the same address table, paths, last values, posts and timestamp, and the same graph up to node numbers |
| Localizer.FrameLocalizer.constructor | source/rust/memhawk_core/src/localizer.rs:67-80 | three names are predefined with the ids of root, profiler and unknown frame |
| Localizer.FrameLocalizer.AddNewLocalizedName | source/rust/memhawk_core/src/localizer.rs:171-183 | a known name keeps its id, a new one gets the next, and the id is appended |
| Localizer.FrameLocalizer.ProcessSymbolizedFrame | source/rust/memhawk_core/src/localizer.rs:143-169 | the address gets the ids of the frame's names in order, the symbol's own only if nothing is inlined; all other addresses keep theirs |
| Localizer.FrameLocalizer.GetLocalizedRange | source/rust/symbolizer/src/processor.rs:422-440 | a known address is not looked up again; a new one gets the frame found or the unknown symbol |
| Localizer.FrameLocalizer.SameIdIff | source/rust/memhawk_core/src/localizer.rs:143-183 | two positions have the same id exactly when name, location and library agree |
| Localizer.FrameLocalizer.SameFrameIff | source/rust/memhawk_core/src/localizer.rs:143-183 | position by position: two inlined frames share an id exactly when name, location and library agree, two symbols when name and library do, a symbol and an inlined frame when the location is "?" |
| Localizer.FrameLocalizer.RootIdIff | source/rust/memhawk_core/src/localizer.rs:143-183 | an address has the root's id exactly when its library name is empty and a frame named root without a location is inlined there |
| Localizer.FrameLocalizer.RootlessIff | source/rust/memhawk_core/src/localizer.rs:143-183 | symbolization avoids the root's id exactly when no frame processed so far is of that kind |
| Telescoping.SnapshotKeeps | source/rust/symbolizer/src/processor.rs:166-205 | if stacks come only for traces without a value so far, the differences posted in every set of paths stay the sum of the last values of the traces there |
| Telescoping.NodeIsTraces | source/rust/symbolizer/src/processor.rs:322-352 | then every node's own value and total are sums of the last values of the traces at its path and below it |
| Telescoping.FrameIsTraces | source/rust/symbolizer/src/processor.rs:322-352 | and the same for every frame, the root's frame adding the root's sums |
| Session.TableFollows | source/rust/symbolizer/src/processor.rs:384-387 | the announced entries keep the reader's address table equal to the writer's |
| Session.ResolvedIsAddresses | source/rust/symbolizer/src/processor.rs:398-404 | resolving the ids of a written stack gives the trace's addresses, outermost first |
| Session.StacksLocate | source/rust/symbolizer/src/processor.rs:384-420 | every trace in the message ends up with the symbols of the trace the finder gave for it |
| TracePaths.ResolvedSplits | source/rust/symbolizer/src/processor.rs:398-404 | the reader drops exactly the ids it does not know and turns the others round |
| TracePaths.SymbolsSpell | source/rust/symbolizer/src/processor.rs:410-414 | the symbols of a frame stand on the path behind those of all frames that called it, looked up at the address before its return address, and nothing else is on the path |
| TracePaths.SpelledOnce | source/rust/symbolizer/src/processor.rs:410-414 | there is only one such path |
| TracePaths.DeliveredIsShown | source/memhawk/src/impl/writers/proto_writer.cpp:187-210 | every delivered trace that was found is located at such a path, behind the profiler's root from id 2^31 - 1 on; one not found is at the unknown frame |
| TracePaths.CallersShare | source/rust/symbolizer/src/processor.rs:394-419 | two traces with the same outer frames have paths that begin with the same path, that of these frames |
| TracePaths.CallersNode | source/rust/symbolizer/src/processor.rs:322-419 | the node of the shared callers exists, and its total includes the values of both traces |
| Session.ChangedReplaces | source/rust/symbolizer/src/processor.rs:296-307 | after a message the last values of the listed traces are the writer's cumulative values, the others stay |
| Session.FlushSyncs | source/memhawk/src/impl/writers/proto_writer.cpp:146-155 | after a flush the reader's last values agree with the writer's cumulative values for every trace |
| Session.FlushNames | source/memhawk/src/impl/writers/proto_writer.cpp:146-155 | a flush gives exactly the traces written for the first time the path of the stack found, or the unknown frame, and moves no other trace |
| Session.Deliver | source/rust/symbolizer/src/processor.rs:166-205 | one flush and one processed snapshot: the reader's root total is the total field sent, new traces have their paths, and traces written before keep theirs |
| Session.RootIsSent | source/rust/symbolizer/src/processor.rs:322-352 | with nothing left to flush the reader's root total is the writer's total |
| Session.NodeIsSent | source/rust/symbolizer/src/processor.rs:322-352 | with nothing left to flush every node's own value and total are the sums of the writer's cumulative values of exactly the traces with its path, or with a path that extends it |
| Session.FrameIsSent | source/rust/symbolizer/src/processor.rs:322-352 | and every frame has the sums over the traces that it ends as new, or that contain it, the root's frame with the root's added |
| Session.RunFrom | source/rust/symbolizer/src/processor.rs:322-352 | from any agreeing writer and reader, every run keeps them agreeing, adds up totals and the values of every trace, leaves nothing to flush if it ends with a flush, and names every trace as the lookup gave it when it was first written |
| Session.Run | source/rust/symbolizer/src/processor.rs:322-352 | over every run of accounts and flushes the root totals seen are the totals sent and the running sums; afterwards writer and reader agree, the writer has for every trace what was accounted, and after a last flush the reader's root has the writer's total |
| Accounting.OnThreadConserves | source/memhawk/src/impl/memhawk.cpp:153-231 | an external operation enters the thread's tracker and the ledger by the same amount |
| Accounting.PostponeConserves | source/memhawk/src/impl/memhawk.cpp:332-356 | a nested operation enters the ring, or the skipped list when the ring is full, and the ledger in both cases |
| Ring.SkippedIsRefused | source/memhawk/src/impl/memhawk.cpp:332-356 | in every run the skipped operations are exactly those postponed when the ring held as many as its capacity, in order; how full it is follows from the operations postponed and popped alone |
| Ring.FirstInFirstOut | source/memhawk/src/impl/memhawk.cpp:304-356 | in every run what the ring held and accepted is what threads popped followed by what it holds, in order |
| Ring.TakenOrRefused | source/memhawk/src/impl/memhawk.cpp:332-356 | every postponed operation is accepted or refused, and none is refused exactly when there is room for each |
| Ring.NoneSkippedIff | source/memhawk/src/impl/memhawk.cpp:332-356 | nothing is skipped if and only if there was room for each operation when it was postponed; as many operations as the capacity always fit |
| Ring.WrittenIsHistory | source/memhawk/src/impl/memhawk.cpp:304-406 | then, once everything is drained, the written tally of every trace is that of all operations, with none missing |
| Accounting.PopConserves | source/memhawk/src/impl/memhawk.cpp:304-317 | popping moves an operation from the ring into a thread's hands |
| Accounting.ApplyConserves | source/memhawk/src/impl/memhawk.cpp:318-329 | applying moves it from there into the inner tracker |
| Accounting.ConsumeConserves | source/memhawk/src/impl/thread_tracker.cpp:87-93 | consuming a tracker moves its tally into the worker's hands and leaves it empty |
| Accounting.AccountConserves | source/memhawk/src/impl/memhawk.cpp:397-406 | accounting moves the worker's tally into the writer's cumulative one |
| Accounting.RegisterConserves | source/memhawk/src/impl/memhawk.cpp:111-133 | a registering thread gets an old tracker with its contents or an empty one |
| Accounting.StepConserves | source/memhawk/src/impl/memhawk.cpp:111-406 | every action keeps, for every trace, the sum of all places equal to the ledger |
| AccountingRuns.StepTotals | source/memhawk/src/impl/thread_tracker.cpp:59-93 | every action keeps each tracker's total equal to the sum of its per-trace differences, in the worker's hands too |
| AccountingRuns.StepOwned | source/memhawk/src/impl/memhawk.cpp:111-151 | every action keeps trackers held at most once, the free list free of duplicates and disjoint from held trackers, and every tracker in one of the two |
| AccountingRuns.LedgerIsHistory | source/memhawk/src/impl/memhawk.cpp:153-254 | the ledger is the sum of all operations submitted in the run |
| AccountingRuns.NothingIsLost | source/memhawk/src/impl/memhawk.cpp:153-406 | in every run and for every trace, trackers, ring, hands, worker, writer and skipped operations add up to all operations of the run, frees on other threads and finished threads included |
| AccountingRuns.DrainedIsWritten | source/memhawk/src/impl/memhawk.cpp:381-406 | once trackers, ring and hands are empty the writer holds everything that was not skipped |
| AccountingRuns.TrackersArePeak | source/memhawk/src/impl/memhawk.cpp:111-151 | from any sound state the number of trackers becomes the larger of what it was and the peak of held trackers |
| AccountingRuns.TrackersCreated | source/memhawk/src/impl/memhawk.cpp:111-151 | the number of trackers ever created is the peak number of threads holding one at the same time |
| AccountingRuns.OwnTrackerIsExclusive | source/memhawk/src/impl/memhawk.cpp:111-151 | a registered thread's tracker exists, is not free, and is held by no other thread |
| AccountingRuns.LastGivenBackIsReused | source/memhawk/src/impl/memhawk.cpp:111-151 | a thread that registers after another has given its tracker back gets that tracker, with what is left in it |
| Places.TrackerHolds | source/memhawk/src/impl/memhawk.cpp:153-406 | in every run each tracker holds exactly the operations recorded in it since the worker was last there: those of the thread that owns it, of exiting threads, or of the profiler itself |
| Places.RoundDrains | source/memhawk/src/impl/memhawk.cpp:381-410 | a round of the worker alone visits every tracker and leaves all of them empty |
| Places.RoundCompletes | source/memhawk/src/impl/memhawk.cpp:381-410 | every run that leaves nothing postponed or about to be applied is completed by one such round, which adds no operation |
| Conservation.NothingIsLostAmong | source/memhawk/src/impl/memhawk.cpp:153-406 | in every run and for every set of traces, what trackers, ring, hands, worker, writer and skipped operations hold of these traces adds up to the costs of the operations on them |
| Conservation.DrainedAmong | source/memhawk/src/impl/memhawk.cpp:381-406 | once everything is drained, what was written of any set of traces is the cost of the operations on them that were not skipped |
| Conservation.TotalsAreHistory | source/memhawk/src/impl/memhawk.cpp:153-406 | the running totals of all trackers, hands and the writer with the costs in the ring and among the skipped operations add up to the costs of all operations of the run |
| EndToEnd.EmittedIsProper | source/memhawk/src/impl/memhawk.cpp:381-410 | the worker's accounts carry totals that match their summaries, flushes carry growing timestamps, and the running totals are the written totals |
| EndToEnd.EmittedAccrues | source/memhawk/src/impl/memhawk.cpp:381-410 | the events account for every trace, and in total, exactly what the run has written |
| EndToEnd.OpeningIsEmpty | source/memhawk/src/impl/writers/proto_writer.cpp:75-77 | the empty summary of trace 0 that a new writer accounts and flushes adds one snapshot with total zero and nothing else |
| EndToEnd.Profile | source/memhawk/src/impl/memhawk.cpp:381-410 | for every interleaving of threads and worker, the root totals of the reader after each snapshot are the totals written by then; the writer has the written value of every trace; after a finished round the reader's root total is the written total |
| EndToEnd.RootIsHistory | source/memhawk/src/impl/memhawk.cpp:153-410 | the reader's root total, with what trackers, ring and hands still hold and what was skipped, adds up to the costs of all operations of the run |
| EndToEnd.NodeIsHistory | source/memhawk/src/impl/memhawk.cpp:153-410 | after a complete drain and flush every node's own value and total are the costs of the unskipped operations on exactly the traces with its path, or with a path that extends it |
| EndToEnd.FrameIsHistory | source/memhawk/src/impl/memhawk.cpp:153-410 | and every frame has those of the traces that it ends as new, or that contain it, the root's frame with the root's added |
| EndToEnd.NodeHolds | source/memhawk/src/impl/memhawk.cpp:381-410 | the same for nodes in any drained and flushed state whose places hold given operations, however the state was reached |
| EndToEnd.FrameHolds | source/memhawk/src/impl/memhawk.cpp:381-410 | and for frames |
| Exact.RootIsExact | source/memhawk/src/impl/memhawk.cpp:153-410 | if the ring never overflowed, after a complete drain and flush the reader's root total is the cost of all operations of the run, with nothing added or missing |
| Exact.NodeIsExact | source/memhawk/src/impl/memhawk.cpp:153-410 | and every node's own value and total are the costs of all operations on the traces with its path, or with a path that extends it |
| Exact.FrameIsExact | source/memhawk/src/impl/memhawk.cpp:153-410 | and so for every frame |
| SavedPaths.SavesAreSound | source/memhawk/src/impl/memhawk.cpp:153-253 | external saves behind caches that start empty, in any order and with any evictions, intern the collapsed traces in the trie; the traces of the profiler itself are offered to the fixed store directly, as they are and in order |
| SavedPaths.ExternalNamed | source/rust/symbolizer/src/processor.rs:394-419 | while the trie has fewer than 2^31 nodes, the path shown for a saved external trace is the symbols of its collapsed frames besides null, outermost first; a trace without frames may be unknown |
| SavedPaths.InnerNamed | source/rust/symbolizer/src/processor.rs:394-419 | the path shown for a saved trace of the profiler is the symbols of its first six frames, not collapsed, under the profiler's root, or the unknown frame if the store was full |
| SavedPaths.LookupIsLasting | source/memhawk/src/impl/memhawk.h:60-68 | what both trackers together give for an id that has been handed out never changes |
| SavedPaths.EndFinds | source/memhawk/src/impl/writers/proto_writer.cpp:75-77 | the lookups of the flushes, each in the trackers as they stand, together give what is found in the end; only trace 0, looked up at the opening, may have been unknown |
| SavedPaths.AllEventsAgree | source/memhawk/src/impl/writers/proto_writer.cpp:146-155 | if every operation was saved before the flush that follows it, every flush finds for the traces it writes first what is found in the end |
| SavedPaths.NodeIsSaved | source/memhawk/src/impl/memhawk.cpp:153-410 | after a complete drain and flush, every node's own value and total are the costs of the unskipped operations saved with raw traces whose shown path is the node's, or extends it |
| SavedPaths.FrameIsSaved | source/memhawk/src/impl/memhawk.cpp:153-410 | and every frame has the costs of the operations saved with raw traces whose shown path contains it, or that it ends as new, the root's frame with the root's added |
| SavedPaths.ProfileSaves | source/memhawk/src/impl/memhawk.cpp:153-410 | for every interleaving of threads, saves and worker with lookups in the trackers as they stand: totals seen are totals written, traces are at the paths found in the end, and after a finished round that drained everything all nodes and frames show the costs of the operations saved with the traces shown there |
| Counted.SumCounts | source/memhawk/src/impl/alloc_info.h:43-70 | summed over any operations on any set of traces, the counters are, modulo 2^64: allocations minus frees, bytes allocated minus freed, overhead likewise, number of allocations, bytes allocated |
| Counted.CountsExactly | source/memhawk/src/impl/alloc_info.h:43-70 | each counter is that number itself exactly when the number fits in 64 bits |
| Counted.ReaderCounts | source/memhawk/src/impl/alloc_info.h:43-70 | after a complete run every node and frame the reader shows counts the allocations and frees on its traces in this way |
| Counted.ProfileSummaries | source/memhawk/src/impl/alloc_info.h:43-70 | `Profile` with the source's counters: after a finished round that drained everything, with room in the ring for each postponed operation, root, nodes and frames show active count, live bytes, live overhead, number and bytes of allocations, counted on the operations themselves |
| Counted.FreeUndoesAlloc | source/memhawk/src/impl/alloc_info.h:53-70 | an allocation and its free leave size, overhead and active count at zero, and the running totals at one allocation |
| Guards.StepValid | source/memhawk/src/impl/owned_guards.h:32-123 | registration, guard destruction and draining, step by step, keep every finalizer either run once or still due somewhere |
| Guards.AtMostOnce | source/memhawk/src/impl/owned_guards.h:76-123 | in every interleaving a finalizer runs at most once, and has been claimed when its guard's destructor returns |
| Guards.ExactlyOnce | source/memhawk/src/impl/owned_guards.h:32-53 | once nothing is registered or half destroyed, every finalizer has run exactly once |
| Reclaim.StepValid | source/memhawk/src/impl/memhawk.cpp:111-151 | registering, destroying guards, draining and giving back keep every finalizer that ran either waiting for the lock or done, and every tracker free once or with one registration |
| Reclaim.GivenBackOnce | source/memhawk/src/impl/memhawk.cpp:135-151 | in every interleaving, drains included, a registration gives its tracker back at most once, and every tracker is on the free list once or belongs to one registration |
| Reclaim.AllGivenBack | source/memhawk/src/impl/owned_guards.h:27-53 | once no guard is held or under way and no finalizer waits, every registration has given back exactly once and all trackers are free |
| ReclaimTheorems.ExclusiveIff | source/memhawk/src/impl/memhawk.cpp:135-151 | in every run, the trackers that threads use are neither free nor held by others exactly when no thread still uses a tracker that was given back for it |
| ReclaimTheorems.AlwaysExclusiveIff | source/memhawk/src/impl/memhawk.cpp:135-151 | use is exclusive in every state of a run exactly when no tracker is given back, after a drain has run its finalizer on another thread, while its own thread still uses it |
| ReclaimTheorems.DrainFreeIsAccounting | source/memhawk/src/impl/memhawk.cpp:111-151 | without drains every guarded run is a run of the accounting state machine with the same end, and every thread uses its tracker alone |
| ReclaimTheorems.GuardedRunConserves | source/memhawk/src/impl/memhawk.cpp:111-406 | every guarded run, drains included, keeps all places together equal to the ledger for every trace, and totals equal to tallies |
| GuardedProfile.NothingIsLostGuarded | source/memhawk/src/impl/memhawk.cpp:111-406 | in every guarded run from the start, drains included, all places together hold for every trace the costs of the operations submitted |
| GuardedProfile.Profile | source/memhawk/src/impl/memhawk.cpp:111-410 | for every guarded run, drains included, the totals the reader sees are the totals written; after a finished round the reader's root total, with what is still under way and what was skipped, adds up to the costs of all operations submitted |
| ReclaimTheorems.DrainShares | source/memhawk/src/impl/owned_guards.h:42-53 | a run with a drain after which two threads use the same tracker |
| Bits.FlatUpdate | source/memhawk/src/impl/compression.cpp:34-39 | changing part of one word replaces exactly these bits of the whole bit string |
| Codec.WidthIsEnough | source/memhawk/src/impl/compression.cpp:102-128 | the size class of a value keeps all bits that are set |
| Codec.WidthIsLeast | source/memhawk/src/impl/compression.cpp:102-128 | and none of the narrower size classes would |
| Codec.EncodeBits | source/memhawk/src/impl/compression.cpp:51-73 | the low bits of the value replace the bits at the iterator across word borders, and nothing else changes |
| Codec.DecodeBits | source/memhawk/src/impl/compression.cpp:76-99 | the value is the bits at the iterator, zero above |
| Codec.Encode | source/memhawk/src/impl/compression.cpp:102-128 | size class and bits are put at the ends of the two streams |
| Codec.StreamStep | source/memhawk/src/impl/compression.cpp:102-128 | extending the streams disturbs neither the size word nor what either stream holds, as long as control bits stay before the data block |
| Codec.CompressOne | source/memhawk/src/impl/compression.cpp:177-190 | one element extends the streams by the halves of its difference to the one before |
| Codec.ClearUnusedBits | source/memhawk/src/impl/compression.cpp:41-48 | the rest of a word used in part becomes zero, a word boundary is left alone |
| Codec.Compress | source/memhawk/src/impl/compression.cpp:165-198 | the output is a function of the input, whatever the buffer held, and has at most 1 + 2n + ceil(4n / 32) words |
| Codec.Decode | source/memhawk/src/impl/compression.cpp:131-152 | reads one value from the two streams |
| Codec.Decompress | source/memhawk/src/impl/compression.cpp:216-244 | every well-formed buffer decodes to the elements its streams describe |
| CodecRoundTrip.RoundTrip | source/memhawk/src/impl/compression.cpp:165-244 | decoding the encoded form of any sequence of 64-bit words gives the sequence back |
| CodecRoundTrip.EncodingIsInjective | source/memhawk/src/impl/compression.cpp:165-198 | different sequences have different encodings |
| CodecRoundTrip.Transcode | source/memhawk/src/impl/compression.cpp:200-214 | compressing and decompressing with any buffers gives the input back |
| Collapse.RunIsBlock | source/memhawk/src/impl/algo.cpp:96-123 | the counter reaches the shift exactly where the frames before a position are repeated at it |
| Collapse.ScanShift | source/memhawk/src/impl/algo.cpp:96-123 | one pass adds the blocks of its length to the table, without leaving the trace and without overflow of the 8-bit counter |
| Collapse.Lane | source/memhawk/src/impl/algo.cpp:173-188 | one lane moves run length and table on by one frame |
| Collapse.ScanBlock | source/memhawk/src/impl/algo.cpp:164-189 | one block of eight comparisons does what eight scalar steps do, with the run length carried over |
| Collapse.ScanShiftAvx | source/memhawk/src/impl/algo.cpp:155-207 | blocks and scalar tail together fill the same table as the scalar pass |
| Collapse.FillTableAvx | source/memhawk/src/impl/algo.cpp:143-208 | all passes, with the early stop at the end of the trace, leave the lengths of the longest repeated blocks in the table |
| Collapse.Compact | source/memhawk/src/impl/algo.cpp:125-140 | in place, frames at positions with no repeated block are kept and blocks skipped; what lies behind the result is untouched |
| Collapse.CollapseRecursionOpt | source/memhawk/src/impl/algo.cpp:79-141 | length and contents are those of the collapsed trace, for every depth and up to 64 frames; what that is, say `CollapsedReaches`, `CollapsedNoStutter`, `LongestIsCut` and `RunsCollapse` |
| Collapse.CollapseRecursionAvx | source/memhawk/src/impl/algo.cpp:144-226 | the same length and contents as the scalar form, with no index out of range and no underflow |
| Collapse.FindCycle | source/memhawk/src/impl/algo.cpp:28-54 | the shortest block of kept frames that is repeated next |
| Collapse.CollapseRecursionNaive | source/memhawk/src/impl/algo.cpp:21-68 | length and contents of the naive result; 1 for an empty trace |
| CollapseTheorems.ReachesKeeps | source/memhawk/src/impl/algo.cpp:21-141 | cutting one of two equal adjacent blocks, any number of times, keeps the first frame and the set of frames |
| CollapseTheorems.CollapsedReaches | source/memhawk/src/impl/algo.cpp:79-141 | the scalar and 8-wide result comes from the trace by such cuts of at most depth frames |
| CollapseTheorems.NaiveReaches | source/memhawk/src/impl/algo.cpp:21-68 | and so does the naive result |
| CollapseTheorems.FormsAgreeIff | source/memhawk/src/impl/algo.cpp:21-141 | naive and optimised form agree on all nonempty traces if and only if the depth is 0 or 1 |
| CollapseTheorems.Differ | source/memhawk/src/impl/algo.cpp:21-141 | at every depth from 2 on a concrete trace tells them apart |
| CollapseCopies.CollapsedNoStutter | source/memhawk/src/impl/algo.cpp:79-141 | at every depth from 1 on, no frame of the scalar and 8-wide result equals its neighbour, for every trace |
| CollapseCopies.NaiveNoStutter | source/memhawk/src/impl/algo.cpp:21-68 | nor does one of the naive result |
| CollapseCopies.LongestIsCut | source/memhawk/src/impl/algo.cpp:96-140 | a repeated block that ends a trace, with none before it, goes as a whole, even if shorter ones are repeated at the same place |
| CollapseCopies.HalvesCollapse | source/memhawk/src/impl/algo.cpp:96-140 | a trace written twice comes down to one copy when no block is repeated before the second one, whatever repeats inside |
| CollapseCopies.NaiveCutsAny | source/memhawk/src/impl/algo.cpp:28-67 | for the naive form it makes no difference which repeated block is cut: all lead to the same result |
| CollapseCopies.RunsCollapse | source/memhawk/src/impl/algo.cpp:79-141 | a trace made of any number of blocks, each repeated any number of times and of at most depth frames if repeated, collapses to the blocks once each, if their frames are distinct |
| CollapseCopies.RunsCollapseNaively | source/memhawk/src/impl/algo.cpp:21-68 | naively too |
| CollapseCopies.RecursionCollapses | source/memhawk/src/impl/algo.cpp:21-141 | recursion in the middle of a stack: between any outer and inner frames, k copies of a block come down to one and the rest stays, in all forms |
| Names.FilteredJoins | source/memhawk/src/impl/stacktrace_tree.h:25-32 | exactly the null frames of a trace go, all others stay in their order |
| Names.SameName | source/memhawk/src/impl/stacktrace_tree.h:25-32 | traces are interned under the same name exactly when they agree besides null frames |
| Names.GrowTree | source/memhawk/src/impl/stacktrace_tree.h:36-43 | interning keeps names unique and closed under prefixes |
| Names.GrowAgain | source/memhawk/src/impl/stacktrace_tree.h:36-43 | a name that is there is not added again |
| Names.IdIsStable | source/memhawk/src/impl/trackers/stacktrace_tracker.cpp:69-108 | in every run an id leads back to the inserted trace without null frames, in every later state |
| Names.SameIdIff | source/memhawk/src/impl/trackers/stacktrace_tracker.cpp:69-78 | two insertions of a run get the same id exactly when their traces agree besides null frames |
| Interning.EdgeIff | source/memhawk/src/impl/stacktrace_tree.h:36-37 | the edge for a frame is there exactly when the longer name is |
| Interning.StacktraceTracker.constructor | source/memhawk/src/impl/trackers/stacktrace_tracker.cpp:22-27 | the root node stands under the id of the null address |
| Interning.StacktraceTracker.GetPtrId | source/memhawk/src/impl/stacktrace_tree.h:48-59 | a known address keeps its id and nothing changes; a new one gets the next id, in both maps, and no other is learnt |
| Interning.StacktraceTracker.AddNode | source/memhawk/src/impl/stacktrace_tree.h:37-42 | callback, edge and counter move on together: the new node's number is the length of the node list |
| Interning.StacktraceTracker.Step | source/memhawk/src/impl/stacktrace_tree.h:33-43 | one frame leads to the node with the longer name, which is added only if missing |
| Interning.StacktraceTracker.Index | source/memhawk/src/impl/stacktrace_tree.h:21-46 | the walk ends at the node named by the trace's frames besides null, outermost first, and adds exactly the missing prefixes |
| Interning.StacktraceTracker.InsertStacktrace | source/memhawk/src/impl/trackers/stacktrace_tracker.cpp:69-78 | the id is the number of that node, and is remembered as handed out |
| Interning.StacktraceTracker.GetStacktrace | source/memhawk/src/impl/trackers/stacktrace_tracker.cpp:94-108 | the walk along parents ends within 64 steps and gives the frames innermost first |
| Interning.StacktraceTracker.GetStacktraceFromId | source/memhawk/src/impl/trackers/stacktrace_tracker.cpp:80-92 | exactly the ids handed out are found |
| StaticStore.StoredIsSound | source/memhawk/src/impl/trackers/stacktrace_tracker_static.cpp:99-116 | insertions keep traces unique and both capacities strictly unexhausted |
| StaticStore.AnswerSettles | source/memhawk/src/impl/trackers/stacktrace_tracker_static.cpp:68-119 | inserting the same trace again gives the same id and changes nothing, for refused traces too |
| StaticStore.AnswerStays | source/memhawk/src/impl/trackers/stacktrace_tracker_static.cpp:68-119 | a settled answer survives every other insertion; in particular unknown stays unknown |
| StaticStore.LookupIsStable | source/memhawk/src/impl/trackers/stacktrace_tracker_static.cpp:121-141 | in every run and every later state an id gives the first six frames of its trace, and the unknown id gives nothing |
| StaticStore.FirstAreKept | source/memhawk/src/impl/trackers/stacktrace_tracker_static.cpp:68-119 | while fewer than 438 traces are kept, every trace is accepted, and its id leads back to its first six frames for good |
| StaticStore.ShortRunIsKept | source/memhawk/src/impl/trackers/stacktrace_tracker_static.cpp:68-119 | so in every run of at most 438 insertions nothing is refused |
| StaticStore.SameIdIff | source/memhawk/src/impl/trackers/stacktrace_tracker_static.cpp:68-119 | accepted traces share an id exactly when their first six frames agree |
| StaticTracker.FoundIff | source/memhawk/src/impl/trackers/stacktrace_tracker_static.cpp:79-101 | comparing hash and compressed words finds exactly the equal trace, whatever the hash function |
| StaticTracker.SpansAreDisjoint | source/memhawk/src/impl/trackers/stacktrace_tracker_static.cpp:103-109 | stored spans do not overlap and end inside the storage |
| StaticTracker.StaticStacktraceTracker.constructor | source/memhawk/src/impl/trackers/stacktrace_tracker_static.h:61-67 | the store starts empty |
| StaticTracker.StaticStacktraceTracker.FindElement | source/memhawk/src/impl/trackers/stacktrace_tracker_static.cpp:99-101 | the first element with the same words, or the end |
| StaticTracker.StaticStacktraceTracker.CopyWords | source/memhawk/src/impl/trackers/stacktrace_tracker_static.cpp:107-107 | the words land behind those in use, which stay |
| StaticTracker.StaticStacktraceTracker.Append | source/memhawk/src/impl/trackers/stacktrace_tracker_static.cpp:105-109 | exactly the new trace is added to what the arrays describe |
| StaticTracker.StaticStacktraceTracker.InsertStacktraceUnlocked | source/memhawk/src/impl/trackers/stacktrace_tracker_static.cpp:88-119 | arrays and id follow the store: found, appended, or refused by either capacity |
| StaticTracker.StaticStacktraceTracker.InsertStacktrace | source/memhawk/src/impl/trackers/stacktrace_tracker_static.cpp:68-77 | the same for the first six frames, with the flag in the id |
| StaticTracker.StaticStacktraceTracker.GetStacktrace | source/memhawk/src/impl/trackers/stacktrace_tracker_static.cpp:136-141 | decompressing a stored span gives the stored trace |
| StaticTracker.StaticStacktraceTracker.GetStacktraceFromId | source/memhawk/src/impl/trackers/stacktrace_tracker_static.cpp:121-134 | ids without the flag or beyond the stored ones give nothing, others their trace |
| Recent.RecencyIsOrder | source/memhawk/src/impl/lru_cache.h:93-98 | the recency list holds exactly the keys used, in the order of their last uses |
| Recent.CachedAreMostRecent | source/memhawk/src/impl/lru_cache.h:26-55 | every cached key was used after every key that is not cached |
| Recent.FirstIsOldest | source/memhawk/src/impl/lru_cache.h:29-38 | the key that is replaced is the least recently used one |
| Lru.InsertedKeys | source/memhawk/src/impl/lru_cache.h:26-43 | insertion keeps the cache at exactly the most recently used keys |
| Lru.LruCache.Touch | source/memhawk/src/impl/lru_cache.h:45-55 | a cached key gives its value and becomes the newest, a missing one changes nothing |
| Lru.LruCache.Insert | source/memhawk/src/impl/lru_cache.h:26-43 | the key becomes the newest, the oldest one is reported and goes when the cache is full, and the size stays within the capacity |
| CachedInterning.SaveIsInsert | source/memhawk/src/impl/thread_tracker.cpp:36-57 | behind a cache a save gives the tracker state and id of an insertion, hit or miss, and keeps all threads' caches right |
| CachedInterning.CachesAreInvisible | source/memhawk/src/impl/thread_tracker.cpp:36-57 | over every interleaving of saving threads, with any evictions, ids and tracker are those of a run without caches, and no cache outgrows its capacity |
| CachedInterning.CachesAreRecent | source/memhawk/src/impl/thread_tracker.cpp:36-57 | over every interleaving each thread's cache holds exactly the traces that this thread saved last, in order, up to the capacity |
| SettledTrackers.TrieSettles | source/memhawk/src/impl/trackers/stacktrace_tracker.cpp:69-78 | the trie tracker's answers settle for good, as the cache needs |
| SettledTrackers.StaticSettles | source/memhawk/src/impl/trackers/stacktrace_tracker_static.cpp:68-119 | and so do those of the fixed store, the unknown answer included |
| SavedIds.SavedIdsResolve | source/memhawk/src/impl/thread_tracker.cpp:36-57 | whatever the threads save, an id leads back to the collapsed trace without null frames, and two saves get the same id exactly when these are equal |
| ThreadTrackers.ThreadTracker.constructor | source/memhawk/src/impl/thread_tracker.h:49-56 | a new tracker has an empty cache and empty tallies |
| ThreadTrackers.ThreadTracker.SaveTraceId | source/memhawk/src/impl/thread_tracker.cpp:36-57 | id and trie are those of inserting the collapsed trace, whatever the cache holds; the raw trace is the key, and only a miss collapses and counts |
| ThreadTrackers.ThreadTracker.TrackAlloc | source/memhawk/src/impl/thread_tracker.cpp:59-71 | tally and total grow by the allocation, as in the state machine |
| ThreadTrackers.ThreadTracker.TrackDealloc | source/memhawk/src/impl/thread_tracker.cpp:73-85 | tally and total grow by the free, also for a trace this thread never allocated |
| ThreadTrackers.ThreadTracker.ConsumeDiff | source/memhawk/src/impl/thread_tracker.cpp:87-93 | the worker gets the tally, its own old one is erased, the totals are added, and the tracker is empty |
| TraceIds.StaticIdsAreOwn | source/memhawk/src/impl/trackers/stacktrace_tracker_static.cpp:68-119 | every id of the fixed store, the unknown one included, is a 32-bit number with the top bit, which the reader takes as the profiler's own |
| TraceIds.NewestIsAnId | source/memhawk/src/impl/stacktrace_tree.h:21-46 | the number of the newest node of the trie was handed out as an id |
| TraceIds.ExternalIff | source/rust/symbolizer/src/processor.rs:405-408 | in every run of the trie tracker all ids count as external exactly when the trie has at most 2^31 - 1 nodes |
| TraceIds.ExternalShownAsOwn | source/rust/symbolizer/src/processor.rs:405-408 | there is a run with an external id 2^31 - 1, whose trace the reader puts under the profiler's own root |
| TraceIds.GetStacktraceFromId | source/memhawk/src/impl/memhawk.h:60-68 | the trie tracker is asked first and the fixed one only if it finds nothing |
| TraceIds.ExternalResolves | source/memhawk/src/impl/trackers/stacktrace_tracker.cpp:80-108 | an external id leads back to the frames of its trace, whatever the fixed store holds |
| TraceIds.OwnResolves | source/memhawk/src/impl/trackers/stacktrace_tracker_static.cpp:121-141 | with at most 2^31 trie nodes an own id leads back to the first frames of its trace, the unknown id to nothing |
| TraceIds.BothResolve | source/memhawk/src/impl/memhawk.h:60-68 | with at most 2^31 trie nodes the trackers share no id and every id handed out leads back to its own trace, the unknown id to nothing |

## Left out

- Lru.LruCache.Insert: a full cache that holds the new key at another place is not described, because the container then erases the entry being replaced and the code goes on with an iterator to it; the one caller inserts only keys that it has just missed.
- Hook installation, symbol lookup in the dynamic linker, stack unwinding, signal masks and logging: foreign calls.
- Fork handlers and the condition variable and thread that the child creates anew: they rest on the operating system.
- Timing of the worker and the flush on stop: a stop between rounds ends the loop without another drain, so nothing is claimed to be flushed at exit.
- Guards after the profiler's destruction: a drain is one of the steps, but what the destroyed members do afterwards is not.
- Message encoding, compression, the databases, channels and file readers: snapshots are values.
- The symbolizer that finds the frame of an address, saving and restoring of the localizer, and the early lookup of many addresses at once: for the reader symbolization is one fixed function from addresses to frame ids.
- The check that a restored reader has the same sysroot, and the rows prepared for the database.
- The text and heaptrack writers, configuration, and the parser of the flame graph input.
- The list of loaded modules inside snapshots.
- Memory ordering inside the locks.
- `LruCache::Erase`, which nothing calls, and the swapping of spare vectors that avoids allocations around the cache.
- The bound of the C++ counters: overflow of signed 64-bit counters, of node numbers and of trace numbers is not modelled.
- The collapse depth at and above 2^32 - 1, where the source's 32-bit loop counter wraps.
