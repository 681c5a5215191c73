# A verified model of utilmm

utilmm is a C++ utility library. This project models the parts of it whose correctness is not evident
from one function: the depth-first search over an undirected view of a graph, the chained hash table
with its iterators, the reference counted store behind smart pointers and symbols, the reader of
configuration files, the command line parser, the string tools, the resizable memory pool and the
server of named singletons. Code that changes state step by step is modelled by classes and methods
with the fields of the original; each such method is proved equal to, or constrained by, a function on
values, and the laws are lemmas about those functions.

- **Graph traversal.** `UndirectedGraph` is the adaptor that shows each directed edge at both of its
  ends; parallel edges and self-loops are allowed and edges are told apart by number. `DepthFirst` is
  the traversal as a machine on values, `UndirectedDfs.Search` the nested loops in place. The visitor
  is the log of its calls. `TraversalTheorems` holds the results for whole runs without a terminator,
  `VisitReach` the reach of a visit with one. `CallLog` says which call a log must continue with, read
  off the calls before; `SearchLogs` proves that visits and traversals make just these calls.
- **Hash table.** `HashChains` and `HashOperations` are the bucket chains as sequences, `HashLinks` the
  `next` fields as a map, `HashTable.Table` the table with its bucket vector and nodes, and
  `HashIterators` iteration and range searches. `RehashOrder` says where everything is put.
- **Smart pointers and symbols.** `Ledger` says who holds what and what the counters count, for every
  run of the counting steps; `PointerRuns` makes runs of whole pointer operations of them;
  `SmartPointers` has the manager, its memory and the pointers, whose methods are those operations,
  `UniqMemory` the memory over the hash table, and `Symbols` the symbols above the pointers.
- **Configuration.** `Multimap` is the ordered multimap behind a set, `ConfigLines` the five line
  patterns, `ConfigGrammar` and `ConfigTrees` the line machine against the recursive grammar,
  `ConfigPrinting` the way back to text, `ConfigDeletion` what is deleted with a set, and `ConfigFile`
  the sets as objects and the reader.
- **Command line.** `OptionSyntax` parses and prints option descriptions, `ArgvScan` reads the elements,
  `CommandLine` stores their values and fills in defaults.
- **Resources and strings.** `DynamicPool`, `SingletonServer`, `StringTools`, `IteratorSequence`.
  `Sequences` and `Wrappers` are shared.

## Where the code departs from what is asked of it

The model does what the code does. Where a departure depends on the input, a condition says exactly when
the code meets its purpose.

- `begin()` of a table stops at the first empty bucket (utilmm/hash/bits/table.tcc:181): it gives the
  first element, or the end of an empty table, if and only if the table is empty
  (`HashTable.Table.Begin`; `HashDepartures.BeginOfOneElement` reads past the vector).
- `insert` reads its result back through a link that a rehash may have replaced
  (utilmm/hash/bits/table.tcc:153-155): it returns the new node if and only if no rehash took place
  (`HashTable.Table.InsertUnique`, `HashDepartures.FirstLostIterator`).
- The default constructor makes no bucket although every keyed operation takes a modulus by the number
  of buckets (utilmm/hash/bits/table.tcc:25-26, 269): such a table is not `Ready`; `Clear` makes it so.
- `erase(first, last)` starts at the head of the group of `first` (utilmm/hash/bits/table.tcc:61): it
  removes the range asked for if and only if `first` is that head (`HashDepartures.EraseTheSecond`).
- The end iterator that iterator_sequence documents (utilmm/iterator_sequence.hh:28) steps back into
  the first range; a backward step is right if and only if the stored beginning of the second range is
  met where the real one would be (`IteratorSequence.SequenceIterator.Decrement`, and `Advance` for
  longer moves).
- `reset` of a pointer counts a non-null object twice (utilmm/smart/bits/pointer.tcc:34 and
  utilmm/smart/bits/ref_count_manager.tcc:21): a counter is right if and only if no such reset has
  resolved to its object since it is there (`PointerRuns.SurplusIsResets`), and an object that one has
  resolved to is never destroyed (`PointerRuns.ResetKeepsForever`).
- The memory of smart pointers is a hash map over this table (utilmm/smart/bits/uniq_memory.hh:103-106),
  default-constructed, so its first insertion takes a modulus by zero; and of a ready one `create`
  returns the cell of a new value if and only if the table does not grow, that is, if with this value
  there are less than 64 objects for each bucket (`UniqMemory.Memory.constructor` and `Create`,
  `HashOperations.GrowsWhenFull`). What is said of the manager, its pointers and symbols, "in every run"
  included, is said of a memory that is ready and does not grow when a new value comes.
- `pointer::null` and `operator->` call `insatnce` (utilmm/smart/bits/pointer.tcc:54, 77) and cannot
  be instantiated as they stand; the model reads the name they mean.
- The name of a section whose bracket stands on the next line is read if and only if no blank follows
  it; otherwise the line is a parse error, with or without a comment
  (src/configfile/configfile.cc:44, 86-98; `ConfigLines.BlanksBehindName`). An attribute keeps the
  blanks behind its value (`ConfigLines.AttributeReadsBack` has the values that a line can carry).
- The documentation of option descriptions separates the help text by `|`
  (utilmm/configfile/commandline.hh:157-163), the constructor by `:`. A description without help text,
  with `|` and some text behind it, is accepted if and only if it ends in a default value that is a
  string, and then the bar and the text up to a colon become part of this value
  (`OptionSyntax.BarAccepted`, with `OptionSyntax.BarInDefault` for an instance).
- An element `-` is taken by the first option that has no short name
  (src/configfile/commandline.cc:179): with distinct names, the order of the options is irrelevant for
  every command line if and only if at most one option lacks a short name (`ArgvScan.OrderMatters`).
- `split` never ends for an empty separator (utilmm/stringtools.hh:22-34;
  `StringTools.EmptySeparatorStalls`).

## Model

| member | source | states |
|---|---|---|
| UndirectedGraph.IncidentSource | utilmm/undirected_graph.hh:184-201 | every edge listed at a vertex is a real edge whose source, seen from there, is that vertex |
| UndirectedGraph.SlotUnique | utilmm/undirected_graph.hh:184-201 | every edge end is listed at its source, at one place only |
| UndirectedGraph.IncidentList | utilmm/undirected_graph.hh:184-201 | the list of a vertex has no repetition and holds exactly the edge ends that start there |
| UndirectedGraph.OnceAtEachEnd | utilmm/undirected_graph.hh:266-284 | each edge, self-loop or not, is listed once at each of its two ends and nowhere else |
| UndirectedGraph.AdjacentVerticesAreTargets | utilmm/undirected_graph.hh:241-258 | `adjacent_vertices` has the far ends of the incident edges, each as often as an edge leads to it |
| UndirectedGraph.DegreesSumToTwiceTheEdges | utilmm/undirected_graph.hh:217-223 | the degrees sum to twice the number of edges |
| UndirectedGraph.ListOutEdges | utilmm/undirected_graph.hh:198-200 | the edges of a vertex are what the sequence iterators run through: its flagged in-edges, then its out-edges |
| UndirectedGraph.InEdgesFirst | utilmm/undirected_graph.hh:198-200 | the same by position: in-edges first, flagged as reversed, then out-edges, each in the order of the base graph |
| UndirectedGraph.ListAdjacentVertices | utilmm/undirected_graph.hh:246-257 | `adjacent_vertices` lists the heads of the out-edges, then the tails of the in-edges, in order |
| UndirectedGraph.BothEndsShareAValue | utilmm/undirected_graph.hh:327-335 | what is put at one end of an edge is read at both ends and at no other edge |
| DepthFirst.StepDecreases | utilmm/undirected_dfs.hh:66-96 | each step of the search turns a white vertex grey or uses up an edge slot or a stack frame, so it ends |
| DepthFirst.Run | utilmm/undirected_dfs.hh:66-97 | the loops end with an empty stack |
| GreyStack.StepKeepsStack | utilmm/undirected_dfs.hh:66-96 | with any terminator, the grey vertices are exactly the stack, which is a simple path of edges read from it |
| GreyStack.StepKeepsNesting | utilmm/undirected_dfs.hh:82-95 | with any terminator, discover and finish calls nest like brackets along the stack |
| EdgeEvents.StepKeepsTracking | utilmm/undirected_dfs.hh:71-92 | the colour and the calls of every edge are those of the ends it was read from: white while unread, reported once, black after |
| SpanningForest.BackEdgeClosesCycle | utilmm/undirected_dfs.hh:86-88 | an unread edge to a grey vertex closes a cycle through the stack |
| SpanningForest.ExamineKeepsForest | utilmm/undirected_dfs.hh:71-92 | reading an edge keeps the tree edges a forest that joins what has been discovered, with one tree for each start |
| TraceRules.ExamineKeepsLawful | utilmm/undirected_dfs.hh:71-92 | the calls of one edge obey their rules: back edges go to an ancestor, forward_or_cross_edge only sees an edge reported before |
| TraversalTheorems.StepKeepsInv | utilmm/undirected_dfs.hh:66-96 | every step keeps all of the above together |
| TraversalTheorems.RunKeepsInv | utilmm/undirected_dfs.hh:66-97 | so does every run of the loops |
| TraversalTheorems.DiscoveredClosed | utilmm/undirected_dfs.hh:127-132 | between visits what has been discovered is closed under walks |
| TraversalTheorems.TraverseEnds | utilmm/undirected_dfs.hh:104-133 | `undirected_dfs` ends with all vertices and all edges black and the invariant |
| TraversalTheorems.EveryEdgeClassifiedOnce | utilmm/undirected_dfs.hh:71-92 | each edge gets exactly one of tree_edge and back_edge, and is examined once from each end |
| TraversalTheorems.ExaminesTwicePerEdge | utilmm/undirected_dfs.hh:73 | examine_edge is called exactly twice the number of edges |
| TraversalTheorems.TreeEdgesSpan | utilmm/undirected_dfs.hh:116-132 | the tree edges have no cycle, connect exactly what the graph connects, and number the vertices minus the start_vertex calls |
| TraversalTheorems.NoBackEdgesIffAcyclic | utilmm/undirected_dfs.hh:86-88 | there is no back_edge call if and only if the undirected graph has no cycle |
| TraversalTheorems.VerticesOnce | utilmm/undirected_dfs.hh:82-95 | each vertex is discovered once and finished once, and the calls nest |
| TraversalTheorems.CallsAreLawful | utilmm/undirected_dfs.hh:71-92 | in the whole log every call is made only when its rule allows it: no genuine cross edge, every back edge to an open ancestor |
| VisitReach.VisitBlackensReachable | utilmm/undirected_dfs.hh:59-86 | with a terminator and no grey vertex on entry, a visit blackens exactly what is reachable through white vertices of which all but the last are not terminated |
| CallLog.CompleteUnique | utilmm/undirected_dfs.hh:54-97 | the calls made so far determine the next one: there is only one complete log for a graph, terminator, colours on entry and start |
| SearchLogs.VisitLog | utilmm/undirected_dfs.hh:54-97 | with any terminator and any colours on entry, a visit makes exactly its complete log, and the colours on exit are what this log tells |
| SearchLogs.TraversalLog | utilmm/undirected_dfs.hh:104-133 | every traversal makes exactly its complete log |
| SearchLogs.BeginsAtStart | utilmm/undirected_dfs.hh:113-125 | read off the log: initialize_vertex for each vertex in order, and then start_vertex for the start that was asked for |
| SearchLogs.LaterStart | utilmm/undirected_dfs.hh:127-132 | each later start_vertex call is for the first vertex not discovered so far, which is discovered next |
| SearchLogs.StartsGoUp | utilmm/undirected_dfs.hh:127-132 | the later start_vertex calls go up in vertex number |
| SearchLogs.EdgeReports | utilmm/undirected_dfs.hh:71-92 | for every terminator and all colours on entry, read off the log: behind examine_edge stands forward_or_cross_edge if and only if the target was finished, back_edge if and only if it is open and the edge was neither examined nor coloured, tree_edge if and only if it was undiscovered, and otherwise no report |
| UndirectedDfs.Search.ExamineEdge | utilmm/undirected_dfs.hh:71-92 | the body of the inner loop is one step of the machine, whose calls are pinned on the log by `SearchLogs.EdgeReports` |
| UndirectedDfs.Search.ReadEdges | utilmm/undirected_dfs.hh:71-93 | the inner loop stays on the run of the machine until the vertex on top has no edge left |
| UndirectedDfs.Search.EmptyStack | utilmm/undirected_dfs.hh:66-96 | the outer loop is the run of the machine |
| UndirectedDfs.Search.VisitImpl | utilmm/undirected_dfs.hh:54-97 | `undir_dfv_impl_term` is the visit of the machine |
| UndirectedDfs.Search.StartEach | utilmm/undirected_dfs.hh:127-132 | the loop over the vertices is the sweep of the machine |
| UndirectedDfs.Search.DepthFirstVisit | utilmm/undirected_dfs.hh:210-220 | `undirected_depth_first_visit` appends the complete log of this visit, leaves the colours that this log tells, and, with no grey vertex on entry, blackens what was black and what is reachable, as above |
| UndirectedDfs.Search.UndirectedDfs | utilmm/undirected_dfs.hh:104-133 | `undirected_dfs` in place makes the complete log of the traversal, which begins with the initialize_vertex calls and start_vertex of the start; its results on the log and the colours |
| IteratorSequence.SequenceIterator.Dereference | utilmm/iterator_sequence.hh:49-55 | inside the two ranges, the element at the position of the iterator in their concatenation |
| IteratorSequence.SequenceIterator.Equal | utilmm/iterator_sequence.hh:56-57 | over the same ranges, equal if and only if at the same position |
| IteratorSequence.SequenceIterator.Increment | utilmm/iterator_sequence.hh:58-64 | one position further |
| IteratorSequence.SequenceIterator.Decrement | utilmm/iterator_sequence.hh:65-71 | one position back if and only if the stored beginning is met where the real one would be |
| IteratorSequence.SequenceIterator.Advance | utilmm/iterator_sequence.hh:72-96 | the position moves by the number asked for; the iterator stays inside the two ranges forwards always, and backwards if and only if the stored beginning lets it land inside, as the real one does |
| IteratorSequence.SequenceIterator.DistanceTo | utilmm/iterator_sequence.hh:98-99 | the difference of the positions |
| IteratorSequence.Collect | utilmm/iterator_sequence.hh:27-28 | from the documented beginning to the documented end, the two ranges in order |
| HashChains.GroupInBucket | utilmm/hash/bits/table.tcc:264-270 | all elements of a key stand in the bucket of that key |
| HashChains.GroupIsRun | utilmm/hash/bits/table.tcc:238-248 | equal keys are one run of their chain, which starts where a search stops |
| HashOperations.InsertKeeps | utilmm/hash/bits/table.tcc:147-156 | an insertion keeps elements in their buckets, equal keys contiguous, and nothing repeated |
| HashOperations.InsertMultimap | utilmm/hash/bits/table.tcc:147-156 | it puts the element in front of its group and changes no other group |
| RehashOrder.InsertedPlace | utilmm/hash/bits/table.tcc:147-156 | a new element goes in front of the first one with its key in its bucket, or behind all if there is none; other buckets stay |
| HashOperations.RemoveKeeps | utilmm/hash/bits/table.tcc:64-72 | a removal keeps the same |
| HashOperations.RehashKeeps | utilmm/hash/bits/table.tcc:124-142 | a rehash keeps the same elements, each in its new bucket, equal keys contiguous |
| HashOperations.RehashMultimap | utilmm/hash/bits/table.tcc:124-142 | a rehash keeps every group in its order |
| RehashOrder.RehashReverses | utilmm/hash/bits/table.tcc:128-140 | of two different keys that share a bucket after a rehash, the one that was met later in the whole table before comes first, and the other way round |
| HashOperations.ResizedKeeps | utilmm/hash/bits/table.tcc:113-145 | `resize` leaves at least 1 + size/64 buckets and the same elements |
| HashOperations.InsertedMultimap | utilmm/hash/bits/table.tcc:147-156 | insertion with its resize refines insertion into a multimap |
| HashOperations.InsertedParts | utilmm/hash/bits/table.tcc:153-155 | after a rehash the node in front of a new one no longer points at it: this is why the result of `insert` is lost |
| HashOperations.GroupStretch | utilmm/hash/bits/table.tcc:208-218 | the group of a key is one stretch of the iteration order |
| HashOperations.EraseGroupMultimap | utilmm/hash/bits/table.tcc:55-75 | erasing the stretch of a key leaves no element with that key and every other group as it is |
| HashLinks.SpliceLinks | utilmm/hash/bits/table.tcc:151-153 | writing a new node between two places makes the chain with it inserted and leaves all other chains |
| HashLinks.UnlinkLinks | utilmm/hash/bits/table.tcc:67-68 | bypassing a node makes the chain without it and leaves all other chains |
| HashLinks.MoveLinks | utilmm/hash/bits/table.tcc:130-138 | moving a head run by its last link leaves the other chains |
| HashTable.Table.constructor | utilmm/hash/bits/table.tcc:25-26 | an empty table without buckets, not ready for keyed operations |
| HashTable.Table.FindNode | utilmm/hash/bits/table.tcc:238-248 | the link at which the group of the key begins, or the end of its bucket |
| HashTable.Table.MoveBucket | utilmm/hash/bits/table.tcc:129-140 | the inner rehash loop moves the groups of one bucket and leaves the work that remains |
| HashTable.Table.MoveAllGroups | utilmm/hash/bits/table.tcc:125-141 | the rehash loops in place are the rehash on values, with the same node objects |
| HashTable.Table.Resize | utilmm/hash/bits/table.tcc:113-145 | `resize` in place is `resize` on values |
| HashTable.Table.InsertUnique | utilmm/hash/bits/table.tcc:77-87 | inserts if and only if the key is not there; keeps the table; the iterator returned is the new node if and only if no rehash took place |
| HashTable.Table.InsertMultiple | utilmm/hash/bits/table.tcc:89-96 | inserts in front of the group, likewise |
| HashTable.Table.Clear | utilmm/hash/bits/table.tcc:98-111 | no node is left, one empty bucket |
| HashTable.Table.EraseFrom | utilmm/hash/bits/table.tcc:64-72 | the removal loop removes the nodes up to `last` in iteration order across buckets |
| HashTable.Table.Erase | utilmm/hash/bits/table.tcc:55-75 | removes from the head of the group of `first` up to `last`, leaves all others in place and order, and resets to one bucket when nothing remains; the range asked for if and only if `first` is that head |
| HashTable.Table.Begin | utilmm/hash/bits/table.tcc:176-184 | what the inverted test finds: the first element if and only if the table is empty |
| HashTable.Table.Copy | utilmm/hash/bits/table.tcc:28-32 | new nodes, the same values in the same buckets and order |
| HashTable.Table.CopyBuckets | utilmm/hash/bits/table.tcc:288-308 | `copy_bucket`, bucket by bucket |
| HashIterators.Iter.PlusAssign | utilmm/hash/bits/iter.tcc:108-123 | `it += n` ends n places further in the order, or at the end, although the bucket is computed once |
| HashIterators.Iter.Increment | utilmm/hash/bits/iter.tcc:125-128 | one place further |
| HashIterators.StepByStep | utilmm/hash/bits/iter.tcc:125-128 | n single steps end where `it += n` does |
| HashIterators.VisitAll | utilmm/hash/bits/iter.tcc:108-128 | from the first node on, every node once and then the end |
| HashIterators.EqualRange | utilmm/hash/bits/table.tcc:208-218 | the two iterators enclose exactly the elements with the key, in order |
| HashIterators.GroupFound | utilmm/hash/bits/table.tcc:238-248 | what a search finds begins the stretch of the order that is the group of the key |
| HashDepartures.BeginOfOneElement | utilmm/hash/bits/table.tcc:176-184 | a run in which `begin()` reads past the bucket vector |
| HashDepartures.EraseTheSecond | utilmm/hash/bits/table.tcc:55-75 | a run in which `erase` removes an element in front of `first` |
| HashDepartures.FirstLostIterator | utilmm/hash/bits/table.tcc:147-156 | a run that inserts the numbers from 0 to 63: every insertion returns its element but the 64th |
| Ledger.RunsBalance | utilmm/smart/bits/ref_count_manager.tcc:15-36 | in every run each counter is the number of holders, plus the references in flight, plus the surplus, and is positive; what is held is counted |
| Ledger.CountersInRun | utilmm/smart/bits/pointer.tcc:16-49 | between operations each counter is its holders plus its surplus; no held object is gone; without surplus an object is there exactly while it is held |
| Ledger.ResetInRun | utilmm/smart/bits/pointer.tcc:29-37 | a reset changes the holder, adds one to the surplus of what it takes, and drops exactly the objects that nothing holds and that had no surplus |
| Ledger.DestroyInRun | utilmm/smart/bits/pointer.tcc:23-26 | a destructor removes the holder and drops exactly the unheld objects without surplus |
| Ledger.ReassignInRun | utilmm/smart/bits/pointer.tcc:43-50 | an assignment, by copy, swap and destruction, makes one holder hold what the other holds and drops exactly the unheld objects without surplus |
| Ledger.ReleasedBalanced | utilmm/smart/bits/ref_count_manager.tcc:32-36 | an object is dropped only when nothing holds it and it has no surplus |
| PointerRuns.HistorySettles | utilmm/smart/bits/pointer.tcc:15-50 | every history of pointer operations is a legal run with nothing left in flight |
| PointerRuns.PerformedSurplus | utilmm/smart/bits/pointer.tcc:15-50 | only a reset to an object moves its surplus, by one |
| PointerRuns.SurplusIsResets | utilmm/smart/bits/pointer.tcc:29-37 | in every history of constructions, copies, assignments, swaps, resets and destructions, the surplus of an object is the number of non-null resets that resolved to it since it has been there |
| PointerRuns.CountersInHistory | utilmm/smart/bits/pointer.tcc:15-50 | so its counter is its holders plus these resets; what is held is there; without such a reset it is there exactly while it is held |
| PointerRuns.ResetKeepsForever | utilmm/smart/bits/pointer.tcc:29-37 | an object that a reset has resolved to is never destroyed again, whatever operation follows |
| SmartPointers.Manager.Insert | utilmm/smart/bits/uniq_memory.tcc:39-45 | what `insert` promises: the entry of an equal value if there is one, else a new one; `UniqMemory.Memory.Create` says when the table keeps this promise |
| SmartPointers.Manager.Create | utilmm/smart/bits/uniq_memory.tcc:36-45 | given that, at most one object for each class of equal values; a duplicate is deleted, unless it is the stored object |
| SmartPointers.Manager.Destroy | utilmm/smart/bits/uniq_memory.tcc:47-54 | the object and its entry are gone, the others stay |
| UniqMemory.Memory.constructor | utilmm/hash/bits/table.tcc:25-26 | the map of a memory is default-constructed and has no bucket, so it is not ready |
| UniqMemory.Memory.Create | utilmm/smart/bits/uniq_memory.tcc:36-45 | on a ready table, the promises of Manager.Create for one cell; but what `create` returns is this cell if and only if the value was known or the table did not grow |
| UniqMemory.Memory.Destroy | utilmm/smart/bits/uniq_memory.tcc:47-54 | `erase` of one iterator removes its cell alone, and the object is deleted |
| UniqMemory.KeptIsCanonical | utilmm/smart/bits/uniq_memory.tcc:36-54 | the objects in the cells are kept as Manager asks of its map, one cell for each |
| SmartPointers.Manager.Manage | utilmm/smart/bits/ref_count_manager.tcc:15-21 | the stored object of an equal value, counted once more |
| SmartPointers.Manager.Assign | utilmm/smart/bits/ref_count_manager.tcc:23-30 | one more reference to the object is counted |
| SmartPointers.Manager.Release | utilmm/smart/bits/ref_count_manager.tcc:32-36 | one reference is given back; at zero the object is destroyed |
| SmartPointers.Manager.HeldIsSafe | utilmm/smart/bits/ref_count_manager.tcc:32-36 | what a live pointer holds is stored and was not deleted |
| SmartPointers.Pointer.constructor | utilmm/smart/bits/pointer.tcc:15-17 | a pointer to the stored object of an equal value, null for null; one operation of the history |
| SmartPointers.Pointer.Copy | utilmm/smart/bits/pointer.tcc:19-21 | a pointer to the same object; one operation of the history |
| SmartPointers.Pointer.Destroy | utilmm/smart/bits/pointer.tcc:23-26 | the pointer is gone from the book; one operation of the history |
| SmartPointers.Pointer.Reset | utilmm/smart/bits/pointer.tcc:29-37 | the pointer takes the stored object of an equal value and releases what it held: one operation of the history, whose effect is `Ledger.ResetInRun` |
| SmartPointers.Pointer.Swap | utilmm/smart/bits/pointer.tcc:38-41 | two pointers exchange what they hold; no counter changes; one operation of the history |
| SmartPointers.Pointer.Assign | utilmm/smart/bits/pointer.tcc:43-50 | one operation of the history, as `Ledger.ReassignInRun`, also for a pointer assigned to itself |
| SmartPointers.Pointer.AssignObject | utilmm/smart/bits/pointer.tcc:43-50 | assigning a temporary pointer to a raw object is a construction, an assignment and a destruction |
| SmartPointers.Pointer.Equals | utilmm/smart/bits/pointer.tcc:62-65 | equal if and only if both are null or their values are equal |
| StringOrder.LessIsTotal | utilmm/types/bits/basic_symbol.tcc:25-29 | the order of names is irreflexive, asymmetric and total |
| StringOrder.LessIsTransitive | utilmm/types/bits/basic_symbol.tcc:25-29 | and transitive |
| StringOrder.FirstDifferenceDecides | utilmm/types/bits/basic_symbol.tcc:25-29 | behind any common beginning, the first two characters that differ decide, and nothing behind them matters |
| StringOrder.PrefixComesFirst | utilmm/types/bits/basic_symbol.tcc:25-29 | a string comes before every longer one that begins with it, and never behind it |
| Symbols.FoundAtStart | utilmm/types/bits/basic_symbol.tcc:38-39 | a string is found first at the start of another if and only if it is a prefix of it |
| Symbols.Symbol.constructor | utilmm/types/bits/basic_symbol.tcc:52-60 | no object for the empty string, else the one object of the string |
| Symbols.Symbol.Append | utilmm/types/bits/basic_symbol.tcc:14-22 | concatenation, with the empty symbol as unit, also of a symbol to itself; no other symbol changes |
| Symbols.Symbol.Plus | utilmm/types/bits/basic_symbol.tcc:44-49 | a new symbol with the concatenation |
| Symbols.Symbol.IsLess | utilmm/types/bits/basic_symbol.tcc:25-29 | the lexicographic order of the names, with the empty symbol first |
| Symbols.Symbol.Equals | utilmm/types/bits/basic_symbol.tcc:34 | equal if and only if the names are equal |
| Symbols.Symbol.StartsWith | utilmm/types/bits/basic_symbol.tcc:31-40 | exactly the prefix relation |
| StringTools.Find | utilmm/stringtools.hh:24 | the first occurrence at or after an index |
| StringTools.StartsWith | utilmm/stringtools.hh:74-75 | there is a rest that continues the start to the string |
| StringTools.Split | utilmm/stringtools.hh:14-36 | the pieces between the occurrences of any non-empty separator, or those of them that are not empty |
| StringTools.NonEmptyKeeps | utilmm/stringtools.hh:27-32 | of the pieces, the default form of `split` keeps no empty one, and every other one as often as it is there |
| StringTools.NonEmptyInOrder | utilmm/stringtools.hh:27-32 | and it keeps them in order |
| StringTools.EmptySeparatorStalls | utilmm/stringtools.hh:22-34 | with an empty separator the loop stays where it is |
| StringTools.Join | utilmm/stringtools.hh:38-52 | the elements with separators between them |
| StringTools.JoinUndoesSplit | utilmm/stringtools.hh:14-52 | joining what was split gives the string back, for every non-empty separator |
| StringTools.SplitUndoesJoin | utilmm/stringtools.hh:14-52 | splitting what was joined gives the elements back if and only if the separator first occurs at each joint |
| StringTools.AbsentCharacterCuts | utilmm/stringtools.hh:14-52 | that is so for a separator of one character that no element contains |
| StringTools.CollapseSlashes | utilmm/stringtools.hh:77-85 | no double slash is left and nothing else changes |
| StringTools.EraseKeepsCollapsed | utilmm/stringtools.hh:83 | erasing one slash of a pair does not change what collapses |
| Multimap.InsertRange | src/configfile/configset.cc:64-65 | a value goes behind the values of its key; other keys are not touched |
| Multimap.EraseRange | src/configfile/configset.cc:84-85 | a key is erased with all its values, and nothing else |
| Multimap.InsertSorted | src/configfile/configset.cc:64-65 | the entries stay in order |
| ConfigLines.ReadIsPrintable | src/configfile/configfile.cc:42-47 | what a line is read as carries a name and a value that a line can carry |
| ConfigLines.ReadUndoesPrint | src/configfile/configfile.cc:42-47 | a printed line is read back, behind any indentation |
| ConfigLines.AttributeReadsBack | src/configfile/configfile.cc:45 | an attribute line is read back if and only if its key is a name and its value is one that a line can carry |
| ConfigLines.BlanksBehindName | src/configfile/configfile.cc:44-45 | a name with blanks behind it, and perhaps a comment, is the head of a section if and only if there are no blanks; else it is a parse error |
| ConfigLines.LineIsItsPattern | src/configfile/configfile.cc:38-47 | for every line: it is read as blank, attribute, header or bracket if and only if it is written as the regular expression for that says, with any blanks, indentation and comment; it is bad if and only if it is written as none of them |
| ConfigLines.FitsIsRead | src/configfile/configfile.cc:38-47 | blanks and comments around and inside a line in one of the patterns do not change what it is read as |
| ConfigLines.CommentIsBlank | src/configfile/configfile.cc:42-43 | blanks and a comment, behind any indentation, are a blank line |
| ConfigPrinting.WrittenIsRead | src/configfile/configfile.cc:58-110 | a whole file whose lines are written as patterns say is read as those patterns |
| ConfigPrinting.CommentLineDoesNotMatter | src/configfile/configfile.cc:70 | a comment line put anywhere into a file, also between a header and its bracket, changes nothing of what is read |
| ConfigGrammar.ParseIsFlatten | src/configfile/configfile.cc:53-113 | the recursive parser succeeds only on lines of the grammar |
| ConfigGrammar.FlattenParses | src/configfile/configfile.cc:53-113 | and on all of them, with the items they are the lines of |
| ConfigGrammar.StepSound | src/configfile/configfile.cc:86-105 | every line keeps parents in front of their children, so the parent chain has no cycle |
| ConfigGrammar.BlanksDoNotMatter | src/configfile/configfile.cc:70 | lines that are read as blank change nothing |
| ConfigGrammar.DepthIsOpensMinusCloses | src/configfile/configfile.cc:86-105 | the parent chain of the current set is as long as there are sections opened and not closed |
| ConfigTrees.ItemsGrow | src/configfile/configfile.cc:79-105 | the machine on the lines of some items adds the tree of those items to the current set and changes no other set |
| ConfigTrees.FailedRejected | src/configfile/configfile.cc:72-113 | what the recursive parser cannot read, the machine does not accept, at any depth |
| ConfigTrees.MachineIsParser | src/configfile/configfile.cc:53-113 | the machine accepts exactly what the recursive parser reads, and builds the same tree |
| ConfigTrees.AcceptsTheGrammar | src/configfile/configfile.cc:53-113 | it accepts exactly the bracket-balanced lines of the grammar |
| ConfigPrinting.TreeIsItsItems | src/configfile/configset.cc:64-73 | inserting the entries of a tree in order builds the tree |
| ConfigPrinting.ReadUndoesPrintTree | src/configfile/configfile.cc:53-113 | reading back a printed tree gives the tree, in both bracket styles and behind any indentation |
| ConfigPrinting.ReadTreesPrintBack | src/configfile/configfile.cc:53-113 | every tree that is read from any text is one that prints and reads back |
| ConfigFile.ConfigSet.Exists | src/configfile/configset.cc:57-62 | there is a value or a child of the name |
| ConfigFile.ConfigSet.InsertValue | src/configfile/configset.cc:64-65 | one value more for the name, other names untouched |
| ConfigFile.ConfigSet.Set | src/configfile/configset.cc:74-78 | the value replaces all values of the name, other names untouched |
| ConfigFile.ConfigSet.Clear | src/configfile/configset.cc:17-26 | the values are gone, and the children are deleted with all sets below them, each behind those below it |
| ConfigFile.ConfigSet.Delete | src/configfile/configset.cc:10-13 | the destructor deletes what is below a set, then the set |
| ConfigDeletion.RunOneWay | src/configfile/configfile.cc:86-105 | however far the reader comes, deleting the file meets every set exactly once |
| ConfigDeletion.DeletedOnce | src/configfile/configset.cc:17-26 | so every set but the file is deleted, and none twice |
| ConfigFile.EnterSet | src/configfile/configfile.cc:86-94 | a new set below the current one: the objects stay those of the machine |
| ConfigFile.ReadLine | src/configfile/configfile.cc:65-105 | one line on the objects, with cursor and mode, is one step of the machine |
| ConfigFile.ReadNext | src/configfile/configfile.cc:53-107 | one turn of the loop comes one line further with the machine, or stops where it stops |
| ConfigFile.Read | src/configfile/configfile.cc:28-113 | the reader accepts what the machine accepts, on the lines as `ConfigLines.LineIsItsPattern` says they are read, leaves the sets that it builds, and else gives the line it stops at; all sets from before are deleted once |
| ConfigFile.Open | src/configfile/configfile.cc:20-27 | after a parse error the file is empty, and every set that was built up to the error is deleted once |
| OptionSyntax.Advance | src/configfile/commandline.cc:12-19 | the text up to the first delimiter, which is where the rest starts |
| OptionSyntax.ParseUndoesPrint | src/configfile/commandline.cc:31-106 | for every option that can be expressed, parsing its printed description gives it back if and only if its default makes sense; else the description is rejected |
| OptionSyntax.UselessDefaultRejected | src/configfile/commandline.cc:90-91 | a default for the mandatory argument of a required option is rejected |
| OptionSyntax.ParsedIsFine | src/configfile/commandline.cc:31-106 | every option that is parsed can be expressed and makes sense |
| OptionSyntax.CanonicalDescription | src/configfile/commandline.cc:31-106 | printing and parsing again gives the same option |
| OptionSyntax.TypesByName | src/configfile/commandline.cc:72-85 | a name with `=int`, `=bool` or `=string` is an option whose argument has that type |
| OptionSyntax.OnlyThreeTypes | src/configfile/commandline.cc:78-85 | any other word in that place is rejected |
| OptionSyntax.AllParts | src/configfile/commandline.cc:31-106 | what each part of a full description, with `!`, `*`, `,`, `?int`, `,` and `:`, is for |
| OptionSyntax.ValuesByCharacter | src/configfile/commandline.cc:138-150 | the values that each type accepts: one or more digits, four words, any text |
| OptionSyntax.BarAccepted | src/configfile/commandline.cc:31-106 | with a bar and a text behind a description without help text, the description is accepted if and only if it ends in a default value that is a string; this value then takes the bar and the text up to a colon |
| OptionSyntax.BarInDefault | src/configfile/commandline.cc:87-98 | for instance, `:n=string,d`, a bar and `help` give the default value `d`, bar, `help` |
| ArgvScan.FirstMatch | src/configfile/commandline.cc:228-239 | the first option of the list that takes the element, or none |
| ArgvScan.MatchSpells | src/configfile/commandline.cc:177-211 | an option that takes elements is spelled by them, with a value of its type |
| ArgvScan.ScanUsesAll | src/configfile/commandline.cc:218-240 | every element is used exactly once and in order: as a remaining one, an option, or the value of one |
| ArgvScan.OneTakes | src/configfile/commandline.cc:179-207 | of two options with distinct names at most one takes an element, unless it is `-` and both lack a short name |
| ArgvScan.ScanIgnoresOrder | src/configfile/commandline.cc:218-240 | with distinct names, and no bare `-` or at most one option without a short name, the scan does not depend on the order of the options |
| ArgvScan.FirstTakesDash | src/configfile/commandline.cc:179 | of the options without a short name, a bare `-` is taken by the one that stands first |
| ArgvScan.OrderMatters | src/configfile/commandline.cc:213-240 | with distinct names, every order of the options scans every command line alike if and only if at most one option lacks a short name |
| ArgvScan.ScanIsExact | src/configfile/commandline.cc:218-240 | the scan finds some uses if and only if the elements are the texts of those uses and each is proper |
| CommandLine.StoredIsEffective | src/configfile/commandline.cc:166-175 | the stored values of a key are those that the uses make effective |
| CommandLine.LastWinsAndAllValues | src/configfile/commandline.cc:171-174 | a plain key has its last value, a multiple one all of them in order |
| CommandLine.FillCompletes | src/configfile/commandline.cc:242-252 | every required key and every key with a default is there |
| CommandLine.FillSucceeds | src/configfile/commandline.cc:242-252 | with distinct keys, the second loop succeeds if and only if nothing required is missing |
| CommandLine.FillAccepted | src/configfile/commandline.cc:242-252 | every stored value is accepted by some option with its key |
| CommandLine.ParseMeans | src/configfile/commandline.cc:213-256 | the meaning of a successful parse of an empty set: every element is used, and what values a key has |
| CommandLine.RemainingMeans | src/configfile/commandline.cc:218-225 | what remains after a successful parse are the texts of the uses that are no option, in order, all of them plain; together with the texts of the options they are all elements |
| CommandLine.RemainingIsExact | src/configfile/commandline.cc:218-256 | with distinct names, however the elements are written as uses of options and plain elements, exactly the plain ones remain, in order |
| CommandLine.PlainElementsRemain | src/configfile/commandline.cc:220-225 | a command line of plain elements is its own remaining list, and only default values are stored |
| CommandLine.AloneIsStored | src/configfile/commandline.cc:111-116 | an option without argument, given alone by its long or short name, stores `true`, an optional argument its default, under the configuration name if there is one and else the long name |
| CommandLine.DefaultsAreStored | src/configfile/commandline.cc:242-252 | with distinct keys, a key that was not given has exactly the default of its option, if there is one |
| CommandLine.OrderDoesNotMatter | src/configfile/commandline.cc:213-256 | with distinct names and keys, and no bare `-` or at most one option without a short name, success, remaining elements and values do not depend on the order of the options |
| CommandLine.ParsedOptionsAreFine | src/configfile/commandline.cc:152-162 | every option of a command line can be expressed and makes sense |
| CommandLine.CommandLineParser.FromDescriptions | src/configfile/commandline.cc:152-162 | the options of all descriptions, or the error of the first bad one |
| CommandLine.CommandLineParser.AddArgument | src/configfile/commandline.cc:166-175 | refuses a value of the wrong type, else stores it |
| CommandLine.CommandLineParser.OptionMatch | src/configfile/commandline.cc:177-211 | the match on values, with its effect on the set |
| CommandLine.CommandLineParser.Parse | src/configfile/commandline.cc:213-256 | `parse` in place is the parse on values, whose remaining list `RemainingMeans` describes; the remaining elements change only on success |
| DynamicPool.ItemsAreConserved | src/memory/dynamic_pool.cc:18-53 | items created are as many as items deleted, free and live |
| DynamicPool.LargestIsMaximum | src/memory/dynamic_pool.cc:20-25 | the size of a pool, the largest request so far, bounds all requests and is one of them |
| DynamicPool.Pool.Allocate | src/memory/dynamic_pool.cc:18-41 | an item that nobody uses, of the size of the pool, which is the largest request so far; smaller free items are deleted |
| DynamicPool.Pool.Deallocate | src/memory/dynamic_pool.cc:43-53 | a used item goes to the free list if it has the size of the pool, else to the heap |
| DynamicPool.Pool.Destroy | src/memory/dynamic_pool.cc:9-10 | everything created is deleted or still live |
| SingletonServer.CountedMore | src/singleton/server.cc:28-34 | one use more keeps: a name is there if and only if it is used, with its number of uses as counter |
| SingletonServer.CountedLess | src/singleton/server.cc:36-47 | one use less keeps the same |
| SingletonServer.Dummy.DecrRef | src/singleton/dummy.cc:23-25 | the last reference is told from the others |
| SingletonServer.Registry.Attach | src/singleton/dummy.cc:28-31 | a new use shares the object that is there, or makes one; the server is there then |
| SingletonServer.Registry.Detach | src/singleton/dummy.cc:33-37 | the last use of a name takes its object with it, the last use of all the server |
| SingletonServer.Registry.Get | src/singleton/dummy.cc:39-42 | the object that every user of the name has |
| SingletonServer.Registry.UsedIsThere | src/singleton/server.cc:55-59 | a name is there if and only if it is used, counted as often as it is used, and the server exists if and only if there are uses |

## Left out

- Processes, sockets, temporary files, `auto_close`, pkg-config, `ConfigurationFinder`, demangling, plugins, shell expansion: system calls, files and foreign libraries.
- The numeric hash functions, `auto_flag`, `endian`, `cached_fn`, `object_pool`, `upcase`, `usage`, `path.normalize()`: easy, fixed in width or external.
- Boost concept checks, named parameters and property selectors of the graph files, `edge` and `in_edges` of the adaptor, and the four-argument `undirected_dfs`, which calls a form that does not exist (utilmm/undirected_dfs.hh:142).
- The const `find_node` and `const_iter` of the hash table, which do not compile when instantiated, and `swap` and `operator=` of the table.
- Memory allocation failure and exceptions thrown by user code: copy constructors, hash and equality functions, factories.
- The manager keeps its counters in a map with the contract that the hash map documents; `UniqMemory` has the same memory over the table, where a cell has no counter. The manager itself lives as long as its pointers are used; its own singleton is the subject of `SingletonServer`.
- `null_access`: reading through a null pointer or symbol is not modelled; the operations test for null first, as the code does.
- File streams and the text of error messages: a configuration file is the list of its lines, a parse error its line number. Letters and digits are those of the C locale.
- `config_set::get` with its conversions, and `children`, which is `EqualRange` on the children.
- Threads: every operation of the singleton server runs under one lock, so a run is a sequence of calls; factories and destructors that call back are not modelled. `singleton::use` and `dynamic_auto` are not part of this model.
- The counters are unbounded where the code has `unsigned long` and the sizes of the pool where it has 32 bits.
- OptionSyntax.ParseDescription: on values, over the text that is left, instead of an index that is moved through the description; no update in place is captured.
- HashIterators.Iter.PlusAssign: asks for an iterator that is not at the end, because the code reads the current node before it tests it.
- SmartPointers.Manager.Insert: promises the entry that it inserted, as the hash map documents; the table keeps this only while it is ready and does not grow, see `UniqMemory.Memory.Create`.
- SmartPointers.Pointer.Reset: states the operation it adds to the history; what it comes to is `Ledger.ResetInRun`.
- StringTools.CollapseSlashes: models the loop of `clean_path` only, not the path normalisation behind it.
