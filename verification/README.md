# pgGraph: verified models of traversal, external sort, edge storage and components

A Dafny 4.11 model of the four algorithmic components of pgGraph's graph engine, with proofs of what
they promise. `dafny verify dfyconfig.toml` checks the whole project.

**Traversal (`graph/src/bfs.rs`).** `Topology` holds the inputs: adjacency lists, the node store, the
filters, the tenant rule, the visibility scope and the admission gate in the order the code tests it.
`Traversal` is the value-level run: admit, offer, expand, run. It is the common specification of
three engines: the eager breadth-first loop and the eager depth-first loop with its push context
(`Engines`), and the resumable machine (`Candidates`, `Resumable`, `Machine`), a class that pages
adjacency, yields candidate batches under a count and a key-byte limit, waits for verdicts and resumes.
`Driver` runs the machine to completion, under an arbitrary schedule of limits and as the SQL layer
does; `MachineRuns` states what every reachable machine state keeps, whoever drives it, and `Accounting`
and `Resumable` what a run is charged for. What the common specification means is proved separately: hop distances (`Distances`),
completeness for either strategy (`DepthFirst`), the order nodes are opened in (`DepthOrder`), hidden equals
absent (`HiddenAbsent`), the same of other tenants', deleted and filtered nodes (`AbsentNodes`), the circuit
breakers (`Breakers`), dense and sparse metadata (`TraversalMaps`), path reconstruction (`Paths`).
`Resumable.Meaning` is the central idea of the refinement: every machine state denotes the end its run
still leads to, and every step preserves it.

**External sort (`graph/src/build_runs.rs`).** `RunFormat` and `RunHeaders` are the byte format with the
checksum an arbitrary function; `FileLayout` says what every byte of a file is; `RunFiles` is the writer and
the checking reader; `Merging` the k-way merge
over readers with at most one heap entry a source; `RunMerges` the workspace with its live-file limit and
the merge passes; `CollectorState`, `Collector` and `ExternalSort` the byte-bounded collector, its
online merging and the sort as a whole.

**Edge store (`graph/src/edge_store.rs`).** `EdgeTypes` is the adaptive 1/2/4-byte column, `EdgeStore` the
streaming builder and the mapped-store checks, `StoreBuilders` the sorting builder and its agreement with
the streaming one, `ReverseStore` the counting-sort reverse store, `Grouping` and `Transposition` what it
contains and what reversing twice does.

**Components (`graph/src/connected_components.rs`).** `UnionFind` is the forest with path compression and
union by rank, `Components` the labelling over visible active nodes.

A `Vec` a method grows or overwrites is a `seq` field or variable it reassigns; the run header buffer, the
counts and the cursors of the counting sort are arrays changed in place. Machine integers are unbounded
numbers with the source's limits tested where it tests them. Several methods split one source function so
that each piece has its own contract; the table cites the whole.

Results where the code does something a reader might not expect:

- The contributor guide (`docs/contributor_guide/traversal-search-paths.mdx:71`) lists "already visited"
  as the first test of a neighbour; the code tests the edge type and both visibilities before it, so a
  missing relationship identity fails a run even on the way to a visited node. The model follows the code.
- The circuit breakers fire after an admission: a run visits up to max(2, `max_nodes`) nodes.
- A resumable call can fail if its batch limit shrinks while entries are pending.
  `Machine.RefusalExact` gives the exact condition, `MachineRuns.ShrunkLimitFails` a run of a new machine
  that gets there, and `Driver.TraverseBySchedule` that no run fails on limits that never shrink. The
  production loop does shrink its limit, but never below a page left over (`Driver.LimitCoversPage`), so
  it cannot fail this way: `Driver.Traverse` agrees with the eager engine, failures included, on every
  graph whose entries have their identities, fit 1 MiB of keys one by one and can be numbered in 32 bits.
- A streaming edge-store builder files an edge out of source order under the largest source so far
  instead of refusing it; `StoreBuilders.SettledWhenSorted` says when that changes nothing.
- An external sort that fills more than one buffer needs three file slots beyond those held by others,
  and fails without them even though every single run would fit. A fanout below two fails only a sort
  that ends with more than one run, which merging on the way may have prevented. `ExternalSort.Sort`
  states the exact condition.
- `sort_unstable_by` leaves weights of equal-key parallel edges in any order, so the two builders are
  proved to agree on offsets, targets, types and flags, not on weights.

## Model

| member | source | states |
|---|---|---|
| Topology.GateMeaning | graph/src/bfs.rs:1570-1617 | the gate admits exactly the admissible entries whose target is unvisited, and fails exactly over a followed type whose required identity is missing |
| AbsentNodes.GateByFields | graph/src/bfs.rs:1570-1617 | the gate in terms of the inputs alone: the type is followed, the scope hides neither target nor relationship, the target is unvisited, active, not deleted, passes the filters and is no outsider to the tenant; it fails exactly over a followed type that needs an identity and has none |
| AbsentNodes.AdmissibleByFields | graph/src/bfs.rs:1570-1617 | an entry that walks may take is one the gate admits to a fresh traversal |
| AbsentNodes.TenantEqualsAbsent | graph/src/bfs.rs:1596-1613 | either strategy answers a tenant's run as it would, untenanted, without the nodes of tenanted tables that are not the tenant's: neither its own nor mapped by the base and not removed |
| AbsentNodes.RefusedEqualsAbsent | graph/src/bfs.rs:1593-1617 | inactive, deleted, filtered and other tenants' nodes change an answer only as their absence would |
| Traversal.OfferAllProgresses | graph/src/bfs.rs:1302-1350 | offering neighbours only grows the visited set within the node range, and queues something only if it admits something |
| Engines.ExecuteBfs | graph/src/bfs.rs:1237-1360 | the eager breadth-first loop over its mutable columns returns exactly the specified answer, including the failure, an invalid or hidden seed and an empty type filter; it is the search that always opens the oldest queued node |
| Engines.OfferNeighbors | graph/src/bfs.rs:1302-1350 | the inner loop admits, records and queues exactly what offering the list does, and reports the cap or the failure that stopped it |
| Engines.ExecuteDfs | graph/src/bfs.rs:1471-1563 | the eager depth-first loop returns exactly the specified mark-on-push answer; it is the search that finishes what the newest queued node leads to before it returns to an older one |
| DepthOrder.DepthFirstOpensNewest | graph/src/bfs.rs:1525-1548 | depth first takes the last queued node and offers its own list from the last index down to 0 |
| DepthOrder.DepthFirstFinishesNewest | graph/src/bfs.rs:1525-1548 | with older nodes below newer ones on the stack, the run is the newer ones' search and then, the older ones untouched, theirs; a cap or failure in the first part is the end |
| DepthOrder.SearchNests | graph/src/bfs.rs:1525-1548 | the search of a stack is the search above any position followed by the search below it |
| DepthOrder.AnswerIsSearch | graph/src/bfs.rs:1471-1563 | the depth-first answer is that search's |
| DepthOrder.OldestProgresses | graph/src/bfs.rs:1292-1302 | breadth first takes the first queued node, offers its own list from index 0 up, and keeps the others in place |
| DepthOrder.AnswerIsSweep | graph/src/bfs.rs:1237-1360 | the breadth-first answer is the oldest-first search's |
| Engines.DfsPushContext.PushCandidate | graph/src/bfs.rs:1654-1694 | one push leaves the shared stack, columns and counter exactly where offering the entry leaves the run |
| Engines.DfsPushContext.PushNeighbors | graph/src/bfs.rs:1636-1652 | pushing the reversed list is offering it, stopping at the first cap or failure |
| Distances.BreadthFirstDepths | graph/src/bfs.rs:1237-1360 | every recorded depth is attained by a walk over admissible entries and no walk is shorter, even when a cap truncated the run |
| Distances.BreadthFirstComplete | graph/src/bfs.rs:1237-1360 | untruncated, a node is visited if and only if a walk within the depth limit reaches it |
| DepthFirst.DepthsAttained | graph/src/bfs.rs:1517-1563 | either strategy, truncated or not: a visited node has a walk of exactly its recorded depth, within the limit |
| DepthFirst.ReachesEverything | graph/src/bfs.rs:1517-1563 | untruncated with a depth limit no smaller than the node count, a node is visited if and only if some walk reaches it |
| Reachability.RunKeepsRooted | graph/src/bfs.rs:1318-1323 | through every run each visited node but the seed hangs one level below a visited parent by an admissible entry of the recorded type |
| HiddenAbsent.HiddenEqualsAbsent | graph/src/bfs.rs:1586-1590 | for a scope that admits the seed, either strategy answers as it would, unrestricted, on the graph with hidden nodes and relationships deleted |
| HiddenAbsent.HiddenSeedAnswersNothing | graph/src/bfs.rs:1254-1262 | a hidden seed or one beyond the graph answers with nothing |
| Breakers.CapsBetween | graph/src/bfs.rs:1318-1348 | between any two expansions of any run, at most max(2, max_nodes) nodes are visited and at most max(1, max_frontier) queued |
| Breakers.CapsInside | graph/src/bfs.rs:1318-1348 | the same bounds after every single neighbour inside an expansion |
| Breakers.AnswerWithinCaps | graph/src/bfs.rs:1325-1330 | hence of every answer |
| Breakers.CapOnlyAtLast | graph/src/bfs.rs:408-418 | in a batch no longer than the next candidate limit, whatever the verdicts, a cap can fire only at the last candidate, so no verdict is wasted |
| Breakers.LimitIsLargest | graph/src/bfs.rs:408-424 | the next candidate limit is the largest that is no more than configured and leaves every candidate room under both caps, and one if there is none |
| Breakers.JudgeAllKeepsCaps | graph/src/bfs.rs:342-395 | admission keeps both bounds and the room for one more, whatever the verdicts |
| TraversalMaps.LayoutUnobservable | graph/src/bfs.rs:727-866 | dense and sparse metadata read and write as the same plain map |
| Candidates.TryNewBatch | graph/src/bfs.rs:86-133 | a batch is accepted exactly when the limits are positive, the count and the key bytes are within them and the sequence strictly increases |
| Candidates.KeyBytesAreLengths | graph/src/bfs.rs:110-128 | a batch's key bytes are the lengths of its target and relationship keys, added up |
| Candidates.JudgingIsOffering | graph/src/bfs.rs:302-398 | with the scope's own verdicts, admitting a batch is offering its entries, caps and parents included |
| Candidates.KeptOffers | graph/src/bfs.rs:543-555 | skipping entries of other types before they become candidates changes nothing |
| Accounting.OwnedIsEntries | graph/src/bfs.rs:542-599 | a list naming each node of a set once owns exactly the raw entries of that set |
| Resumable.ChargedOnce | graph/src/bfs.rs:480-647 | no raw entry is ever charged twice, and a machine that completes untruncated has been charged for exactly the entries of the visited nodes above the depth limit |
| Resumable.FillNeighbors | graph/src/projection/neighbors.rs:194-254 | a page is the next stretch, as long as the smaller of the limit and the rest, with the cursor after it and whether the list ended |
| Resumable.ActivationKeepsMeaning | graph/src/bfs.rs:480-504 | choosing the next queued node keeps what the run leads to |
| Resumable.PagingKeepsMeaning | graph/src/bfs.rs:511-540 | reading a page keeps what the run leads to |
| Resumable.GatheringKeepsMeaning | graph/src/bfs.rs:541-646 | taking candidates off the page, wherever the batch ends, keeps what the run leads to |
| Resumable.JudgingStaysCoherent | graph/src/bfs.rs:302-398 | whatever verdicts come back, the machine stays coherent and either less is unvisited or less is left to read |
| Resumable.JudgingKeepsMeaning | graph/src/bfs.rs:302-398 | faithful verdicts keep what the run leads to |
| Resumable.CompleteMeans | graph/src/bfs.rs:400-406 | a completed machine already is where its run ends |
| Machine.GatherCollects | graph/src/bfs.rs:541-622 | a gathered batch is the longest stretch of the page that fits the key-byte limit, its candidates numbered without a gap |
| Machine.BatchStopsWhereFull | graph/src/bfs.rs:571-600 | a batch is within the key-byte limit and ends before its page does only at a followed entry whose own keys no longer fit |
| Machine.CallAnswered | graph/src/bfs.rs:435-648 | a call that answers as specified fails exactly where gathering its page is refused or its batch exceeds the limits |
| Machine.RefusalExact | graph/src/bfs.rs:96-100 | on entries that can be presented, a call is refused if and only if more candidates fit the key bytes than the batch may hold |
| Machine.CallAdvances | graph/src/bfs.rs:435-648 | a successful call keeps what the run leads to and leaves less to read |
| Machine.DeliveredBatch | graph/src/bfs.rs:435-648 | a call delivers completion only when nothing is left, progress with no sequence number used, or a batch within limits that continues the sequence and is the one awaiting verdicts |
| Machine.DeliveredIdentities | graph/src/bfs.rs:557-624 | every delivered candidate copies an adjacency entry of its parent field by field and carries the target's own table and key and that relationship's own mapping and key, or none where it has no identity |
| Machine.ExhaustedMeansReleased | graph/src/bfs.rs:625-641 | a batch says its node is exhausted exactly when the machine has released that node |
| Machine.ResumableMachine.constructor | graph/src/bfs.rs:193-258 | a new machine has visited and queued the seed, or is complete at once on an invalid seed, a limit of zero or an empty type filter; it has drawn no number and been charged nothing |
| Machine.InitialIsSound | graph/src/bfs.rs:193-258 | a new machine is coherent and leads where the eager run from the seed ends |
| Machine.ResumableMachine.TakeCurrent | graph/src/bfs.rs:480-504 | the active node, else the last queued one for depth first and the first for breadth first, the others staying in place, else completion |
| Machine.ResumableMachine.FillPage | graph/src/bfs.rs:511-540 | a new page is read, and the cursor moved past it, only when the last one is consumed |
| Machine.ResumableMachine.GatherBatch | graph/src/bfs.rs:541-646 | gathers, releases an exhausted node and awaits verdicts, each candidate carrying its target's own table and key and its relationship's own identity; a refusal names its error (missing identity, key above the budget, numbers used up, batch above the limits) and leaves the page drawn up to the refused entry, the entries before it paid for, and no batch outstanding |
| Machine.ResumableMachine.Materialize | graph/src/bfs.rs:435-648 | answers a call exactly as specified: refused in the wrong state or on unusable limits with nothing changed; otherwise completion, or the outcome, error and state left behind of gathering the chosen node's page, each candidate carrying its own identities |
| Machine.ResumableMachine.AdmitBatch | graph/src/bfs.rs:340-398 | admits visible candidates in order until a cap, then is complete or asks for more |
| Machine.ResumableMachine.ApplyVerdicts | graph/src/bfs.rs:302-398 | accepts exactly one verdict per outstanding candidate, in order, while waiting for that batch; anything else is refused and changes nothing |
| Driver.ResolveBatch | graph/src/visibility.rs:375-400 | one faithful verdict per candidate, or failure exactly because some relationship's required identity is missing |
| Driver.UnresolvableFails | graph/src/visibility.rs:773-775 | at production batch sizes a candidate that cannot be resolved fails the eager run too |
| Driver.CallSucceeds | graph/src/bfs.rs:588-640 | a call cannot fail while the batch limit is at least the page left over |
| Driver.LimitCoversPage | graph/src/bfs.rs:408-424 | after a round that read at most one page the next production limit covers what is still pending, so the production loop never shrinks its limit below a page |
| Driver.TraverseBySchedule | graph/src/bfs.rs:276-300 | under any schedule of positive page and key-byte limits a run that does not fail answers exactly as the eager engine, so batch boundaries are unobservable; it does not fail on a presentable, resolvable graph when limits never shrink; untruncated, it is charged exactly the raw entries of the answer's nodes above the depth limit, each once, and truncated no more than those |
| Driver.Traverse | graph/src/sql_traversal.rs:399-432 | the production loop answers exactly as the eager engine, failures included, on every graph whose entries can be presented and numbered, and elsewhere whenever it does not fail; it is charged as above |
| MachineRuns.ShrunkLimitFails | graph/src/bfs.rs:96-100 | a run of a new machine, one call and its verdict, after which the next call fails under a smaller batch limit and succeeds under one that covers the entries left |
| MachineRuns.Reached | graph/src/bfs.rs:302-648 | every state a new machine can get to by any calls and any verdicts is coherent, with both circuit breakers' bounds and room for the next admission |
| MachineRuns.ReachedStates | graph/src/bfs.rs:342-395 | in every reachable state at most max(2, max_nodes) nodes are visited and max(1, max_frontier) queued, and no more has been charged than the visited nodes own |
| MachineRuns.RunsAgree | graph/src/bfs.rs:302-648 | however calls and answers fell, if the answers are the scope's own then every reachable state leads to the eager run's end, and a completed machine stands there |
| Paths.TypesMatchSteps | graph/src/bfs.rs:1757-1783 | the path to a visited node has one type per step, each the type recorded for that step |
| Reachability.TreePathIsWalk | graph/src/bfs.rs:1732-1754 | the parent path is a walk from the seed with depth + 1 nodes |
| Paths.ReconstructPath | graph/src/bfs.rs:1732-1754 | walking parents back terminates and yields that path; an unvisited target yields only itself |
| Paths.ReconstructEdgePath | graph/src/bfs.rs:1757-1783 | yields the recorded types of that path; none for an unvisited target |
| RunFormat.NumberSurvives | graph/src/build_runs.rs:970-992 | little-endian decoding inverts encoding for every number the width holds |
| RunFormat.BytesSurvive | graph/src/build_runs.rs:970-992 | little-endian encoding inverts decoding on every byte string |
| RunFormat.RecordOrder | graph/src/build_runs.rs:81-85 | the record order is total and leaves no two records unordered |
| RunFormat.RecordOrderByByte | graph/src/build_runs.rs:81-85 | of two records the first has the smaller key at the first byte where the keys differ, or has ended there; with equal keys the same of the values |
| RunFormat.SortedIsInOrder | graph/src/build_runs.rs:81-85 | a list is sorted exactly when every two of its records are in that order |
| FileLayout.LittleEndianDigits | graph/src/build_runs.rs:970-992 | each byte is a base-256 digit of the number, lowest first |
| FileLayout.HeaderPlaces | graph/src/build_runs.rs:125-140 | magic, version, kind, length, identifiers, counters and checksums each stand at their byte offset, the checksum taken over the header with its own field zero, the rest zero |
| FileLayout.StoredFile | graph/src/build_runs.rs:892-968 | a file that stores records is its header and, end to end behind it, each record's key length, value length, key and value; the header counts records and bytes and carries the payload checksum |
| RunHeaders.HeaderRoundTrip | graph/src/build_runs.rs:124-172 | decoding accepts 128 bytes with header h if and only if they are the encoding of h, for any checksum function |
| RunHeaders.EncodeHeader | graph/src/build_runs.rs:125-140 | filling the buffer field by field and sealing it yields that encoding |
| RunFiles.RunReader.Open | graph/src/build_runs.rs:793-839 | a file opens if and only if its header is the staged one and its length and payload checksum match |
| RunFiles.RunReader.NextRecord | graph/src/build_runs.rs:841-889 | a run that stores records yields them in order and then ends; what is returned is what the file holds next, sorted and within limits, and the end is reported only when it is the whole payload |
| RunFiles.Replay | graph/src/build_runs.rs:426-436 | reading a file back succeeds with exactly the records it stores, and only if it stores them |
| RunFiles.WriteRunFile | graph/src/build_runs.rs:892-968 | writing succeeds if and only if the records are sorted, within limits and match the declared count and length, and the file then stores exactly them |
| Merging.TakingLeastStaysMerged | graph/src/build_runs.rs:766-780 | taking the least head keeps the output sorted, keeps output plus remainder equal to the input as a multiset, and keeps the output below everything left |
| Merging.LeastEntry | graph/src/build_runs.rs:730-734 | the entry popped is least by record, then by source |
| Merging.MergeIterator.Next | graph/src/build_runs.rs:766-780 | over any staged files, damaged or not: each call emits the least record left; the end comes only when every run has been read to its end and the emitted records are the sorted union of all, duplicates kept; an error comes only from a damaged run |
| Merging.ExtendingStaysMerged | graph/src/build_runs.rs:766-780 | reading one more record, not below what the run and the output have shown, keeps the merge invariant |
| Merging.MergeRecords | graph/src/build_runs.rs:748-780 | a merge succeeds if and only if every file stores a sorted list of records within the limits, and then yields their sorted union, keys never decreasing byte by byte, nor values of one key |
| RunMerges.RunWorkspace.AllocateFile | graph/src/build_runs.rs:235-257 | a slot is taken if and only if one is free, so live files never exceed the limit |
| RunMerges.RunWorkspace.ReleaseFiles | graph/src/build_runs.rs:182-190 | dropping runs returns their slots |
| RunMerges.RunWorkspace.WriteRun | graph/src/build_runs.rs:259-307 | stages a run if and only if it is writable, its length fits and a slot is free; its header names the build, the kind, the counts and the payload checksum; otherwise no slot stays taken |
| RunMerges.RunWorkspace.constructor | graph/src/build_runs.rs:203-233 | a workspace carries the graph, build and fingerprint it was created for and holds no file |
| RunMerges.LabelledByFields | graph/src/build_runs.rs:174-180 | a run belongs to a build and kind exactly when its header names that kind, graph, build and fingerprint |
| RunMerges.PayloadLenPermutes | graph/src/build_runs.rs:518-536 | sorting a buffer changes neither its record count nor its byte length, so the declared sizes stay right |
| RunMerges.MergeGroup | graph/src/build_runs.rs:665-728 | merges a group into one run holding the same records and drops the group; fails if and only if the output is too long or has no slot |
| RunMerges.MergePass | graph/src/build_runs.rs:619-644 | one pass keeps the stored records and the byte total, leaves strictly fewer runs, and accounts every slot on success and failure |
| RunMerges.MergeRuns | graph/src/build_runs.rs:598-650 | merges down to one run with the same records; fails if and only if there are no runs, the fanout is below two, or a merge is needed and its output has no slot or is too long |
| CollectorState.FlushKeepsTidy | graph/src/build_runs.rs:512-579 | for any number of flushes one slot stays free for a merge output; three slots beyond foreign files always suffice |
| CollectorState.HeldIsTidy | graph/src/build_runs.rs:512-579 | after any number of flushes that found their slots the runs held leave room for a merge output |
| Collector.RunCollector.Create | graph/src/build_runs.rs:450-477 | a collector needs a positive target and room for a record header |
| Collector.RunCollector.Push | graph/src/build_runs.rs:479-510 | a record above the limit is refused and changes nothing; any other is buffered, after a flush exactly when it would pass the target, and fails exactly when that flush does; everything pushed is in the runs or the buffer; slots equal runs held plus foreign files |
| Collector.RunCollector.Flush | graph/src/build_runs.rs:512-540 | turns the buffer into a sorted run, losing nothing, if and only if the records are within limits and the slots and totals suffice for the run and for the merge it may call for; a failure leaves the buffer empty and the old runs, or none if the merge failed |
| Collector.RunCollector.MakeFileRoom | graph/src/build_runs.rs:542-571 | merges the runs exactly when the next file would take the last slot, and fails exactly when that merge cannot be written |
| ExternalSort.Sort | graph/src/build_runs.rs:479-650 | for every list of records, target, limit and fanout: succeeds if and only if every record and the total fit, the file slots suffice and the fanout is at least two if more than one run is left to merge, and then the one staged file holds all records, duplicates kept, in key order byte by byte, with one slot taken |
| ExternalSort.YieldsOrderedFile | graph/src/build_runs.rs:517-536 | the staged file is the header of this build and kind and then every record as often as it was given, keys never decreasing byte by byte, nor values of one key |
| CollectorState.SortableByLengths | graph/src/build_runs.rs:450-579 | the success condition in the records' own lengths, the target, the limits and the file slots |
| ExternalSort.MergeNeedsSpill | graph/src/persisted_build_scanner.rs:382-396 | only a sort that overflows one buffer ends in a merge, so any other succeeds under every fanout |
| ExternalSort.FinishSingle | graph/src/persisted_build_scanner.rs:382-396 | no runs yield nothing, one run itself, several their merge |
| ExternalSort.OutcomeDetermined | graph/src/build_runs.rs:518-536 | two sorts of the same records by the same build, in any two workspaces, leave byte for byte the same: the target, the file limit, the files others hold, the fanout, the record limit and the arrival order are unobservable |
| EdgeTypes.SelectionIsNarrowest | graph/src/edge_store.rs:62-70 | the selected width is the narrowest whose reserved value lies above the identifier |
| EdgeTypes.GrowthIsSelection | graph/src/edge_store.rs:158-172 | growing one identifier at a time ends at the width one look at the largest would have chosen |
| EdgeTypes.EdgeTypeStorage.Widen | graph/src/edge_store.rs:174-204 | widening re-encodes every identifier unchanged and never narrows |
| EdgeTypes.EdgeTypeStorage.TryPush | graph/src/edge_store.rs:144-172 | appends the identifier at the width it needs, storing no reserved value; the reserved identifier is refused and changes nothing |
| EdgeStore.StretchIsLeaving | graph/src/edge_store.rs:838-850 | between two neighbouring offsets lie exactly the edges of that node in input order |
| EdgeStore.ArraysHold | graph/src/edge_store.rs:838-850 | of each edge the arrays hold target, type, a flag of 1 or 0, the weight or 1 where none is given, and the identity, inside the stretch of its source |
| EdgeStore.RepresentationValidates | graph/src/edge_store.rs:432-451 | every store that represents an edge list passes the value-level checks of a mapped store |
| EdgeStore.ValidationExact | graph/src/edge_store.rs:432-451 | a store passes the value-level checks of a mapped store if and only if it represents some edge list, so what is proved of represented stores holds of every mapped one |
| EdgeStore.SameStore | graph/src/edge_store.rs:838-868 | two stores of one edge list at the same type width are equal in every array |
| EdgeStore.SortedEdgeStoreBuilder.TryPush | graph/src/edge_store.rs:809-850 | an edge is accepted if and only if it is valid and within the preflight capacity and width, and filed under the larger of its source and the node reached; a refused push changes nothing stored |
| EdgeStore.SortedEdgeStoreBuilder.Finish | graph/src/edge_store.rs:853-868 | the store represents exactly the pushed edges in order |
| StoreBuilders.TryFromSortedEdges | graph/src/edge_store.rs:1034-1048 | edges in any order build if and only if all are valid, into a store representing them as filed, at the width of their largest type |
| StoreBuilders.SettledWhenSorted | graph/src/edge_store.rs:838-841 | filing changes no edge if and only if the edges come in source order |
| StoreBuilders.FromValidEdges | graph/src/edge_store.rs:957-1018 | sorts by key and represents a key-sorted arrangement of all edges, identities dropped, at the width of the largest type |
| StoreBuilders.KeySortedByField | graph/src/edge_store.rs:957-967 | key order is source, then target, then type, then flag, unset before set |
| StoreBuilders.TryFromEdges | graph/src/edge_store.rs:943-952 | builds if and only if every edge is valid |
| StoreBuilders.BuildersAgree | graph/src/edge_store.rs:957-1018 | on key-sorted edges the streaming builder and the sorting one, given any order, produce equal offsets, targets, typed columns and flags |
| StoreBuilders.NeighborsAreLeaving | graph/src/edge_store.rs:1151-1176 | a node's slices are always in range and hold the targets and types of the edges leaving it; a node beyond the store has none |
| ReverseStore.PrefixSums | graph/src/edge_store.rs:1077-1079 | in place, every entry becomes the sum of those up to it |
| ReverseStore.TryReversed | graph/src/edge_store.rs:1058-1137 | never fails on a represented store and represents its transpose at the same type width; array by array, each position of the result holds the type, flag, weight and identity of one position of the given store, its target the node whose stretch that is, in the stretch of the node it goes to, and in order within it |
| ReverseStore.TransposeReverses | graph/src/edge_store.rs:1100-1124 | any store of the transposed list reverses the given one in that sense |
| Grouping.GroupedIsStable | graph/src/edge_store.rs:1100-1124 | each reversed list is exactly the inbound edges ordered by source, then original position |
| Grouping.SlotsDiffer | graph/src/edge_store.rs:1104-1106 | no two edges are written to the same slot |
| Grouping.SlotsOnto | graph/src/edge_store.rs:1081-1095 | every slot of the reversed arrays is written |
| Transposition.TransposeTwice | graph/src/edge_store.rs:1058-1137 | reversing twice gives each node its own edges stably sorted by target |
| Transposition.SortedByTargetIsStable | graph/src/edge_store.rs:1058-1137 | that arrangement is sorted by target and keeps equal targets in order |
| Transposition.TransposeTwiceIsIdentity | graph/src/edge_store.rs:1058-1137 | reversing twice gives back the edge list if and only if every node's edges are sorted by target |
| Transposition.ReversingTwiceIsIdentity | graph/src/edge_store.rs:1058-1137 | the store reversed twice equals the first in every array if and only if every node's edges are sorted by target |
| UnionFind.CompressionKeepsForest | graph/src/connected_components.rs:71-76 | pointing a node at its root changes no node's root and keeps ranks rising toward roots |
| UnionFind.LinkKeepsForest | graph/src/connected_components.rs:87-98 | linking by rank keeps ranks rising and merges exactly the two classes |
| UnionFind.LinkKeepsWeight | graph/src/connected_components.rs:87-98 | a root of rank r heads a class of at least 2^r nodes |
| UnionFind.RankFitsByte | graph/src/connected_components.rs:52-54 | with 32-bit node indexes no rank exceeds 31, so a byte never overflows |
| UnionFind.DisjointSets.Find | graph/src/connected_components.rs:71-76 | terminates with the node's root and changes no root |
| UnionFind.DisjointSets.Union | graph/src/connected_components.rs:79-99 | merges the two classes and no others |
| Components.ClassesAreComponents | graph/src/connected_components.rs:179-197 | once all entries are merged, two participating nodes share a root if and only if a chain of visible entries through visible active nodes joins them |
| Components.ConnectedByFields | graph/src/connected_components.rs:179-197 | being connected is being joined by a path of active, undeleted, visible nodes over entries whose relationship, where its identity counts, is present and not hidden |
| Components.UnresolvedByFields | graph/src/connected_components.rs:190 | a node is unresolved exactly when it takes part and has an entry of a type that needs an identity and has none |
| Components.LargestSize | graph/src/connected_components.rs:225 | the largest recorded size, zero if there is none |
| Components.ComputeComponents | graph/src/connected_components.rs:165-233 | fails if and only if some participating node has an entry whose required identity is missing; otherwise labels mean connectivity, only excluded nodes carry u32::MAX, sizes count each label and sum to the participating nodes, and the count and the largest size are right |

## Left out

- Overlay and layered neighbour sources and their short pages (`graph/src/projection/neighbors.rs` past line 257): the pager is the CSR one.
- Binding a machine to a projection epoch and refusing another (`graph/src/bfs.rs:260-274`), and `finish`, which hands the columns over unchanged.
- The SQL visibility resolver: verdicts come from the visibility scope, one constant scope a run.
- Resource governors, memory, disk, row and time budgets, interrupts and allocation failures; charging is a counter of raw entries that never refuses.
- Source keys are byte strings whose lengths count; table names, coordinates and result rows are not modelled.
- `component_size`, `component_size_rows`, `component_rows_page` and `isolated_rows_page`: look-ups, filters and sorts over the result.
- Mapped byte ranges, alignment and slice casts of the edge store, `planned_storage_bytes_for_width`, and the other `neighbors*` accessors, which slice the further arrays in the same way.
- Run files are byte strings: names, permissions, buffering, fsync, chunked checksumming, disk leases and cleanup of abandoned workspaces are not modelled; nor is the file-name counter's overflow.
- Merge statistics (passes and runs written) and the collector's memory accounting.
- ExternalSort.Sort: assumes the number of files held by others does not change during the sort; collectors that run side by side on one workspace are not modelled.
- RunMerges.MergeGroup: draws the merged records completely before writing them, where the code interleaves the two; the bytes written are the same, the order of reads and writes is not captured.
- Merging.MergeIterator.Next: what a merge holds after an error is not described; the error ends the merge that drew the record.
- StoreBuilders.FromValidEdges: says nothing about which of several equal-key edges comes first, because the sort is unstable.
- ReverseStore.TryReversed: the type, target, flag, weight and identity vectors are sequences reassigned in the loop rather than arrays; only the counts and cursors are changed in place.
- TraversalMaps.UseSparseMetadata: which of the two layouts is chosen is modelled but only shown to be unobservable.
- Sorting itself is a stand-in with the contract of an unstable sort (`Ordering.SortUnstable`), and the binary heap a map from source to record with the contract of pop-least.
