# Verified model of Prismoire's trust engine and its companions

Prismoire scores how much one user trusts another by a bounded breadth-first search over a trust graph. This project
models that engine (`bench/src/algo.rs`), the measurements and the graph generator around it, its on-disk graph format,
and the server-side algorithms that have an exact meaning: room activity, room paging, full-text and LIKE query building,
rolling request metrics and favorite rooms. `dafny verify dfyconfig.toml` checks everything.

Code that updates state in place is imperative here too: counting sort and flag arrays are arrays, accumulators, rings,
histograms and the favorites store are classes, queue loops are loops. Each such method is proved equal to a
specification function, and the promises are proved about that function, for every graph and every input.

## How the modules fit together

| module | what it holds |
|---|---|
| `Csr`, `Transpose` | compressed sparse row graphs, their builder and transpose |
| `Walks` | walks and distances: the reference meaning of every search |
| `Reals`, `Scores` | decay powers; the per-target accumulator and its combined score |
| `Bfs` | the visiting order of a queue-driven search, one pop at a time, and its meaning as distances |
| `Forward`, `Reverse` | the two searches, proved equal to their specifications |
| `Meaning` | what both searches compute, in terms of walks alone |
| `Agreement`, `Distrust`, `FirstFound`, `Monotone` | the promises about scores |
| `Instances` | concrete runs with their scores written out |
| `Reference` | the hash-map oracle |
| `Frontier`, `CappedUnion`, `Induced` | frontier measurements and stored footprints |
| `MmapCsr` | the graph file format |
| `GeneratorDraws`, `GeneratorQueue` | what a stream of draws names; what draining an expansion queue keeps |
| `Generator` | the federated graph generator, for every stream of draws |
| `Favorites`, `Metrics`, `Like`, `Fts`, `RoomActivity`, `RoomPaging` | the server-side algorithms |
| `Sorting`, `Strings`, `Options` | sorting with a caller-supplied order, finding a separator, an option type |

## Where the code and its documentation differ

- `bench/README.md:19` promises identical forward and reverse scores for every pair. At every depth this holds exactly
  when the source trusts the target directly or nobody it trusts has a shortcut through the source
  (`Agreement.AgreementEverywhere`). At depth 3 that leaves one exception: the source trusts itself, does not trust the
  target directly and reaches it in two hops (`Agreement.AgreementExact`, with a graph of three users in
  `Agreement.DisagreementAtMaxDepth`). On self-loop-free graphs it holds exactly up to depth 3
  (`Agreement.DepthThreeIsTheLimit`). The generator never emits a self-loop (`Generator.Generate`).
- `bench/src/algo.rs:235-237` says a group keeps its best path. Without distrusts it does (`Meaning.GroupIsBest`); with
  distrusts it keeps the first one found, and `FirstFound.KeepsBestExact` says exactly when that is the best.
- `bench/src/graph.rs:671-673` foresees re-expanding a node at a greater depth. No run ever does
  (`GeneratorQueue.ExpandedOnce`).
- `bench/src/graph.rs:688-695` presents the uniform fallback as a protection against endless rejection. It can finish
  exactly when the targets so far and the other home users together are enough (`GeneratorDraws.FallbackFinishesExact`).
- `bench/src/mmap_csr.rs:70-71` narrows the array lengths to 32 bits; a graph with 2^32 - 1 nodes, legal for its own type,
  does not read back (`MmapCsr.RoundTripExact`, `MmapCsr.LargestGraphLost`).
- `server/src/rooms.rs:453-457` says the oldest returned thread sets the exposed window; the code takes the oldest
  visible one. `RoomActivity.CompletenessExact` says exactly when the exposed buckets are complete, and
  `RoomActivity.TodayUndercounted` gives rows for which they are not.
- `server/src/rooms.rs:738-747` expects a stale cursor to end paging early; the code resumes at the next lower key
  (`RoomPaging.StaleCursor`).
- `server/src/search.rs:236-259` promises an FTS5 MATCH expression for every input with a usable token, and
  `server/src/search/threads.rs:12-14` offers column filters next to free text. FTS5 implies no AND beside a
  parenthesised expression and reads AND, OR and NOT as operators, so the built expression is a syntax error exactly
  when a column filter stands beside another clause or the last term is one of those three words
  (`Fts.BuiltReadsExact`); the documented example `url:github axum` is refused (`Fts.MixedClausesRefused`), and so is
  `cats AND` (`Fts.OperatorTailRefused`).
- `server/src/search.rs:247` shows an unquoted term inside a column filter; the code quotes it.

## Model

| member | source | states |
|---|---|---|
| `Csr.FromEdges` | bench/src/algo.rs:88-116 | the counting sort is stable: every row is exactly the targets of that source's edges in input order, and the rows tile `targets` without gap or overlap |
| `Csr.CountDegrees` | bench/src/algo.rs:91-94 | the degree array holds the length of every row |
| `Csr.PrefixSums` | bench/src/algo.rs:97-100 | offsets are the exclusive prefix sums of the row lengths |
| `Csr.Scatter` | bench/src/algo.rs:103-109 | each edge lands behind the earlier edges of its source and disturbs no other row |
| `Csr.ViewDetermines` | bench/src/algo.rs:120-124 | two valid graphs with the same rows have the same arrays |
| `Transpose.TransposeCsr` | bench/src/algo.rs:127-135 | the built graph has the transposed rows and as many edges |
| `Transpose.TransposeFlips` | bench/src/algo.rs:127-135 | every edge keeps its multiplicity in the opposite direction and transposed rows are ascending |
| `Transpose.ThriceIsOnce` | bench/src/algo.rs:127-135 | transposing three times gives the rows of transposing once, order included |
| `Transpose.DualFromEdges` | bench/src/algo.rs:152-160 | both graphs come from one edge list, the second being the transpose of the first |
| `Scores.PathGroups.constructor` | bench/src/algo.rs:184-186 | a new accumulator has no groups |
| `Scores.PathGroups.Add` | bench/src/algo.rs:190-200 | one entry per group, holding the better of the old and new score; other groups are untouched |
| `Scores.PathGroups.CombinedScore` | bench/src/algo.rs:203-209 | one minus the product of the misses over the groups, whatever order they were recorded in; zero without groups |
| `Scores.Record` | bench/src/algo.rs:296-299 | records under one target, creating it on first sight, and leaves every other target's accumulator as it was |
| `Scores.MissAntitone` | bench/src/algo.rs:203-209 | higher group scores never lower the combined score |
| `Scores.MissStrict` | bench/src/algo.rs:203-209 | a strictly higher score in one group strictly raises the combined score unless it was certain already |
| `Scores.MissCertain` | bench/src/algo.rs:203-209 | one certain group makes the combined score certain |
| `Forward.CountReliability` | bench/src/algo.rs:220-226 | 0.75 to the power of the number of out-edges into the viewer's distrust set, parallel edges counted |
| `Bfs.DistrustedCount` | bench/src/algo.rs:220-226 | the penalty count is the number of adjacency positions holding a distrusted user |
| `Distrust.ReliabilitySteps` | bench/src/algo.rs:220-226 | an empty adjacency list is fully reliable, and each further edge costs a factor 0.75 exactly when its end is distrusted |
| `Bfs.SearchMeaning` | bench/src/algo.rs:277-303 | a bounded queue search with several roots discovers exactly the nodes within the bound, no node twice, each at its distance from the nearest root |
| `Bfs.RootDistance` | bench/src/algo.rs:376-410 | with one root the recorded depth is the distance in the graph without the avoided nodes |
| `Forward.Seed` | bench/src/algo.rs:261-275 | after seeding, each first hop's search stands at its root, parallel edges leaving extra queue copies |
| `Forward.StatePop` | bench/src/algo.rs:277-303 | popping one entry of the shared queue advances exactly the search of its first hop and leaves the others where they were |
| `Forward.Step` | bench/src/algo.rs:277-303 | one iteration keeps the accumulators equal to what all groups have found and uses up unvisited pairs or queue entries |
| `Forward.ForwardBfs` | bench/src/algo.rs:244-320 | the interleaved search gives what searching every first hop separately gives; directly distrusted targets score zero |
| `Meaning.ForwardMeaning` | bench/src/algo.rs:244-320 | without distrusts, each distinct first hop other than the source contributes the decay of its distance to the target in the graph without the source |
| `Meaning.GroupIsBest` | bench/src/algo.rs:171-176 | a group's score is attained by one of its walks within the depth and beaten by none |
| `Reverse.ReverseBfs` | bench/src/algo.rs:350-416 | the single pass with one global visited set combines, per node, one group per expanded predecessor |
| `Reverse.SweepStep` | bench/src/algo.rs:376-410 | one iteration expands the next node of the search and records all its edges, late arrivals included |
| `Meaning.ReverseMeaning` | bench/src/algo.rs:336-344 | every out-neighbour within reach contributes the decay of its distance to the reader, so not re-expanding late arrivals loses nothing |
| `Agreement.ForwardBelowReverse` | bench/src/algo.rs:326-344 | on every graph and at every depth, whatever forward search reports reverse search reports with at least its score |
| `Agreement.AgreementEverywhere` | bench/README.md:19 | at every depth and on every graph the two searches agree on a pair if and only if the source trusts the target directly or no out-neighbour gets closer to the target by walking through the source |
| `Agreement.AgreementExact` | bench/README.md:19 | up to depth 3 the two searches agree on a pair if and only if no self-loop of the source adds a group of its own |
| `Agreement.AgreementAtMaxDepth` | bench/src/main.rs:2579-2621 | on every self-loop-free multigraph both directions give every pair the same score at the production depth |
| `Agreement.DisagreementAtMaxDepth` | bench/src/algo.rs:387-398 | at the production depth a self-loop makes the two scores differ on a graph of three users |
| `Agreement.DisagreementFromDepthFour` | bench/README.md:19 | from depth four on, a four-node graph without self-loops breaks the agreement |
| `Agreement.DepthThreeIsTheLimit` | bench/src/algo.rs:27 | agreement on all self-loop-free graphs holds if and only if the depth is at most three |
| `Distrust.Reported` | bench/src/algo.rs:282-301 | whom a group reports depends on walks alone, not on distrusts |
| `Distrust.DistrustAntitone` | bench/src/algo.rs:239-241 | enlarging the viewer's own distrust set reaches the same targets and raises no score; other users' sets have no effect |
| `Distrust.DistrustedBelowReverse` | bench/src/algo.rs:345-349 | a penalised forward score never exceeds the reverse score of the pair |
| `Distrust.DirectDistrustIsZero` | bench/src/algo.rs:310-317 | a reported target the viewer distrusts scores zero at every depth, whatever evidence there is |
| `FirstFound.GroupScoreIsWalk` | bench/src/algo.rs:277-303 | at every depth and with any distrusts, a group's score for a target is the penalised score of one of that group's shortest walks to it |
| `FirstFound.DiscoveryWalk` | bench/src/algo.rs:277-303 | every discovery of a complete search carries the score of a walk as long as its distance |
| `FirstFound.KeepsBestExact` | bench/src/algo.rs:235-237 | with distrusts a group reports its best walk if and only if the target is the first hop, a direct trust of it, or the first listed middleman has no more distrusted trusts than any other |
| `FirstFound.OrderMatters` | bench/src/algo.rs:287-299 | a concrete graph loses the better walk in one adjacency order and keeps it in the other |
| `Instances.TwoPenalties` | bench/src/algo.rs:220-226 | a first hop trusting two users the viewer distrusts scores 0.5625 |
| `Instances.DiamondScores` | bench/src/algo.rs:287-299 | the two orders of the diamond give 0.3675 and 0.49 |
| `Instances.TwoIndependentGroups` | bench/src/algo.rs:203-209 | two independent friends of friends give 0.91 |
| `Monotone.EdgesNeverHurt` | bench/src/algo.rs:261-303 | without distrusts, adding nodes and edges loses no target and lowers no score |
| `Monotone.BottleneckCaps` | bench/src/algo.rs:171-176 | if every walk to the target starts with one first hop other than the target, the score is at most 0.7, whatever lies behind it and whatever is distrusted |
| `Reference.HashMapFromEdges` | bench/src/algo.rs:441-447 | looking a node up gives its targets in input order, nothing for nodes without out-edges |
| `Reference.ReferenceForwardBfs` | bench/src/algo.rs:454-529 | the oracle computes the specification of forward search on the adjacency lists |
| `Reference.CompareWithOracle` | bench/src/main.rs:2625-2664 | for every edge list, source and distrust table the engine and the oracle return the same scores |
| `Frontier.StructuralFrontierRemote` | bench/src/main.rs:1230-1254 | counts exactly the remote nodes within the depth of some local node |
| `Frontier.ReverseReaches` | bench/src/algo.rs:350-416 | reverse search reports exactly those who reach the reader within the depth |
| `Frontier.ReportedIsVisible` | bench/src/main.rs:1135-1137 | whoever is reported at the production depth scores at least 0.49, above the threshold |
| `Frontier.UnionIsFrontier` | bench/src/main.rs:1222-1229 | the authors visible to local readers are exactly the structural frontier of the reverse graph |
| `CappedUnion.VisibleList` | bench/src/main.rs:1576-1579 | lists each visible remote author once |
| `CappedUnion.AdmittedList` | bench/src/main.rs:1585-1605 | the admitted authors are as many visible ones as the cap allows, each trusted more than everyone left out or as much with the smaller id; a reader is over the cap exactly when it sees more |
| `CappedUnion.AdmissionIsBest` | bench/src/main.rs:1587-1599 | the same of the specification: for every reader the admitted authors are the most trusted of those who can see it, up to the cap |
| `CappedUnion.BestIsUnique` | bench/src/main.rs:1587-1599 | only one set of authors is the best for a reader and a cap |
| `CappedUnion.AdmittedIsBest` | bench/src/main.rs:1587-1599 | for any trust scores, the authors with fewer than `cap` others ranked ahead are the best of the visible ones |
| `CappedUnion.TopIsAdmitted` | bench/src/main.rs:1590-1600 | sorting and taking the first `cap` admits those with fewer than `cap` authors ranked ahead |
| `CappedUnion.MeasureCappedUnion` | bench/src/main.rs:1563-1627 | the uncapped count is the size of the reverse structural frontier, the capped count that of the admitted union, and both footprints are those of the retained sets |
| `CappedUnion.CapOnlyRemoves` | bench/src/main.rs:1575-1606 | the admitted union is a subset of the visible one, and equal when no reader exceeds the cap |
| `CappedUnion.CapNeverStoresMore` | bench/src/main.rs:1618-1627 | the capped store has no more nodes, edges or bytes |
| `Induced.RemapIds` | bench/src/main.rs:1195-1202 | a retained node's id is its rank among the retained ones, any other node is marked absent |
| `Induced.InducedFootprint` | bench/src/main.rs:1193-1218 | nodes, edges and bytes of the node-induced subgraph rebuilt as a dual graph |
| `Induced.RankMonotone` | bench/src/main.rs:1194-1202 | renumbering keeps the order and merges no two nodes |
| `Induced.RankOnto` | bench/src/main.rs:1194-1202 | every compact id is used |
| `Induced.RankCounts` | bench/src/main.rs:1194-1202 | a node's compact id is the number of retained nodes before it |
| `Induced.InducedCount` | bench/src/main.rs:1203-1210 | one stored edge for every edge with both ends retained |
| `Induced.InducedRow` | bench/src/main.rs:1203-1211 | a retained node's compact adjacency is its old list, filtered and renamed in order |
| `Induced.FootprintMonotone` | bench/src/main.rs:1185-1192 | a smaller retained set never stores more |
| `Induced.FootprintBytes` | bench/src/main.rs:1211-1217 | 88 bytes per retained node, 8 per retained edge, and 8 |
| `MmapCsr.WordRoundTrip` | bench/src/mmap_csr.rs:68-71 | a 32-bit value survives writing and reading in either byte order |
| `MmapCsr.SerializeCsr` | bench/src/mmap_csr.rs:59-95 | the header buffer filled field by field, followed by both arrays, is the file image |
| `MmapCsr.SmallestFile` | bench/src/mmap_csr.rs:49-71 | all 32 bytes of the file for one node without edges on a little-endian host |
| `MmapCsr.OpenExact` | bench/src/mmap_csr.rs:132-192 | a file is accepted as a given mapped graph if and only if it starts with exactly the header announcing that graph's counts (magic, version, node, offset and target count) and holds the announced array bytes |
| `MmapCsr.OpenHeader` | bench/src/mmap_csr.rs:160-172 | behind a correct header, a file is accepted if and only if the announced arrays are there |
| `MmapCsr.RoundTripExact` | bench/src/mmap_csr.rs:59-192 | a written file opens, and reads back as the same graph if and only if both array lengths fit in 32 bits |
| `MmapCsr.LargestGraphLost` | bench/src/mmap_csr.rs:70-71 | the graph with the largest node count and no edges is valid and storable, opens, and does not read back |
| `MmapCsr.TruncationDetected` | bench/src/mmap_csr.rs:136-172 | every proper prefix of a written file is refused |
| `MmapCsr.ForeignOrderDetected` | bench/src/mmap_csr.rs:148-154 | a file in the other byte order is refused by its version |
| `MmapCsr.MappedRows` | bench/src/mmap_csr.rs:225-235 | the mapped accessor returns the rows of the graph that was written |
| `MmapCsr.SearchMapped` | bench/src/mmap_csr.rs:223-241 | building, storing, mapping and searching gives the scores of the edge list |
| `Generator.Materialise` | bench/src/graph.rs:712-718 | a known location keeps its id, a new one gets the next; ids and locations stay in bijection |
| `Generator.HomeTargets` | bench/src/graph.rs:681-721 | the targets are exactly the persons named by the attempts, the user itself excepted, until there are as many as drawn, the attempts are used up and the uniform fallback takes over, or the draws run out; every new remote user is queued for two levels |
| `GeneratorDraws.EveryoneCanBeDrawn` | bench/src/graph.rs:702-711 | every home and every remote user can be drawn as a target, every pair of them as a bridge and every rank as a colleague, and reading takes exactly the draws that name them |
| `Generator.UniformFallback` | bench/src/graph.rs:690-695 | adds other home users only, and stops with exactly the drawn number of targets unless the draws run out |
| `GeneratorDraws.FallbackFinishesExact` | bench/src/graph.rs:690-695 | some stream lets the fallback finish if and only if the targets so far and the other home users together are enough |
| `Generator.HomeEdges` | bench/src/graph.rs:680-725 | every home user reads its targets where the one before stopped and has exactly one edge to each; no edge twice, each user with its drawn out-degree unless the draws run out, and all remote users queued |
| `Generator.InstanceTargets` | bench/src/graph.rs:753-775 | the targets are exactly the users of the node's instance whose ranks were drawn, other than the node; drawing stops exactly when there are as many as the tier asks for, the attempts are used up or the draws run out |
| `Generator.ExpandNode` | bench/src/graph.rs:738-782 | the drawn targets become the node's edges, one each and no others, and are queued one level shallower exactly while a level remains |
| `GeneratorDraws.EveryTierCanBeDrawn` | bench/src/graph.rs:738-756 | each tier can be drawn and gives its own out-degree; twenty attempts per target are allowed, never fewer than 64 |
| `GeneratorQueue.ExpandedOnce` | bench/src/graph.rs:732-736 | an entry is skipped if and only if its node has been expanded before |
| `GeneratorQueue.PhaseAdvances` | bench/src/graph.rs:731-783 | every step keeps two-level entries ahead of one-level entries, and the queue empties |
| `Generator.GenerateForward` | bench/src/graph.rs:680-783 | the home edges are those the draws name, every expansion reads its ranks where the one before stopped and its edges are exactly the drawn ones; each node is expanded once, for two levels exactly behind a home user's edge and for one behind such a node; no edge twice, no idle node |
| `Generator.AddBridges` | bench/src/graph.rs:820-838 | the bridges are exactly the pairs of remote and home user named by the nInbound readings of the stream, each emitted once, with its source queued for two levels |
| `Generator.ExpandInbound` | bench/src/graph.rs:852-893 | the trusters are exactly the users of the node's instance whose ranks were drawn, other than the node, with the same stopping rule; each gets one edge to the node and is queued one level shallower while a level remains |
| `Generator.GenerateInbound` | bench/src/graph.rs:815-895 | the bridges are the drawn ones, every inbound expansion reads its ranks where the one before stopped, each node is expanded once, and the trusters behind every bridge are explored for two levels |
| `Generator.Generate` | bench/src/graph.rs:659-895 | whatever is drawn, the graph is the one the draws name: both halves as above, the home users' drawn out-degrees, every remote node on some edge; endpoints are in range and no edge is a self-loop, which is what agreement of the searches needs |
| `Favorites.RenumberPositions` | server/src/favorites.rs:276-300 | positions become exactly 0..N-1 and the rows keep their order |
| `Favorites.AcceptsPermutations` | server/src/favorites.rs:220-229 | sorting, deduplicating and comparing accepts exactly the permutations of the current favorites |
| `Favorites.ReorderTable` | server/src/favorites.rs:204-244 | an accepted list becomes the table, any other leaves it unchanged with a mismatch |
| `Favorites.Store.FavoriteRoom` | server/src/favorites.rs:86-132 | appends at the row count, does nothing if present, refuses at the cap, and touches no other user |
| `Favorites.Store.UnfavoriteRoom` | server/src/favorites.rs:148-169 | removes and renumbers, does nothing if absent, and touches no other user |
| `Favorites.Store.ReorderFavorites` | server/src/favorites.rs:190-248 | rewrites the positions in the submitted order exactly for permutations |
| `Favorites.Store.DeleteRoom` | server/src/admin.rs:1428-1437 | the room's rows vanish for every user and nothing is renumbered |
| `Favorites.RunsKeep` | server/src/favorites.rs:92-169 | every run keeps at most 50 rows at positions below 50 for every user; without administrative deletions positions are exactly 0..N-1 |
| `Favorites.DenseMeaning` | server/src/favorites.rs:138-142 | dense positions are in range, distinct and all occupied |
| `Favorites.DensityRestored` | server/src/favorites.rs:270-275 | after any gaps or ties, a removal or an accepted reorder makes positions dense again |
| `Favorites.DeletionExact` | server/src/admin.rs:1428-1437 | an administrative deletion keeps a dense table dense if and only if it removes the last row or none |
| `Favorites.SettledIsDense` | server/src/favorites.rs:92-300 | every run is dense wherever each administrative deletion has been followed by a removal or an accepted reorder |
| `Favorites.AppendsLast` | server/src/favorites.rs:109-126 | in every such settled run a new favorite goes behind all others and moves none of them |
| `Favorites.GapMakesTie` | server/src/favorites.rs:109-126 | a run of four operations with a deletion in the middle ends with two favorites on one position |
| `Metrics.SlotRecords` | server/src/metrics.rs:207-216 | rotating and incrementing keeps a slot tied to the newest hour that maps to it |
| `Metrics.SlotReads` | server/src/metrics.rs:249-258 | a slot contributes exactly the recent events that map to it |
| `Metrics.SlotsMakeWindow` | server/src/metrics.rs:248-258 | the slots' shares add up to the window, each event counted once |
| `Metrics.RingReads` | server/src/metrics.rs:246-258 | under a forward clock the ring's sums are the logged events of the last 24 clock hours, in total and per class |
| `Metrics.WindowMeaning` | server/src/metrics.rs:246-258 | the window counter of a class is the number of logged events of that class in this clock hour and the 23 before |
| `Metrics.CumulativeMeaning` | server/src/metrics.rs:218-237 | the cumulative counter of a class is the number of logged events of that class |
| `Metrics.RouteStats.RecordAt` | server/src/metrics.rs:203-237 | the log grows by the event and the whole state stays a function of the log |
| `Metrics.RouteStats.SnapshotAt` | server/src/metrics.rs:239-280 | window counts, all-time counts and the three quantiles are those of the log |
| `Metrics.HourlyCounter.RecordAt` | server/src/metrics.rs:627-640 | the log grows by one event and the ring stays tied to it |
| `Metrics.HourlyCounter.Count24hAt` | server/src/metrics.rs:642-656 | counts the events of the last 24 clock hours |
| `Metrics.RingHistogram.Push` | server/src/metrics.rs:688-693 | holds exactly the newest samples up to the capacity |
| `Metrics.RingHistogram.QuantileSince` | server/src/metrics.rs:703-711 | the quantile of the retained samples not older than the cutoff |
| `Metrics.ValuesSinceMeaning` | server/src/metrics.rs:703-711 | the values not older than the cutoff are those of exactly these samples |
| `Metrics.QuantilesMeaning` | server/src/metrics.rs:714-723 | a quantile exists exactly for non-empty data, is a data point, is monotone in q, and is the minimum at 0 and the maximum at 1 |
| `Metrics.NearestRank` | server/src/metrics.rs:714-723 | in any ascending arrangement of the data the quantile is the value at the index nearest to (n - 1) q, ties upward |
| `Metrics.MedianOfTwo` | server/src/metrics.rs:721-722 | the p50 of 10 and 20 is 20 |
| `Like.EscapeIsCharwise` | server/src/search.rs:188-192 | the three sequential replacements equal one simultaneous map per character |
| `Like.PrefixPattern` | server/src/rooms.rs:1212-1215 | the prefix pattern matches exactly the texts that start with the query, wildcards and backslashes taken literally |
| `Like.SubstringPattern` | server/src/rooms.rs:1212-1215 | the substring pattern matches exactly the texts in which the query occurs |
| `Fts.SubSplitMeaning` | server/src/search.rs:206-214 | the terms of a chunk are exactly its maximal runs of word characters, in order, none empty |
| `Fts.ChunksMeaning` | server/src/search.rs:266 | the chunks of an input are exactly its maximal runs without whitespace, in order |
| `Fts.FindFieldMeaning` | server/src/search.rs:276-279 | a column is found exactly when the allow-list names it under that alias before any other entry with the alias |
| `Fts.ScopeMeaning` | server/src/search.rs:267-285 | a chunk is scoped to a column exactly when it is a listed alias, the first colon and a non-empty rest; every other chunk is free text as a whole |
| `Fts.ClausesMeaning` | server/src/search.rs:266-292 | the clauses are those of the chunks that leave a term, in order and no others |
| `Fts.BuildFtsQuery` | server/src/search.rs:260-322 | the loops produce the rendered clauses, or nothing exactly when no clause has a term |
| `Fts.TermReads` | server/src/search.rs:216-227 | a rendered term reads back as itself and cannot leave its quotes, except that a starred AND, OR or NOT is an operator and is refused |
| `Fts.QueryReads` | server/src/search.rs:299-321 | under FTS5's grammar a rendered list of clauses reads back as every clause's column and terms, in order, if it is a single clause or free text only and no operator word ends it, and is a syntax error otherwise |
| `Fts.BuiltReadsExact` | server/src/search.rs:236-259 | for every input that leaves a term, the built expression reads back as exactly its (column, term) pairs if and only if that condition holds of its clauses |
| `Fts.MixedClausesRefused` | server/src/search.rs:245-247 | the documented example, a column filter beside free text, is a syntax error |
| `Fts.OperatorTailRefused` | server/src/search.rs:220-222 | free text that ends in AND is a syntax error |
| `Fts.OnlyTailIsPrefix` | server/src/search.rs:250-255 | a term is a prefix term if and only if it is the last of the query and plain ASCII |
| `RoomActivity.WindowBounds` | server/src/rooms.rs:324-337 | the window is the clamped number of consecutive days ending today |
| `RoomActivity.BucketFor` | server/src/rooms.rs:342-354 | the bucket is the window day of the timestamp, none exactly when it lies outside |
| `RoomActivity.ComputeScopedActivity` | server/src/rooms.rs:465-571 | every bucket counts the returned visible rows of that room and day; the rooms listed are those with exposed activity, each dated by its newest; seven days are exposed whenever the limit was not hit |
| `RoomActivity.CountOnMeaning` | server/src/rooms.rs:549-557 | a bucket's count is the number of rows of that room and day |
| `RoomActivity.WindowIsWeek` | server/src/rooms.rs:533-545 | the exposed days end today and are seven when the limit was not hit or no returned row is visible |
| `RoomActivity.WindowFollowsOldest` | server/src/rooms.rs:533-543 | with the limit hit, the exposed days start the day after the oldest visible row when it is one to seven days old; a row of today leaves only today, any other age the full week |
| `RoomActivity.LastInMeaning` | server/src/rooms.rs:558-564 | the recorded last activity belongs to an exposed row and none is newer |
| `RoomActivity.GuaranteedComplete` | server/src/rooms.rs:509-545 | if the limit was not hit, or the oldest returned row precedes the exposed window, every bucket shows the true count |
| `RoomActivity.CompletenessExact` | server/src/rooms.rs:509-545 | that condition on the returned rows holds if and only if every table that could have given them is shown completely |
| `RoomActivity.TodayUndercounted` | server/src/rooms.rs:533-545 | a limit hit by a row of today, visible or not, gives rows for which today's bucket misses a visible thread |
| `RoomActivity.VisibleBeforeToday` | server/src/rooms.rs:533-543 | the condition holds when some visible row came back and the oldest visible one is dated before today |
| `RoomPaging.WarmthAgrees` | server/src/rooms.rs:773-781 | the warmth recomputed from a possibly zero-padded response equals the sort score |
| `RoomPaging.WarmthSteps` | server/src/rooms.rs:243-256 | a further thread k days ago adds the weight of k days, today being zero days ago |
| `RoomPaging.RecencyBeatsVolume` | server/src/rooms.rs:239-242 | with the half-life of two days, seven threads of six days ago score 0.875 and one thread of today 1.0 |
| `RoomPaging.CursorRoundTrip` | server/src/rooms.rs:294-306 | a cursor is score, creation time and id joined by bars, and parses to its key whenever the key's own score survives printing |
| `RoomPaging.ParseExact` | server/src/rooms.rs:294-306 | a text is read as a key if and only if it spells the key's score, creation time and id, separated by its first two bars |
| `RoomPaging.LessTotal` | server/src/rooms.rs:281-285 | any two keys compare exactly one way |
| `RoomPaging.SortedDescending` | server/src/rooms.rs:730-734 | sorting gives a strictly descending permutation of the rooms |
| `RoomPaging.RenderRoomPage` | server/src/rooms.rs:720-790 | one page is the slice strictly past the cursor's key, with a cursor at its last room exactly when more follow, and an error for an unreadable cursor |
| `RoomPaging.PageSizes` | server/src/rooms.rs:765-784 | a page has at most 30 rooms, and exactly 30 when it announces more |
| `RoomPaging.SnapshotsExist` | server/src/rooms.rs:773-781 | for every number of rooms there are rooms and a number format whose keys a cursor can carry |
| `RoomPaging.EveryRoomOnce` | server/src/rooms.rs:685-790 | following the cursors from the start shows every room exactly once in descending order and ends |
| `RoomPaging.WarmestFirst` | server/src/rooms.rs:281-285 | a client following the cursors is shown a warmer room before a colder one, among equally warm ones the later created first, then the larger id |
| `RoomPaging.StaleCursor` | server/src/rooms.rs:736-763 | any readable cursor, even of a room that is gone, yields exactly the rooms below its key |

## Left out

- Floating point: scores, warmth and latencies are reals, so rounding is not modelled.
- Hash-map and hash-set iteration order: results are maps, and loops over sets take their elements in an arbitrary order.
- 32-bit overflow of CSR offsets and of node ids; only the file format's header fields are narrowed explicitly.
- The generic graph access of the searches: they take the rows themselves, and both representations are proved to supply the same rows.
- Queue loops are split into one method per phase and iteration; deques are sequences.
- Generator.Generate: draws are an arbitrary finite stream and the loops stop when it runs out; the shapes of the random distributions, the distrust edges and the single-instance generators are not modelled.
- Frontier estimation and Pareto rank sampling: calibrated heuristics without an exact specification.
- Timing, memory probes, printing and command-line dispatch in `bench/src/main.rs`; memory advice, raw pointers and alignment in `bench/src/mmap_csr.rs`.
- MmapCsr.Open: file-system errors are not modelled; the argument is the file's bytes.
- Metrics: poisoned locks; a clock that runs backwards, for which only the cumulative counts and samples are specified.
- Favorites: transactions and table lookups; resolving a room id or slug is a parameter.
- RoomActivity.ComputeScopedActivity: the query's answer is a parameter described by `Answer`, timestamps are seconds since the epoch and always parse, and the visibility rule is a flag on each row.
- RoomActivity.WindowFollowsOldest: days are numbered below 2^32, which holds of every date the calendar type can represent.
- RoomPaging: number printing and parsing, the identifier check and the decay weights are parameters; the scores of the listed rooms are taken to survive printing; favorite flags and display fields are dropped from responses.
- Fts: Unicode character classes are parameters; column names in the allow-list are plain identifiers, as at every call site; the reader covers the part of FTS5's grammar that emitted expressions use, so explicit operators, NEAR groups, phrase sums and column sets are not read.
- Like: case folding is the ASCII folding of SQLite's LIKE operator.
- Discovery of active rooms, the tab bar and search paging.
- Authentication, sessions, privacy exports, reports, invitations, federation, attachments, display names and configuration.
