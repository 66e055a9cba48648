# Vectorless models

Dafny models of the algorithms of Vectorless, and proofs about them. Each module stands for one component:

- `Migration`: the search for a chain of version migrations and its application.
- `Arena`, `Numbering`, `DocumentTree`, `RetrievalIndex`, `Subtree`, `Toc`: the document tree, its dotted numbers, its
  walks and caches, the index built from it, bounded descendant search, the table of contents.
- `DocumentGraph`, `GraphBuilder`: the graph of related documents and its construction from an inverted index.
- `Fingerprint`: the byte stream fed to the hash.
- `Executor`: the retry and fallback loop around model requests.
- `Recency`, `DocumentCache`, `ResponseCache`: least-recently-used order and the two caches that keep it.
- `Workspace`, `WorkspaceRuns`: the workspace's operations, and any interleaving of their lock-scoped steps.
- `FileNames`, `WorkspaceFiles`: the file backend's names, and what becomes of a document when keys share an entry.
- `Similarity`, `Consolidate`, `Orchestrator`: evidence deduplication and the two-round run around it.
- `RouteCache`: which nodes answered which query.
- `Bm25`: ranked full-text search.
- `Prelude`, `Sorting`: shared vocabulary; stable sorting.

How the models read the code:

- Objects whose methods change them are classes; loops stay loops. A method's `ensures` ties it to a function of the
  inputs or of the old state, and the lemmas say what that function is worth.
- Iteration over a hash map or hash set is iteration in an arbitrary order (`:|` from what is left). Scouts running side
  by side finish in an arbitrary order.
- Floating-point numbers are real numbers. Of the logarithm only `ln(x) > 0` for `x > 1` is used and, for the order of
  search hits, that it grows. `u32` versions, `u64` and `i64` payloads and the 32-bit length prefix keep their widths;
  other counts are unbounded.
- Model calls, scouts, the serializers, stripping, word splitting, keyword extraction and the character classes are
  given functions. The serializers are assumed to load back what they saved and, where documents lie under the keys of
  the workspace's own records, not to read such a record as a document.
- The workspace's backend is a map with one entry per key. `WorkspaceFiles.FilesAreMapIff` says when the files of the
  default backend are such a map; the theorems of `WorkspaceRuns` take the ids in use to be kept apart.
- Subtraction of `usize` values wraps around below zero in the graph builder, as in a build without overflow checks.
- The document tree is the one grown from `new` by the tree's own methods: ids number the nodes in the order of
  creation, and children are appended.

## Where the code departs from its own description

Each departure has a failing input, and the condition under which the code does what it announces.

- `search_descendants` announces a breadth-first search for the shallowest match, but its work list is popped from the
  end (resolve.rs:112-136). The match is a shallowest one, for all trees, exactly if the bound is at most two
  (`Subtree.ShallowestIff`, `Subtree.DeeperMatchReturned`); its one caller passes four (resolve.rs:109).
- The fallback behaviours announce what is done about an error, but retrying is decided first, from the retry settings
  alone (executor.rs:300-312). `Fallback` and `Fail` do not act at once on an error the executor tries again; `Retry`
  and `RetryThenFallback` do not retry one it does not try again. All runs are as announced exactly if the settings meet
  no such error (`Executor.RunsAsAnnouncedIff`, `Executor.SwitchesAtOnceIff`, `Executor.FailsAtOnceIff`,
  `Executor.RetriesFirstIff`; failing cases `Executor.FallbackRetriesFirst`, `Executor.RateLimitNotRetried`).
- Where some error leads to a fallback, a model repeated in the fallback list, past the starting model's place in it,
  makes the chain endless; only the cap of 20 requests ends it (`Executor.CapUnreachable`,
  `Executor.DuplicateModelsHitTheCap`).
- `source_weight` of a shared keyword belongs to the document added first, not to the edge's source
  (builder.rs:141-151; `GraphBuilder.EvidenceOwnership`, `GraphBuilder.BuildOutOfOrder`).
- When a document id is added twice, the keywords of the superseded profile stay in the index. Every build gives the
  edges of the all-pairs definition if no superseded profile shares a top keyword with another one, and with lenient
  thresholds only then (`GraphBuilder.DocumentGraphBuilder.Build`). For a list of ids, all profiles are built right
  exactly if the ids are distinct: otherwise a shared keyword gives a repeated document an edge to itself
  (`GraphBuilder.BuildOneKeyword`, `GraphBuilder.BuildTwice`).
- The length prefix of a fingerprint payload is cut to 32 bits. The encoding is injective on payloads of at
  most n bytes exactly if n is below 2^32: a payload of 2^32 bytes that is itself an encoding collides with other writes
  (`Fingerprint.EncodeInjectiveIff`, `Fingerprint.LongPayloadCollides`).
- `find_by_structure("")` finds the root in the tree and nothing in the index (`RetrievalIndex.StructureLookupsAgree`);
  the two page searches return different nodes where several cover the page at the greatest depth
  (`RetrievalIndex.PageLookupsCoincide`, `RetrievalIndex.TwinsDisagree`).
- The table of contents shows one level beyond its depth limit, as "...", and its minimum content length hides no
  node (toc.rs:170-211). The settings are kept exactly if no node sits just beyond the limit, and none within it is
  too short (`Toc.SettingsKeptIff`, `Toc.LimitKeptIff`, `Toc.FilterKeptIff`, `Toc.SettingsOverrun`).
- `DocumentCache::put` announces the evicted entry but returns the one replaced, and counts a replacement as an
  eviction (cache.rs:109-131; `DocumentCache.PutReturnsEvictedIff`, `DocumentCache.EvictionCountExact`,
  `DocumentCache.FullCacheMisreports`).
- Adding a document again without its card leaves the old card in the catalog (`WorkspaceRuns.AddKeepsCatalogIff`,
  `WorkspaceRuns.OldCardStays`).
- Documents may lie under the keys of the workspace's own records, and on the file backend different keys may share a
  file (backend/file.rs:69-73). A document is safe from changes to other documents exactly if its id is not reserved and
  no other key has its file (`WorkspaceFiles.SafeIff`): on files, exactly if the id is plain and neither "meta" nor
  "catalog" (`WorkspaceFiles.SafeOnFilesIff`). Adding "docs_a" overwrites "docs/a"
  (`WorkspaceFiles.SlashAndUnderscoreCollide`).
- Source deduplication joins document name and path with a colon, and takes a missing or empty name for "_unknown".
  Two sources can share a key exactly if one name is another followed by a colon, or two of the three spellings of
  unknown occur (`Consolidate.KeyIsSourceIff`, `Consolidate.ColonInNameLosesEvidence`,
  `Consolidate.UnknownNameLosesEvidence`).
- If all evidence is too short, the answer carries all of it undeduplicated (`Orchestrator.PublishedCleanIff`,
  `Orchestrator.ShortPiecePublished`).
- A full route cache in which every route has been used twice learns no new route (`RouteCache.FullCacheLearnsIff`,
  `RouteCache.NothingNewIsLearnt`).

## Model

| member | source | states |
|---|---|---|
| Migration.Migrator.Register | crates/vectorless-storage/src/migration.rs:134-138 | replaces any migration between the same two versions, keeps the others |
| Migration.Migrator.FindMigrationPath | crates/vectorless-storage/src/migration.rs:158-201 | nothing is found exactly if the target is unreachable; otherwise the result is a repetition-free path of registered edges, and no path is shorter, for every table order |
| Migration.Migrator.Expand | crates/vectorless-storage/src/migration.rs:173-198 | one scan of the table keeps the search invariant, uses up one version, and what it finds is shortest |
| Migration.ReconstructPath | crates/vectorless-storage/src/migration.rs:182-194 | the walk up the parent map ends and gives a path without repetition, as long as the distance says |
| Migration.Migrator.CanMigrate | crates/vectorless-storage/src/migration.rs:141-153 | true exactly if the target is reachable over registered edges |
| Migration.Migrator.Migrate | crates/vectorless-storage/src/migration.rs:207-257 | some shortest path leads from data to data, each migration on it run on what the one before gave; the result is the last of these, or the error of the first migration that fails; the no-path error comes exactly if the target is unreachable |
| Migration.RegisteredPathNeverMissing | crates/vectorless-storage/src/migration.rs:234-241 | along registered edges the "Missing migration" error cannot come up |
| Migration.DirectIsShortest | crates/vectorless-storage/src/migration.rs:155-201 | a direct migration is the only shortest path, so it is always taken |
| Migration.ApplyPathSplit | crates/vectorless-storage/src/migration.rs:207-257 | migrating in two legs is migrating along the joined path |
| Migration.ExhaustedIsComplete | crates/vectorless-storage/src/migration.rs:173-200 | an empty queue means that everything reachable was visited |
| Migration.FirstArrivalIsShortest | crates/vectorless-storage/src/migration.rs:181-195 | the first arrival at the target is along a shortest path |
| Arena.PreorderIsSubtree | crates/vectorless-document/src/tree.rs:492-505 | recursive preorder from a node lists exactly its subtree |
| Arena.WholePreorder | crates/vectorless-document/src/tree.rs:492-505 | preorder from the root lists every node exactly once |
| Arena.PreorderIsDocumentOrder | crates/vectorless-document/src/tree.rs:492-505 | of two nodes in the preorder the earlier one is an ancestor of the later one, or lies below an earlier sibling |
| Arena.LevelIsPreorderAtDepth | crates/vectorless-document/src/tree.rs:702-767 | a level of the breadth-first walk is the preorder cut down to one depth, in the same order |
| Arena.LevelMembers | crates/vectorless-document/src/tree.rs:702-767 | level d is exactly the nodes at depth d, each once |
| Arena.AllLevels | crates/vectorless-document/src/tree.rs:702-767 | the levels up to the first empty one hold every node exactly once |
| Arena.PathIsChain | crates/vectorless-document/src/tree.rs:706-761 | the path from the root is a parent chain with one node per depth |
| Arena.ChainIsPath | crates/vectorless-document/src/tree.rs:706-761 | there is no other parent chain |
| Numbering.DecimalRoundTrip | crates/vectorless-document/src/tree.rs:281-286 | printing a position in decimal and parsing it gives it back |
| Numbering.DottedRoundTrip | crates/vectorless-document/src/tree.rs:281-286 | parsing a dotted number gives back the positions it was printed from |
| Numbering.DottedSample | crates/vectorless-document/src/tree.rs:281-286 | the thirteenth child of the first child of the second one is numbered "2.1.13", the root "" |
| Numbering.PositionsLeadBack | crates/vectorless-document/src/tree.rs:270-317 | following a node's child positions from the root leads to the node |
| Numbering.NodeAtHasPositions | crates/vectorless-document/src/tree.rs:270-317 | a node reached by following positions has these positions |
| Numbering.StructureDecodes | crates/vectorless-document/src/tree.rs:270-317 | in a grown tree a node's structure string decodes to its child positions and, followed from the root, leads to it; only the root's is empty |
| Numbering.StructureUnique | crates/vectorless-document/src/tree.rs:270-317 | no two nodes of a grown tree carry the same structure string |
| Numbering.GrowWellFormed | crates/vectorless-document/src/tree.rs:270-317 | appending a child keeps parent links, child lists and depths consistent |
| Numbering.GrowNumbered | crates/vectorless-document/src/tree.rs:278-286 | a child numbered after its siblings keeps the whole tree numbered by position |
| DocumentTree.DocumentTree.constructor | crates/vectorless-document/src/tree.rs:200-229 | a new tree is one root, well formed and numbered |
| DocumentTree.DocumentTree.AddChild | crates/vectorless-document/src/tree.rs:270-317 | the new arena is the old one and one last child with the given title and content, one level below its parent; the tree stays well formed and numbered, the leaf cache stays exactly the leaves |
| DocumentTree.DocumentTree.AddChildWithPages | crates/vectorless-document/src/tree.rs:322-336 | the same, with page boundaries on the new node |
| DocumentTree.DocumentTree.SetPageBoundaries | crates/vectorless-document/src/tree.rs:534-539 | sets an existing node's pages and nothing else; unknown ids change nothing; the numbering stays |
| DocumentTree.DocumentTree.SetStructure | crates/vectorless-document/src/tree.rs:527-531 | overwrites one node's number and keeps the shape |
| DocumentTree.GrowLeaves | crates/vectorless-document/src/tree.rs:308-314 | dropping the parent and appending the child turns the list of leaves into that of the grown tree, without duplicates |
| DocumentTree.DocumentTree.Traverse | crates/vectorless-document/src/tree.rs:492-505 | the stack loop gives the recursive preorder |
| DocumentTree.TraverseStep | crates/vectorless-document/src/tree.rs:496-502 | popping a node and pushing its children reversed moves it from the stack's forest to the output |
| DocumentTree.DocumentTree.Leaves | crates/vectorless-document/src/tree.rs:456-470 | cached or not, the result is exactly the childless nodes, each once |
| DocumentTree.DocumentTree.RebuildLeavesCache | crates/vectorless-document/src/tree.rs:475-482 | the cache becomes the childless nodes in preorder |
| DocumentTree.DocumentTree.InvalidateLeavesCache | crates/vectorless-document/src/tree.rs:487-489 | drops the cache; the tree stays valid |
| DocumentTree.PreorderLeaves | crates/vectorless-document/src/tree.rs:462-466 | the childless nodes of the preorder are all leaves of the tree, each once |
| DocumentTree.DocumentTree.MaxDepth | crates/vectorless-document/src/tree.rs:427-437 | the stack loop gives a depth some node has and none exceeds |
| DocumentTree.DocumentTree.FindByStructure | crates/vectorless-document/src/tree.rs:571-581 | the first node in preorder carrying the number |
| DocumentTree.DocumentTree.FindByPage | crates/vectorless-document/src/tree.rs:587-607 | the result of scanning the preorder for the deepest cover, the first one winning; found exactly if the page lies within some node's first and last page |
| DocumentTree.DocumentTree.FindNodesByPageRange | crates/vectorless-document/src/tree.rs:610-621 | exactly the nodes that have a page in the range, each once, in preorder |
| DocumentTree.FirstDeepestIsFirst | crates/vectorless-document/src/tree.rs:587-607 | the page scan returns the first among the deepest covering nodes, and nothing exactly if none covers |
| DocumentTree.LinearPageSearch | crates/vectorless-document/src/tree.rs:587-607 | over the whole tree: found exactly if some node covers the page, and then at the greatest depth of any |
| DocumentTree.LinearStructureSearch | crates/vectorless-document/src/tree.rs:571-581 | in a grown tree the search finds node n exactly if the string is n's printed position |
| RetrievalIndex.BuildRetrievalIndex | crates/vectorless-document/src/tree.rs:691-780 | the level loop ends; every level, path, sibling list, number, page and page range is as the breadth-first order prescribes |
| RetrievalIndex.VisitNode | crates/vectorless-document/src/tree.rs:713-764 | entering one node extends every table by that node and leaves the other entries alone |
| RetrievalIndex.VisitLevel | crates/vectorless-document/src/tree.rs:708-767 | visiting one level gives the next level and all tables up to it |
| RetrievalIndex.IndexPages | crates/vectorless-document/src/tree.rs:726-733 | each page of the node's range now leads to the node, other pages as before |
| RetrievalIndex.IndexSiblings | crates/vectorless-document/src/tree.rs:741-752 | each child of a node with several children gets the others, in order |
| RetrievalIndex.IndexPaths | crates/vectorless-document/src/tree.rs:754-761 | each child's path is the node's path and the child |
| RetrievalIndex.IndexLevels | crates/vectorless-document/src/tree.rs:702-767 | level d is the preorder at depth d, the nodes at that depth each once; together the levels list every node once |
| RetrievalIndex.IndexLeaves | crates/vectorless-document/src/tree.rs:736-739 | the leaves are exactly the childless nodes, each once |
| RetrievalIndex.IndexMaxDepth | crates/vectorless-document/src/tree.rs:716-718 | the recorded depth is the tree's greatest and one less than the number of levels |
| RetrievalIndex.IndexPathsExact | crates/vectorless-document/src/tree.rs:754-761 | a node's cached path is its one chain of parents from the root; nothing else is cached |
| RetrievalIndex.IndexSiblingsExact | crates/vectorless-document/src/tree.rs:741-752 | the cached siblings are the parent's other children in order; only children and the root have no entry |
| RetrievalIndex.StructureLookupsBothHit | crates/vectorless-document/src/tree.rs:720-723 | index and linear search agree on which non-empty numbers exist, also after numbers were overwritten |
| RetrievalIndex.StructureLookupsAgree | crates/vectorless-document/src/tree.rs:93-95 | in a grown tree the two searches give the same result exactly for non-empty strings |
| RetrievalIndex.IndexFollowsNumber | crates/vectorless-document/src/tree.rs:720-723 | what the index finds under a number is the node reached by following it |
| RetrievalIndex.IndexPageSearch | crates/vectorless-document/src/tree.rs:100-102 | found exactly if some node covers the page, and then at the greatest depth of any |
| RetrievalIndex.PageLookupsCoincide | crates/vectorless-document/src/tree.rs:587-607 | index and scan return the same node exactly if only one node covers the page at the greatest depth |
| RetrievalIndex.TwinsDisagree | crates/vectorless-document/src/tree.rs:587-607 | two children of a root for one page, between which index and scan choose differently |
| RetrievalIndex.FindNodesByPageRange | crates/vectorless-document/src/tree.rs:113-124 | for every table order, a permutation of what the linear query returns, sorted by first page |
| Subtree.CollectSubtree | crates/vectorless-primitives/src/subtree.rs:9-21 | every node of the subtree exactly once, no other |
| Subtree.SearchDescendants | crates/vectorless-primitives/src/resolve.rs:113-136 | the work-list loop computes the search; what is returned matches and is a proper descendant within the bound; nothing is returned exactly if there is no such node |
| Subtree.SearchFinds | crates/vectorless-primitives/src/resolve.rs:119-136 | from any work list that leads to every match, the search is sound and complete to its bound |
| Subtree.PushChildren | crates/vectorless-primitives/src/resolve.rs:125-132 | the inner loop finds the first matching child, or pushes all children one level further down |
| Subtree.SkipAtBound | crates/vectorless-primitives/src/resolve.rs:121-124 | not expanding a node at the bound loses no match within it |
| Subtree.Expand | crates/vectorless-primitives/src/resolve.rs:125-132 | expanding a node none of whose children match loses no match |
| Subtree.ShallowUpToTwo | crates/vectorless-primitives/src/resolve.rs:119-132 | with a bound of at most two the result is a shallowest match |
| Subtree.DeeperMatchReturned | crates/vectorless-primitives/src/resolve.rs:119-132 | a tree grown by adding children in which, from a bound of three on, a match three levels down is returned although one lies two levels down |
| Subtree.ShallowestIff | crates/vectorless-primitives/src/resolve.rs:112-136 | the result is a shallowest match, for every tree, predicate and start, exactly if the bound is at most two |
| Toc.CollectFlatEntries | crates/vectorless-document/src/toc.rs:220-238 | the recursion appends the entries of the subtree in preorder |
| Toc.GenerateFlat | crates/vectorless-document/src/toc.rs:214-238 | one entry per node, in the order of the tree's stack traversal, with its title, depth and pages |
| Toc.BuildTocNode | crates/vectorless-document/src/toc.rs:170-211 | the view has the shape of the subtree, each node with what the settings show of it; flattened it is the preorder cut at the depth limit; without a limit it has as many leaves as the subtree |
| Toc.Generate | crates/vectorless-document/src/toc.rs:159-161 | the same for the whole tree; without a limit the view counts every node and every leaf |
| Toc.CountIsLength | crates/vectorless-document/src/toc.rs:69-71 | counting nodes recursively is the length of the flattened view |
| Toc.BelowLimitHidden | crates/vectorless-document/src/toc.rs:176-181 | one level beyond the limit a whole subtree shows as a single "..." |
| Toc.LimitKeptIff | crates/vectorless-document/src/toc.rs:176-181 | the view shows exactly the nodes up to its depth limit if and only if no node sits just beyond it |
| Toc.FilterKeptIff | crates/vectorless-document/src/toc.rs:183-187 | for every configuration: limit aside, the view leaves out the nodes with too little content if and only if there is none within the limit |
| Toc.SettingsKeptIff | crates/vectorless-document/src/toc.rs:176-187 | for every configuration: the view shows exactly the nodes within the limit that have enough content if and only if no node within it is too short and none sits just beyond it |
| Toc.SettingsOverrun | crates/vectorless-document/src/toc.rs:176-187 | a root with one empty child, shown beyond a limit of zero and in spite of a minimum length |
| DocumentGraph.DocumentGraph.AddNode | crates/vectorless-graph/src/types.rs:66-80 | node and index entries are added, edges kept; with a new id the index keeps listing exactly the documents carrying each keyword |
| DocumentGraph.DocumentGraph.AddEdge | crates/vectorless-graph/src/types.rs:83-86 | appends to the source's edges; the recorded count stays their total |
| DocumentGraph.DocumentGraph.CountEdges | crates/vectorless-graph/src/types.rs:40-43 | summing over the map in any order gives the total number of edges |
| DocumentGraph.DocumentGraph.SetEdges | crates/vectorless-graph/src/types.rs:40-43 | replaces the edges and restores the recorded count |
| DocumentGraph.DocumentGraph.TakeEdges | crates/vectorless-graph/src/types.rs:35-37 | hands out all edges and leaves none |
| DocumentGraph.DocumentGraph.FindByKeyword | crates/vectorless-graph/src/types.rs:99-101 | exactly the documents carrying the keyword, each once |
| DocumentGraph.IndexStaysMatched | crates/vectorless-graph/src/types.rs:66-80 | entering a new document's keywords keeps the index in step with the nodes |
| DocumentGraph.IndexStaysOrdered | crates/vectorless-graph/src/types.rs:66-80 | every keyword's list stays in order of addition |
| DocumentGraph.TotalWithout | crates/vectorless-graph/src/types.rs:40-43 | the total does not depend on the order of summation |
| DocumentGraph.TotalPush | crates/vectorless-graph/src/types.rs:83-86 | pushing an edge raises the total by one |
| GraphBuilder.DocumentGraphBuilder.AddDocument | crates/vectorless-graph/src/builder.rs:53-68 | appends a profile |
| GraphBuilder.DocumentGraphBuilder.AddNodes | crates/vectorless-graph/src/builder.rs:79-104 | one node per id, from the last profile of that id, with its heaviest keywords; each keyword's list has one entry for every profile that brings it along, superseded or not, in order of addition; in step with the nodes if no id repeats |
| GraphBuilder.ListedStep | crates/vectorless-graph/src/builder.rs:79-104 | entering one more profile extends exactly the lists of its top keywords by one entry |
| GraphBuilder.DocumentGraphBuilder.NodeOf | crates/vectorless-graph/src/builder.rs:81-103 | a profile's node carries its heaviest keywords, each once |
| GraphBuilder.ListKeywords | crates/vectorless-graph/src/builder.rs:81-88 | each keyword once with its weight, in any order |
| GraphBuilder.TopKeywords | crates/vectorless-graph/src/builder.rs:81-95 | sorting and cutting keeps the heaviest keywords, each once, with their weights |
| GraphBuilder.AddPairs | crates/vectorless-graph/src/builder.rs:132-153 | one shared keyword for each pair of positions in the keyword's list, whoever is listed; with no document repeated, every ordered pair of listed documents gains the keyword once and nothing else changes |
| GraphBuilder.AddRow | crates/vectorless-graph/src/builder.rs:138-152 | the inner loop adds what the pairs of positions starting at one position give |
| GraphBuilder.SharedOnce | crates/vectorless-graph/src/builder.rs:137-153 | where no document is repeated, all pairs of positions together give a pair of documents the keyword once if both are listed, and not otherwise |
| GraphBuilder.CollectPairs | crates/vectorless-graph/src/builder.rs:125-154 | each pair of documents has, keyword by keyword, what all pairs of positions in the lists give, in any order of the index; with an index in step with the nodes, exactly the keywords both documents carry, each once |
| GraphBuilder.PairCounts | crates/vectorless-graph/src/builder.rs:158-172 | the list of a pair is as long as the intersection of the keyword sets, and no longer than either |
| GraphBuilder.UnionSize | crates/vectorless-graph/src/builder.rs:163-177 | the union's size is the sum less the intersection; the subtraction cannot underflow; the ratio lies in [0, 1] |
| GraphBuilder.EdgesForExact | crates/vectorless-graph/src/builder.rs:157-222 | edges are made for a pair exactly if the all-pairs definition asks for them, one each way, with the true similarity and weight |
| GraphBuilder.WeightInUnit | crates/vectorless-graph/src/builder.rs:183-185 | an edge's weight lies in [0, 1] |
| GraphBuilder.WeightOrder | crates/vectorless-graph/src/builder.rs:183-185 | over the edges before trimming, by keyword sets alone: with no more keywords shared and less similarity an edge is lighter; at equal similarity it is lighter with fewer shared, up to the maximal number; its weight is 1 exactly for equal keyword sets with at least that number |
| GraphBuilder.SampleWeights | crates/vectorless-graph/src/builder.rs:183-185 | with at most ten keywords, two of two shared weigh 0.68, one of five weighs 0.16 |
| GraphBuilder.EdgesStep | crates/vectorless-graph/src/builder.rs:187-222 | treating one more pair keeps the edges exact for the pairs treated |
| GraphBuilder.AfterAllPairs | crates/vectorless-graph/src/builder.rs:157-222 | after all pairs the edges are exactly those of the all-pairs definition |
| GraphBuilder.DocumentGraphBuilder.ComputeEdges | crates/vectorless-graph/src/builder.rs:125-222 | the edges are exactly those the collected pairs make; with an index in step with the nodes, the edges of the naive all-pairs definition |
| GraphBuilder.FullGraphSymmetric | crates/vectorless-graph/src/builder.rs:187-222 | before trimming there are no loops, and every edge has a counterpart of equal weight |
| GraphBuilder.DocumentGraphBuilder.TrimEdges | crates/vectorless-graph/src/builder.rs:229-245 | each source keeps its edges cut to the heaviest; the recorded count is their total |
| GraphBuilder.TrimKeepsHeaviest | crates/vectorless-graph/src/builder.rs:229-245 | what is kept is sorted by weight, none of those cut is heavier, and nothing is cut if there are few enough |
| GraphBuilder.TrimmedEdges | crates/vectorless-graph/src/builder.rs:229-245 | an edge that is cut has the maximal number of at least equally heavy rivals |
| GraphBuilder.TrimKeepsBetter | crates/vectorless-graph/src/builder.rs:183-245 | no edge is cut in favour of one that shares no more keywords and is less similar |
| GraphBuilder.DocumentGraphBuilder.Build | crates/vectorless-graph/src/builder.rs:71-122 | nodes from the profiles, edges made from the index and trimmed; before trimming the edges of the all-pairs definition if no superseded profile shares a top keyword with another one, as with distinct ids, and with lenient thresholds only then; in that case no edge is cut in favour of one that shares no more keywords and is less similar |
| GraphBuilder.EvidenceOwnership | crates/vectorless-graph/src/builder.rs:141-151 | the first weight of a shared keyword is the source's exactly if the smaller id was added first or the weights are equal |
| GraphBuilder.OwnershipFailsOutOfOrder | crates/vectorless-graph/src/builder.rs:141-151 | in whatever is built from profiles "b" and then "a", the edge from "a" announces b's weight as its source's |
| GraphBuilder.BuildOutOfOrder | crates/vectorless-graph/src/builder.rs:71-122 | building from these profiles does give such an edge |
| GraphBuilder.NoRivalsInStep | crates/vectorless-graph/src/builder.rs:130-153 | if no superseded profile shares a top keyword with another one, every list that makes pairs is in step with the nodes |
| GraphBuilder.RivalsNotExact | crates/vectorless-graph/src/builder.rs:130-222 | if one does, then with lenient thresholds the edges are not those of the all-pairs definition |
| GraphBuilder.RepeatedIdLoops | crates/vectorless-graph/src/builder.rs:136-222 | two entries of one id in a keyword's list give the document an edge to itself |
| GraphBuilder.ThirdTimeUnderflows | crates/vectorless-graph/src/builder.rs:163-172 | three entries of an id with this one keyword give more shared keywords than both counts together, so the subtraction falls below zero |
| GraphBuilder.BuildOneKeyword | crates/vectorless-graph/src/builder.rs:71-122 | building from profiles of any given ids that share one keyword gives the edges of the all-pairs definition exactly if the ids are distinct, every repeated id an edge to itself, and edges to added documents only |
| GraphBuilder.BuildTwice | crates/vectorless-graph/src/builder.rs:71-122 | the same document twice: trimming leaves it one edge, to itself |
| Fingerprint.Fingerprinter.WriteTypeTag | crates/vectorless-utils/src/fingerprint.rs:298-301 | appends the tag and a semicolon |
| Fingerprint.Fingerprinter.WriteVarlenBytes | crates/vectorless-utils/src/fingerprint.rs:303-306 | appends the length cut to 32 bits, little-endian, and the bytes |
| Fingerprint.Fingerprinter.WriteStr | crates/vectorless-utils/src/fingerprint.rs:196-199 | appends the encoding of a string write |
| Fingerprint.Fingerprinter.WriteBytes | crates/vectorless-utils/src/fingerprint.rs:208-211 | appends the encoding of a bytes write |
| Fingerprint.Fingerprinter.WriteUsize | crates/vectorless-utils/src/fingerprint.rs:220-223 | appends the encoding of a usize write |
| Fingerprint.Fingerprinter.WriteU64 | crates/vectorless-utils/src/fingerprint.rs:232-235 | appends the encoding of a u64 write |
| Fingerprint.Fingerprinter.WriteI64 | crates/vectorless-utils/src/fingerprint.rs:244-247 | appends the encoding of an i64 write, in two's complement |
| Fingerprint.Fingerprinter.WriteBool | crates/vectorless-utils/src/fingerprint.rs:256-258 | appends the encoding of a bool write |
| Fingerprint.Fingerprinter.WriteOptionStr | crates/vectorless-utils/src/fingerprint.rs:267-277 | appends the encoding of an optional string write |
| Fingerprint.Fingerprinter.WriteFingerprint | crates/vectorless-utils/src/fingerprint.rs:286-289 | appends the encoding of a nested fingerprint |
| Fingerprint.EncodingLaidOut | crates/vectorless-utils/src/fingerprint.rs:196-306 | tag, length and payload of every kind of write, byte by byte |
| Fingerprint.LittleEndian4 | crates/vectorless-utils/src/fingerprint.rs:303-306 | the four bytes of a number, the lowest first |
| Fingerprint.LittleEndian8 | crates/vectorless-utils/src/fingerprint.rs:220-247 | eight bytes are the lower four and the upper four |
| Fingerprint.LittleEndianRoundTrip | crates/vectorless-utils/src/fingerprint.rs:303-306 | a number written in k little-endian bytes is read back, if it fits |
| Fingerprint.ReadBackOne | crates/vectorless-utils/src/fingerprint.rs:196-306 | a short write is read back, whatever follows it in the stream |
| Fingerprint.ReadIsCanonical | crates/vectorless-utils/src/fingerprint.rs:196-306 | whatever is read, writing it again gives the bytes read |
| Fingerprint.DecodeRecovers | crates/vectorless-utils/src/fingerprint.rs:196-306 | the decoder recovers a sequence of writes exactly if all payloads are shorter than 2^32 bytes |
| Fingerprint.EncodeInjective | crates/vectorless-utils/src/fingerprint.rs:196-306 | different sequences of short writes feed the hash different bytes |
| Fingerprint.LongPayloadCollides | crates/vectorless-utils/src/fingerprint.rs:303-306 | a payload of 2^32 bytes that is itself an encoding collides with the empty payload followed by those writes |
| Fingerprint.LongWritesCollide | crates/vectorless-utils/src/fingerprint.rs:303-306 | two different sequences of writes with payloads of at most 2^32 bytes and equal encodings |
| Fingerprint.EncodeInjectiveIff | crates/vectorless-utils/src/fingerprint.rs:196-306 | the encoding is injective on writes with payloads of at most n bytes exactly if n is below 2^32 |
| Executor.LlmExecutor.ExecuteWithContext | crates/vectorless-llm/src/executor.rs:212-387 | each request but the last met an error, and the next one follows from it: the same model while attempts are left and the error is of a kind to be retried, otherwise the next fallback model; a success has the text of the last answer, a failure the last error, when nothing was left to try; the history lists the switches with their errors |
| Executor.RunAccounts | crates/vectorless-llm/src/executor.rs:212-359 | the same of the run as a function |
| Executor.DecisionGoesOn | crates/vectorless-llm/src/executor.rs:288-359 | each decision on an error is the one the settings ask for |
| Executor.NextStands | crates/vectorless-llm/src/fallback.rs:165-195 | the next model stands behind the first occurrence of the current one, or first if the current one is not listed |
| Executor.PausesAndSwitches | crates/vectorless-llm/src/executor.rs:300-346 | every request but the last is followed by a pause or a switch; at the cap the last one is, too |
| Executor.AtMostTwentyRequests | crates/vectorless-llm/src/executor.rs:212-387 | no run makes more than 20 requests; the cap error comes only after 20 |
| Executor.SwitchUsesOne | crates/vectorless-llm/src/fallback.rs:165-195 | a switch to the next model leaves one fallback less |
| Executor.RunIsBounded | crates/vectorless-llm/src/executor.rs:212-387 | from any state of the loop, the requests still made are at most the lexicographic budget of retries and fallbacks; the cap is not reached if that fits |
| Executor.AdversarySpendsAll | crates/vectorless-llm/src/executor.rs:212-359 | timing out on every attempt and calling for a fallback on a model's last one spends the whole budget, so a budget over 20 does hit the cap |
| Executor.WholeRunBounded | crates/vectorless-llm/src/executor.rs:212-359 | with distinct fallback models a run makes at most max(1, max_attempts) * (models + 1) requests, models counting only if some error leads to a fallback, and the cap error is impossible if that is at most 20 |
| Executor.RepeatsHitTheCap | crates/vectorless-llm/src/fallback.rs:165-195 | with a repeated model in reach, timing out and then calling for a fallback always hits the cap |
| Executor.CapUnreachable | crates/vectorless-llm/src/executor.rs:212-359 | for every configuration: the cap error is out of reach exactly if, where some error leads to a fallback, no model in reach is repeated and attempts times models is at most 20, and otherwise attempts are at most 20 |
| Executor.DuplicateModelsHitTheCap | crates/vectorless-llm/src/executor.rs:212-387 | listing one model twice spends all 20 requests |
| Executor.HistoryIsChain | crates/vectorless-llm/src/fallback.rs:233-251 | the fallback history leads step by step from the configured model to the current one, each step the one the chain prescribes for an error that asks for it |
| Executor.DelaysGrowToCap | crates/vectorless-llm/src/config.rs:214-218 | a delay never exceeds the maximum, and with a multiplier of at least 1 delays do not shrink |
| Executor.BackoffIs | crates/vectorless-llm/src/config.rs:214-218 | the delay is the initial one, multiplied from attempt to attempt, cut off at the maximum and to whole milliseconds |
| Executor.SleepsFollowBackoff | crates/vectorless-llm/src/executor.rs:371-387 | in every run each pause is the delay of its attempt minus one, which is never negative |
| Executor.WholeRunDelays | crates/vectorless-llm/src/executor.rs:212-387 | over a whole run no pause exceeds the maximum, and pauses before retries of one model never shrink |
| Executor.BehavioursCoincide | crates/vectorless-llm/src/fallback.rs:132-150 | every run is the same with `Fallback` replaced by `RetryThenFallback` and `Retry` by `Fail` |
| Executor.SwitchesAtOnceIff | crates/vectorless-config/src/llm_pool.rs:402-403 | `Fallback` with a next model switches on every occurrence of its error exactly if the executor would not try it again |
| Executor.FailsAtOnceIff | crates/vectorless-config/src/llm_pool.rs:407-408 | `Fail` fails on every occurrence of its error under the same condition |
| Executor.RetriesFirstIff | crates/vectorless-config/src/llm_pool.rs:400-406 | `Retry` and `RetryThenFallback` retry on every attempt but the last exactly if there is only one attempt or the executor tries the error again |
| Executor.RunsAsAnnouncedIff | crates/vectorless-llm/src/executor.rs:300-346 | all runs are those of the four announced behaviours exactly if no `Fail`, and no `Fallback` with a next model, meets an error the executor tries again, and no `Retry` or `RetryThenFallback` with more than one attempt meets one it does not |
| Executor.UnheededRun | crates/vectorless-llm/src/executor.rs:300-346 | where a setting is not heeded, one such error and then an answer gives a run unlike the announced one; where the executor tries again, two requests to the same model |
| Executor.FallbackRetriesFirst | crates/vectorless-llm/src/executor.rs:300-312 | a configuration with `Fallback` whose first timeout is followed by a retry |
| Executor.RateLimitNotRetried | crates/vectorless-llm/src/executor.rs:376-381 | two configurations that do not retry rate limits: `RetryThenFallback` switches at the first one, `Retry` fails |
| Recency.TouchSpec | vectorless/llm_client.py:53-57 | moving a key to the end keeps the keys and every value |
| Recency.PutSpec | vectorless/llm_client.py:59-64 | the stored value is found, other keys keep their values, and at most the least recent key is lost |
| ResponseCache.LruCache.Get | vectorless/llm_client.py:53-57 | a hit makes its key the most recent, a miss changes nothing; the stored value is returned |
| ResponseCache.LruCache.Put | vectorless/llm_client.py:59-64 | enters or overwrites as most recent and drops the least recent over the limit |
| ResponseCache.LruCache.Clear | vectorless/llm_client.py:66-67 | empties the cache |
| ResponseCache.HoldsMostRecent | vectorless/llm_client.py:46-67 | after any trace: exactly the most recently touched distinct keys, in recency order, each with its last stored value |
| ResponseCache.InclusionProperty | vectorless/llm_client.py:46-67 | on the same trace a smaller cache's keys are all in a larger one, with the same values |
| DocumentCache.DocumentCache.constructor | crates/vectorless-storage/src/cache.rs:68-80 | empty, with a capacity of at least one |
| DocumentCache.DocumentCache.Get | crates/vectorless-storage/src/cache.rs:90-102 | a hit returns the document and makes it most recent; exactly one of the counters goes up |
| DocumentCache.DocumentCache.Put | crates/vectorless-storage/src/cache.rs:117-131 | enters as most recent, returns the value replaced, counts a replacement or a full cache as eviction |
| DocumentCache.DocumentCache.Remove | crates/vectorless-storage/src/cache.rs:140-143 | removes the one entry and returns it |
| DocumentCache.DocumentCache.Clear | crates/vectorless-storage/src/cache.rs:150-154 | empties the cache |
| DocumentCache.EvictionCountExact | crates/vectorless-storage/src/cache.rs:117-131 | the eviction counter is right about a store exactly if the store replaces nothing |
| DocumentCache.EvictedIsLost | crates/vectorless-storage/src/cache.rs:117-131 | the entry a store loses to the capacity is the least recent one, exactly if the id is new and the cache full; no other entry is lost |
| DocumentCache.EvictedIsFirst | crates/vectorless-storage/src/cache.rs:117-131 | the value lost is the one that was stored under the least recent id |
| DocumentCache.PutReturnsEvictedIff | crates/vectorless-storage/src/cache.rs:109-131 | what is returned is the evicted entry, as announced, exactly if the id is new and the cache is not full |
| DocumentCache.FullCacheMisreports | crates/vectorless-storage/src/cache.rs:109-131 | a cache of one after one store: a second id evicts unannounced, the same id again counts an eviction that is none |
| Workspace.WorkspaceInner.Add | crates/vectorless-storage/src/workspace.rs:233-276 | writes the document, its entry field by field, its card and the new index and catalog; no cached copy and no cached graph is left; all other documents, entries, cards, keys and cached copies stay |
| Workspace.WorkspaceInner.Remove | crates/vectorless-storage/src/workspace.rs:357-382 | removes the document, its entry, its card and its cached copy, writes the new index and catalog, drops the cached graph, and leaves all else; an unknown id changes nothing; the answer says whether it existed |
| Workspace.WorkspaceInner.Look | crates/vectorless-storage/src/workspace.rs:320-333 | first step of a load: absent exactly if not indexed; a cached copy is returned and becomes the most recent; goes on exactly if indexed and not cached |
| Workspace.WorkspaceInner.Read | crates/vectorless-storage/src/workspace.rs:297-316 | second step of `load`: absent, corrupt or found, exactly as the backend holds it at that moment |
| Workspace.WorkspaceInner.ReadAndCache | crates/vectorless-storage/src/workspace.rs:335-353 | second step of `load_and_cache`: the same, and a document found is then cached as the most recent one, at the cost of the least recent other one of a full cache |
| Workspace.WorkspaceInner.ClearCache | crates/vectorless-storage/src/workspace.rs:430-435 | empties the cache and touches nothing else |
| Workspace.WorkspaceInner.RebuildMetaIndex | crates/vectorless-storage/src/workspace.rs:602-641 | for any order of backend keys, an entry for each readable document's id, made from some document of that id; the one index of all stored documents if each lies under its own id |
| Workspace.WorkspaceInner.LoadMetaIndex | crates/vectorless-storage/src/workspace.rs:504-521 | takes the stored index, or rebuilds it if there is none |
| WorkspaceRuns.StepRefinesMap | crates/vectorless-storage/src/workspace.rs:233-382 | every step of every operation keeps the invariant, acts on the documents as on a plain map, and answers as the map would |
| WorkspaceRuns.RunsRefineMap | crates/vectorless-storage/src/workspace.rs:233-382 | in every interleaving all states are good and hold the documents of the map |
| WorkspaceRuns.AnswersAreCurrent | crates/vectorless-storage/src/workspace.rs:282-354 | every answer in any interleaving is the map's at that moment: removed documents do not come back, superseded ones are not served |
| WorkspaceRuns.CacheIsCoherent | crates/vectorless-storage/src/workspace.rs:320-354 | in every reachable state the cache is within capacity, and a cached document is indexed and is what the backend holds |
| WorkspaceRuns.FreshRunsAreCurrent | crates/vectorless-storage/src/workspace.rs:233-382 | from a fresh workspace on, in any interleaving, all answers are those of a map that starts empty, the cache is coherent, and rebuilding gives the maintained index |
| WorkspaceRuns.RebuildIsMaintained | crates/vectorless-storage/src/workspace.rs:602-641 | in every good state rebuilding and reloading both give the maintained index |
| WorkspaceRuns.RebuildAfterAnyRun | crates/vectorless-storage/src/workspace.rs:504-529 | wherever a run stops, rebuilding and reloading give the maintained index |
| WorkspaceRuns.Reopen | crates/vectorless-storage/src/workspace.rs:148-167 | opening again on the same backend, with any cache size, brings back the index and the documents, with an empty cache |
| WorkspaceRuns.AddKeepsCatalogIff | crates/vectorless-storage/src/workspace.rs:261-265 | adding keeps the catalog equal to the current cards exactly if the document has a card or its id had none |
| WorkspaceRuns.OldCardStays | crates/vectorless-storage/src/workspace.rs:261-265 | a document with a card, then one without under its id: the catalog is wrong |
| WorkspaceRuns.RemoveKeepsCatalog | crates/vectorless-storage/src/workspace.rs:357-382 | removing keeps the catalog equal to the current cards |
| WorkspaceFiles.ReadAfterChanges | crates/vectorless-storage/src/workspace.rs:233-382 | with one entry per key: after an addition under any id and any changes to other documents and the graph, the backend gives the document exactly if no record was rewritten in its place, and rebuilding indexes it exactly if its id is not reserved |
| WorkspaceFiles.WritesAreApplied | crates/vectorless-storage/src/workspace.rs:233-382 | the backend calls of a change, on one entry per key, have the effect of the change |
| WorkspaceFiles.FilesAreMapIff | crates/vectorless-storage/src/backend/file.rs:69-73 | files act as a map from a set of keys, whatever is written, exactly if they keep these keys apart |
| WorkspaceFiles.SafeIff | crates/vectorless-storage/src/workspace.rs:233-382 | for any naming of files: an added document stays readable through all changes to others exactly if its id is not reserved and no other key has its file |
| WorkspaceFiles.SafeInMemoryIff | crates/vectorless-storage/src/workspace.rs:233-382 | with one entry per key: exactly if its id is not reserved |
| WorkspaceFiles.SafeOnFilesIff | crates/vectorless-storage/src/backend/file.rs:69-73 | on the file backend: exactly if its id has no underscore, slash, backslash or colon and no two dots in a row, and is neither "meta" nor "catalog" |
| WorkspaceFiles.SlashAndUnderscoreCollide | crates/vectorless-storage/src/backend/file.rs:69-73 | adding "docs_a" overwrites "docs/a", both unreserved |
| FileNames.NamesAreUntouched | crates/vectorless-storage/src/backend/file.rs:69-73 | a file's name is left alone when used as a key, and a key is its own file's name exactly if it has no separator and no pair of dots |
| FileNames.OwnFileIff | crates/vectorless-storage/src/backend/file.rs:69-73 | no other key has a key's file exactly if it has no underscore, separator or pair of dots |
| Similarity.JaccardIsSimilarity | vectorless/consolidate.py:59-69 | the shared part of all members; within [0, 1], symmetric, 1 exactly for equal sets, positive exactly if something is shared or both are empty |
| Consolidate.Dedup | vectorless/consolidate.py:26-56 | the three stages give the one-pass result; every piece has at least 50 characters, and any two are less than 0.8 alike |
| Consolidate.SourceDedup | vectorless/consolidate.py:35-43 | the loop over seen keys keeps the first piece of each key |
| Consolidate.HasNear | vectorless/consolidate.py:48-52 | some kept piece reaches the threshold |
| Consolidate.StagesAreOnePass | vectorless/consolidate.py:32-56 | filter, then sources, then similarity over whole lists is the same as deciding each piece as it arrives |
| Consolidate.DedupedIsClean | vectorless/consolidate.py:26-56 | results are long enough, from pairwise different sources, pairwise below the threshold |
| Consolidate.CleanMeans | vectorless/consolidate.py:26-56 | clean lists in terms of stripped length, source key and word similarity |
| Consolidate.FixpointsAreClean | vectorless/consolidate.py:26-56 | exactly the clean lists are left unchanged |
| Consolidate.DedupIdempotent | vectorless/consolidate.py:26-56 | deduplicating twice is deduplicating once |
| Consolidate.DedupPrefixMonotone | vectorless/consolidate.py:26-56 | more evidence at the end never costs what was kept before |
| Consolidate.DedupKeepsOrder | vectorless/consolidate.py:26-56 | the result picks increasing positions, each the first long piece of its source |
| Consolidate.DroppedPieceIsNear | vectorless/consolidate.py:46-54 | a long piece first of its source is kept, or near an earlier piece that is kept to the end |
| Consolidate.DedupedEmptyIff | vectorless/consolidate.py:32-33 | nothing survives exactly if nothing is long enough |
| Consolidate.KeysCoincide | vectorless/consolidate.py:39-40 | when two joined source keys are equal: equal sources, or a colon inside a name |
| Consolidate.JoinInjectiveIff | vectorless/consolidate.py:40-40 | joining name and path is injective, whatever the paths, exactly if no name is another followed by a colon |
| Consolidate.KeyIsSourceIff | vectorless/consolidate.py:39-40 | the key tells document name and path apart, for all pieces from documents of given names, exactly if no name is another followed by a colon and not two spellings of unknown are among them |
| Consolidate.FirstOfPair | vectorless/consolidate.py:35-43 | where documents can be told apart, a long piece is kept by the source stage exactly if no earlier long piece has its document name and path |
| Consolidate.ColonInNameLosesEvidence | vectorless/consolidate.py:35-43 | two unlike pieces of different documents of which only the first is kept |
| Consolidate.UnknownNameLosesEvidence | vectorless/consolidate.py:39-43 | two unlike pieces, one without a name and one of a document called "_unknown", of which only the first is kept |
| Orchestrator.OrchestratorState.RecordDispatch | vectorless/ask/types.py:186-188 | a document is recorded once |
| Orchestrator.OrchestratorState.CollectResult | vectorless/ask/types.py:190-198 | evidence is named and appended, calls are added, the document recorded; the evidence stays that of all results |
| Orchestrator.OrchestratorState.IntoOutput | vectorless/ask/types.py:200-217 | the output carries the evidence of all results, every piece naming its document, all traces, the totals over the results, and in the call count the orchestrator's own calls besides |
| Orchestrator.TotalsAreSums | vectorless/ask/types.py:200-217 | each count of the totals is the sum over the results, each flag says whether some result has it |
| Orchestrator.EvidenceGrows | vectorless/ask/types.py:190-217 | evidence and traces of more results stand behind those of the earlier ones |
| Orchestrator.Await | vectorless/ask/orchestrator.py:228-275 | in any order of completion, exactly the dispatches to an existing document whose scout reports, each once |
| Orchestrator.Dispatch | vectorless/ask/orchestrator.py:213-278 | appends the results in order of completion and records exactly the documents that reported |
| Orchestrator.GatheredAt | vectorless/ask/orchestrator.py:213-278 | each result is what the scout of its dispatch reported, with its evidence named |
| Orchestrator.Finalize | vectorless/ask/orchestrator.py:284-313 | publishes the deduplicated evidence; nothing, the locations, or what the model makes of at most eight pieces is answered, with its confidence; insufficient exactly if the model says so; one call if the model is asked |
| Orchestrator.Run | vectorless/ask/orchestrator.py:96-149 | in every run: all cards, or all documents the analysis chose, are dispatched first; the published evidence is that of all scouts of both rounds and extends what the first finalize published; there is a second round exactly if the model finds something missing; answer and confidence are what finalizing makes of that evidence; totals and calls are counted exactly |
| Orchestrator.PublishedGrows | vectorless/ask/orchestrator.py:126-142 | an inconclusive first finalize had evidence left, and the second publishes all of it |
| Orchestrator.PublishedCleanIff | vectorless/ask/orchestrator.py:284-293 | published evidence is clean exactly if there is none or some piece is long enough |
| Orchestrator.ShortPiecePublished | vectorless/ask/orchestrator.py:96-149 | a run whose only scout reports one short piece publishes it, without an answer and without a model call |
| RouteCache.RouteCache.Record | vectorless/ask/route_cache.py:97-132 | the entries of that document become those after the upsert and the cut, other documents' stay; calls without nodes or keywords change nothing; the first route of a document is entered as it is |
| RouteCache.RouteCache.Look | vectorless/ask/route_cache.py:72-93 | nothing exactly if the query has no keyword, no entry of the intent is confident, the first of the most similar ones is less than 0.8 alike or has only empty ids; otherwise its ids that are not empty, all of them, in order |
| RouteCache.RunsStayGood | vectorless/ask/route_cache.py:97-132 | after any calls, ignored ones included: one entry per intent and keyword set, at most 200, each with the nodes of the latest of its most confident records and with its number of uses |
| RouteCache.ConfidenceNeverFalls | vectorless/ask/route_cache.py:114-120 | while an entry lives its confidence never falls, and its nodes change only to those of a record at least as confident |
| RouteCache.ReusedWasRecorded | vectorless/ask/route_cache.py:72-93 | whatever is reused was recorded for the intent, with confidence at least 0.7 and similarity at least 0.8, and no later record of its signature was as confident |
| RouteCache.SortHead | vectorless/ask/route_cache.py:129-131 | a stable sort brings the first of the smallest to the front |
| RouteCache.EvictedIsLeastUsed | vectorless/ask/route_cache.py:129-131 | of one entry too many exactly the first of the least used goes |
| RouteCache.FullCacheLearnsIff | vectorless/ask/route_cache.py:121-131 | a full cache keeps a route with a new signature exactly if some entry was used only once |
| RouteCache.NothingNewIsLearnt | vectorless/ask/route_cache.py:105-131 | a history of calls, 200 routes recorded twice each, after which a new route is gone as soon as it is recorded |
| RouteCache.RecordThenLookup | vectorless/ask/route_cache.py:72-132 | a confident route is what the same query comes upon next exactly if there was room for it and the entry it met, if any, was not more confident |
| RouteCache.RecordThenAnswer | vectorless/ask/route_cache.py:72-132 | under that condition, and with no empty id among the route's, the lookup answers exactly the route's ids |
| RouteCache.RecordThenLook | vectorless/ask/route_cache.py:72-132 | the same by the two calls, after any history of records |
| RouteCache.OthersStay | vectorless/ask/route_cache.py:112-132 | a record that displaces nothing leaves every entry of another signature where it stands |
| Bm25.Tokenize | crates/vectorless-primitives/src/navigator_search.rs:187-207 | the character loop gives the tokens of the text |
| Bm25.TokensDivide | crates/vectorless-primitives/src/navigator_search.rs:187-207 | a separator divides the tokens of a text |
| Bm25.TokensOfWord | crates/vectorless-primitives/src/navigator_search.rs:187-207 | a text without separators is one token, in lower case, unless shorter than two bytes or a stopword |
| Bm25.QueryTerms | crates/vectorless-primitives/src/navigator_search.rs:94-100 | each token of the query once, in order |
| Bm25.CountField | crates/vectorless-primitives/src/navigator_search.rs:118-129 | length and counts of the query terms grow by the tokens of the field |
| Bm25.CountTerms | crates/vectorless-primitives/src/navigator_search.rs:106-140 | length and term counts of every node with tokens, document frequencies and total length |
| Bm25.Bump | crates/vectorless-primitives/src/navigator_search.rs:133-137 | a node raises the frequency of exactly the terms it contains |
| Bm25.DocumentFrequency | crates/vectorless-primitives/src/navigator_search.rs:108-137 | no term is in more nodes than there are |
| Bm25.IdfPositive | crates/vectorless-primitives/src/navigator_search.rs:149-152 | every inverse document frequency is positive |
| Bm25.DenominatorPositive | crates/vectorless-primitives/src/navigator_search.rs:162-162 | every denominator is positive |
| Bm25.ScorePositiveIff | crates/vectorless-primitives/src/navigator_search.rs:155-168 | a score is never negative, and positive exactly if some term occurs |
| Bm25.RarerScoresHigher | crates/vectorless-primitives/src/navigator_search.rs:146-168 | of two nodes of equal length with one word of the query each, equally often, that with the rarer word scores higher |
| Bm25.MoreScoresHigher | crates/vectorless-primitives/src/navigator_search.rs:155-168 | at equal length, more of some word of the query and less of none scores higher |
| Bm25.ShorterScoresHigher | crates/vectorless-primitives/src/navigator_search.rs:155-168 | with equal counts of which some is positive, the shorter node scores higher |
| Bm25.WeightAtAverage | crates/vectorless-primitives/src/navigator_search.rs:155-168 | one occurrence in a node of average length weighs the inverse document frequency |
| Bm25.WeightBounded | crates/vectorless-primitives/src/navigator_search.rs:155-168 | however often it occurs, a term weighs less than 2.5 times that |
| Bm25.FrequencyIsSpread | crates/vectorless-primitives/src/navigator_search.rs:106-140 | the document frequency counts the nodes that contain the word |
| Bm25.ScoreAll | crates/vectorless-primitives/src/navigator_search.rs:154-168 | the loops give the nodes with positive score, with their scores |
| Bm25.Search | crates/vectorless-primitives/src/navigator_search.rs:93-185 | the search returns the top of all hits, ten if no limit is given; with a growing logarithm and distinct nodes, wherever a node is answered, every node that outranks it is answered before it: by a rarer word equally often at equal length, by more of some word of the query and less of none at equal length, or by equal counts at smaller length |
| Bm25.FindsExactlyMatches | crates/vectorless-primitives/src/navigator_search.rs:93-168 | the hits are exactly the nodes with a token of the query in title, summary or content |
| Bm25.HitsDistinct | crates/vectorless-primitives/src/navigator_search.rs:111-168 | nodes with distinct ids are each found once |
| Bm25.AnswerIsTop | crates/vectorless-primitives/src/navigator_search.rs:170-185 | the answer falls in score, has as many hits as asked for and available, nothing left out scores higher, and of distinct nodes none is answered twice |
| Bm25.AnswerRanksRight | crates/vectorless-primitives/src/navigator_search.rs:93-185 | in the top of all hits every node stands behind those that outrank it |

## Left out

- Subtree.SearchDescendants: matching a title against the lower-case target is a given predicate.
- Subtree.CollectSubtree: says which nodes are listed, each once, but not in which order; the order follows the popping of the stack and no caller is promised one.
- RetrievalIndex.FindNodesByPageRange: does not fix the order of nodes with the same first page, which follows the table's iteration order.
- Orchestrator.Run: evidence pieces are values; that the Python objects are shared between a result and the state is not modelled. The first output is described by its evidence only.
- Workspace.WorkspaceInner.RebuildMetaIndex: does not say which of several documents of one id makes the entry; that follows the order of the backend's keys.
- WorkspaceFiles.SafeIff: speaks of what the backend holds; a copy cached before its entry was overwritten may still be served. Rebuilding from files, which lists file names instead of keys, is not modelled.
- Failing backend calls: `add` can then return before it drops the cached copy.
- Loading and rebuilding the catalog; whether the stored document graph is fresh.
- Rounding of `f32` and `f64`, NaN, and the width of `usize`.
- Trees given as raw arenas or changed through `get_mut`; the iterators over ancestors and siblings and what uses them.
- Node fields and setters that no modelled operation reads, and the external node ids copied into tables of contents.
- Raw writes to the fingerprint, which carry no tag; the hashes themselves; base64.
- The requests themselves, throttling, the metrics of the executor, `next_endpoint`.
- Stage prompts, the parsing of the dispatch plan, formatting of answers, and what a scout does inside a document.
- Persistence of the route cache, and the snippets of search hits.
- `resolve_target`, `grep`, `find` and the other navigation look-ups: one pass over a list each.
- JSON export, Markdown formatting and filtered tables of contents, file locks, compiler passes, the command line, the bindings.
