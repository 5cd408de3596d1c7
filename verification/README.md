# Sapper: a verified model

Sapper keeps a directed graph of packages and vulnerabilities. A node has the bitmaps `Children` (what it depends on)
and `Parents` (what depends on it), and Sapper answers transitive questions about them. The project models that graph,
its transitive-closure cache, the report built on it, the version logic that decides which packages a vulnerability
affects, the query scripts, and the service's library index, and proves what they compute.
`dafny verify dfyconfig.toml` checks all of it.

## Files

- `Graphs`, `Bitmaps`, `Texts`, `Sorting`, `Results`: reachability, bitmaps as sets, ASCII text, the stable sort, error values.
- `Tarjan`, `BindMap`, `CacheWalk`, `CacheBuilder`: `findCycles`, the shared keys, and `buildCache`. `CacheWalk` holds the
  argument on values: what each stack entry waits for, why a finished child makes its waiting parents run again, and the
  lexicographic measure of the inner loop.
- `Store`, `StorageOps`, `Queries`, `Runs`, `Edges`: the store as a value and as an object, `AddNode`, `SetDependency`,
  `Cache`, the queries, and whole runs of the operations.
- `Paths`, `Report`, `Findings`, `UnionFind`, `Merge`, `ReportBuild`: the upward walk, one finding, merging by alias, `Build`.
- `Versions`, `Ranges`, `Vulns`, `Sbom`: version order, OSV ranges, the library index and the two ingestion loops.
- `Service`, `Protocol`: the library index kept by the service, call by call and in every interleaving.
- `Script`, `ScriptOps`, `ScriptStores`: query scripts as values, as bitmap operations, and in the stores that runs build.

## What the code does that its description does not say

- `Cache` writes an entry for every node but walks only from the stacked ones, so a weakly connected component without a
  stacked node is left with the strongly connected component of each node. `Runs.CacheExactIff` and `Runs.RunExactIff`
  give the exact condition, `Runs.UncoveredCacheLosesAnswers` a run that breaks it.
- README.md line 126 of Sapper lets queries be combined with brackets; the value of a bracketed term is computed and
  dropped (pkg/graph/parser.go lines 236-241). `Script.EvalBlanksBrackets` says what is computed instead,
  `ScriptStores.BracketsLoseAnswers` that it is wrong for a bracketed query in every store, and
  `ScriptStores.ExactIffHarmless` exactly which scripts come out right after every run.
- README.md line 54 of Sapper says version ranges follow the OSV rules; `limit` events are not evaluated
  (`Ranges.LimitsIgnored`, `Ranges.LimitDeparts`). `Ranges.FollowsSchemaIff` says exactly when the rules are followed
  all the same.
- `naturalCompare` is not transitive once pre-release and post-release words mix (`Versions.TransitiveIff`), and the
  semver orders are not when a version that does not parse leads back from a version to one that is not above it
  (`Ranges.SemverPreorderIff`, `Ranges.EcosystemPreorderIff`). Both orders have such a circle
  (`Ranges.SemverMixGoesRound`, `Ranges.EcosystemMixGoesRound`), and it can make the scan decide a range otherwise than
  declared (`Ranges.CircleMisleadsScan`). Under a total preorder the scan never does that for single-field events of
  which no introduction and end meet (`Ranges.IncludedAsDeclared`).

## Conventions

- Bitmaps and Go maps are sets and maps; a loop over a Go map takes its keys in any order.
- A nil pointer that the code would follow is an error value (`KeyNotFound`, `NilOperand`).
- `semver` stands for the Masterminds parser: the place of a version in the semver order as a real number, or `None`.
  `parse` stands for `PURLToPackage`. KEV, EPSS and VEX data, readable OSV records and parsed documents are parameters.
- The store has the fields of `MockStorage`; like the SQL and Redis storages, `GetNode` hands out a copy and `SaveNode`
  overwrites the whole record.

## Model

| member | source | states |
|---|---|---|
| Tarjan.FindCycles | pkg/graph/cache.go:73-120 | for every graph with IDs 1..n and children among them, it terminates and gives two IDs the same number exactly when each reaches the other |
| Tarjan.Search.Visit | pkg/graph/cache.go:82-111 | a visit keeps the invariant, leaves the earlier numbers and stack entries alone, and either pops the whole component of the node or leaves the node on the stack with a lower reachable number |
| Tarjan.Search.ScanChildren | pkg/graph/cache.go:90-98 | after the child loop every edge out of the newly visited part is accounted for in the low number of the node |
| Tarjan.Search.ScanChild | pkg/graph/cache.go:91-97 | one child, in its three cases (unvisited, on the stack, popped), is added to the scanned ones |
| Tarjan.Search.PopComponent | pkg/graph/cache.go:100-110 | the stack is popped down to and including the root, and exactly the popped nodes carry its number |
| Tarjan.PushKeepsInv | pkg/graph/cache.go:84-88 | numbering and pushing a node keeps the invariant: every stack entry reaches the later ones and an earlier one still being visited |
| Tarjan.FinishKeepsInv | pkg/graph/cache.go:100-111 | a node whose low number is below its own stays on the stack and the invariant holds without it among the open ones |
| Tarjan.PopMutual | pkg/graph/cache.go:100-110 | everything above a root on the stack reaches the root and is reached from it |
| Tarjan.PopKeepsInv | pkg/graph/cache.go:100-110 | popping a component keeps the invariant |
| Tarjan.PoppedPair | pkg/graph/cache.go:100-110 | among popped nodes equal numbers still mean mutual reachability when one component joins the others |
| BindMap.NativeKeyManagement.BindKeys | pkg/graph/bindMap.go:33-50 | all keys of the list share one slot, that of the same list whenever it is bound, and no other key moves |
| BindMap.NativeKeyManagement.Set | pkg/graph/bindMap.go:53-63 | the slot of the key, shared by its whole group, gets the value; every other slot keeps its own |
| BindMap.NativeKeyManagement.Get | pkg/graph/bindMap.go:66-82 | a bound key gives the value of its slot, or the empty bitmap before any Set; an unbound key with no value is an error |
| BindMap.NativeKeyManagement.GetAllKeysAndValues | pkg/graph/bindMap.go:84-103 | every bound key once, with the value its slot or itself holds; an error when a key has neither |
| CacheBuilder.CollectKeys | pkg/graph/cache.go:209-213 | the IDs of one component end up in one list, each ID once |
| CacheBuilder.GroupSets | pkg/graph/cache.go:226-242 | the members of a component, and its neighbours in both directions without the members |
| CacheBuilder.AddCyclesToBindMap | pkg/graph/cache.go:208-257 | each component shares one slot in all three maps, holding its members and its outside neighbours in each direction |
| CacheBuilder.AddToCache | pkg/graph/cache.go:288-306 | the whole group of the one element gains the set kept for the other, and no other group changes |
| CacheBuilder.GetTodoAndFutureNodes | pkg/graph/cache.go:259-286 | the outside neighbours of the component of the node, in the direction of the walk and against it |
| CacheBuilder.GetTodoAndFutureNodesCached | pkg/graph/cache.go:194-206 | the same with and without a memo entry, and the memo stays right |
| CacheBuilder.WalkStep | pkg/graph/cache.go:155-186 | one round of the stack loop keeps the walk invariant and makes the termination measure smaller |
| CacheBuilder.WalkFrom | pkg/graph/cache.go:151-188 | the inner loop terminates although nodes are pushed again and again, and leaves every node it pushed marked and its group complete |
| CacheBuilder.BuildCache | pkg/graph/cache.go:132-192 | a node whose weakly connected component holds an uncached node ends with exactly what it reaches in zero or more steps, any other with exactly its own component |
| CacheWalk.NeighbourFacts | pkg/graph/cache.go:241-242 | todo nodes never lie in the group of the node, so the round that would neither push nor advance cannot happen |
| CacheWalk.PopKeepsInv | pkg/graph/cache.go:158-161 | dropping a marked entry keeps the reason why each waiting entry will be merged or scanned again |
| CacheWalk.TopComplete | pkg/graph/cache.go:168-170 | a node whose todo list is used up has the complete set of what it reaches in its group |
| CacheWalk.FutureRescans | pkg/graph/cache.go:172-174 | a finished node pushes a member of the component of every entry that waits for it |
| CacheWalk.MarkKeepsInv | pkg/graph/cache.go:168-174 | marking a finished node and pushing its future nodes keeps the invariant |
| CacheWalk.MergeKeepsInv | pkg/graph/cache.go:177-180 | merging a marked todo node keeps every set within what is reached and every complete set complete |
| CacheWalk.DescendKeepsInv | pkg/graph/cache.go:177-184 | advancing past an unmarked todo node without merging it is justified by the entry pushed above |
| CacheWalk.MarkKeepsSpread | pkg/graph/cache.go:168-174 | pushing the future nodes is what carries the walk to the whole weakly connected component |
| CacheWalk.MergeKeepsFar | pkg/graph/cache.go:177-180 | merges touch no group outside the components of the stacked nodes |
| CacheWalk.DescendShrinks | pkg/graph/cache.go:182-184 | descending to an unmarked todo node makes the reachable part below the top strictly smaller |
| CacheWalk.GroupHasMarked | pkg/graph/cache.go:148-189 | when the stack is empty every group near a start holds a marked node |
| CacheWalk.WalkExact | pkg/graph/cache.go:132-192 | at the end of the walk the value of every node is the reachable set or the own component, as its weak component was touched or not |
| Graphs.TransposedReaches | pkg/graph/graph.go:202-203 | with symmetric Children and Parents a path one way is a path back the other way |
| Graphs.TransposedMutual | pkg/graph/cache.go:29-39 | the components of the children graph are those of the parents graph |
| Store.AddNodeKeepsValid | pkg/graph/graph.go:154-185 | AddNode keeps dense IDs, unique names, symmetric edges and every node cached or waiting |
| Store.AddNodeStores | pkg/graph/graph.go:154-185 | AddNode leaves a node of the name: the earlier one, or a new one of the given type, without edges and waiting to be cached |
| Store.SetDependencyAddsEdge | pkg/graph/graph.go:188-212 | SetDependency adds the one edge at both ends, puts both nodes on the stack and changes nothing else of any node |
| Store.SetDependencyKeepsValid | pkg/graph/graph.go:188-212 | SetDependency keeps dense IDs, unique names, symmetry and no self edges |
| Store.RemoveAllCachesKeepsValid | pkg/graph/mockGraph.go:240-256 | after RemoveAllCaches no entry is left and every node waits to be cached |
| Store.CacheKeepsValid | pkg/graph/cache.go:10-71 | Cache keeps the store valid and leaves nothing waiting |
| StorageOps.Storage.SaveNode | pkg/graph/mockGraph.go:55-65 | the whole record is overwritten, the name is indexed and the ID is stacked |
| StorageOps.Storage.GetNode | pkg/graph/mockGraph.go:67-78 | a fresh copy of the stored record, or an error exactly when there is none |
| StorageOps.Storage.SaveCaches | pkg/graph/mockGraph.go:206-219 | later entries for one ID win |
| StorageOps.Storage.RemoveAllCaches | pkg/graph/mockGraph.go:240-256 | every cached ID is stacked and the cache is empty, in whatever order the map is read |
| StorageOps.AddNode | pkg/graph/graph.go:154-185 | the stored node of that name, or a new one with the next ID and an empty cache entry; the store stays valid |
| StorageOps.SetDependency | pkg/graph/graph.go:188-212 | the error cases in their order change nothing; otherwise both objects gain the edge and both records are overwritten |
| StorageOps.LinkByID | api/v1/service.go:116-130 | with both nodes read fresh, exactly the one edge is added to the store |
| StorageOps.CollectCaches | pkg/graph/cache.go:46-65 | one entry for every node, with its sets in both directions; no lookup fails |
| StorageOps.Cache | pkg/graph/cache.go:10-71 | the store changes as the reachability definition of Cache says, and nothing changes when no node waits |
| Queries.QueryBitmap | pkg/graph/graph.go:214-258 | terminates on any graph and gives exactly the reflexive-transitive closure in its direction, or an error exactly when a reached node refers to a node that is not stored |
| Queries.SearchVisits | pkg/graph/graph.go:225-251 | one round of the queue loop keeps the search invariant |
| Queries.SearchDone | pkg/graph/graph.go:214-258 | an empty queue means the visited nodes are all that is reached |
| Queries.FreshCopySeesStore | pkg/graph/graph.go:214-258 | for an up-to-date copy in a valid store the query cannot fail and sees the stored graph |
| Queries.Query | pkg/graph/graph.go:295-349 | the cached set when nothing waits to be cached, else the uncached closure |
| Runs.KeptAfterCache | pkg/graph/cache.go:10-71 | what Cache keeps for a node: what it reaches, or only its component when its weak component held no stacked node |
| Runs.CachedFields | pkg/graph/cache.go:48-65 | AllChildren is what the node reaches through children and AllParents what it reaches through parents, or both its component where its weak component held no stacked node |
| Runs.CacheExactIff | pkg/graph/cache.go:10-71 | Cache leaves exact answers exactly when every weak component larger than one strong component holds a stacked node |
| Runs.RunExactIff | pkg/graph/graph.go:295-349 | over every run of AddNode, SetDependency, RemoveAllCaches and Cache from the empty store, cached answers equal uncached ones at every state exactly when every Cache of the run was covered |
| Runs.FirstCacheCovered | pkg/graph/cache.go:10-71 | the first Cache of a run, and the first after RemoveAllCaches, is always covered |
| Runs.DependencyIffDependent | pkg/graph/graph.go:188-212 | in every state of every run x is a dependency of y exactly when y is a dependent of x |
| Runs.UncoveredCacheLosesAnswers | pkg/graph/cache.go:48-65 | a concrete run of six operations after which a cached answer is wrong: Cache overwrites the entries of components it did not walk |
| UnionFind.Find | pkg/report/merge.go:17-22 | terminates on the forest although roots may point to larger indices, returns the root, and path compression keeps every root |
| UnionFind.Union | pkg/report/merge.go:27 | linking two roots keeps the forest and joins exactly their two classes |
| UnionFind.LinkKeepsForest | pkg/report/merge.go:27 | hanging one root under the other leaves no cycle |
| UnionFind.Connect | pkg/report/merge.go:12-32 | two records end with one root exactly when a chain of records sharing upper-cased names connects them |
| UnionFind.RootsDecide | pkg/report/merge.go:23-32 | when every record is taken in, equal roots and connected records are the same |
| Findings.SortedKeys | pkg/report/merge.go:148-155 | the keys in strictly ascending order, each once |
| Findings.SortedProducts | pkg/report/merge.go:157-164 | the products of the map in strictly ascending order of their names |
| Findings.KeepFirst | pkg/report/merge.go:92-101 | of the products with one name the first stays |
| Findings.AddNames | pkg/report/merge.go:71-76 | the aliases are the gathered names but for the own one, each once |
| Findings.TakeBestKeeps | pkg/report/merge.go:77-88 | one more record keeps: the first KEV entry, the first summary, the first of the highest severities and EPSS scores |
| Findings.Gather | pkg/report/merge.go:64-102 | over the whole group: names, packages, first products by name, KEV, summary, severity, EPSS |
| Findings.MergeGroup | pkg/report/merge.go:58-117 | the union of names; for several records also the ID of the lowest rank, the union of packages, KEV iff some record has it, the first summary, the first of the highest EPSS scores and severities, and products and suppressed products with disjoint names whose union is that of the group, suppression winning; one record is kept as it is |
| Findings.MergedSeparate | pkg/report/merge.go:58-117 | merging keeps every product name on one list and once, as long as single records do |
| Findings.SortedByRank | pkg/report/merge.go:63 | the stable sort puts an ID of the lowest rank first and keeps the records |
| Findings.MergedID | pkg/report/merge.go:62-64 | the ID is that of the first record of its kind: a GHSA ID if any record has one, a CVE name only when all have |
| Findings.MergedSeverity | pkg/report/merge.go:80-82 | the severity is that of a record, and by CRITICAL, HIGH, MODERATE or MEDIUM, LOW, any other label, none, in any case, no record has a graver one |
| Findings.MergedScores | pkg/report/merge.go:77-88 | KEV and a summary when any record has one, the highest EPSS score of any record; each is that of a record |
| Findings.MergedProducts | pkg/report/merge.go:92-115 | a product is suppressed exactly when some record suppresses it, and shown exactly when some record shows it and none suppresses it |
| Findings.MergedCarries | pkg/report/merge.go:50-76 | a merged finding carries, in capitals, the IDs and aliases of its records and no others |
| Merge.MergeAliases | pkg/report/merge.go:11-48 | one finding for each class of connected records, in the order of their first records, each standing for exactly its class |
| Merge.MergeKeepsNames | pkg/report/merge.go:34-48 | the union of the names is unchanged |
| Merge.MergedHasNames | pkg/report/merge.go:34-48 | every name of a record is a name of the finding of its class |
| Merge.MergedNamesDisjoint | pkg/report/merge.go:34-48 | no name belongs to two merged findings |
| Merge.AlikeMerge | pkg/report/merge.go:26-32 | records that share an ID or alias, be it in different case, become one finding |
| Merge.SelectInOrder | pkg/report/merge.go:34-43 | the records of a class are those at its positions, in their order |
| Merge.MergeAgain | pkg/report/merge.go:11-48 | merging merged findings again changes nothing |
| Sorting.SortPermutes | pkg/report/report.go:92-104 | sorting keeps every element as often as it was there |
| Sorting.SortSorted | pkg/report/report.go:92-104 | under a strict weak order no element comes before a smaller one |
| Sorting.SortStable | pkg/report/report.go:92-104 | elements of which none is less than another keep their order |
| Texts.CompareIff | pkg/tools/ingest/vuln.go:263-266 | one string is below another exactly when it is a proper prefix or has the smaller character at the first difference |
| Texts.UpperIff | pkg/report/merge.go:50-56 | the upper-case form of a string is the only one that differs from it in the case of letters alone and has no small letter |
| Texts.TrimTakes | pkg/report/report.go:61 | trimming takes away the blanks at both ends and nothing else |
| Paths.Discover | pkg/report/report.go:170-176 | a parent seen for the first time joins the queue one step further from the vulnerability |
| Paths.FinishRound | pkg/report/report.go:157-183 | when all parents are seen the queue is still ordered by distance |
| Paths.DistanceIsShortest | pkg/report/report.go:151-183 | no path from the vulnerability to a node is shorter than the number of steps by which the walk found it |
| Paths.VisitedIffReached | pkg/report/report.go:154-183 | the walk visits exactly what reaches the vulnerability |
| Paths.Follow | pkg/report/report.go:188-190 | following next from a visited node ends, for graphs with any cycles, and is a dependency chain as long as its distance |
| Report.Expand | pkg/report/report.go:170-182 | one round visits all parents; in the first round the packages are the direct dependents |
| Report.WalkUp | pkg/report/report.go:151-183 | the queue loop ends with the products being exactly the visited top nodes, each once |
| Report.Scores | pkg/report/report.go:116-134 | KEV of the first CVE name that has one, EPSS the highest of the CVE names |
| Report.Statements | pkg/report/report.go:137-149 | for each product the statement of the last name that has one |
| Report.FoundChain | pkg/report/report.go:186-190 | the chain followed from a product is a shortest one |
| Report.AccountsStep | pkg/report/report.go:191-200 | each product goes on exactly one of the two lists |
| Report.ListProducts | pkg/report/report.go:151-201 | every product appears once, in exactly one of Products and Suppressed, with a shortest dependency chain to a direct dependent |
| Report.BuildFinding | pkg/report/report.go:108-205 | a finding with the details, scores, packages and sorted product lists of its node |
| Report.PackagesAreDirect | pkg/report/report.go:177-184 | packages are exactly the names of the stored nodes that depend on the vulnerability directly |
| Report.ListedIffProduct | pkg/report/report.go:164-201 | a name is listed, shown or suppressed, exactly when it is that of a node reached upward, not the vulnerability itself, that nothing depends on |
| Report.ProductOnPath | pkg/report/report.go:186-201 | the path of every product names the nodes of a shortest chain from the product down to a direct dependent; its statement is the one about the product or else about that dependent, and it is suppressed exactly when the status is not_affected or fixed |
| Report.ScoresOfNames | pkg/report/report.go:116-134 | a KEV entry is there exactly when one is kept under a CVE name of the finding, in capitals, and the EPSS score is the highest kept under any |
| Report.StatementsOfNames | pkg/report/report.go:137-149 | a product has a statement exactly when one is kept under some name of the finding, and it is one of those |
| Report.ListsInOrder | pkg/report/report.go:184-203 | in a store with unique names packages, products and suppressed products are in strict dictionary order |
| Report.FindingSeparate | pkg/report/report.go:186-203 | in a store with unique names no product name appears twice in a finding, shown or suppressed |
| ReportBuild.KeepInPlace | pkg/report/report.go:76-90 | filtering into the same array keeps exactly the findings that pass, in order |
| ReportBuild.UrgencyOrders | pkg/report/report.go:92-104 | KEV, then EPSS, then the number of products, then the ID is a strict weak order |
| ReportBuild.Build | pkg/report/report.go:51-106 | one finding per vulnerability node, merged by alias, filtered after merging and sorted by urgency, for any order of the nodes |
| ReportBuild.AskForOne | pkg/report/report.go:77-81 | with one requested ID there is at most one finding, and it stands for every record connected to any record of that name |
| ReportBuild.ReportCounts | pkg/report/report.go:75-90 | the report holds exactly the merged findings that pass the filters, each as often as it was merged |
| ReportBuild.PassesIff | pkg/report/report.go:61-89 | a finding passes exactly when the name asked for, case and surrounding blanks apart, is its ID or an alias, and the asked KEV entry and least EPSS score are there |
| ReportBuild.ReportByUrgency | pkg/report/report.go:92-104 | of two findings the later has no KEV entry the other lacks; that equal, no higher EPSS score; that equal, not more products; that equal, no smaller ID |
| ReportBuild.ReportCovers | pkg/report/report.go:63-73 | one record is built for every node of type vuln, under its name, and for no other node |
| ReportBuild.ReportSeparate | pkg/report/report.go:51-106 | in a valid store every finding of the report has each product name once, on one of its two lists, and passes the filter |
| Versions.SegmentsAreRuns | pkg/tools/ingest/vuln.go:281-307 | segments are non-empty, all digits or all letters, and concatenate to the kept characters |
| Versions.SegmentsSplit | pkg/tools/ingest/vuln.go:281-307 | segments never cross a separator or a change between digits and letters |
| Versions.SegmentsOfRun | pkg/tools/ingest/vuln.go:281-307 | a run of digits or of letters is one segment |
| Versions.VersionSegments | pkg/tools/ingest/vuln.go:282-307 | the loop gives the maximal runs of the lower-cased version without its leading v |
| Versions.DigitsCompare | pkg/tools/ingest/vuln.go:326-336 | digit runs of any length compare as the integers they denote |
| Versions.Position | pkg/tools/ingest/vuln.go:311-354 | every case of the loop body is the order of classes: pre-release word, end, number, post-release word; words by text |
| Versions.NaturalCompare | pkg/tools/ingest/vuln.go:309-357 | the order of the first position where the segments differ |
| Versions.NaturalFlips | pkg/tools/ingest/vuln.go:309-357 | swapping the versions flips the sign, on all strings |
| Versions.NaturalZero | pkg/tools/ingest/vuln.go:309-357 | zero exactly when the segment lists agree one by one up to leading zeros |
| Versions.TransitiveIff | pkg/tools/ingest/vuln.go:309-361 | over a set of segments the order is transitive exactly when no pre-release word of the set comes after a post-release word in the alphabet |
| Versions.TransitiveWithoutPost | pkg/tools/ingest/vuln.go:309-361 | transitive on all versions without post-release words |
| Versions.NotTransitive | pkg/tools/ingest/vuln.go:339-354 | any such pair of words gives three versions that go round |
| Versions.PostReleaseGoesRound | pkg/tools/ingest/vuln.go:309-361 | 1.0rc1 is before 1.0, 1.0 before 1.0.post1, and 1.0rc1 after 1.0.post1 |
| Versions.PrefixDropped | pkg/tools/ingest/vuln.go:286 | a leading v makes no difference to the order |
| Versions.CaseIgnored | pkg/tools/ingest/vuln.go:286 | nor does the case of letters, but for that of the first character |
| Versions.SeparatorsAlike | pkg/tools/ingest/vuln.go:289-295 | which separator stands between two parts makes no difference |
| Versions.BoundaryCounts | pkg/tools/ingest/vuln.go:296-302 | between a number and a word a separator can be left out |
| Versions.TrailingWord | pkg/tools/ingest/vuln.go:312-323 | a version with one more word is earlier, unless the word is post, p, pl or patch: then it is later |
| Versions.TrailingNumber | pkg/tools/ingest/vuln.go:312-323 | a version with one more number is later |
| Versions.NumberAgainstWord | pkg/tools/ingest/vuln.go:338-351 | a number comes after a word, unless the word is post, p, pl or patch: then before it |
| Versions.NumbersInOrder | pkg/tools/ingest/vuln.go:325-337 | two numbers at one place compare as the integers they denote |
| Versions.WordsInOrder | pkg/tools/ingest/vuln.go:352-354 | two words at one place compare as in a dictionary |
| Ranges.CompareVersionsOf | pkg/tools/ingest/vuln.go:246-279 | semver order when both sides parse, else segment order for ECOSYSTEM and text order for the rest |
| Ranges.ComparesBy | pkg/tools/ingest/vuln.go:246-279 | for every type and pair: by semver place, by naturalCompare or by dictionary order, as the type and the two parses say |
| Ranges.TextPreorder | pkg/tools/ingest/vuln.go:263-266 | text order is a total preorder on all strings |
| Ranges.NaturalPreorder | pkg/tools/ingest/vuln.go:278 | segment order is a total preorder on versions over compatible words |
| Ranges.MixedPreorderIff | pkg/tools/ingest/vuln.go:246-279 | the order that mixes semver with text or segments is a total preorder exactly when the second order is transitive on triples of which at most one version parses, and no version that does not parse leads back from a version to one that is not above it by semver |
| Ranges.SemverPreorderIff | pkg/tools/ingest/vuln.go:253-259 | the exact condition for SEMVER, on all sets of versions |
| Ranges.TextCrossing | pkg/tools/ingest/vuln.go:253-259 | what a crossing is in text order: strict on both sides |
| Ranges.EcosystemPreorderIff | pkg/tools/ingest/vuln.go:260-279 | the exact condition for ECOSYSTEM, on all sets of versions |
| Ranges.EcosystemOverWords | pkg/tools/ingest/vuln.go:260-279 | over compatible words only crossings are left of it |
| Ranges.SemverPreorder | pkg/tools/ingest/vuln.go:253-259 | when every version parses the order is a total preorder |
| Ranges.BlankNeverCrosses | pkg/tools/ingest/vuln.go:233-244 | an event that has only a limit, and so an empty version, changes nothing about the SEMVER condition |
| Ranges.BlankNeverCrossesNatural | pkg/tools/ingest/vuln.go:233-244 | nor about the ECOSYSTEM condition, when the versions that parse start with a number |
| Ranges.DocumentedOrder | pkg/tools/ingest/vuln.go:269-279 | 1.0rc1 before 1.0 before 10.0, as promised by README.md line 54, is a total preorder although 1.0rc1 does not parse |
| Ranges.SemverMixGoesRound | pkg/tools/ingest/vuln.go:253-259 | a concrete crossing: three versions, one of which does not parse, in a circle |
| Ranges.EcosystemMixGoesRound | pkg/tools/ingest/vuln.go:260-279 | 1.0, 1.0.0rc1 and 1.0.0 are such a circle under ECOSYSTEM |
| Ranges.EcosystemWordsGoRound | pkg/tools/ingest/vuln.go:260-348 | and so are 1.0rc1, 1.0 and 1.0.post1, whose words clash |
| Ranges.IsVersionInRange | pkg/tools/ingest/vuln.go:193-204 | the scan of one range: its last event with an effect, in version order, is an introduction |
| Ranges.IsVersionInRanges | pkg/tools/ingest/vuln.go:191-211 | true exactly when in some range the last event with an effect, in version order, is an introduction |
| Ranges.SortedTop | pkg/tools/ingest/vuln.go:213-231 | sorting and scanning picks the highest event with an effect, the last of equals, found without sorting |
| Ranges.TopIsHighest | pkg/tools/ingest/vuln.go:194-204 | the deciding event has an effect and none with an effect is above it |
| Ranges.IncludedAsDeclared | pkg/tools/ingest/vuln.go:191-231 | for single-field events under a total preorder, where no introduction and end meet: affected exactly when some introduction at or below v has no fix in (it, v] and no last affected version strictly between, introduced "0" lying below everything; stated by the version comparison alone. Introduced "0" takes no part in the preorder, an empty version does when an event has only a limit, since the sort compares it |
| Ranges.OneEvent | pkg/tools/ingest/vuln.go:191-211 | an event alone decides by its introduction, whatever its other fields |
| Ranges.PairByFields | pkg/tools/ingest/vuln.go:213-244 | an event with an introduction is placed by it whatever its other fields, and the later of it and a fix decides |
| Ranges.CircleMisleadsScan | pkg/tools/ingest/vuln.go:191-231 | the preorder is needed: where versions go round, a SEMVER range with single-field events, none of which meet, declares 2.0.0 affected and the scan says it is not |
| Ranges.SemverRangeAsDeclared | pkg/tools/ingest/vuln.go:191-267 | so for every SEMVER range whose versions do not cross |
| Ranges.EcosystemRangeAsDeclared | pkg/tools/ingest/vuln.go:191-279 | and for every ECOSYSTEM range over compatible words whose versions do not cross |
| Ranges.OrderFreeIff | pkg/tools/ingest/vuln.go:213-231 | the answer is the same for every permutation of the events exactly when no introduction and end meet at the highest version with an effect |
| Ranges.ApartIsOrderFree | pkg/tools/ingest/vuln.go:213-231 | single-field events of which no introduction and end meet can come in any order |
| Ranges.DistinctIsOrderFree | pkg/tools/ingest/vuln.go:213-231 | and so can events at distinct versions, whatever their fields |
| Ranges.LimitsIgnored | pkg/tools/ingest/vuln.go:191-244 | limit fields never change the answer |
| Ranges.FollowsSchemaIff | pkg/tools/ingest/vuln.go:191-231 | the scan follows the OSV schema, limits included, exactly when the version lies before a limit, "*" being infinity, or is not affected anyway |
| Ranges.UnlimitedFollowsSchema | pkg/tools/ingest/vuln.go:191-231 | a range without limits or with the limit "*" always follows it |
| Ranges.LimitDeparts | pkg/tools/ingest/vuln.go:191-211 | a version the limit rule of the OSV schema excludes and the code includes |
| Vulns.IsPackageAffected | pkg/tools/ingest/vuln.go:165-180 | true exactly when some entry of that name and ecosystem lists the version or has it in a range |
| Vulns.BuildLibraryIndex | pkg/tools/ingest/vuln.go:93-114 | the index holds every library node under its package name and nothing else, for any order of the nodes |
| Vulns.SelectedIsFullScan | pkg/tools/ingest/vuln.go:141-146 | the nodes found through a covering index are exactly those a full scan with isPackageAffected selects; a stale but sound index never finds more |
| Vulns.ScanIff | pkg/tools/ingest/vuln.go:99-111 | a full scan selects a node exactly when it is of type library, its name is a package URL that parses, and some entry of its package and ecosystem lists its version or has it in a range |
| Vulns.LinkCandidate | pkg/tools/ingest/vuln.go:149-159 | one round adds or reads the vulnerability node and links the candidate, losing no earlier edge; an error exactly when the two are one node |
| Vulns.VulnerabilitiesWithIndex | pkg/tools/ingest/vuln.go:127-163 | each selected node is linked once, whatever package names repeat; the store ends with the old edges plus these, and an error exactly when the vulnerability names a selected node |
| Vulns.Vulnerabilities | pkg/tools/ingest/vuln.go:117-123 | with a fresh index the links are those of a full scan |
| Vulns.DependsOnVulnerability | pkg/tools/ingest/vuln.go:149-159 | afterwards the edges of an earlier node, in both directions, are the old ones and those from the selected nodes to the vulnerability |
| Vulns.VulnerabilityNode | pkg/tools/ingest/vuln.go:149-159 | the links lead to the node named by the vulnerability; a new one is of type vuln and has no other edges |
| Edges.SetDependencyLinks | pkg/graph/graph.go:188-212 | on a store with a set of edges added, one more SetDependency gives the store with one more edge |
| Edges.WithEdgesKeepsValid | pkg/graph/graph.go:188-212 | symmetry, dense IDs and unique names survive any set of edges between different stored nodes |
| Sbom.AddNodes | pkg/tools/ingest/sbom.go:60-78 | a node per element, and each element ID leads to the node of the last element with that ID |
| Sbom.IntendedIff | pkg/tools/ingest/sbom.go:80-98 | an edge is intended exactly when some relationship states it, in the direction of its type, between two different nodes |
| Sbom.LinkTargets | pkg/tools/ingest/sbom.go:90-111 | the target loop adds exactly the edges of its relationship, reading both nodes fresh each time |
| Sbom.IngestDocument | pkg/tools/ingest/sbom.go:39-115 | every element has a node; the new nodes are of type library and named by an element; no earlier node is lost or renamed; the edges, at both ends, are the old ones and those that relationships state by their types |
| Sbom.DependsIff | pkg/tools/ingest/sbom.go:80-112 | after ingestion x depends directly on y, at both ends, exactly when it did before or some relationship says so |
| Sbom.NewNodes | pkg/tools/ingest/sbom.go:62-78 | a node that the node loop adds is an unlinked library with the package URL of an element, or pkg:name@version where it has none |
| Service.CoversGrows | api/v1/service.go:22-25 | an index that covers the library nodes still does after anything that adds no library node |
| Service.IngestedIsScanned | api/v1/service.go:327-351 | a node that an SBOM added is selected for a vulnerability exactly when its name is a package URL that parses and its package is affected |
| Service.Service.AddNode | api/v1/service.go:103-114 | the stored index is nil or covers every library node afterwards |
| Service.Service.IngestSBOM | api/v1/service.go:327-334 | the same after an SBOM |
| Service.Service.IngestVulnerability | api/v1/service.go:336-351 | with the index kept from earlier calls a record is linked exactly as a full scan of the present nodes would |
| Protocol.StepKeepsSafe | api/v1/service.go:22-32 | every step of every call keeps mutual exclusion and: the index misses a library node only while a call that adds nodes is in flight |
| Protocol.RunIsSafe | api/v1/service.go:22-32 | the same over every run |
| Protocol.QuietIndexCovers | api/v1/service.go:327-351 | in every interleaving, with no IngestSBOM or AddNode in flight the index is nil or covers every library node, also for a call about to link |
| Protocol.OneHolder | api/v1/service.go:336-338 | at most one call is past the lock |
| Protocol.StaleWindow | api/v1/service.go:103-105 | while such a call is in flight the index can miss a library node: a concrete interleaving |
| Script.NeverMisses | pkg/graph/parser.go:69-113 | with an answer for each collected package no lookup misses, in any script, bracketed ones included |
| Script.OnlyCollected | pkg/graph/parser.go:126-168 | answers beyond the collected ones make no difference |
| Script.EvalBlanksBrackets | pkg/graph/parser.go:171-244 | evaluation is the right-associated set algebra with every bracket taken for the empty set |
| Script.BracketFreeIsExact | pkg/graph/parser.go:171-244 | without brackets evaluation is the set algebra of the script |
| Script.BracketsEmpty | pkg/graph/parser.go:236-241 | a script put in brackets evaluates to nothing, where README.md line 126 lets brackets combine queries |
| Script.OperatorResult | pkg/graph/parser.go:184-198 | or, and and xor combine node by node; any other operator, and a missing operand, is an error |
| Script.CanRunIff | pkg/graph/parser.go:171-244 | with the answers there, evaluation fails exactly when some query or operator, in brackets too, is unknown or an operand is missing |
| Script.DefaultFilled | pkg/graph/parser.go:211-216 | a query without a name is about the default one |
| Script.MeaningAt | pkg/graph/parser.go:171-244 | whether a node is in the set algebra, with brackets kept or emptied, depends only on its type and on which of the queries hold it |
| Script.HarmlessMeaning | pkg/graph/parser.go:236-241 | a script whose truth table does not change when brackets are emptied means the same with empty brackets, for all answers |
| Script.HarmlessIffBracketFree | pkg/graph/parser.go:236-241 | over one node type and with nothing asked twice, that is exactly the scripts without a bracket |
| Script.RepeatedQuery | pkg/graph/parser.go:236-241 | but a query joined by or with itself in brackets is harmless, while by and it is not |
| ScriptOps.CollectFromExpression | pkg/graph/parser.go:134-141 | exactly the queries of each type are appended, in the order of the script |
| ScriptOps.CollectPackages | pkg/graph/parser.go:126-131 | the queries of each type, in order |
| ScriptOps.QueryOne | pkg/graph/graph.go:214-266 | the uncached answer for any copy of a node |
| ScriptOps.BatchQuery | pkg/graph/graph.go:268-332 | for any nodes, nil ones included, any caches and either flag: the answers in order of the nodes or the first error, without changing a cached bitmap |
| ScriptOps.NameToIDs | pkg/graph/parser.go:56-62 | each name leads to a node of that name, for any order of the nodes; a nil node is an error |
| ScriptOps.FetchedAll | pkg/graph/graph.go:268-332 | for stored nodes the batch cannot fail and gives the answer of the store for each of them and no others |
| ScriptOps.IterateTerm | pkg/graph/parser.go:203-244 | a fresh bitmap with the nodes of the queried type; the errors of the inner expression are kept, its value is not |
| ScriptOps.IterateExpression | pkg/graph/parser.go:171-201 | the value of Eval in a fresh bitmap; no bitmap that existed before is changed |
| ScriptOps.Execute | pkg/graph/parser.go:55-118 | for any nodes, caches and flag: the outcome of collecting, looking up, fetching and evaluating, with the errors in their order; nothing that existed before is changed |
| ScriptOps.OutcomeInStore | pkg/graph/parser.go:55-118 | on what a valid store holds, the outcome is the evaluation over the whole store, or an error exactly when a name is unknown or evaluation fails |
| ScriptOps.QueryScript | api/v1/service.go:275-300 | a script run by the service evaluates over the store as it is |
| ScriptOps.CachedRunSeesTheSame | pkg/graph/graph.go:268-332 | after every run in which every Cache was covered a script evaluates to the same with the cache as without it |
| ScriptOps.ScriptIsSetAlgebra | pkg/graph/parser.go:55-118 | a bracket-free script over stored names evaluates to the right-associated set algebra over type-filtered reachable sets |
| ScriptOps.QueryMeansReachable | pkg/graph/parser.go:218-234 | a query stands for the stored nodes of its type that the named node reaches in its direction |
| ScriptStores.BracketsLoseAnswers | pkg/graph/parser.go:236-241 | in every valid store with exact answers, a bracketed dependencies query of a stored node evaluates to nothing, while what it stands for holds the node itself |
| ScriptStores.OneAnswer | pkg/graph/parser.go:218-234 | in the store built from a choice of queries exactly the chosen ones answer with the one node of the queried type |
| ScriptStores.HarmShowsInRun | pkg/graph/parser.go:236-241 | for every script in which emptying the brackets can matter there is a run of AddNode and SetDependency after which it evaluates to something else than its set algebra |
| ScriptStores.ExactIffHarmless | pkg/graph/parser.go:171-244 | any script evaluates to its set algebra after every run with covered caches exactly when, by the truth table over its own queries and node types, emptying its brackets changes nothing |
| ScriptStores.ExactIffBracketFree | pkg/graph/parser.go:171-244 | so a script over one node type that asks nothing twice does exactly when it has no bracket |

## Left out

- JSON and roaring serialisation, and the decimal text of IDs: identities here.
- The SHA-256 text of a shared key: a slot is named by the list of keys itself, so two different lists never share one.
- Node metadata, except that the report takes readable OSV records as a parameter.
- 32-bit overflow of IDs and of Tarjan numbers.
- Unicode: upper and lower case, trimming and text order are those of ASCII text.
- Pointer sharing of MockStorage: `GetNode` there returns the stored object itself; the model follows the copying storages.
- RemoveAllCaches of the SQL storage (pkg/storages/sql.go), which does not put the IDs back on the stack as MockStorage and Redis do.
- Empty or malformed SBOM and OSV input: documents and records come in parsed.
- Injected storage errors, and failures between the two SaveNode calls of one SetDependency.
- Concurrent lost updates of edges: two calls that link the same node at once can overwrite each other; `Protocol` is about library nodes only and treats each storage operation as one step.
- sort.Slice with equal product names: the contract says sorted and a permutation, the model's method is stable.
- sort.SliceStable under an order that is not a strict weak order: the model sorts by insertion, Go's result may differ; the theorems ask for a strict weak order.
- Runs.Run: does not model SetDependency on stale copies of nodes; the service and the ingestion loops read both nodes fresh.
- ScriptOps.BatchQuery: does not model nil cache entries, because GetCaches leaves missing ones out; an entry that is missing is an error.
- Floating point: EPSS scores are real numbers.
- severityOf: the severity label comes in with the record.
- The participle grammar: scripts come in parsed.
- The leaderboard's worker pool and heap, glob search, scorecard ingestion, KEV, EPSS and VEX parsing, weighted NACD scores, file and ZIP reading, the HTTP handlers, command line and chat: input, output or simple members.
