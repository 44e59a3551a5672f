# snpm: verified models

A Dafny model of the parts of the snpm package manager where a mistake would be
silent: the planner of the shared virtual store, the lifecycle scheduler, the
content-addressed tarball cache, the indexed copy of a stored package, the
convergence of a project's root `node_modules`, the translation of npm ranges
into Cargo requirements, the resolution of Node selectors, the side-effects cache
and the memory of link capabilities.

`dafny verify dfyconfig.toml` checks the whole project.

## How the model is laid out

| files | part of snpm |
|---|---|
| `Wrappers`, `Ordering`, `Sequences`, `Text`, `Versions`, `DirectoryEntries` | result types, sorted orders, text, version precedence (section 11 of Semantic Versioning 2.0.0) |
| `Digraph` | finite directed graphs: chains, cycles, layers, ranks |
| `Scheduler`, `Walk` | `lifecycle/runner/walk.rs` |
| `PackageGraph`, `Peers`, `Sharing` | the resolution graph, peer binding, the project-local set |
| `EntryHash`, `Closures`, `HashTraversal` | the byte stream that is hashed, the Merkle hash, the memoised traversal |
| `Links`, `SharedStore`, `SharedAgreement` | locations, wiring, and what two projects share |
| `Materialize` | staging and renaming by concurrent processes |
| `Integrity`, `BlobCache` | `store/integrity.rs`, `store/fetch.rs` |
| `PackageTree`, `TreeIndex`, `TreeCopy` | `store/metadata.rs`, `linker/fs/copy.rs` |
| `RootLinks` | `linker/mod.rs`, `linker/root.rs`, `linker/hoist.rs` |
| `CargoReq`, `NpmRanges`, `Ranges`, `RangeTokens`, `RangeMeaning`, `RangeAgreement`, `RangeAliases` | Cargo's requirements, npm's meaning, `snpm-semver/src/range`, and the agreement of the two |
| `NodeResolve` | `node/resolve.rs` |
| `SideEffects` | `lifecycle/runner/cache.rs` |
| `Capabilities` | `linker/fs/capabilities.rs` |

Conventions. A digest is an arbitrary function to 16 hexadecimal characters, so a
statement about hashes reads "equal, or here are two different inputs with one
hash". Paths are sequences of components or, where only equality matters, text.
Sorted maps of the program are sequences in key order; iteration over an
unordered map picks an arbitrary element. Loops over parallel iterators are
sequential where the iterations write different places, and interleaved step by
step in `Materialize`. Code that changes things in place is a class or a method
with a loop, proved against a function or a direct statement.

## What is found to hold only under a condition

- `topological_chunks` promises to partition the jobs but keys them by name: of
  several jobs with one name only the last is run. `Scheduler.ScheduledUnlessShadowed`
  says exactly which jobs are placed, `Scheduler.SharedNameLosesAJob` gives a lost one.
- A call that materializes a shared entry sees a full copy as long as removing a
  directory is one step; with removal entry by entry some interleaving lets a call succeed
  without one if and only if the package has at least two entries, files or directories
  (`Materialize.UnsafeIffTwoEntries`): an empty directory counts as ready too
  (`Materialize.EmptyDirectoryIsUnsafe`).
- The persisted shape lists the tree on disk, and the indexed copy gives it, if and only
  if everything with the name of a metadata file is a file where one is written, and every
  such file is there, whichever writes the system refuses or cuts short
  (`TreeIndex.ShapeListsTree`, `TreeCopy.CopyBothWays`). A nested metadata file cannot be
  written over a directory, but the shape has been stored by then
  (`TreeIndex.DirectoryInTheWay`). Where a directory has the name of the root's own, no
  shape is stored and `copy_dir` scans the package instead (`TreeCopy.CopyDir`).
- The walk for lifecycle scripts inspects everything reachable if it comes to no container
  that holds a `package.json` itself. With one, the order of listing can decide whether
  that directory's scripts run (`Walk.CollectJobs`, `Walk.OrderDecides`).
- A root link survives hoisting if and only if nothing else is hoisted to its name
  (`RootLinks.RootLinkSurvivesIff`); in single-version mode an aliased root dependency
  loses it exactly when a single package really has that name
  (`RootLinks.SingleVersionKeepsOwnNames`, `RootLinks.AliasLosesItsLink`).
- On a dependency cycle an entry hash need not depend on everything below the entry
  (`HashTraversal.CycleHidesContent`); the hash of a package from which no cycle is
  reachable does, whatever cycles the graph has elsewhere, and it meets the location of no
  package that reaches a cycle unless the hash collides (`SharedAgreement.MeetsAnyPackage`).
- A version on its own inside a list of comparators is read as a caret. The list keeps
  npm's meaning if and only if no such version whose caret admits more than it says leaves
  the list as a whole anything above it, which is a comparison of the comparators' ends
  (`NpmRanges.KeepsMeaning`, `RangeAgreement.ListMeansIff`): `>=0 1.2.3` does not keep it,
  `<=1.2.3 1.2.3` does (`RangeAgreement.BareBesideOperatorIff`). The comment at
  `snpm-semver/src/range/parse.rs:189-191` wants npm's meaning to win for `X.Y`; it does
  only when `X.Y` is a whole part.
- A wildcard on its own beside other comparators, as in `>=1 *`, is an error, though npm
  accepts it (`RangeAgreement.LoneWildcardIsRefused`).
- An end of a hyphen range that is a number and one wildcard, as in `1.x - 2` or
  `1 - 2.x`, is not expanded as npm means it: a lower one is refused, an upper one counts
  the wildcard as zero, which keeps npm's meaning if and only if nothing lies between the
  ends (`RangeAgreement.LowWildcardIsRefused`, `RangeAgreement.HighWildcardIff`). An upper
  end that is a wildcard alone, as in `1 - x`, counts as zero too and so never keeps it
  (`RangeAgreement.WildcardEndReads`).
- The side-effects cache recognizes a directory by its marker alone.
  `SideEffects.StepMisleadsIff` says exactly which steps make a directory pass for an
  artifact it is not: a restore that stops between the marker and the end of the slot; a
  save onto an existing slot with a different tree, such as the one that follows a failed
  restore when the scripts have run all the same (walk.rs:198-215, 327-328, cache.rs:155-156);
  a save elsewhere that creates the slot the directory's marker names; a restore or a save
  for another owner with a slot under the same digest, edits, and failed removals. The
  marker names no platform, so a restore for one Node major can pass for that of another
  (`SideEffects.OtherPlatformIsMistaken`), although the comment at cache.rs:44-51 wants
  them apart. Only a slot whose marker is its last entry is safe to restore in this
  respect (`SideEffects.SafeIffMarkerLast`).

## Model

| member | source | states |
|---|---|---|
| `Digraph.UnsettledIffReachesCycle` | snpm-core/src/lifecycle/runner/walk.rs:274-306 | removing vertices without remaining successors round by round leaves exactly the vertices from which a cycle is reachable |
| `Digraph.AcyclicIffRanked` | snpm-core/src/lifecycle/runner/walk.rs:274-306 | a graph has no cycle exactly when its vertices can be numbered so that every edge goes down |
| `Digraph.HeightFalls` | snpm-core/src/linker/virtual_store.rs:777-847 | above no cycle every edge leads to a vertex above no cycle that settles in an earlier round, so recursion along edges ends there |
| `Scheduler.ByName` | snpm-core/src/lifecycle/runner/walk.rs:245-248 | every name of a job is a key, and its value is one of the jobs with that name |
| `Scheduler.IndexJobs` | snpm-core/src/lifecycle/runner/walk.rs:245-248 | the loop builds the map in which a later job replaces an earlier one of its name |
| `Scheduler.RegisterJob` | snpm-core/src/lifecycle/runner/walk.rs:253-265 | the degree counts the listed dependencies that are jobs other than the job itself, and the job is registered with each as often as it lists it |
| `Scheduler.BuildGraph` | snpm-core/src/lifecycle/runner/walk.rs:251-265 | all degrees and all dependents lists are those of the job graph, whatever the iteration order |
| `Scheduler.Release` | snpm-core/src/lifecycle/runner/walk.rs:281-290 | the saturating decrement never saturates, and exactly the consumers whose degree reaches zero become ready, once each |
| `Scheduler.RunOne` | snpm-core/src/lifecycle/runner/walk.rs:277-291 | taking a ready job out keeps all counters equal to the number of unfinished dependencies |
| `Scheduler.RunRound` | snpm-core/src/lifecycle/runner/walk.rs:274-296 | a round emits exactly the ready jobs and leaves ready exactly the unfinished jobs with no unfinished dependency |
| `Scheduler.TopologicalChunks` | snpm-core/src/lifecycle/runner/walk.rs:244-309 | chunk k holds exactly the k-th layer of the job graph, each name once, followed by one chunk of the jobs that never become ready, if there are any |
| `Scheduler.ChunkIsLongestChain` | snpm-core/src/lifecycle/runner/walk.rs:239-309 | the index of a job outside the last cycle chunk is one less than the length of its longest chain of jobbed dependencies |
| `Scheduler.PlacedOnce` | snpm-core/src/lifecycle/runner/walk.rs:239-309 | every name lies in exactly one chunk |
| `Scheduler.ProducerFirst` | snpm-core/src/lifecycle/runner/walk.rs:239-243 | a dependency runs in an earlier chunk than its consumer, or both are in the cycle chunk |
| `Scheduler.NoScheduleIsShorter` | snpm-core/src/lifecycle/runner/walk.rs:239-309 | in any schedule where, outside the cycle chunk, producers start before consumers, no job outside it starts before its own chunk index, whatever the jobs that reach a cycle do |
| `Scheduler.SchedulesAgree` | snpm-core/src/lifecycle/runner/walk.rs:268-305 | two runs over the same jobs give the same sets of names chunk by chunk, whatever order the hash maps iterate in |
| `Scheduler.CycleChunkMeansCycle` | snpm-core/src/lifecycle/runner/walk.rs:298-306 | the last chunk is a cycle chunk exactly when there is a cycle of at least two names, and it holds exactly the jobs from which one is reachable |
| `Scheduler.NoCycleChunkIffSchedulable` | snpm-core/src/lifecycle/runner/walk.rs:298-306 | there is no cycle chunk exactly when all jobs can be given start times after those of all their dependencies |
| `Scheduler.ScheduledUnlessShadowed` | snpm-core/src/lifecycle/runner/walk.rs:245-248 | a job is placed if and only if it is the one its name stands for in the map; with distinct names every job is |
| `Scheduler.AllScheduledIff` | snpm-core/src/lifecycle/runner/walk.rs:245-248 | every job is placed if and only if jobs of one name are equal |
| `Scheduler.SharedNameLosesAJob` | snpm-core/src/lifecycle/runner/walk.rs:245-248 | two jobs of one name of which the first is in no chunk |
| `Scheduler.NeededRunsFirst` | snpm-core/src/lifecycle/runner/walk.rs:239-309 | what a job needs runs in an earlier chunk, unless both are in the last one and the dependencies among the jobs cannot be ranked; told from names and dependency lists alone |
| `Scheduler.RunsAsSoonAsPossible` | snpm-core/src/lifecycle/runner/walk.rs:274-296 | where they can be ranked, every job of a later chunk needs one of the chunk before |
| `Scheduler.RunsOnlyJobs` | snpm-core/src/lifecycle/runner/walk.rs:268-305 | only jobs that were given run, and of one name only one, once |
| `Walk.Walker.InspectPackage` | snpm-core/src/lifecycle/runner/walk.rs:156-217 | records the package once and adds it to the jobs or the blocked names exactly as its manifest and the two policies decide (`Walk.JudgeMeans`) |
| `Walk.JudgeMeans` | snpm-core/src/lifecycle/runner/walk.rs:165-217 | a package is run exactly if its manifest has a non-empty name and lifecycle scripts, the name is allowed, and with a non-empty version the cache has no artifact; it is blocked exactly if the name is not allowed; it fails exactly if the manifest is malformed or no cache entry can be made for an allowed package with a version |
| `Walk.StepMeans` | snpm-core/src/lifecycle/runner/walk.rs:96-150 | the walk goes from a package to its own `node_modules` and from any other directory to what it lists, `.bin` apart |
| `Walk.Walker.WalkNodeModules` | snpm-core/src/lifecycle/runner/walk.rs:78-154 | terminates on cyclic directory graphs and does what the specified walk does; where the walk comes to no container with a `package.json`, what it newly visits is reachable and everything reachable is visited, or something reachable is unreadable |
| `Walk.Walker.WalkEntry` | snpm-core/src/lifecycle/runner/walk.rs:96-151 | one directory entry: skipped, or followed, as specified, keeping what is still to be explored exact where the walk comes to plain containers only |
| `Walk.Walker.Visit` | snpm-core/src/lifecycle/runner/walk.rs:110-150 | as specified, a package is inspected once and its nested `node_modules` walked; any other directory is walked |
| `Walk.CollectJobs` | snpm-core/src/lifecycle/runner/walk.rs:47-75 | outcome, jobs and blocked names are those of the specified walk; in any case every job belongs to a package that scans from the roots reach, whose manifest has that name and lifecycle scripts, which is allowed and, if it has a version, not in the cache, and every name in `blocked` is a disallowed one of such a package; where the walk comes to no container that holds a `package.json`: it fails exactly if something reachable cannot be read, has a malformed manifest or gets no cache entry, and otherwise runs and blocks all such packages |
| `Walk.PlanInstallScripts` | snpm-core/src/lifecycle/runner/walk.rs:47-76 | everything scheduled is allowed, asks for scripts and is not in the cache, and no name is in two chunks; where the walk comes to no container with a `package.json`, the name of every such package that is reachable is in one, and the plan fails exactly if something reachable is broken |
| `Walk.SweptIsReached` | snpm-core/src/lifecycle/runner/walk.rs:57-71 | after walking every root the visited directories are exactly those reachable from the roots, all of them readable |
| `Walk.OrderDecides` | snpm-core/src/lifecycle/runner/walk.rs:78-150 | a package whose `node_modules` holds a `package.json` and is listed on its own too: whether that directory's scripts are run depends on the order of listing |
| `PackageGraph.SortedNamesDiffer` | snpm-core/src/linker/virtual_store.rs:182-186 | a dependency map lists no name twice |
| `PackageGraph.EdgesMean` | snpm-core/src/linker/virtual_store.rs:557-577 | a package leads to another exactly by a dependency or by a peer bound for it |
| `Versions.LessMeans` | snpm-core/src/linker/virtual_store.rs:517-527 | precedence goes by major, minor and patch number in turn, then a pre-release comes before its release, then by the first identifier that differs |
| `Ordering.TextLessMeans` | snpm-core/src/linker/virtual_store.rs:438-444 | texts in sorted maps go by the first character that differs, and a text comes after its own beginnings |
| `Peers.Highest` | snpm-core/src/linker/virtual_store.rs:515-529 | the result satisfies the range and no satisfying candidate has higher precedence; none only if none satisfies |
| `Peers.BindOneMeaning` | snpm-core/src/linker/virtual_store.rs:454-530 | a peer is provided by a dependency, or missing exactly when its range does not parse or nothing satisfies it, or bound to what the root depends on under that name if that satisfies, and otherwise to a highest satisfying package of the graph |
| `Peers.BindAll` | snpm-core/src/linker/virtual_store.rs:452-477 | the loop over the peer ranges binds as the specification does and stops at the first that cannot be bound |
| `Peers.BoundIffAvailable` | snpm-core/src/linker/virtual_store.rs:452-485 | all peers are bound exactly when each is a dependency or has a satisfying candidate |
| `Peers.BoundPeers` | snpm-core/src/linker/virtual_store.rs:454-470 | the bound names are exactly the required names that are no dependencies, in order, and each binding satisfies its range |
| `Peers.GroupByName` | snpm-core/src/linker/virtual_store.rs:441-444 | groups the ids by name, keeping their order |
| `Peers.ResolveUniquePeers` | snpm-core/src/linker/virtual_store.rs:438-489 | the whole loop computes the specified map |
| `Peers.ResolvedPeersMeaning` | snpm-core/src/linker/virtual_store.rs:438-489 | a package is in the map exactly when it has peers and every one is available; its bound names are disjoint from its dependency names and each binding is the one promised |
| `Peers.RootDominates` | snpm-core/src/linker/virtual_store.rs:506-513 | where the root depends on a peer under its own name at a satisfying version, that is what is bound, whatever else the graph holds |
| `Sharing.SpreadOnce` | snpm-core/src/linker/virtual_store.rs:557-577 | a pass adds only packages that lead to a seed, and if it adds none the set is closed |
| `Sharing.LocalPackageIds` | snpm-core/src/linker/virtual_store.rs:532-581 | the loop terminates and returns exactly the packages from which one that is kept is reachable by dependency or resolved-peer edges; what is left out is not patched, may run no scripts, is in no list (the workspace's if it has one), comes from no directory and has its peers resolved; and if that is so of every package, nothing is local |
| `Sharing.SeedIsNotShareable` | snpm-core/src/linker/virtual_store.rs:618-668 | a package is kept local exactly by a patch, allowed scripts, the workspace's list or else the configuration's, a directory behind `file://`, or unresolved peers |
| `Sharing.SaturatedContains` | snpm-core/src/linker/virtual_store.rs:555-578 | a set no further pass enlarges contains everything that leads to a seed |
| `Sharing.SharedPointsAtShared` | snpm-core/src/linker/virtual_store.rs:618-668 | a shared package is no seed, and its edges stay within the shared set exactly when they stay within the graph |
| `EntryHash.DecodeEncode` | snpm-core/src/linker/virtual_store.rs:799-854 | NUL-free fields can be read back from the stream |
| `EntryHash.RecordsInjective` | snpm-core/src/linker/virtual_store.rs:806-838 | the four-field dependency records and five-field peer records cannot be confused |
| `EntryHash.PeerIsNoHash` | snpm-core/src/linker/virtual_store.rs:821-858 | a child hash is never the word that opens a peer record |
| `EntryHash.EntryStreamInjective` | snpm-core/src/linker/virtual_store.rs:788-846 | the hashed stream determines id, tarball, integrity, dependency list and peer list |
| `EntryHash.MissingIsNoEntry` | snpm-core/src/linker/virtual_store.rs:798-840 | a package missing from the graph never has the stream of one that is there |
| `EntryHash.MissingStreamInjective` | snpm-core/src/linker/virtual_store.rs:788-790 | the stream of a missing package determines its id |
| `EntryHash.CycleStreamInjective` | snpm-core/src/linker/virtual_store.rs:792-796 | the stream of an id met again while it is being hashed determines the id |
| `EntryHash.CycleIsNoOther` | snpm-core/src/linker/virtual_store.rs:788-840 | it is the stream of no package and of no missing id, because no NUL ends it |
| `Closures.EqualHashEqualClosure` | snpm-core/src/linker/virtual_store.rs:777-858 | equal recursive hashes mean equal trees, with or without ids met again in them, or two different hash inputs below them have one hash |
| `HashTraversal.VisitFrame` | snpm-core/src/linker/virtual_store.rs:784-846 | a visit only adds to the memo, never an id on the stack, and never rewrites an entry |
| `HashTraversal.VisitIsPlain` | snpm-core/src/linker/virtual_store.rs:777-847 | from any memo that is right above no cycle, a visit leaves such a memo and returns the plain recursive hash of an id above no cycle, whatever cycles there are elsewhere |
| `HashTraversal.ClosureHashesPlainly` | snpm-core/src/linker/virtual_store.rs:788-844 | the Merkle hash of the closure is what the plain recursion computes for every id above no cycle |
| `HashTraversal.VisitUnfolds` | snpm-core/src/linker/virtual_store.rs:777-847 | every hash a visit returns or stores is the recursive hash of a tree that follows the graph's edges as far as it goes, cycles or not |
| `HashTraversal.UnbrokenIsClosure` | snpm-core/src/linker/virtual_store.rs:777-847 | a tree that unfolds a package without meeting an id again is its closure, and the package lies above no cycle |
| `HashTraversal.ClosureUnfolds` | snpm-core/src/linker/virtual_store.rs:777-847 | and the closure of a package above no cycle is such a tree |
| `HashTraversal.EntryHasher.Compute` | snpm-core/src/linker/virtual_store.rs:777-847 | terminates on every finite graph, restores `visiting`, and changes `hashes` as the specified visit does |
| `HashTraversal.EntryHasher.HashEdges` | snpm-core/src/linker/virtual_store.rs:806-839 | one loop over edges feeds the hasher exactly their records |
| `HashTraversal.GlobalEntryHashes` | snpm-core/src/linker/virtual_store.rs:759-775 | every package gets a hash, that of an unfolding of it, and each one above no cycle that of its closure, whatever order the ids are taken in |
| `HashTraversal.CycleHidesContent` | snpm-core/src/linker/virtual_store.rs:792-796 | two packages on a cycle where one hash is the same wherever the other's tarball comes from |
| `SharedStore.LocationInjective` | snpm-core/src/linker/virtual_store.rs:726-752 | a shared location determines id and hash |
| `SharedStore.LocalLocationInjective` | snpm-core/src/linker/virtual_store.rs:721-742 | a location in the project's own view, which carries no hash, determines the id |
| `SharedStore.WiredKeepsEdges` | snpm-core/src/linker/virtual_store.rs:182-186 | merging edges with different names loses none |
| `SharedStore.NoEdgeLost` | snpm-core/src/linker/virtual_store.rs:178-186 | dependencies and resolved peers together are all wired, each to its own target |
| `SharedStore.NodeModules.Wire` | snpm-core/src/linker/virtual_store.rs:170-236 | fails exactly when a target has no location, before changing anything; otherwise each wired name is a link to its target's location and nothing else changes |
| `SharedStore.NodeModules.LinkAll` | snpm-core/src/linker/virtual_store.rs:206-233 | the loop leaves the old entries overlaid with the links |
| `SharedAgreement.SameLocationSameClosure` | snpm-core/src/linker/virtual_store.rs:726-858 | for two packages above no cycle in their graphs: equal closures land on one location, and one location means one id and equal closures or an exhibited collision |
| `SharedAgreement.SameLocationSameUnfolding` | snpm-core/src/linker/virtual_store.rs:726-858 | two packages with unfoldings at one location, whatever cycles there are, are one package with equal unfoldings, or a collision is exhibited |
| `SharedAgreement.SameLocationAsAny` | snpm-core/src/linker/virtual_store.rs:726-858 | a package above no cycle shares its location with any package of another graph only if that is the same package, above no cycle too and with the same closure, or a collision is exhibited |
| `SharedAgreement.EqualClosureEqualRecord` | snpm-core/src/linker/virtual_store.rs:798-839 | equal closures have equal tarballs, integrity, dependency and peer edges, and equal closures at every edge |
| `SharedAgreement.EqualClosureEqualBelow` | snpm-core/src/linker/virtual_store.rs:777-847 | the same holds at every package reachable below |
| `SharedAgreement.SameLocationSameLinks` | snpm-core/src/linker/virtual_store.rs:170-236 | two projects that land on one location wire it to the same targets, or a collision is exhibited; only what lies below the two packages has to be free of cycles |
| `SharedAgreement.LocatedIffTargetsShared` | snpm-core/src/linker/virtual_store.rs:206-212 | wiring an entry succeeds exactly when all its edges point at packages with a location |
| `SharedAgreement.WireEntry` | snpm-core/src/linker/virtual_store.rs:76-84 | one entry is wired as specified, or fails for a missing target |
| `SharedAgreement.WireShared` | snpm-core/src/linker/virtual_store.rs:69-90 | all entries are wired as specified, and it fails exactly when some edge leaves the set |
| `SharedAgreement.ClosedEdges` | snpm-core/src/linker/virtual_store.rs:508-529 | in a graph closed under dependencies and root choices every bound peer is a package of the graph |
| `SharedAgreement.PopulateShared` | snpm-core/src/linker/virtual_store.rs:32-96 | the shared set is the graph without what leads to a package that is kept: none of it is patched, may run scripts, is listed, comes from a directory or lacks a peer, and it is the whole graph if no package does; wiring fails exactly when an edge leaves the graph, so never on a closed one, no shared entry points outside the shared set, every location is that of an unfolding of the package, and above no cycle that of the closure |
| `SharedAgreement.PopulatedPaths` | snpm-core/src/linker/virtual_store.rs:83-84 | a populated project gives every wiring target of a package above no cycle the location of its closure |
| `SharedAgreement.ProjectsAgree` | snpm-core/src/linker/virtual_store.rs:32-96 | after two projects have populated the store: where they use one location for packages above no cycle, the package is one, and both have put the same links into its entry, or the hash collided |
| `SharedAgreement.AnyTwoAgree` | snpm-core/src/linker/virtual_store.rs:32-96 | after two projects have populated the store: any two packages at one location, on cycles or not, are one package with the same tarball, integrity, dependencies and bound peers in both, or the hash collided |
| `SharedAgreement.MeetsAnyPackage` | snpm-core/src/linker/virtual_store.rs:32-96 | where a package above no cycle shares its location with any package of the other project, that one lies above no cycle too, and both have put the same links into the entry, or the hash collided |
| `Materialize.StepKeepsInvariant` | snpm-core/src/linker/virtual_store.rs:101-156 | every step of every process keeps the protocol invariant |
| `Materialize.AlwaysAbsentOrFull` | snpm-core/src/linker/virtual_store.rs:124-155 | in every interleaving of any number of processes, crashes included, the location is absent or a full copy |
| `Materialize.OkSawItComplete` | snpm-core/src/linker/virtual_store.rs:107-155 | a call that returns Ok does so at a step where the location is complete |
| `Materialize.OnlyRenameAndRemoveMoveIt` | snpm-core/src/linker/virtual_store.rs:116-140 | the location changes only by a rename from absent to full or a removal from full to absent |
| `Materialize.FailsOnlySo` | snpm-core/src/linker/virtual_store.rs:129-155 | a call fails only in the cleanup after a link that failed, or in the second look after a rename that failed with nothing there either; the location does not change then |
| `Materialize.OkWhenComplete` | snpm-core/src/linker/virtual_store.rs:107-155 | a call whose rename works, or that finds a full copy at first or after its rename failed, returns Ok, with the full copy there |
| `Materialize.Completes` | snpm-core/src/linker/virtual_store.rs:101-156 | from any state with the location absent or full, a call that has the place to itself and whose system calls all work ends with Ok and the full copy |
| `Materialize.InOrder` | snpm-core/src/linker/virtual_store.rs:101-156 | in every run each process makes its system calls in the order of the program |
| `Materialize.EffectOf` | snpm-core/src/linker/virtual_store.rs:116-155 | what each call does to the location and the process's own staging directory, nothing where it fails, and never anything to another's |
| `Materialize.AlwaysRooted` | snpm-core/src/linker/virtual_store.rs:116-155 | however calls are interleaved, and with removal entry by entry, there is never an entry without the directories above it |
| `Materialize.MayStop` | snpm-core/src/linker/virtual_store.rs:101-156 | a process can crash at any point, and linking can fail from the creation of the staging directory on |
| `Materialize.PartialRemovalIsUnsafe` | snpm-core/src/linker/virtual_store.rs:117-146 | if directories are removed entry by entry, for every package with an entry nothing lies in and any other entry an interleaving lets a call succeed without a full copy before or after its last step |
| `Materialize.AlwaysPart` | snpm-core/src/linker/virtual_store.rs:101-156 | with removal entry by entry the location still never holds anything but entries of the package |
| `Materialize.UnsafeIffTwoEntries` | snpm-core/src/linker/virtual_store.rs:116-146 | such an interleaving exists if and only if the package has at least two entries, files or directories |
| `Materialize.EmptyDirectoryIsUnsafe` | snpm-core/src/linker/virtual_store.rs:870-881 | it exists for the metadata file beside an empty directory |
| `Integrity.HexInjective` | snpm-core/src/store/integrity.rs:200-206 | the hexadecimal text of a digest determines it |
| `Integrity.HexMeans` | snpm-core/src/store/integrity.rs:200-206 | each byte is two lower-case digits, the upper half first |
| `Integrity.Parse` | snpm-core/src/store/integrity.rs:80-114 | the token loop reads the specified tokens and flags; nothing to check exactly for a blank value |
| `Integrity.ParseTokenMeans` | snpm-core/src/store/integrity.rs:89-97 | a word is a token exactly if it is `sha512`, `sha256` or `sha1`, a dash, and what is expected, perhaps with options behind a question mark |
| `Integrity.ParseTokensOf` | snpm-core/src/store/integrity.rs:89-113 | the tokens of a value are those of its words, in order |
| `Integrity.Verifier.Update` | snpm-core/src/store/integrity.rs:225-235 | every hasher in use has absorbed exactly the bytes fed so far |
| `Integrity.Verifier.Finish` | snpm-core/src/store/integrity.rs:237-281 | the verdict is that of the first token whose digest is the absorbed content's, with its errors in order |
| `Integrity.VerifyChunks` | snpm-core/src/store/integrity.rs:46-77 | the verdict depends on the content only, not on how it is cut into chunks |
| `Integrity.ScanDecides` | snpm-core/src/store/integrity.rs:254-280 | the first token that matches or cannot be decoded decides the verdict, and the end of the list refuses |
| `Integrity.AcceptedIff` | snpm-core/src/store/integrity.rs:237-281 | content is accepted if and only if it matches a token and every token before that one can be decoded; it gets a key exactly if the value is cacheable |
| `Integrity.CacheKeys` | snpm-core/src/store/integrity.rs:137-162 | exactly the keys of the tokens, each once, stronger algorithms first |
| `BlobCache.ScanAccepts` | snpm-core/src/store/integrity.rs:254-275 | content that matches a token is accepted if every token before that one can be decoded |
| `BlobCache.ScanKey` | snpm-core/src/store/integrity.rs:269-274 | accepted content has a key exactly if the value is cacheable; the key belongs to a token and names the content's own digest |
| `BlobCache.HitWouldVerify` | snpm-core/src/store/fetch.rs:58-90 | a blob found under any key of an integrity value would pass the verifier |
| `BlobCache.Cache.FindCached` | snpm-core/src/store/fetch.rs:58-61 | hits exactly if some key of the value has a blob, and then with one of a strongest algorithm; a hit is verified content |
| `BlobCache.Cache.Publish` | snpm-core/src/store/fetch.rs:262-312 | the answer in every case: content that the first matching token accepts is handed out, and stored under that token's key if the whole value can be decoded and the rename works; if it does not, a blob that is there is handed out, or the write is the error; without a match the value or the mismatch is; what is handed out verifies |
| `BlobCache.Cache.Fetch` | snpm-core/src/store/fetch.rs:50-121 | the answer in every case: from the cache, whatever the server answers, if some key has a blob; otherwise the transport error, or that of `Publish`; stored blobs never change, and whatever is added is the returned content |
| `BlobCache.FetchAll` | snpm-core/src/store/fetch.rs:50-121 | over every sequence of downloads, with other processes storing in between, every answer is as `Fetch` says, and everything handed out verifies |
| `BlobCache.LaterRequestsHit` | snpm-core/src/store/fetch.rs:60-90 | once a request for a value that can be cached has worked, every later one for it works without the server |
| `BlobCache.GoodDownloadWorks` | snpm-core/src/store/fetch.rs:193-303 | a complete download that the value accepts, not cached yet and with a rename that works, is handed out, and stored under a key of the value if that can be cached |
| `PackageTree.ParentsAreDirectories` | snpm-core/src/linker/fs/copy.rs:68-75 | whatever lies below the root of a tree lies in a directory of the tree |
| `PackageTree.FlattenMeans` | snpm-core/src/store/metadata.rs:229-273 | the flat tree holds at a path exactly what is found by going down its names |
| `TreeIndex.Index.CollectDirectoryShape` | snpm-core/src/store/metadata.rs:210-273 | fails exactly when it meets a symlink; otherwise appends exactly the specified directories, files and nested roots |
| `TreeIndex.CollectPackageTreeIndex` | snpm-core/src/store/metadata.rs:187-208 | both lists are strictly sorted and hold exactly what the scan found and the metadata files to be written |
| `TreeIndex.SortedDistinct` | snpm-core/src/store/metadata.rs:202-205 | sorting and removing repeats keeps exactly the listed paths, each once |
| `TreeIndex.SortedHoldsOnce` | snpm-core/src/store/metadata.rs:202-205 | a strictly sorted list holds no path twice |
| `TreeIndex.ScanMeaning` | snpm-core/src/store/metadata.rs:229-269 | a path is listed as directory or file exactly when it is one and passes no metadata file name |
| `TreeIndex.NestedMeaning` | snpm-core/src/store/metadata.rs:259-268 | the nested roots are exactly the directories other than the root that hold a listed `package.json` |
| `TreeIndex.MeetsRealLink` | snpm-core/src/store/metadata.rs:242-250 | a refusal is due to a symlink that is really in the tree |
| `TreeIndex.ShapeListsTree` | snpm-core/src/store/metadata.rs:146-208 | whether or not every write succeeded, the shape lists the tree that is on disk afterwards if and only if everything with the name of a metadata file is a file where one is written, and every such file is there |
| `TreeIndex.PersistMetadata` | snpm-core/src/store/metadata.rs:153-164 | the writes happen in order up to the first that meets a directory or that the system refuses or cuts short |
| `TreeIndex.WriteAllFrame` | snpm-core/src/store/metadata.rs:153-164 | nothing is lost or changes its kind, only metadata files are written, and what is new are exactly the files put there, the last one perhaps cut short |
| `TreeIndex.WriteAllFails` | snpm-core/src/store/metadata.rs:153-162 | the writes fail exactly when a directory has the name of a metadata file to write or the system does not do a write; without a failure all of them are there |
| `TreeIndex.InPlaceSucceeds` | snpm-core/src/store/metadata.rs:153-164 | with all metadata in place and every write done, none fails and every metadata file is there |
| `TreeIndex.DirectoryInTheWay` | snpm-core/src/store/metadata.rs:153-162 | a package with a directory of the metadata name beside a nested manifest: the nested write fails, and the stored shape lists that directory as a file |
| `TreeCopy.Destination.CreateDirAll` | snpm-core/src/linker/fs/copy.rs:16-33 | never removes anything or turns a directory into a file; success means the path and everything above it are directories, and it succeeds if they are directories of the tree being built |
| `TreeCopy.Destination.CopyByShape` | snpm-core/src/linker/fs/copy.rs:15-38 | gives exactly the source if and only if every listed directory is one, every listed file is one, and every item of the source is a listed file or a directory at or above a listed path; nothing else ever appears |
| `TreeCopy.Destination.CopyByScan` | snpm-core/src/linker/fs/copy.rs:40-78 | succeeds exactly without symlinks, and then adds exactly the scanned tree |
| `TreeCopy.CopyBothWays` | snpm-core/src/linker/fs/copy.rs:15-79 | by the shape the copy of a stored package is the package if and only if all metadata was in place and is there; by a scan it is unless it holds a symlink |
| `TreeCopy.CopyDir` | snpm-core/src/linker/fs/copy.rs:9-38 | `copy_dir` itself goes by the stored shape if there is one and scans otherwise: by a shape it gives the source if and only if the shape covers it in that sense, which where the root's metadata was written means that all metadata was in place and is there; without a stored shape, as with a directory of that name, it gives it unless the package holds a symlink |
| `TreeCopy.InPlaceIffCovered` | snpm-core/src/store/metadata.rs:146-208 | the shape of a stored package covers the stored tree if and only if all metadata was in place and is there |
| `RootLinks.Hoisted` | snpm-core/src/linker/hoist.rs:21-42 | exactly the names the mode hoists, each with its package |
| `RootLinks.HoistedIsNamed` | snpm-core/src/linker/hoist.rs:23-36 | what is hoisted to a name is a package of the graph with that name |
| `RootLinks.HoistedMeans` | snpm-core/src/linker/hoist.rs:21-42 | to a name the single-version mode hoists the only package of that name and the other mode the first one in key order |
| `RootLinks.RootModules.PruneStaleRootEntries` | snpm-core/src/linker/root.rs:90-128 | removes exactly the links into a virtual store whose names are not kept |
| `RootLinks.RootModules.PruneEntryIfStale` | snpm-core/src/linker/root.rs:130-150 | removes the one entry if it is such a link |
| `RootLinks.RootModules.LinkAll` | snpm-core/src/linker/root.rs:14-46 | succeeds exactly when every claimed package has a location, and then overlays exactly the claimed links |
| `RootLinks.RootModules.LinkProject` | snpm-core/src/linker/mod.rs:64-92 | pruning, linking and hoisting leave the user's entries overlaid with root links overlaid with hoisted links; successful or not, user entries at unclaimed names stay |
| `RootLinks.StoreLinksDependOnCallOnly` | snpm-core/src/linker/mod.rs:66-92 | the links into the store afterwards do not depend on what was there before |
| `RootLinks.WhatIsThere` | snpm-core/src/linker/mod.rs:64-92 | after a successful call a name stands for what is hoisted to it, or else for the root dependency, or else for what the user had there, links into the store apart |
| `RootLinks.RootLinkSurvivesIff` | snpm-core/src/linker/mod.rs:80-92 | with every package at its place in the project's view, a root link is unchanged by hoisting if and only if nothing, or the same package, is hoisted to its name |
| `RootLinks.SingleVersionKeepsOwnNames` | snpm-core/src/linker/hoist.rs:27-36 | in single-version mode a dependency under its own name keeps its link; an alias loses it exactly when one package alone has that name |
| `RootLinks.AliasLosesItsLink` | snpm-core/src/linker/hoist.rs:27-36 | a root dependency under an alias whose link is replaced by the package that really has that name, with both packages at their places in the project's view |
| `RootLinks.InstallAll` | snpm-core/src/linker/mod.rs:26-93 | after any sequence of calls, failed ones included: exactly those with a location for every claimed package succeeded, user entries at names never claimed are as they were, and if the last call succeeded the store links are its own |
| `RootLinks.RunInstall` | snpm-core/src/linker/mod.rs:64-92 | one call on whatever is there: its outcome, its links if it succeeds, and user entries at unclaimed names kept in any case |
| `CargoReq.ReadWrittenList` | snpm-semver/src/range/parse.rs:27 | a written list of comparators, with or without wildcards in the last places, reads back as itself, up to Cargo's limit of 32, and is refused beyond it |
| `CargoReq.RequirementOf` | snpm-semver/src/range/parse.rs:27 | the same for a whole requirement |
| `CargoReq.WildcardIsRefused` | snpm-semver/src/range/parse.rs:27 | a wildcard alone is refused behind any comparators and before anything else |
| `NpmRanges.ComparatorsAgree` | snpm-semver/src/range/mod.rs:18-20 | every operator, on one to three numbers, means for Cargo the version interval it means for npm |
| `NpmRanges.BareCaretIff` | snpm-semver/src/range/parse.rs:59-74 | reading a version on its own as a caret keeps npm's meaning if and only if it has the form X, 0.Y or 0.0.Z |
| `NpmRanges.ReadAsMeantIff` | snpm-semver/src/range/parse.rs:59-74 | a list of comparators, read with carets for versions on their own, admits exactly what npm admits if and only if no such version that its caret widens leaves anything above it within the ends of the list |
| `NpmRanges.ListIsInterval` | snpm-semver/src/range/parse.rs:59-74 | what a list is read as is the interval between its greatest lower and least upper end |
| `Ranges.JoinTokens` | snpm-semver/src/range/parse.rs:59-73 | the loop puts a blank after each lone operator and a comma between all other tokens |
| `Ranges.NormalizeAndPart` | snpm-semver/src/range/parse.rs:44-74 | one part is normalized as specified |
| `Ranges.ReadParts` | snpm-semver/src/range/parse.rs:18-30 | the loop reads the requirements of the parts in order and stops at the first that Cargo refuses |
| `Ranges.ParseInternal` | snpm-semver/src/range/parse.rs:5-42 | the parser computes the specified set of requirements, or the error with the original text |
| `RangeTokens.SplitTrim` | snpm-semver/src/range/parse.rs:6-20 | trimming a range changes no word of any of its parts |
| `RangeTokens.StripTerms` | snpm-semver/src/range/parse.rs:79-93 | stripping turns the words of comparators into those without their `v` |
| `RangeTokens.JoinTerms` | snpm-semver/src/range/parse.rs:59-73 | joining the tokens of comparators gives their comma-separated Cargo text, glued or spaced |
| `RangeMeaning.BareRewrites` | snpm-semver/src/range/parse.rs:177-204 | `X` and versions with wildcards stay, `X.Y` becomes the two bounds of its series, `X.Y.Z` becomes exact |
| `RangeMeaning.WildIsNotPlain` | snpm-semver/src/range/parse.rs:95-119 | a version with a wildcard in it is never taken for an exact one |
| `RangeMeaning.HyphenRewrites` | snpm-semver/src/range/parse.rs:153-175 | a hyphen range with bounds of one to three places becomes its lower bound and the exact upper bound; three places may end in wildcards |
| `RangeMeaning.MarkedIsKept` | snpm-semver/src/range/parse.rs:177-187 | a text with an operator, blank or comma is passed on unchanged |
| `RangeAgreement.RewrittenAgrees` | snpm-semver/src/range/parse.rs:136-187 | the comparators a piece is rewritten to match exactly the versions the piece denotes |
| `RangeAgreement.PartMeaning` | snpm-semver/src/range/parse.rs:136-151 | a part written as a piece is never skipped or refused, and its requirement matches exactly what the piece denotes |
| `RangeAgreement.RangeMeansPieces` | snpm-semver/src/range/parse.rs:5-42 | any union of bare versions, hyphen ranges, comparator lists and lone wildcards, with wildcards in the last places of versions, parses, and the result matches a release exactly when one of the parts denotes it |
| `RangeAliases.AliasMeansPieces` | snpm-semver/src/range/parse.rs:12-16 | a range behind `npm:name@` or `jsr:name@`, for plain and scoped names, parses and means what the range means on its own |
| `RangeAliases.ExtractsRange` | snpm-semver/src/range/parse.rs:121-134 | what is extracted is the text after the last `@`, also behind a scope, and a wildcard if that is blank |
| `RangeAgreement.ListReadsCarets` | snpm-semver/src/range/parse.rs:59-74 | every list of comparators parses, and a version on its own without wildcards in it is read as a caret |
| `RangeAgreement.ListMeansIff` | snpm-semver/src/range/parse.rs:59-74 | every list of up to 32 comparators parses and matches exactly the versions npm means if and only if that condition holds |
| `RangeAgreement.TooManyAreRefused` | snpm-semver/src/range/parse.rs:27-28 | a list of more than 32 comparators is an error |
| `RangeAgreement.LoneWildcardIsRefused` | snpm-semver/src/range/parse.rs:59-74 | a part with a wildcard on its own among other words, before, between or after comparators, is an error, though npm reads the wildcard as no limit |
| `RangeAgreement.BareBesideOperatorIff` | snpm-semver/src/range/parse.rs:59-74 | beside `>=0` a version on its own keeps npm's meaning if and only if a caret leaves it alone; beside `<=` the same version it always does |
| `RangeAgreement.LowWildcardIsRefused` | snpm-semver/src/range/parse.rs:157-161 | a hyphen range whose lower end is a number and one wildcard is an error |
| `RangeAgreement.HighWildcardReads` | snpm-semver/src/range/parse.rs:168-172 | as an upper end a number and one wildcard is read as if the wildcard were a zero |
| `RangeAgreement.HighWildcardIff` | snpm-semver/src/range/parse.rs:168-172 | that keeps npm's meaning if and only if no version lies between the two ends |
| `RangeAgreement.WildcardEndReads` | snpm-semver/src/range/parse.rs:164-167 | a wildcard on its own as an upper end is read as a zero, so that only versions below 1.0.0 match where npm means no limit; some version npm means is always missing |
| `NodeResolve.HighestMatching` | snpm-core/src/node/resolve.rs:203-231 | the loop returns the label of the pick among the releases the filter keeps |
| `NodeResolve.PickIsHighest` | snpm-core/src/node/resolve.rs:225-228 | the pick is the first of those with the highest version, and none only if none is kept |
| `NodeResolve.LabelIsChosen` | snpm-core/src/node/resolve.rs:203-231 | the label returned is that of the first highest release kept |
| `NodeResolve.ChosenIsHighest` | snpm-core/src/node/resolve.rs:203-231 | no release the filter keeps is higher, and none before it is as high |
| `NodeResolve.MatchPartial` | snpm-core/src/node/resolve.rs:183-232 | computes the specified label for a partial version |
| `NodeResolve.MatchRange` | snpm-core/src/node/resolve.rs:234-259 | computes the specified label for a range, none if the range does not parse |
| `NodeResolve.PartialAndRangeAgree` | snpm-core/src/node/resolve.rs:183-259 | for `X` and `X.Y` both return the same label, the highest release of the series |
| `NodeResolve.SeriesResolves` | snpm-core/src/node/resolve.rs:63-146 | a selector `X` or `X.Y` that is no alias resolves to that label and fails when the series is empty |
| `NodeResolve.RangeResolves` | snpm-core/src/node/resolve.rs:234-259 | a selector that is a range of pieces resolves to the first highest release that one of them denotes, and is an error if none does |
| `NodeResolve.ExactResolves` | snpm-core/src/node/resolve.rs:29-38 | `X.Y.Z` with or without a `v` that is no alias resolves to that version with a `v`, index or not |
| `NodeResolve.LatestResolves` | snpm-core/src/node/resolve.rs:123-156 | `latest`, `current`, `node` and `stable`, in any case, are the first release of the index, and an error if that is empty |
| `NodeResolve.LtsResolves` | snpm-core/src/node/resolve.rs:40-55 | `lts`, `--lts`, `lts/`, `lts/*` and `lts/latest` are the first release with a codename, `lts/name` the first with that one, in any case; without one they are an error |
| `NodeResolve.LatestLtsMeans` | snpm-core/src/node/resolve.rs:158-181 | the search stops at the first release that has a codename, or the one asked for, and fails exactly without any |
| `NodeResolve.NoIndexFails` | snpm-core/src/node/resolve.rs:112-121 | without an index a selector that is no version and no alias is an error |
| `NodeResolve.BadSelectorFails` | snpm-core/src/node/resolve.rs:75-92 | so are a blank selector and one whose alias file cannot be read |
| `NodeResolve.ShortChainResolves` | snpm-core/src/node/resolve.rs:63-110 | an alias chain of at most eight hops resolves as its last selector does, and names the first alias and its target as its source |
| `NodeResolve.ResolvedFromShortChain` | snpm-core/src/node/resolve.rs:70-92 | whatever resolves came from the end of a chain of at most eight hops |
| `NodeResolve.CycleGoesOn` | snpm-core/src/node/resolve.rs:83-92 | a chain that meets an alias twice has hops without end |
| `NodeResolve.LongOrCyclicChainFails` | snpm-core/src/node/resolve.rs:70-74 | longer chains and cyclic chains end in the hop-limit error |
| `SideEffects.MarkerIsRead` | snpm-core/src/lifecycle/runner/cache.rs:276-291 | a written marker is read back, and no other name changes |
| `SideEffects.MarkerMeans` | snpm-core/src/lifecycle/runner/cache.rs:280-287 | a marker is read exactly from a file of the name with 128 hexadecimal digits between blanks, in lower case |
| `SideEffects.MarkerIsWritten` | snpm-core/src/lifecycle/runner/cache.rs:289-292 | the marker can be written exactly if its name stands for nothing yet, or for a file |
| `SideEffects.CopyIsWhole` | snpm-core/src/lifecycle/runner/cache.rs:361-431 | a copy succeeds exactly when every entry could be created, and then equals its source |
| `SideEffects.CopyDirInner` | snpm-core/src/lifecycle/runner/cache.rs:374-431 | the recursive loop leaves behind exactly the specified part of the tree when it stops |
| `SideEffects.EntriesAreGood` | snpm-core/src/lifecycle/runner/cache.rs:33-77 | a new entry's slot is named by its own hash, whether read from a marker or computed |
| `SideEffects.SlotsApart` | snpm-core/src/lifecycle/runner/cache.rs:33-77 | on one machine two Node majors, two versions or two digests never share a slot, and two names only if one has a slash where the other has underscores |
| `SideEffects.Disk.RestoreIfAvailable` | snpm-core/src/lifecycle/runner/cache.rs:79-110 | changes the disk and answers as the specified transition, also when removing the old directory, making the new one or the copy fails midway |
| `SideEffects.Disk.Save` | snpm-core/src/lifecycle/runner/cache.rs:154-211 | changes the disk and answers as the specified transition, also when the marker's write is refused or cut short or the copy stops |
| `SideEffects.RestoreMeans` | snpm-core/src/lifecycle/runner/cache.rs:79-110 | a restore answers that the artifact is applied exactly if the marker names the slot, a miss exactly without a slot, and works exactly if the directory is cleared and there is room for the slot, whose tree it then is; no other directory changes |
| `SideEffects.SaveMeans` | snpm-core/src/lifecycle/runner/cache.rs:154-206 | a save works exactly if the marker can be written and the slot is there or has room; then the slot, if new, is the marked directory |
| `SideEffects.StepKeepsSlots` | snpm-core/src/lifecycle/runner/cache.rs:154-206 | no call, complete or failed, changes a slot that exists or creates one without its marker |
| `SideEffects.SlotsNeverChange` | snpm-core/src/lifecycle/runner/cache.rs:79-211 | over every run a slot never changes once it exists and always holds the marker naming it |
| `SideEffects.RestoredIsRecognized` | snpm-core/src/lifecycle/runner/cache.rs:33-91 | a successful restore leaves exactly the saved tree, and a fresh entry of the same name, version and platform is that entry and finds it applied |
| `SideEffects.SaveThenRestore` | snpm-core/src/lifecycle/runner/cache.rs:79-211 | saving, any run, then restoring gives back the tree that was saved |
| `SideEffects.BrokenRestoreLooksApplied` | snpm-core/src/lifecycle/runner/cache.rs:79-91 | a restore that stops midway never leaves the saved tree, and a fresh entry takes it for applied if and only if more could be created than comes before the marker |
| `SideEffects.CopiedHas` | snpm-core/src/lifecycle/runner/cache.rs:374-431 | a copy that stops has the file of a name if and only if more could be created than comes before it |
| `SideEffects.SafeIffMarkerLast` | snpm-core/src/lifecycle/runner/cache.rs:361-431 | no failing copy of a slot has the marker if and only if the marker is the slot's last entry |
| `SideEffects.MistakenMeans` | snpm-core/src/lifecycle/runner/cache.rs:79-85 | a directory is mistaken exactly when a fresh entry answers that the artifact is applied although the directory is not the slot's tree |
| `SideEffects.RestoreMisleadsIff` | snpm-core/src/lifecycle/runner/cache.rs:87-90 | exactly which restores leave a mistaken directory, told from slot and room |
| `SideEffects.RestoreStepMisleadsIff` | snpm-core/src/lifecycle/runner/cache.rs:79-110 | the same for any outcome of clearing the directory: partly removed, removed and not made again, or made anew |
| `SideEffects.StepMisleadsIff` | snpm-core/src/lifecycle/runner/cache.rs:79-211 | exactly which restores, saves, edits and failed removals make a directory mistaken, told from the state before; a save whose marker is cut short never does |
| `SideEffects.PartlyMarkedIsNotMistaken` | snpm-core/src/lifecycle/runner/cache.rs:281-291 | a marker whose write was cut short names nothing: the save fails and no directory becomes mistaken by it |
| `SideEffects.MistakenFromAStep` | snpm-core/src/lifecycle/runner/cache.rs:79-211 | over every run a directory that ends up mistaken was made so by such a step |
| `SideEffects.SaveAfterBrokenRestore` | snpm-core/src/lifecycle/runner/cache.rs:154-163 | the save that follows a failed restore writes the marker, so the directory is mistaken unless it has become the slot's tree |
| `SideEffects.MarkerAloneIsMistaken` | snpm-core/src/lifecycle/runner/cache.rs:83-90 | a restore that left the marker alone and is taken for complete |
| `SideEffects.SavedEmptinessIsMistaken` | snpm-core/src/lifecycle/runner/cache.rs:154-163 | a restore that left nothing, marked by the save after it and taken for complete |
| `SideEffects.OtherPlatformIsMistaken` | snpm-core/src/lifecycle/runner/cache.rs:39-91 | a complete restore for one platform that is taken for the artifact of another one |
| `Capabilities.LatestFailedMeaning` | snpm-core/src/linker/fs/capabilities.rs:86-89 | the latest outcome is a failure exactly when some failure has no later success on that pair and primitive |
| `Capabilities.RecordKeeps` | snpm-core/src/linker/fs/capabilities.rs:113-134 | dropping successes until the first failure loses nothing: flag and cache keep answering as the whole history would |
| `Capabilities.LinkMemory.ReflinkLikely` | snpm-core/src/linker/fs/capabilities.rs:97-111 | answers unlikely exactly when the latest reflink outcome recorded for the pair was a failure |
| `Capabilities.LinkMemory.HardlinkLikely` | snpm-core/src/linker/fs/capabilities.rs:136-150 | the same for hard links |
| `Capabilities.LinkMemory.RecordReflinkOutcome` | snpm-core/src/linker/fs/capabilities.rs:113-134 | adds the outcome to the history of readable pairs and leaves everything known about hard links |
| `Capabilities.LinkMemory.RecordHardlinkOutcome` | snpm-core/src/linker/fs/capabilities.rs:152-169 | adds the outcome to the history of readable pairs and leaves everything known about reflinks |

## Left out

- Peers.Highest: versions that differ only in build metadata count as equal here; the semver crate orders them too, so among such versions the program's pick is by build metadata.
- SharedStore.NodeModules.Wire: the dependency-state file that skips wiring (virtual_store.rs:188-196, 235) is not modelled, because it rests on directory timestamps; entries are wired every time. The copy made when a symlink cannot be created is not modelled either. A missing location fails before anything is changed because the state hash needs every location first.
- SharedAgreement.SameLocationSameClosure: names, versions, tarballs and integrity values are assumed free of NUL, and versions free of `/`. Of a package that reaches a cycle it is proved that its location fixes its own record (`SharedAgreement.AnyTwoAgree`); what its targets' locations are depends on the order of traversal (`HashTraversal.CycleHidesContent`).
- Materialize.AlwaysAbsentOrFull: removing a directory is one step and process ids are distinct; without the first the counterexample applies. What an entry is, and the content of a file, are fixed by the store package, so a copy is the set of its entries.
- Walk.CollectJobs: the directory graph is fixed during the walk, so a restore from the side-effects cache does not add directories to it; what the cache answers for a package is a parameter. That nothing reachable is missed is stated where the walk comes to no container that holds a `package.json`; with one, a directory visited as a container is not inspected as a package, and the outcome depends on the order of listing (`Walk.OrderDecides`).
- Walk.PlanInstallScripts: running the scripts, saving their effects and the worker pool are left out; only the plan is modelled.
- RootLinks.RootModules.LinkAll: the copy made when a symlink cannot be created is left out, and so are removal of emptied scope directories, `.bin` launchers and the linking of executables. A scoped name is one key.
- TreeIndex.WriteAllFrame: what a symlink with the name of a metadata file points at is not followed; writing through it leaves the link.
- TreeCopy.CopyBothWays: a symlink with the name of the root's metadata file counts as no stored shape; a listed file that is a symlink counts as a failure of the indexed copy, which would copy what it points at; nested packages carry no shape of their own, as `persist_package_metadata` writes none for them, and a metadata file shipped in a nested directory is taken to hold none; the second metadata file for a package whose root lies below its directory (metadata.rs:166-178) and the in-memory cache of metadata are left out.
- BlobCache.Cache.Fetch: the transport, retries, unpacking and temporary files are left out; a download is an error, or chunks of which the last may be missing. Blobs other processes store in between are assumed to have been stored by the same rule.
- CargoReq.ReadWrittenList: pre-release and build parts of the semver crate's syntax are not modelled; the model refuses them where the crate accepts them.
- RangeAgreement.RangeMeansPieces: versions are releases without pre-release parts, and numbers lie below 2^64-1; at the largest number the increment of a hyphen bound wraps or panics. Versions that begin with a wildcard followed by a dot, which npm accepts and Cargo refuses, are no pieces.
- NodeResolve.SeriesResolves: labels and exact selectors with a pre-release part are not read as versions by the model, so an index is one of releases.
- NodeResolve.ShortChainResolves: reading alias files is a map from selectors to contents, fixed during a resolution.
- SideEffects.SlotsNeverChange: calls are not interleaved with one another; the remote backend, stale staging directories and `hash_dir` (an arbitrary function to digests) are left out. A marker name that stands for a symlink is not written through.
- Capabilities.LinkMemory.ReflinkLikely: calls are atomic, so races between the relaxed flag and the locked map are left out, and so is how device numbers are found.
- HTTP, authentication, archive formats, SHA and base64 internals, serialization, configuration files, console output, command-line parsing and workspace discovery: opaque or easy.
- Resolution of the dependency graph itself and lockfile formats: the graph is an input.
