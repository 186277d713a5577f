# gx dependency-graph core, modelled in Dafny

gx is a package manager that stores packages in IPFS. A package is a
directory named after its IPFS hash. It holds a `package.json` manifest
with a name, a version, a language and a list of `gxDependencies`
edges. Each edge names a dependency, gives its hash and records the
version the importer saw.

This project models the sequential logic of gx over an abstract package
store, a map from hash to manifest, and proves what that logic promises:

- **Dependency queue and post-install walk** (`gxutil/pm.go`). The queue
  never holds a hash twice in its lifetime. The post-install pass visits
  the reachable packages in breadth-first discovery order and runs each
  package's hook before it queues that package's edges. A hook marker
  makes the hook idempotent.
- **Other graph walks** (`gxutil/pm.go`). `enumerateDepsRec` finds
  exactly the reachable hashes. `resolveDepName` prefers a direct
  dependency and remembers the subtrees it has already searched.
- **Hooks and install paths** (`gxutil/pm.go`): the subtool lookup, the
  hook decision and the install-path cache.
- **Manifest helpers** (`gxutil/pkgfile.go`): `FindDep` and `ForEachDep`.
- **Store lookups and fetching** (`gxutil/get.go`, `get.go`).
- **`gx check`** (`check.go`): the name, hash and importer index, the
  duplicate report and the edge agreement pass.
- **`gx update` cascade** (`update.go`): replacing a hash throughout a
  dependency tree.
- **The `gx view` query language** (`viewquery.go`).
- **Configuration loading and deep merge** (`gxutil/config.go`).
- **Publishing a package as a file tree** (`gxutil/publish.go`, `publish.go`).
- **Terminal helpers** (`ui.go`, `log.go`): the yes/no prompt and the
  dependency tree printer.
- **Rules embedded in `main.go`**: the version bump, the `view` lookup,
  `clean` and the `update` edge rewrite.
- **The GOPATH import-path rule** (`gxutil/go_utils.go`).

How outside effects are modelled:

- Effects such as the IPFS daemon, the file system, process runs and the
  JSON codec are parameters: functions from a request to its outcome.
- Where the Go code updates objects in place, the model uses a class.
  Examples are the dependency queue, the install-path cache, the hook
  markers, the update cascade's maps, the publisher and the manifest
  being edited.
- Loops become methods proved against specification functions.

Modules, one per source file:

- `Graph`: reachability, discovery order and ranks.
- `PkgFile`: the manifest.
- `DepQueue`, `Hooks`, `PostInstall`, `BfsWalk` and `Walks`:
  `gxutil/pm.go`.
- `Get`: `gxutil/get.go`.
- `RootGet`: `get.go`.
- `Check`: `check.go`.
- `Update`: `update.go`.
- `Json` and `ViewQuery`: `viewquery.go`.
- `Config`: `gxutil/config.go`.
- `Publish`: `gxutil/publish.go`.
- `RootPublish`: `publish.go`.
- `Ui`: `ui.go`.
- `MainRules`: `main.go`.
- `Log`: `log.go`.
- `GoUtils`: `gxutil/go_utils.go`.
- `Common`, `Strings` and `Sorting`: support modules for errors,
  Go's string functions and `sort`.

## Model

| member | source | states |
|---|---|---|
| PkgFile.FindDep | gxutil/pkgfile.go:95-102 | the index of the first edge, in list order, whose hash or name equals the reference; none exactly when no edge does |
| PkgFile.FindDepFrom | gxutil/pkgfile.go:95-102 | the same search from a given position: the first referring edge at or after it, none exactly when none does |
| PkgFile.SetDepHash | main.go:326-331 | writing through the pointer `FindDep` returns changes that edge's hash and nothing else in the package |
| PkgFile.Loaded | gxutil/pkgfile.go:104-112 | the edges `ForEachDep` manages to load: the longest prefix whose packages are stored, each paired with its package; the edge after it is not stored |
| PkgFile.ForEachDepIsLoadThenFold | gxutil/pkgfile.go:104-121 | `ForEachDep` runs the callback over the loaded prefix in list order; a callback error comes back unchanged and stops the walk; otherwise the first unloadable edge gives "package <name> (<hash>) not found" and no later edge is visited |
| PkgFile.SavePackageFile | gxutil/pkgfile.go:52-77 | the file is written directly exactly when reading it fails with not-exist; any other read error is returned; otherwise the existing contents are merged |
| PkgFile.DepHashesAppend | gxutil/pkgfile.go:36-41 | the hashes of two edge lists put together are the union of their hashes |
| DepQueue.NewDepsFacts | gxutil/pm.go:824-834 | the edges appended are edges of the package, carry pairwise distinct hashes, and carry exactly the package's hashes that were not yet added, including repeats within one package |
| DepQueue.AppendNewKeepsValid | gxutil/pm.go:824-834 | appending the new edges to a history without repeated hashes keeps it without repeats, and its hashes become the old ones plus the package's |
| DepQueue.DependencyQueue.constructor | gxutil/pm.go:814-819 | a new queue is empty and has added nothing |
| DepQueue.DependencyQueue.AddPackageDependencies | gxutil/pm.go:824-834 | appends the edges whose hash was never added, marks every hash of the package as added, returns how many were appended, and keeps the history free of repeated hashes |
| DepQueue.DependencyQueue.Len | gxutil/pm.go:837-839 | the number of queued edges |
| DepQueue.DependencyQueue.Pop | gxutil/pm.go:843-851 | on an empty queue returns nothing and changes nothing; otherwise returns the oldest edge and removes it; the added set and the history are unchanged |
| Hooks.SplitPath | gxutil/pm.go:679-681 | `filepath.Split`: the two parts concatenate to the path, the file part has no separator and the directory part ends in one |
| Hooks.SubtoolPath | gxutil/pm.go:663-694 | no language means no helper; a helper on `PATH` is used by its name; a lookup error other than "not found" is returned; otherwise the binary next to the executable when the executable has a directory and that binary exists, else none |
| Hooks.EmptyEnvHasNoSubtool | gxutil/pm.go:664-666 | an empty language never yields a helper binary |
| Hooks.HookPlan | gxutil/pm.go:696-721 | no helper and required gives an error; no helper and not required runs nothing; otherwise the helper is run with `hook <name>` followed by the arguments |
| Hooks.TryRunHook | gxutil/pm.go:696-721 | an empty language returns nil unless the hook is required, which is an error; a planning error is returned; a failed run is reported as the hook having failed; a planned run returns nil exactly when the process succeeds, and otherwise `<hook> hook failed: <error>` |
| Hooks.CacheKeyGlobalLocalDistinct | gxutil/pm.go:761-775 | the global and the local install path of one language are cached under different keys |
| Hooks.CacheKeyInjective | gxutil/pm.go:761-775 | two languages and flags share a cache key exactly when they are equal, for languages not ending in " --global" |
| Hooks.AskInstallPath | gxutil/pm.go:725-759 | no helper gives "vendor" as a local path; a helper's answer is trimmed of blanks; the `--global` flag is passed exactly for a global install |
| Hooks.InstallPathRun | gxutil/pm.go:743-747 | the helper is invoked as `hook install-path`, with one more argument exactly when global |
| Hooks.InstallPathRuns | gxutil/pm.go:725-759 | a cache miss runs the helper at most once, and only when there is a helper |
| Hooks.InstallPathCache.constructor | gxutil/pm.go:761-775 | the process-wide cache starts empty |
| Hooks.InstallPathCache.Check | gxutil/pm.go:761-767 | found exactly when the key is cached, with the cached value; otherwise the empty string |
| Hooks.InstallPathCache.Set | gxutil/pm.go:769-775 | stores the value under the language and flag's key and changes nothing else |
| Hooks.InstallPathCache.InstallPath | gxutil/pm.go:725-759 | an empty language gives "vendor" without touching the cache; a cached value is returned without running the helper; a miss asks the helper once and caches its answer |
| Hooks.SetThenCheck | gxutil/pm.go:761-775 | a value once set is what the next lookup for the same language and flag finds |
| PostInstall.PostInstallArgs | gxutil/pm.go:100-121 | the hook arguments are the package directory, followed by `--global` exactly for a global install |
| PostInstall.Installer.WritePkgHook | gxutil/pm.go:274-288 | creates the marker of the hook under the directory, or returns the error met and creates nothing |
| PostInstall.Installer.MaybeRunPostInstall | gxutil/pm.go:100-121 | with the marker present nothing runs and nothing is recorded; otherwise exactly one hook call with the post-install arguments is recorded, the error is `PostInstallOutcome`, and the marker is written exactly when that is no error |
| PostInstall.PostInstallOutcome | gxutil/pm.go:109-117 | the run's result is no error exactly when the hook run and the marker write both succeed; a hook error is returned as is, a write error as "error writing hook log: …" |
| PostInstall.HooksForPrefix | gxutil/pm.go:983-1010 | hooks run in walk order: the hook calls of a prefix of the walk are a prefix of the calls of the whole walk |
| PostInstall.HooksForMarked | gxutil/pm.go:102 | a walk over hashes that all had their markers runs no hook |
| PostInstall.HookRunsOnce | gxutil/pm.go:102-117 | a walked package whose marker was absent at the start, and shared by no earlier hash, has its hook call in the trace |
| PostInstall.MarkersOfAbsent | gxutil/pm.go:114 | a marker that no walked package owns is not among the markers the walk writes |
| PostInstall.HooksForSnoc | gxutil/pm.go:1002-1010 | one more walked hash adds its hook call exactly when its marker is neither there from the start nor written earlier in the walk, and adds its marker |
| PostInstall.Installer.PostInstallStep | gxutil/pm.go:1002-1005 | the hook step of a turn extends the trace as `HooksFor` says; on success the marker is added, on error the markers are unchanged and the error is `PostInstallOutcome` of that package |
| PostInstall.Installer.QueueEdges | gxutil/pm.go:1008-1010 | after a successful hook, queueing the package's new edges keeps the walk invariant with the hash counted as visited |
| PostInstall.Installer.ProcessDep | gxutil/pm.go:990-1010 | one popped hash: a missing package ends the pass with its load error; otherwise its hook runs and only then are its edges queued; the hook calls and markers stay exactly those `HooksFor` and `MarkersOf` give for the hashes walked, and an error is the package's `PostInstallOutcome` |
| PostInstall.Installer.Turn | gxutil/pm.go:983-1011 | one turn of the loop keeps the walk invariant and the exact hook-call and marker trace; at the end the popped hashes are distinct and in discovery order |
| PostInstall.Installer.DependenciesPostInstall | gxutil/pm.go:977-1012 | visits each reachable hash exactly once, in breadth-first discovery order from the root's edges; the hook calls made are exactly `HooksFor` of the walk from the old markers; on success every reachable package has its marker and the markers grew by exactly those of the walk; the first load or hook error stops the pass with that package's error and no marker for it; with every marker present beforehand no hook is run |
| BfsWalk.WalkStart | gxutil/pm.go:977-981 | the queue holding the root's edges starts the walk invariant |
| BfsWalk.WalkExpand | gxutil/pm.go:1002-1010 | queueing the new edges of the popped, marked package re-establishes the walk invariant |
| BfsWalk.WalkFinish | gxutil/pm.go:983-1011 | when the queue is empty, the popped hashes are distinct, in discovery order, and are exactly the reachable hashes, each stored and marked |
| BfsWalk.FinishClosed | gxutil/pm.go:993-1011 | with the queue drained, the popped hashes hold the roots and are closed under the stored packages' edges |
| Graph.ReachableClosed | gxutil/pm.go:496-519 | the reachable set holds the roots and is closed under edges of stored packages |
| Graph.ReachableLeast | gxutil/pm.go:496-519 | the reachable set is the least set that holds the roots and is closed under edges |
| Graph.ExactlyReachable | gxutil/pm.go:977-1012 | a closed discovery order that holds the roots lists exactly the reachable hashes |
| Graph.DiscoveredReachable | gxutil/pm.go:977-1012 | every hash a walk discovers is reachable |
| Walks.LoadError | gxutil/pm.go:506-509 | a missing package gives "package … not found" for the edge; any other load error is passed on |
| Walks.EnumerateDependencies | gxutil/pm.go:486-494 | on success the map's keys are exactly the hashes reachable from the package; each maps to the name of an edge that reaches it; no hash is loaded twice; on failure the error is the load error of an edge reached below the package |
| Walks.EnumerateDepsRec | gxutil/pm.go:496-519 | the recursive walk adds each unseen edge's name, loads its package once and recurses; it stops at the first package that cannot be loaded |
| Walks.EnumComplete | gxutil/pm.go:496-519 | a walk from the empty map that expanded every key it added has added exactly the reachable hashes |
| Walks.LoadEdge | gxutil/pm.go:621-653 | loading the manifest under `<hash>/<name>` succeeds exactly when the hash is stored under that name |
| Walks.FirstNamed | gxutil/pm.go:622-627 | the first direct edge with the name, or none when there is none |
| Walks.ResolveDepName | gxutil/pm.go:621-653 | a direct edge with the name wins; otherwise the subtrees are searched in order; a subtree that returned "unrecognized" is added to `checked` and skipped afterwards; "unrecognized" means that no edge below has the name |
| Walks.ResolveFromRoot | gxutil/pm.go:621-653 | from an empty `checked`: the direct edge first; a found package was reached by an edge with that name; "unrecognized" only when no edge below has the name; with no edge below named so, the result is an error, and it is "unrecognized" when every edge below loads; any other error is the failed load of an edge below |
| Walks.FoundNotFree | gxutil/pm.go:621-653 | a package found by name shows that the name occurs below the package |
| Walks.IsHash | gxutil/pm.go:777-779 | a hash is 46 characters long and starts with "Qm" |
| Walks.GithubRawPathOfGithub | gxutil/pm.go:415-418 | a `github.com/...` path becomes the same path on `raw.githubusercontent.com` with `/master` appended |
| Walks.GithubRawPathElsewhere | gxutil/pm.go:415-418 | a path without `github.com` only gets `/master` appended |
| Get.PackageNameInDir | gxutil/get.go:66-81 | a listing error is returned; the name is returned exactly when the directory has a single entry; an empty or crowded directory gives an error that is not not-exist |
| Get.LoadManifest | gxutil/get.go:58-64 | a manifest loads only from an entry of that name; otherwise the not-exist error of its path |
| Get.IsErrAlreadyInstalled | gxutil/get.go:17-20 | holds exactly for an already-installed error, whatever package it names |
| Get.Disk.Stat | gxutil/get.go:28-40 | no error exactly for a directory that exists |
| Get.Disk.ReadDir | gxutil/get.go:66-81 | lists an existing directory's entry names |
| Get.Disk.FindPackageInDir | gxutil/get.go:58-64 | a package exactly when the directory has one entry whose manifest loads; the not-exist cases are a missing directory or a missing manifest |
| Get.Disk.ShellGet | gxutil/get.go:44-47 | one fetch is recorded; on success the directory holds the fetched entries, on failure nothing changes |
| Get.Disk.GetPackageTo | gxutil/get.go:26-56 | a package already in `out` is returned without a fetch; a non-not-exist lookup or stat error is returned without a fetch; otherwise exactly one fetch, its error returned, then the package is looked up in `out` |
| RootGet.VendorTarget | get.go:10-20 | packages go below `<cwd>/vendor/src` |
| RootGet.GetPackageLocalDaemon | get.go:23-36 | an existing hash directory gives "already installed" with no fetch; otherwise one fetch into it and the package found there |
| RootGet.GetPackage | get.go:10-20 | a working-directory error is returned untouched; an existing `<cwd>/vendor/src/<hash>` is "already installed" with no fetch and no change; otherwise exactly one fetch of the hash into that directory, whose error is returned with nothing installed, and on success the directory holds the fetched entries and the result is the package found there |
| Check.SeenByName | check.go:24-31 | a stored hash is in the index exactly when it is filed under its own package's name |
| Check.SeenAddNew | check.go:25-45 | a first sighting adds exactly its hash to the index |
| Check.RecordNew | check.go:30-46 | a first sighting records the version and the importer and keeps the index keyed and logged |
| Check.RecordRepeat | check.go:48 | a repeat sighting only appends the importer and keeps the invariant |
| Check.KeyedUpdate | check.go:25-45 | replacing one name's hashes with hashes filed under that name keeps the index keyed |
| Check.Traverse | check.go:22-51 | the traversal adds exactly the packages it walks, each once; on success it covers everything reachable; the recorded importers are exactly the visits |
| Check.CheckEdge | check.go:24-50 | one callback: a repeat sighting gains an importer, a new one is filed and walked |
| Check.CheckNew | check.go:30-46 | a first sighting is filed and its package walked once |
| Check.WalkCovers | check.go:53-55 | a successful traversal from an empty index indexes every reachable package, each walked once |
| Check.ParentsCount | check.go:44-48 | a name appears among a hash's importers as many times as a package of that name reached the hash |
| Check.IndexByName | check.go:24-31 | the hashes filed under a name are exactly the seen hashes whose package has that name |
| Check.DupNames | check.go:57-66 | lists each name filed under two or more hashes, once |
| Check.ByVersionStrictTotal | check.go:80-89 | ordering by version and then by hash is a strict total order |
| Check.ReportName | check.go:72-100 | one name's report lists each of its hashes once, ordered by version and then hash, each with its version and its importers sorted |
| Check.ReportEach | check.go:92-100 | a line per hash, in the given order, each with its version and sorted importers |
| Check.ReportDupes | check.go:72-101 | a report per duplicated name, in order |
| Check.EdgeMismatches | check.go:105-123 | an edge reports a name mismatch exactly when the names differ, and a version mismatch exactly when the versions differ |
| Check.MismatchesNone | check.go:105-126 | the final pass reports nothing exactly when every edge agrees in name and version with its package |
| Check.MismatchesComplete | check.go:105-126 | every disagreement of every edge is reported; there is no early exit |
| Check.MismatchesSound | check.go:105-126 | every message reported is a disagreement of some edge |
| Check.CheckNames | check.go:104-127 | the messages are the final pass's; `failed` is set exactly when it was set or some edge disagrees |
| Check.Summarize | check.go:57-127 | duplicates are reported in sorted name order, each name once; edge mismatches are all reported; the result is true exactly when there is neither |
| Check.CheckPackage | check.go:17-128 | a traversal error returns true with the error; otherwise every reachable package is indexed, the duplicated names are reported sorted, the root's edges are compared, and the result is true exactly when nothing was reported |
| Sorting.SortStrings | check.go:68-99 | `sort.Strings` returns a sorted permutation of its input |
| Sorting.SortBySorted | check.go:80-89 | sorting by a strict total order gives an ordered list |
| Sorting.SortBy | check.go:80-89 | sorting keeps the elements, as a multiset |
| Update.ReachableIffTainted | update.go:32-69 | the replaced hash is reachable from a list of edges exactly when one of the edges is tainted |
| Update.Cascade.constructor | update.go:14-22 | the run starts with `updates = {from: to}` and nothing checked |
| Update.Cascade.UpdateEdge | update.go:35-61 | a checked edge is left alone; an edge with a scheduled substitution is rewritten to it, taking the version of the package at the old hash; otherwise a changed subtree schedules its new hash and the edge is rewritten to it with its version untouched, the new hash being the publication of the child with its edges settled, and an unchanged one is marked checked |
| Update.Cascade.FetchAndUpdate | update.go:71-100 | a fetch error is returned; the new hash is non-empty exactly when the replaced hash lies below; the package is saved and republished only when it changed, and what is published is the fetched package with every edge settled and nothing else changed |
| Update.Cascade.CascadeTurn | update.go:35-62 | one callback keeps the progress facts; an unloadable edge ends the walk with "not found"; a failing callback leaves the edges already rewritten as they are |
| Update.Cascade.CascadingUpdate | update.go:32-69 | on success every edge is rewritten exactly when it reaches the replaced hash; `changed` holds exactly when the replaced hash is reachable; on failure the edges before the failing one keep their rewrites and the rest are untouched; substitutions and checked hashes are never dropped, and new ones rank below the package |
| Update.Cascade.FetchEdge | update.go:46-58 | a changed subtree schedules the child's new hash, published from the child with its edges settled, and rewrites the edge keeping its version; an unchanged one is marked checked |
| Update.Cascade.Schedule | update.go:53 | scheduling a tainted hash with its republished package keeps the cascade's invariant and changes only `updates` and the ghost record of republished packages |
| Update.Cascade.MarkChecked | update.go:57 | marking an untainted hash checked keeps the invariant and changes only `checked` |
| Update.KeepRewritten | update.go:32-69 | a package rewritten against the state stays rewritten as substitutions and checked hashes are added |
| Update.KeepProvenant | update.go:32-69 | the provenance of every substitute survives the growth of the state |
| Update.KeepOutcomes | update.go:32-69 | growing `updates` and `checked` keeps the outcomes of the edges already processed |
| Update.RecursiveDepUpdate | update.go:12-30 | a working-directory error is returned with the package untouched; each edge before the failing one (all of them on success) that reaches the replaced hash gets its substitute and every other edge stays; `from` still maps to `to`, and every other substitute is the published hash of its package with its edges settled; a rewritten edge keeps its version or takes the version of the package at its old hash, as `UpdateEdge` decides |
| ViewQuery.Close | viewquery.go:36-55 | the bracket scan's result is -1 or the position of a closing bracket |
| ViewQuery.CloseMeaning | viewquery.go:36-55 | the scan finds the first position where the depth, counting nested pairs, drops below zero; -1 means it never does |
| ViewQuery.FindClosingBracket | viewquery.go:36-55 | `findClosingBracket` returns what the bracket scan defines |
| ViewQuery.ScanBracket | viewquery.go:38-53 | one round of the loop either ends the scan with its result or moves on without changing the result |
| ViewQuery.CloseOpen | viewquery.go:42-47 | the scan past an opening bracket finds its partner with a scan of its own and goes on behind the partner |
| ViewQuery.FindClosingBracketCases | viewquery_test.go:36-48 | the three cases give 5, 6 and 11 |
| ViewQuery.ParseQueryString | viewquery.go:9-34 | every segment is no longer than the query |
| ViewQuery.ParseQuery | viewquery.go:9-34 | `parseQueryString` computes the split the recursive definition gives |
| ViewQuery.SplitSegment | viewquery.go:16-33 | one round of the loop either ends the split with its result or takes the leading segments off and goes on with the rest |
| ViewQuery.QuerySplitDots | viewquery_test.go:24-34 | ".a.b" splits into ["a", "b"] |
| ViewQuery.QuerySplitIndex | viewquery_test.go:24-34 | ".a[5].b" splits into ["a", "[5]", "b"] |
| ViewQuery.QuerySplitMatch | viewquery_test.go:24-34 | ".a[.name[0]=fish].b" splits into ["a", "[.name[0]=fish]", "b"] |
| ViewQuery.LeadingDots | viewquery.go:10-13 | leading dots make no difference, and a query of dots alone has no segments and no error |
| ViewQuery.ParseDotted | viewquery.go:9-34 | `.k1.k2...kn` of plain keys splits into exactly those keys |
| ViewQuery.QueryBracketed | viewquery.go:20-31 | a key, a balanced bracket segment and dotted keys split into exactly those parts |
| ViewQuery.ParseFromPanics | viewquery.go:29-31 | a bracket segment that ends too near the end of the query slices past the end |
| ViewQuery.BracketAtEndPanics | viewquery.go:29-31 | a query ending in a bracket segment, such as `a[5]`, slices past the end of the string |
| ViewQuery.ProcessJsonQuery | viewquery.go:57-110 | `processJsonQuery` computes what the query definition gives: split, then walk the segments |
| ViewQuery.WalkStep | viewquery.go:64-106 | one round of the loop either ends the walk with its result or steps to the value the segment selects |
| ViewQuery.SelectMember | viewquery.go:72-101 | the array branch: a segment that is not bracketed, or `[]`, is an error; `[k=v]` must have exactly one `=`; otherwise the content is an index |
| ViewQuery.MatchChild | viewquery.go:112-120 | `matchChild` searches the members in order for the first whose sub-query yields the string |
| ViewQuery.QueryDotsOnly | viewquery.go:57-110 | a query of dots alone returns the document unchanged |
| ViewQuery.QueryPath | viewquery.go:57-110 | a dotted path of plain keys succeeds exactly when every key is found through nested objects, and yields the value they reach |
| ViewQuery.QueryMissingKey | viewquery.go:65-70 | a missing key is an error naming the dot-joined path up to and including that key |
| ViewQuery.UnclosedBracket | viewquery.go:24-27 | a key followed by a bracket that is never closed, such as `a[b`, is the error "closing bracket not found" |
| ViewQuery.QueryUnbracketed | viewquery.go:72-74 | a plain key applied to an array, such as `.k.x` on `{"k": [...]}`, is the error "must use [N] notation for accessing arrays", whatever the array holds |
| ViewQuery.QueryAllMembers | viewquery.go:76-79 | `[]` applied to an array, such as `.k[].x`, is the error "don't currently support queries on multiple array members" |
| ViewQuery.QueryTwoEquals | viewquery.go:82-86 | a bracket segment with more than one `=`, such as `.k[a=b=c].x`, is the error "array queries must contain a single equality operator" |
| ViewQuery.SelectIndex | viewquery.go:96-101 | `[N]` selects member N whatever the array holds |
| ViewQuery.WalkIndex | viewquery.go:96-103 | an index in range continues at that member; past the end the walk panics, because the index is not checked |
| ViewQuery.MatchingFirst | viewquery.go:112-120 | `[q=v]` selects the first member whose sub-query yields the string v, provided no member before it panics |
| ViewQuery.MatchingNone | viewquery.go:112-120 | the search fails exactly when no member matches and none panics |
| Config.Merge | gxutil/config.go:67-85 | the keys of both objects; keys only in the base keep their value; where not both are objects the extra value wins |
| Config.MergeConfigs | gxutil/config.go:62-86 | the result is nil exactly when both maps are nil |
| Config.MergeConfigsInto | gxutil/config.go:62-86 | `mergeConfigs` returns the merge: a nil base gives `extra` back |
| Config.MergeObjects | gxutil/config.go:67-85 | the loop over the keys of `extra` computes the merge, in whatever order the keys come |
| Config.MergeKey | gxutil/config.go:67-83 | merging one more key of `extra` extends the merge to that key |
| Config.MergeNothing | gxutil/config.go:67-85 | an empty `extra` leaves the base unchanged |
| Config.MergeIntoEmpty | gxutil/config.go:67-85 | merging into an empty object gives `extra` back |
| Config.MergeIdempotent | gxutil/config.go:67-85 | merging an object with itself changes nothing, at any depth |
| Config.MergeAbsorb | gxutil/config.go:67-85 | applying the same overrides twice is the same as applying them once |
| Config.ReadConfig | gxutil/config.go:30-35 | a missing file is no configuration; any other read error is returned |
| Config.MapToCfg | gxutil/config.go:132-150 | no map gives the empty configuration; any other map goes through the JSON round trip |
| Config.LoadConfig | gxutil/config.go:28-60 | with neither file the empty configuration; with only the home file that file, with only the local file that file; a read error of the home file, then a working-directory error, then a read error of the local file is returned unchanged |
| Config.LoadConfigIsFold | gxutil/config.go:28-60 | `LoadConfig` is `LoadConfigFrom` on the home file and then the local one |
| Config.LoadFrom | gxutil/config.go:88-115 | no paths is an error |
| Config.LoadConfigFrom | gxutil/config.go:88-115 | the loop folds the merge over the paths left to right |
| Config.FoldStops | gxutil/config.go:103-109 | a file that cannot be read, other than a missing one, stops the fold with its error |
| Config.FoldKeys | gxutil/config.go:96-113 | the keys of the folded configuration are the keys of every file read |
| Config.FoldLastWins | gxutil/config.go:96-113 | later files override earlier ones: a non-object value in the last file that holds its key is the result |
| Config.FoldKeeps | gxutil/config.go:96-113 | files that do not hold a key leave its value alone |
| Publish.RelPath | gxutil/publish.go:32-36 | the path relative to the walked directory, with or without its separator |
| Publish.Published | gxutil/publish.go:24-60 | every collected path passes the filter |
| Publish.CollectFiles | gxutil/publish.go:24-60 | the walk callback collects the published paths in walk order |
| Publish.PublishedExactly | gxutil/publish.go:24-60 | a path is published exactly when a file the walk visits has it as its relative path and neither ignore file nor the `.git`/`vendor` prefixes exclude it |
| Publish.IgnoreFile | gxutil/publish.go:14-22 | a missing ignore file is no matcher; any other error is returned |
| Publish.Insert | gxutil/publish.go:98-120 | inserting fails exactly when the path already exists, with "path already exists: <last part>"; on success the tree has the path |
| Publish.InsertNodes | gxutil/publish.go:98-120 | after an insert the tree's nodes are the old nodes and the prefixes of the inserted path, and the new node is a file |
| Publish.NewFiletreeFromFiles | gxutil/publish.go:86-96 | the loop builds the tree the inserts give, stopping at the first error |
| Publish.BuildStops | gxutil/publish.go:86-96 | once an insert fails the build fails with that error |
| Publish.BuildNodes | gxutil/publish.go:86-96 | the built tree's nodes are exactly the non-empty prefixes of the files' paths |
| Publish.BuildFails | gxutil/publish.go:86-96 | the build fails exactly when some file repeats an earlier path or names a directory an earlier file made |
| Publish.ReadableFiles | gxutil/publish.go:131-166 | a tree can be added exactly when every file below it can be read |
| Publish.DagOf | gxutil/publish.go:131-166 | the object added for a directory has a link per child on top of the blank directory |
| Publish.PM.constructor | gxutil/publish.go:62-68 | the blank directory object is empty |
| Publish.PM.PublishPackage | gxutil/publish.go:13-76 | an ignore-file error or the blank-object error is returned; on success the root links the package name to the tree of the published files |
| Publish.PM.AddFiles | gxutil/publish.go:122-129 | a build error is returned; otherwise success exactly when every file can be read, and then the tree's object |
| Publish.PM.AddTree | gxutil/publish.go:131-166 | success exactly when every file below can be read, and then the directory with a link per child, whatever the order of the map's keys; an error is the read error of one of the files |
| Publish.PM.LinkChild | gxutil/publish.go:133-163 | one turn of the loop links one more child onto the directory built so far |
| Publish.PM.AddChild | gxutil/publish.go:134-156 | a file child is read and added; a directory child is added as a tree |
| RootPublish.FilesToPublish | publish.go:12-23 | the package file is always published; it is appended only when the list does not name it |
| RootPublish.Insert | publish.go:57-79 | with no file above the path, inserting fails exactly when the path exists; on success the path is a file (a nil leaf) |
| RootPublish.InsertNodes | publish.go:57-79 | after an insert the nodes are the old ones and the prefixes of the path; the files are the old ones and the path |
| RootPublish.NewFiletreeFromFiles | publish.go:45-55 | the loop builds the tree the inserts give, stopping at the first error |
| RootPublish.BuildStops | publish.go:45-55 | once an insert fails the build fails with that error |
| RootPublish.BuildFiles | publish.go:45-55 | the built tree's nodes are the prefixes of the files' paths, and its files are exactly those paths |
| RootPublish.NoFileAboveNext | publish.go:57-79 | when no earlier file is a folder above a later one, no insert descends into a nil leaf |
| RootPublish.NoFileAsFolderBuildable | publish.go:45-79 | a list in which no earlier file is a folder above a later one never makes `insert` descend into a nil leaf |
| RootPublish.BuildablePrefix | publish.go:45-55 | the files before any point of a list that never descends into a nil leaf do not either |
| RootPublish.RepeatBeforeNested | publish.go:45-79 | `["a", "a", "a/b"]` stops at the second "a" with "path already exists: a", before the nil leaf is reached |
| RootPublish.BuildFails | publish.go:45-55 | the build fails exactly when some file clashes with an earlier one |
| RootPublish.DagOf | publish.go:90-125 | the object added for a folder has a link per child on top of the blank directory |
| RootPublish.PM.constructor | publish.go:25-31 | the blank directory object is empty |
| RootPublish.PM.PublishPackage | publish.go:11-39 | the blank-object error is returned; on success the root links the package name to the tree of the files |
| RootPublish.PM.AddFiles | publish.go:81-88 | a build error is returned; otherwise success exactly when every file can be read, and then the tree's object |
| RootPublish.PM.AddTree | publish.go:90-125 | success exactly when every file below can be read, and then the folder's object; an error is the read error of one of the files |
| RootPublish.PM.LinkChild | publish.go:92-122 | one turn of the loop links one more child onto the directory built so far |
| RootPublish.PM.AddChild | publish.go:93-115 | a file is read and added; a folder is added as a tree |
| Ui.Opts | ui.go:24-29 | the default answer is shown in capitals |
| Ui.FirstAnswer | ui.go:23-46 | the first line that answers, or none |
| Ui.YesNoPrompt | ui.go:23-46 | the prompt shows the question and the options; lines that do not answer each get a complaint; the first answer decides, and an empty line is the default |
| Ui.UpperCaseAnswers | ui.go:31-39 | "Y" and "N" answer yes and no whatever the case |
| Ui.GenDeps | ui.go:62-78 | the tree unfolds each edge into its stored package's edges; the error is "not found" for an edge that is not stored |
| Ui.GenDepsComplete | ui.go:62-78 | any tree that unfolds the edges is the tree built |
| Ui.MatchesBelow | ui.go:80-95 | with a filter, some node matches exactly when the filter is the hash or the name of some edge at or below it |
| Ui.Filtered | ui.go:109-114 | the children to print are no more than the children, and none exactly when none matches |
| Ui.FilteredMembers | ui.go:109-114 | the children printed are exactly the children that match |
| Ui.FilteredAll | ui.go:80-83 | the empty filter prints every child |
| Ui.Label | ui.go:117-126 | quiet prints the hash only; otherwise the line starts with the branch of a last or an inner child |
| Ui.NextPrefix | ui.go:130-133 | the children's prefix extends the prefix by a bar, or by blanks after the last child |
| Ui.RenderIsEmit | ui.go:104-141 | rendering the children is emitting the matching ones |
| Ui.RenderPrefix | ui.go:104-141 | every line printed below a prefix starts with it |
| Ui.RenderCount | ui.go:104-141 | unfiltered, one line is printed per node |
| Ui.Rec | ui.go:108-136 | `rec` prints the rendering of the children |
| Ui.MatchingChildren | ui.go:109-114 | the first loop of `rec` collects the matching children in order |
| Ui.PrintChild | ui.go:115-135 | one turn of the second loop prints the child's line, then its children under the longer prefix |
| Ui.PrintFiltered | ui.go:104-141 | `printFiltered` prints the rendering of the top level |
| Ui.PrintDepsTree | ui.go:143-152 | a tree-building error is returned; otherwise one line per node of the tree |
| MainRules.UpdatedEdge | main.go:326-331 | the referred edge gets the target hash and its old hash is returned; with no such edge the package is unchanged and the old hash is empty |
| MainRules.UpdateSameHash | main.go:326-331 | updating an edge to the hash it has changes nothing |
| MainRules.UpdateUndo | main.go:326-331 | updating the edge back to its old hash restores the package |
| MainRules.Manifest.UpdateDep | main.go:326-331 | the edge rewrite on the loaded manifest |
| MainRules.Bump | main.go:378-391 | major resets minor and patch; minor resets patch; patch increments; any other word is no bump |
| MainRules.BumpOrder | main.go:378-391 | a bump always raises the version, and each field's bump stays below a bump of a higher field |
| MainRules.VersionCommand | main.go:348-393 | no argument shows the version; a valid semver is saved as given; a field name bumps it; an unknown word leaves it; an unparsable current version is fatal |
| MainRules.VersionFirst | main.go:366-372 | a valid semver is taken as given, even when it reads like a field name |
| MainRules.UnknownWordKeeps | main.go:388-390 | an unknown word leaves the saved version as it was |
| MainRules.Manifest.SetVersion | main.go:348-393 | the version field changes as the command says, and nothing else changes |
| MainRules.ViewTarget | main.go:400-415 | no query is fatal; with two arguments the file is found in the vendored hash directory; otherwise the package file |
| MainRules.NonEmpty | main.go:429-434 | the non-empty pieces, in order |
| MainRules.SplitQuery | main.go:429-434 | the keys are the non-empty pieces between dots, with no dot in them |
| MainRules.SplitQueryJoin | main.go:429-434 | dot-joined keys split back into the same keys |
| MainRules.Lookup | main.go:436-453 | the intended lookup never panics |
| MainRules.LookupFollows | main.go:436-453 | the lookup succeeds exactly when the keys reach a value through nested objects, and yields that value |
| MainRules.LookupAgrees | main.go:436-453 | the lookup as written and the intended one succeed on the same queries with the same value |
| MainRules.LookupAsWritten | main.go:436-453 | the loop as written panics exactly when the first key holds a value that is not an object and more keys follow, and then with an index out of range |
| MainRules.NotIndexableNamesParent | main.go:445-451 | deeper down, the loop as written blames the key before the one whose value is not an object, where the intended lookup names that key |
| MainRules.NotIndexableFirstKey | main.go:445-451 | a first key whose value is not an object, followed by another key, indexes `query[-1]` |
| MainRules.View | main.go:436-455 | the lookup loop computes the intended lookup |
| MainRules.CleanKeeps | main.go:487-498 | an entry named by a reachable hash is neither printed nor removed; every other entry is printed |
| MainRules.Clean | main.go:487-498 | the loop computes the clean over all the entries |
| MainRules.CleanStops | main.go:491-495 | after a failed removal nothing more happens |
| Log.WriteFormat | log.go:26-35 | the padded format starts with the format and ends in a newline; it is absent exactly when the format is empty with no arguments |
| Log.VerbPerArg | log.go:26-35 | the padded format has a `%` for every argument |
| Log.NewlineOnce | log.go:31-33 | a format that ends in a newline gets no second one |
| Log.Log | log.go:24-51 | the format starts with the trimmed prefix; a text first argument is the format and the rest are its arguments; any other first argument is formatted with the rest |
| Log.LogPanics | log.go:24-51 | the call panics exactly when the prefix trims to nothing and there is no argument, or a lone empty string |
| Log.ArgsCovered | log.go:24-51 | every argument handed to `Printf` has a verb in the format |
| Log.EmptyLogPanics | log.go:24-51 | `Log()` with no arguments panics, and so does `Log("")` |
| Log.Error | log.go:10-12 | an error line starts with "ERROR:" and never panics |
| Log.VLog | log.go:18-22 | prints exactly when verbose, and then as `Log` does |
| GoUtils.PackagesGoImport | gxutil/go_utils.go:10-24 | no GOPATH is an error; a directory outside `$GOPATH/src` is an error; otherwise what follows `$GOPATH/src/` |
| GoUtils.ImportRoundTrip | gxutil/go_utils.go:10-24 | a directory built from `$GOPATH/src/` and an import path gives the import path back |
| GoUtils.TrailingSlash | gxutil/go_utils.go:10-24 | a trailing slash on GOPATH makes no difference |

## Left out

- Concurrency, the network, the IPFS daemon, process execution and the
  file system are left out. They appear only as parameters that give the
  outcome of each request: a store map, fetch, read, run and lookup
  functions, and error oracles.
- JSON decoding and encoding are not modelled. `mapToCfg`'s round trip
  is a decoder parameter. JSON numbers are integers, because the core only
  compares them with strings.
- The semver library is not modelled. Parsing and printing are
  parameters, and `check` sees a version as its position in an abstract
  order.
- Ignore-file matching (`gitignore`) is a parameter.
- Go's `%q` escaping is left out, as is any message formatting beyond
  concatenation.
- `Atoi`'s 64-bit range is left out: indices are unbounded naturals.
- Unicode case folding beyond ASCII is left out.
- The tab writer's column alignment, `bufio` line splitting and `Printf`
  formatting are left out. The model stops at the lines and formats
  handed to them. `jsonPrint` and `promptUser` output is left out.
- Map iteration order is unknown. Loops over Go maps are proved for every
  order in which the keys could come.
- The file trees of both publish variants are values, not pointers.
  `insert` never shares nodes, so nothing about aliasing is lost. The
  shell's `Patch` and `Add` cannot fail except through the read oracle.
- RootPublish.PM.PublishPackage, RootPublish.PM.AddFiles,
  RootPublish.Build, RootPublish.NewFiletreeFromFiles require that the
  list is `Buildable`: no file lies below an earlier listed file unless
  an insert before it has already failed. On the first such file the Go
  `insert` dereferences a nil leaf and panics. The model excludes exactly
  those lists rather than model the panic. Lists on which an earlier
  insert fails with "path already exists" are kept.
- `PathJoin` does not clean paths. Cleaning of GOPATH beyond trailing
  slashes is left out. It also keeps an empty component, where Go's
  `path.Join` drops it: with `$HOME` unset, Config.LoadConfig reads
  "/.gxrc" where Go reads ".gxrc" in the working directory.
- Hooks.NearBin joins the executable's directory and the helper's name by
  concatenation, where Go's `filepath.Join` also cleans the result: for
  an executable invoked as "./gx" the model gives "./gx-go" where Go
  gives "gx-go".
- Config.MergeConfigsInto: `mergeConfigs` updates the base map in place
  and returns it. The model returns the merged value, so sharing of the
  base with its caller is not captured.
- Walks.ResolveDepName, Update.Cascade.CascadingUpdate, Ui.GenDeps: the
  Go code recurses without a visited set and would not terminate on a
  cyclic store. The model requires a ranking of the store, that is, no
  cycle.
- Walks.EnumerateDependencies: the name recorded for a hash is stated only
  to be the name of some edge that reaches it. The Go map keeps the name
  of the first such edge in depth-first order, which the model computes
  but does not state against a reference order of the walk.
- Update.RecursiveDepUpdate: publishing is required never to succeed with
  the empty hash. The Go code would read such an answer as "subtree
  unchanged" and mark a tainted hash checked. The results that an edge is
  rewritten exactly when it reaches the replaced hash rest on this.
- `Fatal`'s exit is modelled as an error outcome. Its message formatting
  is left out.
- `TryRunHook`'s post-update call is left out, as are the other hook
  call sites outside the post-install pass.
- DepQueue.DependencyQueue.constructor: the capacity hint of
  `NewDependencyQueue` has no observable effect and is left out.
- The lock file, `diff.go`, `link.go`, `repo.go` and the shell wrappers
  are not part of this model.

## Findings

| source | as written | input that shows it | evidently intended | confidence | as-written member | corrected member |
|---|---|---|---|---|---|---|
| main.go:450 | a value that is not an object, reached before the last key, is reported as `query[i-1]` | `gx view name.x` on `{"name": "gx"}` indexes `query[-1]`, and `a.b.c` on `{"a": {"b": "s"}}` blames `a` instead of `b` (MainRules.NotIndexableFirstKey, MainRules.NotIndexableNamesParent) | report the key whose value is not indexable, `query[i]` | not executed | MainRules.LookupAsWritten | MainRules.LookupFollows |
