# Deputy: verified models

Deputy scans repositories and container images for dependencies and reports on them. This project
models the parts of it whose correctness is hard to see from the code, and proves what those parts
promise. It is a Dafny 4.11 project; `dafny verify dfyconfig.toml` checks all of it.

Code that only computes is modelled by functions. Code that works step by step is modelled by methods
and classes, each proved against a function or predicate that says what it computes; the laws are then
lemmas about that function. Concurrent code is modelled as a state machine whose steps are the atomic
actions of the threads, under every schedule.

| file | what it models |
|---|---|
| `Glob.dfy`, `GlobMatch.dfy`, `ExcludePaths.dfy` | exclusion globs: a token semantics, the path matcher, the directory matcher that prunes a walk, and why the two agree |
| `LicenseFlight.dfy`, `LicenseWorkers.dfy`, `LicenseScan.dfy` | license lookups through memo, disk cache and singleflight by any number of callers; the bounded workers of a license scan; the scan of a workspace |
| `Paths.dfy`, `PackageLocation.dfy`, `Lockfiles.dfy`, `Dedup.dfy` | package locations, lockfile preference and deduplication, on packages updated in place |
| `DirectDeps.dfy`, `PackageDiff.dfy`, `ImageConfig.dfy` | direct dependencies from a workspace walk and from a commit; package and image-configuration diffs as patches |
| `Guardrails.dfy`, `Session.dfy` | guardrail rules and their merging; the event stream of an agent session |
| `PluginOwnership.dfy` | who owns and who ends an external plugin process |
| `DocSections.dfy`, `ImageRefs.dfy`, `ManifestRefs.dfy`, `Convert.dfy`, `Wrap.dfy` | generated document sections, image references, manifest references, text wrapping |
| `Options.dfy`, `Text.dfy`, `Order.dfy` | optional values, Go's trimming and string order, sorting |

## Findings

Where a property one would expect is false of the code, the model keeps the code, proves exactly when
the property holds, and in most cases shows an input that breaks it.

- A license scan can hang (internal/license/license.go:314-345): the reader starts only when every file is
  launched, at most ten goroutines run, and the channel holds as many identifiers as there are files.
  `LicenseWorkers.HangsExactly` says when some schedule gets stuck, `LicenseWorkers.ReturnsExactly` when
  some schedule returns; with sixteen files of three identifiers each none does
  (`LicenseWorkers.SixteenFilesHang`). With at most ten files, or no more identifiers than files, all
  schedules return (`LicenseWorkers.OtherScansReturn`).
- `p`, `p/` and `p/**` compile alike except when `p` ends in white space and is not blank
  (`GlobMatch.SpellingsCompileAlike`); `normalize` is idempotent except when white space stands in front of
  the suffix it strips (`GlobMatch.NormalIdempotent`).
- A lockfile pass keeps every identity key. It keeps every (type, name) pair exactly when each package it
  drops shares its pair with one that is not fully resolved (`Lockfiles.PairsSurviveExactly`). Types without
  a NUL suffice for that; with a NUL in a type two pairs share a key and one of them can be lost
  (`Lockfiles.NulCanLoseAnIdentity`). The type of a package is whatever its extractor set: nothing in
  internal/inventory/inventory.go excludes a NUL, and nothing shows an extractor that produces one.
- `deduplicatePackages` drops packages without a PURL, although its comment says it keeps them
  (internal/inventory/inventory.go:701-704).
- The Go pass over a commit looks for `/vendor/` and never for `.git`, so it reads module files that the
  workspace walk skips; both read the same files exactly when there is none (`DirectDeps.GoPassesReadTheSame`,
  `DirectDeps.TopLevelVendorDisagrees`), and collect the same for every parser exactly when each such file
  has a twin, a file of the same content that the walk reads (`DirectDeps.CollectionsAgreeExactly`).
- A printed image reference parses back exactly when the repository is not empty and, if there is a digest,
  neither a tag stands beside it nor a colon is left in the repository's last segment
  (`ImageRefs.ParsePrintParse`); an empty tag in front of a digest leaves one (`ImageRefs.EmptyTagIsNotStable`).
- An overlay of deny rules tightens the command rules of the base exactly when every deny pattern of both
  sides compiles, or the command lists reject whatever the patterns reject
  (`Guardrails.MergeTightensCommands`). One malformed deny pattern in the overlay empties the merged deny
  and allow patterns, those of the base included (`Guardrails.MalformedDenyLoosens`), and one malformed
  high-risk pattern drops the base's high-risk flags (`Guardrails.MalformedRiskIsLost`). A custom
  evaluator's flag comes before every deny rule (`Guardrails.CustomFlagDecides`).
- A wrapped paragraph starts with an empty line exactly when its first word is as long as the width or
  longer (`Wrap.EmptyFirstLine`).
- The single resolve per key rests on the memo keeping its entry. A key is resolved at most once more than
  its entry is dropped (`LicenseFlight.ResolvesAreBounded`), and that bound is reached by a caller that has
  passed the disk check before the first resolve (`LicenseFlight.EvictionAllowsSecondResolve`); but no two
  callers resolve it at once (`LicenseFlight.ResolvesNeverOverlap`).
- Swapping the two lists of a package comparison mirrors the changes (`PackageDiff.SwapMirrors`) as long as
  no package name holds a `|`. A package without ecosystem named `npm|x` shares its key with the npm package
  `x`, and their change is an upgrade one way and an update the other (`PackageDiff.BarBreaksMirroring`).
- Merging manifest references one by one skips those without path or manager, the batch form keeps them
  (`ManifestRefs.IncrementalIsBatchOnAll`).
- Section content that holds its own end marker is cut off there when read back (`DocSections.PutGet`).
  `Section` panics on some file exactly when the end marker can start inside the begin marker
  (`DocSections.PanicsExactly`), as with the name ` --><!-- END GENERATED: ` (`DocSections.NameThatPanics`).

## Model

| member | source | states |
|---|---|---|
| `Glob.MatchMeans` | internal/globmatch/globmatch.go:43-47 | a text matches exactly when it falls into pieces, one for each token: the literal itself, one character other than `/`, a run without `/`, or any run |
| `Glob.WildcardsMean` | internal/globmatch/globmatch.go:43-47 | `*` matches the texts without a separator, `?` one character that is none, `**` everything, and an expression without wildcards itself only |
| `Glob.MatchesAcrossSlash` | internal/globmatch/globmatch.go:43-58 | `a/b` matches exactly the strings that split at a separator into a match of `a` and a match of `b` |
| `Glob.SubtreeIsAncestor` | internal/globmatch/globmatch.go:132-138 | `p` and `p/**` together match a path exactly when `p` matches it or an ancestor of it |
| `Glob.AnyDepthIsSuffix` | internal/globmatch/globmatch.go:139-149 | `**/p` matches exactly what has a match of `p` after some separator |
| `GlobMatch.Compile` | internal/globmatch/globmatch.go:59-91 | succeeds exactly when every normalised pattern is well formed, otherwise names the first malformed one; the globs are distinct, and the matcher selects exactly the paths that some pattern selects |
| `GlobMatch.MatchPath` | internal/globmatch/globmatch.go:94-108 | the scan finds a match exactly when the matcher selects the path, blank paths never |
| `GlobMatch.ExpansionDenotes` | internal/globmatch/globmatch.go:132-151 | the variants of a pattern select a path exactly when a run of whole segments of it, from the root or, for deep patterns, from any depth, matches the pattern's core |
| `GlobMatch.SelectedDenotes` | internal/globmatch/globmatch.go:59-108 | so does a whole list of patterns |
| `GlobMatch.AnyDepthWidens` | internal/globmatch/globmatch.go:34-41 | any-depth matching selects a superset of the default mode |
| `GlobMatch.LeadingDirectoriesKeep` | internal/globmatch/globmatch.go:34-41 | with any-depth matching a selected path stays selected below further directories |
| `GlobMatch.SubtreeIsSelected` | internal/globmatch/globmatch.go:132-138 | in both modes everything beneath a selected path is selected |
| `GlobMatch.SpellingsCompileAlike` | internal/globmatch/globmatch.go:115-130 | a pattern and the same with any run of `/` and `/**` behind it normalise alike exactly when it does not end in white space or is blank |
| `GlobMatch.StarStaysInSegment` | internal/globmatch/globmatch.go:43-55 | a pattern of a plain directory, a star and a plain ending selects exactly the entries of that directory whose own name ends so, and what lies beneath them |
| `GlobMatch.TwoLevelsDown` | internal/globmatch/globmatch.go:43-55 | such a pattern selects a file two levels below the directory only because of the directory the file is in |
| `GlobMatch.NameAtAnyDepth` | internal/globmatch/globmatch.go:49-52 | a plain name selects exactly the paths that have it as a whole segment, at any depth |
| `GlobMatch.PathIsAnchored` | internal/globmatch/globmatch.go:53-55 | a plain path with a separator selects exactly itself and what lies beneath it |
| `GlobMatch.BackslashIsSlash` | internal/globmatch/globmatch.go:45-47 | a backslash counts as a separator, in patterns and in paths |
| `GlobMatch.NormalIdempotent` | internal/globmatch/globmatch.go:118-130 | normalising twice is normalising once exactly when no white space stands directly in front of the run of `/` and `/**` that the pattern ends in |
| `ExcludePaths.CompileExcludePaths` | internal/inventory/exclude.go:68-105 | succeeds exactly on well-formed patterns, otherwise names a malformed one; the compiled globs match exactly the directories that some pattern excludes; there are none exactly when all patterns are blank |
| `ExcludePaths.MatchMultiGlob` | internal/inventory/exclude.go:128-135 | the scan matches exactly when some glob does |
| `ExcludePaths.AcceptTheSame` | internal/inventory/exclude.go:52-67 | both compilers accept the same lists of backslash-free patterns |
| `ExcludePaths.SelectedIsExcludedAncestor` | internal/inventory/exclude.go:68-121 | for backslash-free patterns, the path matcher selects a path exactly when the directory matcher excludes it or an ancestor of it |
| `ExcludePaths.WalkKeepsUnprunedFiles` | internal/inventory/exclude.go:52-67 | a walk that does not enter excluded directories keeps exactly the files without an excluded proper ancestor, in every tree |
| `ExcludePaths.WalkMeetsPathMatcher` | internal/inventory/exclude.go:52-67 | in every tree, for backslash-free patterns and a file whose path holds no backslash, the path matcher selects the file exactly when the walk drops it or the directory matcher excludes the file's own path |
| `LicenseFlight.StepKeepsInv` | internal/license/license.go:606-637 | every atomic action of every caller keeps the invariant: flights belong to callers inside them, memo and disk agree, at most one resolve per key |
| `LicenseFlight.RunKeepsInv` | internal/license/license.go:606-637 | so does every schedule |
| `LicenseFlight.LookupsAgree` | internal/license/license.go:433-496 | in every interleaving a key is resolved at most once, not at all if the disk held it; everyone who asked for it returns the same list, which is what memo and disk hold; a list that is not empty is on disk if the disk is used |
| `LicenseFlight.LookupsReturn` | internal/license/license.go:606-637 | nobody deadlocks: while a caller has not returned, someone can move, and all callers together take at most eight steps each |
| `LicenseFlight.LookupsAreRight` | internal/license/license.go:606-637 | in every interleaving a lookup returns what the disk held for its key from the start, or else what the registry says of it |
| `LicenseFlight.DiskKeeps` | internal/license/license.go:613-637 | in every run the disk keeps what it held, and gains only non-empty lists, under keys that use it |
| `LicenseFlight.ResolvesNeverOverlap` | internal/license/license.go:613-637 | even with entries expiring at any time, no two resolves of one key run at once |
| `LicenseFlight.ResolvesAreBounded` | internal/license/license.go:606-637 | over every run with expiry and eviction, a key is resolved at most once more often than its memo entry is dropped |
| `LicenseFlight.EvictionAllowsSecondResolve` | internal/license/license.go:613-637 | with the disk in use and a non-empty list, one dropped entry can cost a second resolve, so the bound is reached |
| `LicenseScan.CollectCandidates` | internal/license/license.go:259-303 | the stack traversal terminates and finds exactly the license-named files with at most two separators and no hidden or unreadable directory above them |
| `LicenseScan.LicenseNames` | internal/license/license.go:298-300 | a name looks like a license exactly when it starts with `license`, `licence` or `copying` or is `copyright` or `unlicense`, in any case |
| `LicenseScan.ExaminedExactly` | internal/license/license.go:259-303 | a file is examined exactly when its name looks like a license, it is at most two directories deep, none of them hidden and all of them and the root readable, or when it is in the root under a well-known name |
| `LicenseScan.DetectedMeans` | internal/license/license.go:313-349 | an identifier is reported exactly when it is not blank and some examined file holds it |
| `LicenseScan.Collect` | internal/license/license.go:338-349 | whatever order the identifiers arrive in, the result lists each of them once, strictly sorted |
| `LicenseWorkers.StepKeepsInv` | internal/license/license.go:305-336 | every launch, send, end and receive keeps: at most ten goroutines, a buffer within the number of files, nothing received before the last launch, and as much sent as buffered and received |
| `LicenseWorkers.HangsExactly` | internal/license/license.go:314-345 | some schedule gets stuck exactly when ten files but the last have an identifier and the files but the last have at least ten identifiers more than there are files |
| `LicenseWorkers.ReturnsExactly` | internal/license/license.go:314-345 | some schedule returns exactly when up to nine files but the last can be left out so that the others, the last not counted, have no more identifiers than there are files |
| `LicenseWorkers.SixteenFilesHang` | internal/license/license.go:314-345 | with sixteen files of three identifiers each, no schedule returns and some get stuck |
| `LicenseWorkers.OtherScansReturn` | internal/license/license.go:314-345 | a scan that cannot hang, among them all of at most ten files and all with no more identifiers than files, has returned whenever nothing can move |
| `LicenseWorkers.StepsAreBounded` | internal/license/license.go:314-345 | every step makes progress, so a scan takes at most two steps per file and two per identifier |
| `LicenseWorkers.ReturnedHasAll` | internal/license/license.go:320-345 | whatever the schedule, a scan that returns has received every identifier of every file as often as it occurs |
| `LicenseScan.LocalRepoLicenseScan` | internal/license/license.go:259-350 | for every schedule that returns, the result is the one strictly sorted list of the identifiers detected in the examined files |
| `Paths.CleanIsNormal` | internal/inventory/inventory.go:640-660 | a cleaned path has no empty, `.` or inner `..` segments |
| `Paths.CleanSteps` | internal/inventory/inventory.go:640-660 | cleaning drops empty and dot segments, keeps names, and takes a name back for the two dots behind it |
| `Paths.DirAndBase` | internal/inventory/inventory.go:640-660 | the directory and the base name of a path cut at its last separator |
| `Paths.ShowInjective` | internal/inventory/inventory.go:640-660 | cleaned paths with the same spelling are the same path |
| `Paths.AboveIsNormal` | internal/inventory/inventory.go:640-660 | what lies at or above a cleaned path is cleaned as well |
| `Locations.PackagePaths` | internal/dependency/package_location.go:18-42 | reads the descriptor's path and then the related ones, without blanks and repeats |
| `Locations.PathsMean` | internal/dependency/package_location.go:18-42 | a path is listed exactly when it is not blank and the descriptor's or a related one's |
| `Locations.DescriptorFirst` | internal/dependency/package_location.go:18-42 | the descriptor's path comes first |
| `Locations.SetPackagePaths` | internal/dependency/package_location.go:59-73 | replaces the location in place by the one `WithPaths` describes |
| `Locations.PathsSurviveRewrite` | internal/dependency/package_location.go:55-86 | writing paths and reading them back gives the same set of non-blank paths, for every location and list |
| `Locations.RewriteKeepsOrder` | internal/dependency/package_location.go:55-86 | distinct paths come back in the same order exactly when the descriptor is absent, replaced or first |
| `Locations.DescriptorSurvives` | internal/dependency/package_location.go:55-73 | a recorded descriptor with a line number survives exactly when its path is still listed |
| `Locations.DescriptorReplaced` | internal/dependency/package_location.go:44-73 | a descriptor that is not listed any more, or was never there, gives way to the first path, without a line |
| `Locations.RewriteIsStable` | internal/dependency/package_location.go:18-86 | writing back what a rewritten location reads as changes nothing |
| `Lockfiles.IsResolved` | internal/inventory/inventory.go:640-660 | the climb terminates and reports whether the paired lockfile in the same or an ancestor directory contains the package |
| `Lockfiles.PreferLockfileResolutions` | internal/inventory/inventory.go:600-677 | in place, even for packages listed twice, produces exactly what `Preferred` says of the input's values |
| `Lockfiles.RemovedExactly` | internal/inventory/inventory.go:578-677 | a location goes exactly when its base name is a manifest's and the paired lockfile at or above it lists a package of the same identity; nothing else changes |
| `Lockfiles.LockLocationsStay` | internal/inventory/inventory.go:578-677 | a lockfile's own location is never removed |
| `Lockfiles.AbsentStay` | internal/inventory/inventory.go:600-677 | nil entries of the list stay, as many as there were |
| `Lockfiles.NothingElseGoes` | internal/inventory/inventory.go:600-677 | a list of which no package is dropped keeps its length |
| `Lockfiles.IdentityKeysSurvive` | internal/inventory/inventory.go:578-685 | no identity key is ever lost |
| `Lockfiles.IdentitiesSurvive` | internal/inventory/inventory.go:679-685 | with NUL-free package types no (type, name) pair is lost |
| `Lockfiles.PairSurvivesExactly` | internal/inventory/inventory.go:578-685 | a (type, name) pair stays exactly when some package of that pair has an unresolved location or none at all |
| `Lockfiles.PairsSurviveExactly` | internal/inventory/inventory.go:578-685 | all pairs stay exactly when every fully resolved package shares its pair with one that is not |
| `Lockfiles.NulCanLoseAnIdentity` | internal/inventory/inventory.go:679-685 | a concrete list of packages of which one pair is lost, with a NUL in a type |
| `Lockfiles.PreferredIdempotent` | internal/inventory/inventory.go:600-677 | the pass on its own result changes nothing |
| `Dedup.MergeLocations` | internal/inventory/inventory.go:743-768 | the union of both lists, sorted |
| `Dedup.DeduplicatePackages` | internal/inventory/inventory.go:689-739 | every PURL once, strictly sorted, on the first package that bore it, with everyone's paths and the first non-empty licenses; packages merged away and packages with a unique PURL are untouched |
| `Order.LessMeans` | internal/inventory/inventory.go:727-736 | the order of the results is decided at the first difference of two strings |
| `Dedup.PairsPreserved` | internal/inventory/inventory.go:689-739 | the (PURL, path) pairs of the PURL-bearing packages are exactly those of the input |
| `Dedup.FirstBearerIs` | internal/inventory/inventory.go:689-721 | the survivor is the first package of the list with the PURL |
| `Dedup.FirstLicensesAre` | internal/inventory/inventory.go:689-721 | its licenses are those of the first such package that has any |
| `Dedup.DeduplicateAgain` | internal/inventory/inventory.go:689-739 | on a list strictly sorted by PURL the pass returns the same list and changes no package |
| `Dedup.DeduplicateTwice` | internal/inventory/inventory.go:689-739 | a second pass returns the same list and leaves the locations, order included, as the first pass left them |
| `DirectDeps.JoinLaws` | internal/compare/direct.go:89-107 | the merge is commutative, associative and idempotent |
| `DirectDeps.Collector.Merge` | internal/compare/direct.go:94-107 | the in-place merge is the pointwise join of absent below false below true, in any visiting order |
| `DirectDeps.MergeAllBySet` | internal/compare/direct.go:89-107 | a fold of merges depends only on which maps are merged, not on order or repetition |
| `DirectDeps.VendoredMeans` | internal/compare/direct_multi.go:30-43 | a path is vendored exactly when one of its segments is a vendor directory |
| `DirectDeps.VisitedMeans` | internal/compare/direct_multi.go:62-75 | a pruned walk visits a file exactly when no directory on the way to it is pruned |
| `DirectDeps.CollectDirectDependenciesFromWorkspace` | internal/compare/direct_multi.go:58-91 | the two walks collect the fold of what their visited files add |
| `DirectDeps.CollectDirectDependenciesFromCommit` | internal/compare/direct_multi.go:100-132 | the two enumerations collect the fold of what the listed files add |
| `DirectDeps.ManifestPassesReadTheSame` | internal/compare/direct_multi.go:58-132 | for every tree, the pruned walk reads exactly the manifests that the filtered list reads |
| `DirectDeps.GoPassesReadTheSame` | internal/compare/direct.go:20-87 | the two Go passes read the same module files exactly when none is contested: below `.git` or a top-level `vendor`, and below no other `vendor` |
| `DirectDeps.WorkspaceHolds` | internal/compare/direct_multi.go:46-91 | the workspace collection holds the two names of the standard library and what these files tell: the four manifests with no `vendor`, `node_modules` or `.git` in their path, and every go.mod with no `.git` or `vendor` above it; direct as soon as one says so |
| `DirectDeps.CommitHolds` | internal/compare/direct_multi.go:100-132 | the collection from a commit holds the same of the manifests, and of every go.mod with no `vendor` above it but at the top |
| `DirectDeps.WorkspaceMeetsCommit` | internal/compare/direct_multi.go:46-132 | for every tree, parser and list order: the manifests give the same map, and without contested module files so does everything |
| `DirectDeps.TopLevelVendorDisagrees` | internal/compare/direct.go:70-76 | a top-level vendor directory with one module file, on which the two disagree |
| `DirectDeps.CollectionsAgreeExactly` | internal/compare/direct_multi.go:46-132 | the two collections are equal for every parser exactly when every contested module file has a twin, a file of the same content that the walk reads |
| `PackageDiff.ComparePackages` | internal/compare/compare.go:692-794 | one change for every key that only one list has or whose last packages in the two lists differ in name or version: an addition, a removal, or an update of the kind the new package's comparator says, with both versions; ordered by kind and name, whatever order the maps are visited in |
| `PackageDiff.IndexMeans` | internal/compare/compare.go:699-715 | a key is indexed exactly when a package of the list bears it, and its entry is that of the last one |
| `PackageDiff.DistributionReleases` | internal/compare/compare.go:527-546 | the releases of ten distributions count as one ecosystem, and no other ecosystem loses a suffix |
| `PackageDiff.ComparatorNamed` | internal/compare/compare.go:314-340 | Go versions have their own comparator, every other ecosystem that of its semantic name, with or without a release behind a colon |
| `PackageDiff.PythonNames` | internal/compare/compare.go:602-645 | Python names match up to runs of hyphens, underscores and dots |
| `PackageDiff.RustNames` | internal/compare/compare.go:611-661 | Rust names match up to hyphen and underscore |
| `PackageDiff.SameKeyWhen` | internal/compare/compare.go:549-592 | packages of one normal ecosystem whose names match have the same key; without an ecosystem the PURL type counts |
| `PackageDiff.SkippedExactly` | internal/compare/compare.go:549-564 | exactly packages without a name and Go modules replaced by a relative path have no key |
| `PackageDiff.ChangesArePatch` | internal/compare/compare.go:692-794 | applying the changes to the old packages gives the new ones |
| `PackageDiff.NoChangesMeansSame` | internal/compare/compare.go:692-794 | no changes are reported exactly when both sides show the same packages |
| `PackageDiff.SwapMirrors` | internal/compare/compare.go:692-794 | with antisymmetric comparators and names without a bar, the lists for the swapped inputs hold a change for the same keys, each with the kind mirrored and the versions exchanged |
| `PackageDiff.MirrorsExactly` | internal/compare/compare.go:293-311 | for any inputs: additions and removals are exchanged, and a changed package is mirrored exactly when the comparators used in the two directions give opposite signs |
| `PackageDiff.SameNormalSameComparator` | internal/compare/compare.go:314-336 | ecosystems that normalise alike, such as Debian:11 and Debian:12, have the same version comparator |
| `PackageDiff.SameKeySameComparator` | internal/compare/compare.go:527-592 | so have packages with the same key, for names without a bar |
| `PackageDiff.BarBreaksMirroring` | internal/compare/compare.go:549-600 | with a bar in a name packages of different ecosystems share a key, and swapping turns an upgrade into an update |
| `ImageConfig.CompareTables` | internal/compare/container_image.go:524-567 | exactly one change per key that differs, strictly sorted by key; also for labels |
| `ImageConfig.DiffIsUnique` | internal/compare/container_image.go:590-626 | there is only one such list, so the order of the map walks leaves no trace |
| `ImageConfig.ChangeMeans` | internal/compare/container_image.go:524-567 | what a change says: the values on both sides, empty where there is none, its kind, and whether the base lists the key as sensitive |
| `ImageConfig.DiffIsPatch` | internal/compare/container_image.go:524-567 | applying the changes to the base table gives the target table |
| `ImageConfig.LastAssignmentWins` | internal/compare/container_image.go:569-588 | the parsed environment holds the last assignment to every variable |
| `ImageConfig.AssignmentMeans` | internal/compare/container_image.go:569-588 | an assignment is cut at its first equals sign; without one it is a name with an empty value |
| `ImageConfig.DiffSets` | internal/compare/container_image.go:636-650 | the strictly sorted lists of what was added and what was removed |
| `ImageConfig.SetDiffIsPatch` | internal/compare/container_image.go:636-650 | they take the base set to the target set, and are empty exactly when the sets are equal |
| `ImageConfig.CompareImageConfigs` | internal/compare/container_image.go:342-406 | every component of the diff is the diff of that component |
| `ImageConfig.ConfigChangedExactly` | internal/compare/container_image.go:513-519 | the summary says unchanged exactly when both configurations agree on every compared component |
| `Guardrails.CommandGuardrails.CompilePatterns` | internal/ai/guardrails.go:544-564 | compilation stops at the first group with a malformed pattern and leaves it and the later groups empty |
| `Guardrails.CommandGuardrails.Eval` | internal/ai/guardrails.go:305-404 | the cached evaluation gives the verdict of a fresh compilation: custom, deny patterns, deny commands, allow lists, high risk, in that order |
| `Guardrails.EvaluateFile` | internal/ai/guardrails.go:407-530 | the ordered scan gives the verdict that `EvalFile` states |
| `Guardrails.FileVerdict` | internal/ai/guardrails.go:407-530 | a file operation is allowed exactly when no rule rejects it and it misses no allow list; it is high-risk exactly when a high-risk path rule holds |
| `Guardrails.CommandAllowedExactly` | internal/ai/guardrails.go:305-404 | on the rule lists: a command is allowed exactly when no deny pattern matches, no deny command is its name, and each allow list that is not empty has a match; high-risk exactly when allowed and a high-risk pattern matches; a group of patterns counts only if it and those before it compile |
| `Guardrails.ReportedRule` | internal/ai/guardrails.go:305-404 | which rule is reported: deny patterns before deny commands before the allow lists, and of several patterns the first |
| `Guardrails.FileAllowedExactly` | internal/ai/guardrails.go:407-530 | the same for files, on the rule lists: workspace, actions, paths, and extensions with or without their dot |
| `Guardrails.CustomFileDecides` | internal/ai/guardrails.go:407-530 | a custom file evaluator that denies or flags decides before every rule, and otherwise the rules alone do |
| `Guardrails.PlainPathRule` | internal/ai/guardrails.go:655-672 | a path rule without wildcards holds exactly for paths that have it as whole segments, at any depth |
| `Guardrails.HomePathRule` | internal/ai/guardrails.go:655-672 | a home-directory rule without wildcards holds for what follows its `~/`, unless the path starts so itself or has a hidden part behind a separator |
| `Guardrails.MergeAssociative` | internal/ai/guardrails.go:676-722 | merging three rule sets does not depend on which two are merged first |
| `Guardrails.MergeIdentity` | internal/ai/guardrails.go:676-722 | empty rules are a left identity, and a right identity exactly when the base has no custom evaluators |
| `Guardrails.MergeTightensCommands` | internal/ai/guardrails.go:544-722 | for an overlay without allow lists: a command passes the merged rules exactly when it passes the base and no deny rule of the overlay rejects it, if and only if the deny patterns of both sides compile or the command lists reject whatever the patterns reject; and what passes is high-risk exactly when either side's patterns say so, if and only if all three groups compile, or the command is rejected, or no pattern flags it |
| `Guardrails.MergedCommands` | internal/ai/guardrails.go:676-722 | with well-formed patterns, what either side denies or flags counts, and an allow list of the overlay replaces that of the base |
| `Guardrails.BaseDecidesFirst` | internal/ai/guardrails.go:676-722 | the deny pattern of the base that decided is the one reported for the merged rules |
| `Guardrails.MergedFiles` | internal/ai/guardrails.go:676-722 | merged file rules, likewise, for any patterns |
| `Guardrails.MergedNetwork` | internal/ai/guardrails.go:676-722 | merged network rules, likewise |
| `Guardrails.MergeTightensFiles` | internal/ai/guardrails.go:676-722 | for an overlay without allow lists, whatever its patterns: a file operation passes the merged rules exactly when it passes the base and no deny rule or workspace restriction of the overlay rejects it, and what passes is high-risk exactly when either side's rules say so |
| `Guardrails.MalformedDenyLoosens` | internal/ai/guardrails.go:544-564 | a malformed deny pattern in the overlay lets pass what only the patterns of the base reject, by a deny pattern or by missing the allow patterns |
| `Guardrails.MalformedRiskIsLost` | internal/ai/guardrails.go:544-564 | a malformed high-risk pattern in the overlay drops the high-risk flags of the base |
| `Guardrails.CustomFlagDecides` | internal/ai/guardrails.go:315-329 | with a custom evaluator a command is allowed exactly when the evaluator flags it, or passes it and the rules allow it |
| `Guardrails.PathRuleAtAnyDepth` | internal/ai/guardrails.go:655-672 | a path rule that is not about the home directory holds at every depth |
| `Session.CheckCommandApproval` | internal/ai/session.go:385-430 | passes exactly the commands that the guardrails allow and the policy approves |
| `Session.CheckFileWriteApproval` | internal/ai/session.go:433-484 | the same for file writes |
| `Session.Intercept` | internal/ai/session.go:300-346 | an item goes through unchanged exactly when it is a failure or its event is cleared, otherwise an error event takes its place; the approver is called for what the guardrails allow and the policy wants approved, the hook after it and only for what passed |
| `Session.AISession.Stream` | internal/ai/session.go:282-363 | one item out per item in, up to where the consumer stops; the history grows by the prompt and, after a full drain, by the concatenated text if there is any |
| `Session.AISession.Run` | internal/ai/session.go:488-519 | the summary of the filtered stream with its last error |
| `Session.AISession.StreamToWriter` | internal/ai/session.go:553-609 | the same, with the first error event unless a failure follows |
| `Session.TextSurvives` | internal/ai/session.go:282-363 | filtering never changes the text, so what is recorded is what the consumer read |
| `Session.ConsumersAgree` | internal/ai/session.go:488-609 | both consumers succeed exactly when nothing yielded is an error, and differ only in the error they keep |
| `Session.LastErrorMeans` | internal/ai/session.go:488-519 | `Run` reports the last error of the stream |
| `Session.WriterErrorMeans` | internal/ai/session.go:553-609 | `StreamToWriter` reports the last failure, or without one the first error event |
| `Session.ResultMeans` | internal/ai/session.go:488-609 | what the result of a stream holds besides its error |
| `Session.YieldedCommand` | internal/ai/session.go:300-430 | a command is yielded exactly when it is the provider's own, the guardrails allow it, the policy does not deny it, the approver consents where the policy asks, and the hook accepts it |
| `Session.YieldedWrite` | internal/ai/session.go:320-340 | the same for file events whose action is create or modify; one with any other action is yielded as it is |
| `Session.YieldedRest` | internal/ai/session.go:300-346 | a tool call is yielded exactly when its hook accepts it; everything else is yielded as it is, and what is not becomes an error event |
| `Session.RefusedIsNotShown` | internal/ai/session.go:300-484 | in every run, a command or a create or modify event that the guardrails deny is shown neither to the approver nor to a hook, and nobody is asked about other file events; the approver is asked first, a hook last, each at most once, and a hook only about what guardrails, policy and approver let through |
| `Session.AskedExactly` | internal/ai/session.go:385-430 | the approver is asked about exactly the allowed commands whose policy wants approval, the hook about exactly those that pass the checks |
| `Session.AskedAboutWrites` | internal/ai/session.go:433-484 | the same for creates and modifies |
| `Session.AskedAboutTools` | internal/ai/session.go:300-346 | the tool hook is asked about every tool call, and nobody else is |
| `Session.DenyPolicyYieldsNothing` | internal/ai/session.go:385-484 | a policy that denies commands lets none through, one that denies writes no create or modify event |
| `Session.HighRiskNeedsApproval` | internal/ai/session.go:385-484 | when high-risk operations always need approval, none is yielded without the approver's consent to it |
| `Session.OverlayOnlyRemovesCommands` | internal/ai/session.go:385-430 | an overlay of deny rules never lets a further command through the session, provided that all command patterns of both sides compile, neither side has a custom command evaluator, and an approver that is asked about every command and accepts a risky one also accepts it unflagged |
| `PluginOwnership.StepKeepsInv` | internal/agent/registry.go:70-87 | every atomic action keeps: one thread inside the lock, and every launched process in exactly one place |
| `PluginOwnership.OneOwner` | internal/agent/registry.go:327-359 | in every interleaving a launched process is held by one thread, or registered and not yet closed under one name, or was ended once: the three counts always add up to one |
| `PluginOwnership.RegisteredIsRunning` | internal/agent/registry.go:126-135 | a plugin found in an unlocked registry is running, held by no thread and listed under no other name |
| `PluginOwnership.NothingLeaks` | internal/agent/external.go:36-55 | once every call has returned, a launched process was ended exactly once, or is listed and was not ended |
| `PluginOwnership.EntryStays` | internal/agent/registry.go:175-212 | a registered name keeps its entry over every run in which nobody unregisters it or closes the registry |
| `PluginOwnership.CloseCloses` | internal/agent/registry.go:195-212 | over every run, when `Close` returns the registry is empty and every process listed when it took the lock has been ended exactly once |
| `PluginOwnership.UnregisterRemoves` | internal/agent/registry.go:175-192 | when `Unregister` returns the registry is the one it met without the name, and the process listed there has been ended exactly once |
| `PluginOwnership.RegisterLists` | internal/agent/registry.go:70-96 | when `RegisterBuiltin` returns the name is listed, unless it is empty, and an entry that was there stays |
| `PluginOwnership.DiscoveredAreListed` | internal/agent/registry.go:221-359 | when a discovery that goes well returns, every name it was after is listed, unless someone has removed it meanwhile |
| `PluginOwnership.FirstFileWins` | internal/agent/registry.go:238-262 | a discovery tries each name once, with the first file that carries it |
| `PluginOwnership.NobodyIsStuck` | internal/agent/registry.go:175-212 | a thread that cannot move waits for one that holds the lock and can |
| `DocSections.ReadAfterPut` | internal/docsgen/docsgen.go:182-225 | for markers that cannot overlap, a section just written reads as its content, up to an end marker in it |
| `DocSections.GetMeans` | internal/docsgen/docsgen.go:210-225 | what is read is what stands between the markers, without the newline behind the first |
| `DocSections.PutGet` | internal/docsgen/docsgen.go:182-225 | for names without `<`, content survives the round trip exactly when it does not contain the end marker |
| `DocSections.PutPut` | internal/docsgen/docsgen.go:182-206 | a second update overwrites the first as if it had not happened exactly when the first content does not contain the end marker |
| `DocSections.GetPut` | internal/docsgen/docsgen.go:182-225 | writing back what was read changes nothing exactly when a newline follows the begin marker |
| `DocSections.NeverPanics` | internal/docsgen/docsgen.go:219-224 | for names without `<` the slice is never out of bounds, and both operations find the markers or neither does |
| `DocSections.PanicsExactly` | internal/docsgen/docsgen.go:210-225 | some file makes `Section` slice out of bounds exactly when the end marker can start inside the begin marker, which takes a name with a `<` |
| `DocSections.NameThatPanics` | internal/docsgen/docsgen.go:210-225 | a name with which it does |
| `DocSections.OutsideUntouched` | internal/docsgen/docsgen.go:179-206 | everything up to the begin marker and from the end marker on is kept, for every name |
| `ImageRefs.ParseImageRefSimple` | internal/dockerfile/parser.go:306-347 | the object built field by field holds what `Parse` says of the text |
| `ImageRefs.BareNameMeans` | internal/dockerfile/parser.go:326-344 | a name alone is docker.io, `library/` and the name, with tag `latest` |
| `ImageRefs.QualifiedNameMeans` | internal/dockerfile/parser.go:326-344 | a first segment with a dot or colon, or `localhost`, is the registry; any other belongs to an image of Docker Hub |
| `ImageRefs.ParseAssembles` | internal/dockerfile/parser.go:306-347 | the tag is what follows the last colon, the digest what follows the first `@` |
| `ImageRefs.ParseTagged` | internal/compare/container_image.go:21-38 | a parsed reference without a digest prints and parses back to itself, ports and defaults included |
| `ImageRefs.ParsePinned` | internal/compare/container_image.go:21-38 | what a reference with a digest parses back to: its tag lost, a colon in its last segment taken for a tag |
| `ImageRefs.ParsePrintParse` | internal/dockerfile/parser.go:306-347 | for every text, printing what was parsed and parsing again gives the same reference exactly under a condition on it that a caller can check |
| `ImageRefs.EmptyTagIsNotStable` | internal/dockerfile/parser.go:316-324 | an empty tag in front of a digest: the repository keeps a colon that the second parse takes for a tag |
| `ManifestRefs.MergeGroups` | internal/dependency/manifest_ref.go:123-139 | adds one after another the trimmed groups that are not blank and not there yet |
| `ManifestRefs.GroupedMeans` | internal/dependency/manifest_ref.go:123-139 | the merged list holds exactly the base and the trimmed groups, without new repeats |
| `ManifestRefs.SaysOf` | internal/dependency/manifest_ref.go:84-120 | the groups of a manifest are those of all references with its manager and path |
| `ManifestRefs.FirstComponent` | internal/dependency/manifest_ref.go:84-120 | its component key is the first one that is not empty |
| `ManifestRefs.MergeManifestRef` | internal/dependency/manifest_ref.go:61-81 | merges into the first reference with the same manager and path, or appends; skips references without path or manager |
| `ManifestRefs.MergeOneMeans` | internal/dependency/manifest_ref.go:61-81 | merging a reference into a list with distinct keys says of every manifest what appending it says, and keeps the keys distinct |
| `ManifestRefs.MergedGroups` | internal/dependency/manifest_ref.go:61-81 | the entry merged into holds its old groups and the trimmed new ones, each once, and the other entries stay |
| `ManifestRefs.SortAndUniqueManifestRefs` | internal/dependency/manifest_ref.go:84-120 | strictly sorted by manager and path, one reference per key with the sorted union of the trimmed groups and the first non-empty component key |
| `ManifestRefs.CanonicalUnique` | internal/dependency/manifest_ref.go:84-120 | lists that say the same have one canonical form, whatever order the map is visited in |
| `ManifestRefs.CanonicalOrder` | internal/dependency/manifest_ref.go:84-120 | the canonical form is ordered by manager and then path, and has a reference for exactly the manifests that have one |
| `ManifestRefs.IncrementalIsBatch` | internal/dependency/manifest_ref.go:61-120 | merging one by one and canonicalising equals canonicalising the named references at once |
| `ManifestRefs.IncrementalIsBatchOnAll` | internal/dependency/manifest_ref.go:61-120 | on the whole list the two agree exactly when every reference has a path and a manager |
| `ManifestRefs.CanonicalIsFixed` | internal/dependency/manifest_ref.go:84-120 | a canonical list is its own canonical form |
| `Convert.Convert` | internal/inputs/convert.go:34-181 | one input for every key of a named package, with the sorted union of all trimmed paths and the canonical form of all manifest references of its packages |
| `Convert.ContributedMeans` | internal/inputs/convert.go:34-181 | a key gets an input exactly when a package with that key has a name that is not blank |
| `Wrap.WrapParagraph` | internal/explain/renderer.go:962-983 | the greedy loop fills lines as `Fill` does |
| `Wrap.WrapText` | internal/explain/renderer.go:953-992 | the nested loops compute `Wrapped` |
| `Wrap.WrapKeepsWords` | internal/explain/renderer.go:953-992 | the sequence of words is preserved, for every text and width |
| `Wrap.LinesFit` | internal/explain/renderer.go:966-983 | every line of the result is empty, no longer than the width in bytes, or a single word |
| `Wrap.WrapIsGreedy` | internal/explain/renderer.go:966-983 | a line that follows another starts with a word that would not have fitted there |
| `Wrap.ParagraphsStayApart` | internal/explain/renderer.go:958-991 | a blank line keeps two paragraphs apart, each wrapped on its own, and none follows the last |
| `Wrap.EmptyFirstLine` | internal/explain/renderer.go:969-973 | a wrapped paragraph has an empty line exactly in front of a first word as long as the width or longer |
| `Wrap.WrapIndent` | internal/explain/renderer.go:994-1002 | wraps to the remaining width and indents every line but the first |
| `Wrap.IndentedMeans` | internal/explain/renderer.go:994-1002 | every line but the first gets exactly the indentation in front of it |
| `Wrap.IndentKeepsWords` | internal/explain/renderer.go:994-1002 | indenting preserves the words |
| `Wrap.IndentedLinesFit` | internal/explain/renderer.go:994-1002 | indenting lines that fit into what is left of the width gives lines no longer than the width or with at most one word |

## Left out

- Networks, registries, subprocesses, sockets, files and clocks: their outcomes are parameters of the model or free choices of a step.
- Glob alternation, character classes and escapes: a pattern that uses them is malformed in the model; the glob library itself is replaced by a token semantics of literals, `*`, `**` and `?`.
- ExcludePaths.SelectedIsExcludedAncestor: only for patterns without a backslash, because the path matcher turns `\` into `/` and the directory matcher does not.
- LicenseFlight.LookupsAgree: caches are maps without expiry; expiry and eviction are covered by `ResolvesNeverOverlap` and `ResolvesAreBounded`. Cancelled contexts, panics inside a flight, well-known licenses and the early returns for blank names are not modelled.
- LicenseScan.LocalRepoLicenseScan: a schedule that hangs or stops early gives no result; license detection is a parameter of each file, and lower-casing is modelled for the letters that occur in license file names.
- The disk check inside the flight of a module scan, license sources per registry, and the nearest-ancestor search of a module scan.
- Lockfiles.PreferLockfileResolutions: paths use `/` throughout, as on Unix.
- DirectDeps.WorkspaceMeetsCommit: manifest parsers are one opaque function of name and content; symbolic links and unreadable directories are not modelled. The comment on the workspace collector lists setup.py, but no code reads it.
- PackageDiff.ComparePackages: the table of semantic versioning names, the version comparators, the canonical form of a Go path, module exclusion and directness are parameters; lower-casing is modelled for ASCII letters; the order of changes with the same kind and name is left open, as the code leaves it.
- ImageConfig.CompareImageConfigs: absent inputs, layer analysis and the other counters of the summary are not modelled.
- Guardrails.CommandGuardrails.Eval: regular expressions, case folding, command-name extraction, path cleaning and the workspace test are parameters. Network rules are merged but never evaluated.
- Guardrails.MergeAssociative: rule lists are values; the code's `append` may share backing arrays between rule sets, which the model does not capture.
- Session.AISession.Stream: approver and hooks are functions of the position in the stream and the operation; request building, the message hook and the non-streaming Send are not modelled, and error texts are abstract.
- PluginOwnership.OneOwner: a process that exits on its own, or because its context is cancelled, still counts as running until someone ends it. Remote and sandboxed plugins hold no process and are not modelled; the errors that calls return are not either.
- DocSections.PutGet: section names containing `<` are excluded, since their markers could overlap. File access is not modelled.
- ImageRefs.ParsePrintParse: only the fallback parser; references that the container registry library accepts are parsed by it instead. `ImageRef.String` is modelled for an empty `Reference`.
- Convert.Convert: key construction, manager detection, group lookup, directness and layer details are not modelled; the result is a map, since the code leaves ties of its final order open.
- Wrap.WrapText: text is a sequence of characters, measured in UTF-8 bytes; invalid UTF-8 is not modelled.
- The gitignore filter and the fixed skip rules of the inventory walk (internal/inventory/scan_skip.go): the gitignore library decides the former and the latter only branch; what pruning does to a walk is proved for the exclusion globs.
- The line parsers for go.mod and the other manifests: heuristic, and dependent on the order of lines within one file; only the merge across files is modelled.
- Finite tables, presets, command-line wiring, rendering and telemetry: they would only add easy members.
