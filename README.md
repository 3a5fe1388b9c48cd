# GitView analysis engine in Dafny

GitView shows a GitHub repository as a file tree and as a graph of import
dependencies. The engine behind those views lives under
`gitview/app/visualize/`. This project models the five pieces of it that have
behaviour worth stating, and proves properties of each:

- **Path resolver** (`PathResolver`, `path_resolver.dfy`). `resolveRelativePath`
  strips one leading `./` and pops one base segment for each leading `../`,
  never going past the root. It then joins what is left. The method keeps the
  source's `while` loop and is proved equal to the function `Resolve`.
- **File tree builder** (`FileTreeBuilder`, `file_tree_builder.dfy`).
  `buildFileTree` makes one pass over a flat tree listing. It keeps a
  path-to-node map and pushes nodes into their parents' `children` arrays in
  place. The JavaScript nodes alias each other, so the model keeps every node
  in an arena of slots, where a slot number is a node's identity. The path
  map sends paths to slot numbers, and slot 0 is the root placeholder. The
  method `BuildFileTree` works item by item, as the source does. It is proved
  equal to the fold `After`, and the lemmas about `After` say what ends up
  where.
- **Language registry** (`LanguageRegistry`, `language_registry.dfy`). This is
  the table of 17 language configurations, with their extensions, colours,
  import patterns, module extensions and index files. It also holds the
  extension-to-language map that a nested loop fills at module load, and the
  pure lookups over that map. Each regular expression is a named value whose
  source text `Source` gives; nothing matches it.
- **Rate-limit service** (`RateLimit`, `rate_limit_service.dfy`). The class
  `RateLimitService` has the fields `rateLimitInfo` and `retryCount`. It
  carries the header-update rule, the "exhausted" check and the recursive
  `executeWithRetry` with exponential back-off. `ServiceRegistry` stands for
  the static singleton slot. The clock and the API call are inputs: each
  attempt is an `Attempt(now, outcome)`.
- **Dependency analyzer** (`DependencyAnalyzer`, `dependency_analyzer.dfy`).
  `analyzeDependencies` filters a listing down to code files and caps it at 30.
  It pushes one node per fetched file, records the imports of each file, and
  turns every import that resolves into a link. Three calls are parameters:
  `fetchFileContent`, `extractImports` and `findMatchingFile`. Each is a
  function from its arguments to an `Option`, where `None` stands for a throw
  or a missing value.

`Strings` models the JavaScript string operations these files use: `split`,
`join`, `split(...).pop()`, `startsWith` and `toLowerCase`. `Types` holds the
tree item record of a GitHub listing, and `Wrappers` holds `Option`.

The comment at `file-tree-builder.ts:45` says a created parent is added to
its own parent "recursively", but `buildFileTree` synthesises only one missing
directory level (`file-tree-builder.ts:36-55`), and the model follows the code.
A synthesised parent whose own parent is not yet known is attached nowhere, so
an item two levels below unknown directories disappears from the output
(`DeepOrphanExample`).

## Model

| member | source | states |
|---|---|---|
| Strings.Split | gitview/app/visualize/utils/path-resolver.ts:8 | `split` gives at least one piece, none of which holds the separator, and exactly one piece iff the separator does not occur |
| Strings.LastSegment | gitview/app/visualize/utils/dependency-analyzer.ts:13 | `split(c).pop()` is a separator-free suffix of the string, preceded by the separator when it is not the whole string |
| Strings.JoinSplit | gitview/app/visualize/utils/path-resolver.ts:8-14 | joining the pieces of a split gives back the original string |
| Strings.DropLastSegmentIsJoin | gitview/app/visualize/utils/file-tree-builder.ts:33 | `parts.slice(0, -1).join("/")` is the text before the last `/`, or `""` when there is none |
| Strings.DropLastSegmentRebuilds | gitview/app/visualize/utils/file-tree-builder.ts:15-33 | a path with a `/` is its parent path, a `/` and its last segment |
| Strings.LastSegmentAfter | gitview/app/visualize/utils/language-registry.ts:293 | after `front + c + back`, with no `c` in `back`, the last segment is `back` and the text before it is `front` |
| Strings.ToLowerFacts | gitview/app/visualize/utils/language-registry.ts:286 | lower-casing yields lower-case text, is the identity on lower-case text and is idempotent |
| PathResolver.StripCurrentDir | gitview/app/visualize/utils/path-resolver.ts:3-5 | exactly one leading `./` is removed when present; anything else is unchanged |
| PathResolver.AfterUps | gitview/app/visualize/utils/path-resolver.ts:9-12 | the loop removes 3 characters per leading `../`, and what is left does not start with `../` |
| PathResolver.PopN | gitview/app/visualize/utils/path-resolver.ts:11 | popping n segments keeps a prefix of the segments, of length `len - n` clamped at 0 |
| PathResolver.ResolveRelativePath | gitview/app/visualize/utils/path-resolver.ts:1-15 | the loop, which pops the segment list and shortens the import in place, returns `Resolve(basePath, relativePath)` for every input |
| PathResolver.PlainImportAppended | gitview/app/visualize/utils/path-resolver.ts:14 | an import without a leading `./` or `../` resolves to `base + "/" + import` |
| PathResolver.CurrentDirIgnored | gitview/app/visualize/utils/path-resolver.ts:3-5 | one leading `./` does not change the result |
| PathResolver.UpMovesToParent | gitview/app/visualize/utils/path-resolver.ts:9-12 | a leading `../` is the same as resolving the rest against the base's parent directory |
| PathResolver.UpsPastRootClamp | gitview/app/visualize/utils/path-resolver.ts:11-14 | once the `../` count reaches the number of base segments, the result is the bare remainder after the `../` prefixes, with no error |
| PathResolver.PlainExample | gitview/app/visualize/utils/path-resolver.ts:14 | `("src/utils", "helpers")` gives `"src/utils/helpers"` |
| PathResolver.CurrentDirExample | gitview/app/visualize/utils/path-resolver.ts:3-14 | `("src/utils", "./helpers")` gives `"src/utils/helpers"` |
| PathResolver.ParentDirExample | gitview/app/visualize/utils/path-resolver.ts:9-14 | `("src/utils", "../core/init")` gives `"src/core/init"` |
| PathResolver.PastRootExample | gitview/app/visualize/utils/path-resolver.ts:9-14 | `("a", "../../x")` gives `"x"`: popping past the root is a no-op |
| PathResolver.EmptyBaseExample | gitview/app/visualize/utils/path-resolver.ts:8-14 | `("", "x")` gives `"/x"`, because the empty base splits into one empty segment |
| PathResolver.InnerCurrentDirKeptExample | gitview/app/visualize/utils/path-resolver.ts:3-12 | `("a/b", ".././x")` gives `"a/./x"`: `./` is stripped only once, before the `../` loop |
| LanguageRegistry.BuildExtensionToLanguage | gitview/app/visualize/utils/language-registry.ts:275-280 | the nested build loop yields the fold `Fill` of the table; the map is well formed, and its keys are exactly the extensions some language lists |
| LanguageRegistry.SetExtensionsWellFormed | gitview/app/visualize/utils/language-registry.ts:277-279 | setting a language's extensions keeps the key list duplicate-free and equal to the key set |
| LanguageRegistry.FillWellFormed | gitview/app/visualize/utils/language-registry.ts:275-280 | the map stays well formed throughout the build |
| LanguageRegistry.SetExtensionsEntries | gitview/app/visualize/utils/language-registry.ts:277-279 | after one language's inner loop, its extensions map to it and every other key keeps its value |
| LanguageRegistry.FillDomain | gitview/app/visualize/utils/language-registry.ts:275-280 | a key is in the map iff one of the languages processed so far lists it |
| LanguageRegistry.FillValue | gitview/app/visualize/utils/language-registry.ts:275-280 | an extension maps to the last language that lists it |
| LanguageRegistry.FillValueListed | gitview/app/visualize/utils/language-registry.ts:275-280 | every entry maps to a language of the table that lists that extension |
| LanguageRegistry.SetExtensionsAppend | gitview/app/visualize/utils/language-registry.ts:277-279 | setting new, distinct keys appends them to the insertion order |
| LanguageRegistry.NotYetSet | gitview/app/visualize/utils/language-registry.ts:277-279 | a key that is neither present nor set by the loop stays absent |
| LanguageRegistry.FillKeys | gitview/app/visualize/utils/language-registry.ts:275-280 | with no extension listed twice, the key order is every language's extensions in table order |
| LanguageRegistry.TableRowsChecked | gitview/app/visualize/utils/language-registry.ts:20-272 | every language lists at least one extension, and each extension is non-empty, lower-case and claimed by that one position of the table |
| LanguageRegistry.CheckedRowsDistinct | gitview/app/visualize/utils/language-registry.ts:20-272 | when each extension is claimed by its own position, no extension is listed twice |
| LanguageRegistry.UnownedUnlisted | gitview/app/visualize/utils/language-registry.ts:20-272 | an extension no position claims is listed by no language |
| LanguageRegistry.CheckedRowsLower | gitview/app/visualize/utils/language-registry.ts:20-272 | checked rows hold only non-empty, lower-case extensions |
| LanguageRegistry.TableExtensionsDistinct | gitview/app/visualize/utils/language-registry.ts:20-272 | no extension is listed twice in the table, so the build never overwrites an entry |
| LanguageRegistry.TableExtensionLower | gitview/app/visualize/utils/language-registry.ts:20-272 | every listed extension is non-empty and lower-case |
| LanguageRegistry.TableCaptureGroups | gitview/app/visualize/utils/language-registry.ts:28-268 | every import pattern declares capture group 1 |
| LanguageRegistry.TableColors | gitview/app/visualize/utils/language-registry.ts:20-272 | every language colour is non-empty and differs from the fallback grey |
| LanguageRegistry.GetLanguageByExtension | gitview/app/visualize/utils/language-registry.ts:285-287 | the result is a language iff some table language lists the lower-cased extension, and then it is a table language that lists it; otherwise it is null |
| LanguageRegistry.LookupIgnoresCase | gitview/app/visualize/utils/language-registry.ts:285-287 | looking up `e` equals looking up `e.toLowerCase()` |
| LanguageRegistry.LookupFindsListingLanguage | gitview/app/visualize/utils/language-registry.ts:275-287 | for every language L and every extension in L's list, the lookup returns L |
| LanguageRegistry.EveryLanguageReachable | gitview/app/visualize/utils/language-registry.ts:20-287 | no language is shadowed: the lookup of each language's first extension returns that language |
| LanguageRegistry.GetAllLanguages | gitview/app/visualize/utils/language-registry.ts:314-316 | the 17 configurations, among which is every language a lookup can return |
| LanguageRegistry.IsSupported | gitview/app/visualize/utils/language-registry.ts:307-309 | `isSupported(e)` holds iff `getLanguageByExtension(e)` is non-null |
| LanguageRegistry.GetSupportedExtensions | gitview/app/visualize/utils/language-registry.ts:300-302 | each supported extension appears exactly once, and nothing else appears |
| LanguageRegistry.SupportedExtensionsInTableOrder | gitview/app/visualize/utils/language-registry.ts:300-302 | the keys come in table order, each language's extensions in listed order |
| LanguageRegistry.GetColorForExtension | gitview/app/visualize/utils/language-registry.ts:321-324 | a supported extension gets its language's colour; the result is `"#999999"` iff the extension is unsupported |
| LanguageRegistry.GetLanguageByPath | gitview/app/visualize/utils/language-registry.ts:292-295 | the lookup of the text after the last `.` (the whole path without a `.`), lower-cased; null when that text is empty |
| LanguageRegistry.LanguageByPathUsesLastExtension | gitview/app/visualize/utils/language-registry.ts:292-295 | `stem + "." + ext`, with no `.` in `ext`, resolves as `ext` does, whatever the stem |
| LanguageRegistry.UnlistedExtensionUnsupported | gitview/app/visualize/utils/language-registry.ts:285-324 | an unknown extension yields null and the fallback colour, never a failure |
| LanguageRegistry.UpperCaseExtensionExample | gitview/app/visualize/utils/language-registry.ts:285-287 | `"TSX"` finds TypeScript |
| LanguageRegistry.UnknownExtensionExample | gitview/app/visualize/utils/language-registry.ts:285-324 | `"txt"` finds nothing and `"md"` gets `"#999999"` |
| LanguageRegistry.ColorExample | gitview/app/visualize/utils/language-registry.ts:321-324 | `"Py"` gets Python's colour `"#3776ab"` |
| LanguageRegistry.PathExample | gitview/app/visualize/utils/language-registry.ts:292-295 | `"src/App.TSX"` finds TypeScript |
| LanguageRegistry.TrailingDotExample | gitview/app/visualize/utils/language-registry.ts:292-295 | `"notes."` has an empty extension and finds nothing |
| LanguageRegistry.DotlessPathIsExtension | gitview/app/visualize/utils/language-registry.ts:292-295 | a path without `.` is looked up as an extension in its own right |
| LanguageRegistry.MakefileUnsupported | gitview/app/visualize/utils/language-registry.ts:285-287 | `"Makefile"` is no extension of the table |
| LanguageRegistry.DotlessPathExample | gitview/app/visualize/utils/language-registry.ts:292-295 | the path `"Makefile"` finds nothing |
| LanguageRegistry.CExtensionExample | gitview/app/visualize/utils/language-registry.ts:285-287 | `"c"` finds C |
| LanguageRegistry.DotlessCExample | gitview/app/visualize/utils/language-registry.ts:292-295 | the dotless path `"c"` finds C, because the whole path counts as its extension |
| FileTreeBuilder.Step | gitview/app/visualize/utils/file-tree-builder.ts:12-60 | one item's round keeps every mapped path pointing at an existing node |
| FileTreeBuilder.AddItem | gitview/app/visualize/utils/file-tree-builder.ts:13-60 | updating the node list and path map in place yields the state `Step` describes |
| FileTreeBuilder.BuildFileTree | gitview/app/visualize/utils/file-tree-builder.ts:3-63 | the pass over all items ends in a valid arena (a forest in which files have no children and each node has at most one parent), and it returns the root's children materialised as nested nodes |
| FileTreeBuilder.InitialValid | gitview/app/visualize/utils/file-tree-builder.ts:5-9 | the starting state, an empty root placeholder mapped under `""`, is valid |
| FileTreeBuilder.StepValid | gitview/app/visualize/utils/file-tree-builder.ts:12-60 | each item's round keeps the arena a forest with a consistent path map |
| FileTreeBuilder.AfterValid | gitview/app/visualize/utils/file-tree-builder.ts:12-61 | the state after any number of items is valid |
| FileTreeBuilder.StepGrows | gitview/app/visualize/utils/file-tree-builder.ts:12-60 | a round only adds: existing nodes keep their path and type, and their children lists only get longer |
| FileTreeBuilder.AfterGrows | gitview/app/visualize/utils/file-tree-builder.ts:12-61 | a later state extends an earlier one |
| FileTreeBuilder.ChildToEnd | gitview/app/visualize/utils/file-tree-builder.ts:12-61 | a child once attached is still attached, under the same parent, at the end |
| FileTreeBuilder.OrphanToEnd | gitview/app/visualize/utils/file-tree-builder.ts:12-61 | a node that is nobody's child stays nobody's child |
| FileTreeBuilder.StepTopLevel | gitview/app/visualize/utils/file-tree-builder.ts:28-30 | an item without `/` gets a new node pushed onto the root |
| FileTreeBuilder.StepKnownParent | gitview/app/visualize/utils/file-tree-builder.ts:33-59 | when the parent path is mapped, the new node is pushed onto that parent if it is a directory and attached nowhere if it is a file |
| FileTreeBuilder.StepNewParent | gitview/app/visualize/utils/file-tree-builder.ts:36-59 | a missing parent becomes a new directory holding the item. It goes under the grandparent if that is a mapped directory, otherwise onto the root when the parent path has no `/`, and otherwise nowhere |
| FileTreeBuilder.StepCreatesParent | gitview/app/visualize/utils/file-tree-builder.ts:36-43 | the synthesised parent is a directory with the parent path, mapped under that path |
| FileTreeBuilder.StepUnderFileOrphan | gitview/app/visualize/utils/file-tree-builder.ts:57-59 | an item whose parent path maps to a file is nobody's child |
| FileTreeBuilder.StepItemNode | gitview/app/visualize/utils/file-tree-builder.ts:13-25 | each round creates the item's node last and maps the item's path to it |
| FileTreeBuilder.ItemNode | gitview/app/visualize/utils/file-tree-builder.ts:13-22 | every item's node has the item's path; a `blob` becomes a file without children, anything else a directory |
| FileTreeBuilder.ItemSlotsIncrease | gitview/app/visualize/utils/file-tree-builder.ts:12-25 | nodes are created in input order |
| FileTreeBuilder.ItemMapped | gitview/app/visualize/utils/file-tree-builder.ts:25 | right after its round, an item's path maps to its own node, overwriting any earlier entry |
| FileTreeBuilder.TopLevelItemAtRoot | gitview/app/visualize/utils/file-tree-builder.ts:28-30 | every item without `/` is a child of the root at the end |
| FileTreeBuilder.ItemUnderMappedDir | gitview/app/visualize/utils/file-tree-builder.ts:33-59 | an item whose parent path maps to a directory ends up among that directory's children |
| FileTreeBuilder.ItemUnderFileDropped | gitview/app/visualize/utils/file-tree-builder.ts:57-59 | an item whose parent path maps to a file is attached nowhere, for good |
| FileTreeBuilder.ItemUnderMissingParent | gitview/app/visualize/utils/file-tree-builder.ts:36-59 | an item with an unmapped parent path ends up under a new directory node carrying that parent path |
| FileTreeBuilder.MissingParentUnderGrandparent | gitview/app/visualize/utils/file-tree-builder.ts:46-51 | a synthesised parent whose grandparent is a mapped directory is that directory's child |
| FileTreeBuilder.MissingParentAtRoot | gitview/app/visualize/utils/file-tree-builder.ts:52-54 | a synthesised top-level parent with no mapped directory above it goes onto the root |
| FileTreeBuilder.MissingParentUnattached | gitview/app/visualize/utils/file-tree-builder.ts:46-55 | a synthesised nested parent without a mapped directory grandparent is attached nowhere, for good: only one level is synthesised |
| FileTreeBuilder.SiblingsInInputOrder | gitview/app/visualize/utils/file-tree-builder.ts:12-59 | siblings appear in input order, never sorted |
| FileTreeBuilder.ItemFileNode | gitview/app/visualize/utils/file-tree-builder.ts:13-22 | the materialised node of every item has the item's path, and it is a file with no `children` iff the item is a `blob` |
| FileTreeBuilder.TopLevelItemInOutput | gitview/app/visualize/utils/file-tree-builder.ts:28-63 | every top-level item's node is in the returned array |
| FileTreeBuilder.DeepOrphanExample | gitview/app/visualize/utils/file-tree-builder.ts:36-55 | the listing `["a/b/c.txt"]` alone gives an empty tree |
| FileTreeBuilder.DuplicateDirArena | gitview/app/visualize/utils/file-tree-builder.ts:18-43 | after `"a/x"` then the directory `"a"`, two `"a"` nodes exist and `"a"` maps to the later one |
| FileTreeBuilder.DuplicateDirOutput | gitview/app/visualize/utils/file-tree-builder.ts:63 | that arena is returned as two sibling `"a"` directories, the first holding `"a/x"` |
| FileTreeBuilder.DuplicateDirExample | gitview/app/visualize/utils/file-tree-builder.ts:18-30 | a later explicit directory after a synthesised one yields two sibling nodes |
| RateLimit.CheckRateLimit | gitview/app/visualize/services/rate-limit-service.ts:40-48 | the check fails, with `RateLimitError`, iff `remaining <= 0` and `now < reset` |
| RateLimit.RetryStop | gitview/app/visualize/services/rate-limit-service.ts:54-71 | an attempt that is not rate-limited, or that comes when retries are used up, ends the call. Success returns the value with the counter reset; failure runs the handler once and surfaces the error |
| RateLimit.RetryRunBounds | gitview/app/visualize/services/rate-limit-service.ts:59-71 | the counter never exceeds 3, at most `3 - retryCount` delays happen, there is at most one API call per attempt and the handler runs at most once |
| RateLimit.Backoff | gitview/app/visualize/services/rate-limit-service.ts:63 | the back-off schedule has one delay per retry |
| RateLimit.BackoffDoubles | gitview/app/visualize/services/rate-limit-service.ts:62-63 | the k-th delay is `2^(retryCount + k + 1) * 1000` ms |
| RateLimit.RetryDelaysDouble | gitview/app/visualize/services/rate-limit-service.ts:60-65 | the delays of a call are the doubling schedule from the current counter: 2000, 4000, 8000 from 0 |
| RateLimit.SuccessResetsCounter | gitview/app/visualize/services/rate-limit-service.ts:54-65 | a call that returns a value has reset the counter to 0 and run no handler. The value is the API's result on an attempt that passed the check, and every earlier attempt was rate-limited |
| RateLimit.FailureRunsHandler | gitview/app/visualize/services/rate-limit-service.ts:59-71 | a call that fails runs the handler exactly once if there is one, and every retried attempt before it was rate-limited |
| RateLimit.FailureSurfaces | gitview/app/visualize/services/rate-limit-service.ts:59-71 | a surfaced `RateLimitError` means retries are used up (counter 3, not reset); any other error is the API's own, thrown without a retry |
| RateLimit.BlockedCallsSkipApi | gitview/app/visualize/services/rate-limit-service.ts:54-56 | while the check fails, the API is never called and the call fails with `RateLimitError` |
| RateLimit.TwoRateLimitsThenSuccess | gitview/app/visualize/services/rate-limit-service.ts:54-65 | two rate-limit errors and then a value give that value after delays 2000 and 4000, with three API calls and the counter back at 0 |
| RateLimit.RetriesExhausted | gitview/app/visualize/services/rate-limit-service.ts:60-71 | four rate-limit errors from 0 give delays 2000, 4000 and 8000 and leave the counter at 3; at counter 3 a rate-limit error is not retried |
| RateLimit.FreshServiceNotBlocked | gitview/app/visualize/services/rate-limit-service.ts:11-15 | the initial allowance (5000 remaining, reset 0) never blocks |
| RateLimit.CheckPassesFromReset | gitview/app/visualize/services/rate-limit-service.ts:40-48 | a check that passes at some time passes at every later time |
| RateLimit.PositiveRemainingUnblocks | gitview/app/visualize/services/rate-limit-service.ts:28-48 | after a header with a positive remaining count, the check passes |
| RateLimit.UpdateFacts | gitview/app/visualize/services/rate-limit-service.ts:28-38 | applying the same headers twice is the same as once; no headers change nothing; the remaining count changes iff its header is present with a different value |
| RateLimit.RateLimitService.constructor | gitview/app/visualize/services/rate-limit-service.ts:11-19 | a new service starts at remaining 5000, reset 0, limit 5000 and counter 0 |
| RateLimit.RateLimitService.UpdateRateLimitInfo | gitview/app/visualize/services/rate-limit-service.ts:28-38 | each field takes its header's value when present and keeps the old value otherwise; the counter is untouched |
| RateLimit.RateLimitService.CheckNow | gitview/app/visualize/services/rate-limit-service.ts:40-48 | fails iff `remaining <= 0` and `now < reset`, changing nothing |
| RateLimit.RateLimitService.GetRateLimitInfo | gitview/app/visualize/services/rate-limit-service.ts:75-77 | returns the current values as an immutable value, so the caller cannot write through it |
| RateLimit.RateLimitService.ExecuteWithRetry | gitview/app/visualize/services/rate-limit-service.ts:50-73 | the recursive method's result, delays, call counts and final counter are those of `RetryRun`, whose properties the lemmas above state; the rate-limit record is unchanged |
| RateLimit.ServiceRegistry.constructor | gitview/app/visualize/services/rate-limit-service.ts:10 | no instance exists at first |
| RateLimit.ServiceRegistry.GetInstance | gitview/app/visualize/services/rate-limit-service.ts:21-26 | the first call creates a fresh service in its initial state; every later call returns that same object |
| DependencyAnalyzer.CodeFiles | gitview/app/visualize/utils/dependency-analyzer.ts:12-18 | exactly the `blob` items whose lower-cased last-dot segment is one of the 12 code extensions are kept |
| DependencyAnalyzer.CodeFilesAppend | gitview/app/visualize/utils/dependency-analyzer.ts:12-18 | the filter keeps input order: filtering a concatenation concatenates the filtered parts |
| DependencyAnalyzer.FilesToAnalyze | gitview/app/visualize/utils/dependency-analyzer.ts:21-22 | the sample is a prefix of the code files of length `min(30, count)` |
| DependencyAnalyzer.SampleIsFirstEligible | gitview/app/visualize/utils/dependency-analyzer.ts:12-22 | the sample is the first 30 eligible files: items after the 30th eligible one do not matter, and with at most 30 eligible files all are analysed |
| DependencyAnalyzer.FileExt | gitview/app/visualize/utils/dependency-analyzer.ts:37 | the node type is the text after the last `.` in its own case, or `"file"` when that text is empty |
| DependencyAnalyzer.MakeNode | gitview/app/visualize/utils/dependency-analyzer.ts:36-42 | a node's id is the path, its label is the last `/` segment and its type is `FileExt` of the path |
| DependencyAnalyzer.Lookup | gitview/app/visualize/utils/dependency-analyzer.ts:26 | the import map yields the stored imports of a path iff the path is a key |
| DependencyAnalyzer.MapSet | gitview/app/visualize/utils/dependency-analyzer.ts:46 | setting a key keeps the insertion order, appends a new key, and keeps the keys distinct |
| DependencyAnalyzer.MapSetLookup | gitview/app/visualize/utils/dependency-analyzer.ts:46 | after a set, the key yields the new imports and every other key is unchanged |
| DependencyAnalyzer.NodesOfFetchedFiles | gitview/app/visualize/utils/dependency-analyzer.ts:29-50 | there is exactly one node per successfully fetched file, and none for a failed fetch, whatever extraction does |
| DependencyAnalyzer.ImportMapOfExtractedFiles | gitview/app/visualize/utils/dependency-analyzer.ts:33-49 | a path has imports recorded iff it was analysed and both fetch and extraction succeeded, and they are what extraction returned; one file's failure does not affect the others |
| DependencyAnalyzer.ImportMapDistinct | gitview/app/visualize/utils/dependency-analyzer.ts:26-46 | the import map never holds a path twice |
| DependencyAnalyzer.FetchedFileHasNode | gitview/app/visualize/utils/dependency-analyzer.ts:34-42 | every analysed file whose fetch succeeds has a node with its path as id |
| DependencyAnalyzer.EntryHasNode | gitview/app/visualize/utils/dependency-analyzer.ts:38-46 | every key of the import map is the id of some node |
| DependencyAnalyzer.AnalyzeFiles | gitview/app/visualize/utils/dependency-analyzer.ts:24-52 | the per-file loop's nodes and import map are those of `Analyzed`, whose properties the lemmas above state |
| DependencyAnalyzer.Target | gitview/app/visualize/utils/dependency-analyzer.ts:58-59 | an import finds a target iff `findMatchingFile` returns a non-empty path, and that path is the target |
| DependencyAnalyzer.EntryLinks | gitview/app/visualize/utils/dependency-analyzer.ts:56-64 | an entry yields at most one link per import, each with the entry's path as source |
| DependencyAnalyzer.EntryLinksAppend | gitview/app/visualize/utils/dependency-analyzer.ts:56-64 | the links of an entry follow its imports in order |
| DependencyAnalyzer.RepeatedImportKept | gitview/app/visualize/utils/dependency-analyzer.ts:56-64 | an import listed twice yields two identical links: duplicates are kept |
| DependencyAnalyzer.EntryLinksExactly | gitview/app/visualize/utils/dependency-analyzer.ts:56-64 | a link comes from an entry iff its source is the entry's path and one of the entry's imports finds its target |
| DependencyAnalyzer.LinksExactly | gitview/app/visualize/utils/dependency-analyzer.ts:55-66 | a link is produced iff some entry has that source path and an import that finds that target |
| DependencyAnalyzer.BuildLinks | gitview/app/visualize/utils/dependency-analyzer.ts:55-66 | the nested link loop yields `Links` of the import map, whose properties the lemmas above state |
| DependencyAnalyzer.AnalyzeDependencies | gitview/app/visualize/utils/dependency-analyzer.ts:4-69 | the whole function returns `Dependencies`: nodes of the sample, with links searched among all code files |
| DependencyAnalyzer.LinkSourcesAreKeys | gitview/app/visualize/utils/dependency-analyzer.ts:55-62 | every link's source is a key of the import map |
| DependencyAnalyzer.LinkSourcesAreNodes | gitview/app/visualize/utils/dependency-analyzer.ts:38-62 | every link's source is the id of a node |
| DependencyAnalyzer.ExtensionOf | gitview/app/visualize/utils/dependency-analyzer.ts:13-37 | for `front + "." + ext`, the filter sees `ext` lower-cased and the node type is `ext` as written, or `"file"` when `ext` is empty |
| DependencyAnalyzer.UpperCaseExtensionExample | gitview/app/visualize/utils/dependency-analyzer.ts:12-18 | a `.JAVA` blob is a code file |
| DependencyAnalyzer.UpperCaseNodeTypeExample | gitview/app/visualize/utils/dependency-analyzer.ts:37-41 | the node type of a `.JAVA` file keeps its case: `"JAVA"` |
| DependencyAnalyzer.TreeNotCodeFileExample | gitview/app/visualize/utils/dependency-analyzer.ts:15 | a `tree` item is never a code file |
| DependencyAnalyzer.MarkdownNotCodeFileExample | gitview/app/visualize/utils/dependency-analyzer.ts:12-18 | a `.md` blob is not a code file |
| DependencyAnalyzer.DotlessExtension | gitview/app/visualize/utils/dependency-analyzer.ts:13-37 | a path without `.` is its own extension and its own node type |
| DependencyAnalyzer.BareExtensionIsCodeFile | gitview/app/visualize/utils/dependency-analyzer.ts:12-18 | a blob whose whole name is a code extension, such as `go`, counts as a code file |
| DependencyAnalyzer.TrailingDotExample | gitview/app/visualize/utils/dependency-analyzer.ts:37 | a path ending in `.` has node type `"file"` |
| DependencyAnalyzer.NodeExample | gitview/app/visualize/utils/dependency-analyzer.ts:36-42 | `dir + "/App.tsx"` becomes a node labelled `"App.tsx"` of type `"tsx"` |
| DependencyAnalyzer.TwoCodeFilesKept | gitview/app/visualize/utils/dependency-analyzer.ts:12-22 | two code files are both sampled, in order |
| DependencyAnalyzer.AAnalyzed | gitview/app/visualize/utils/dependency-analyzer.ts:29-50 | a fetched `a.ts` importing `./b` yields its node and its import entry |
| DependencyAnalyzer.OnlyAAnalyzed | gitview/app/visualize/utils/dependency-analyzer.ts:29-50 | when `b.ts` fails to fetch, only `a.ts` has a node and an entry |
| DependencyAnalyzer.OneLinkToB | gitview/app/visualize/utils/dependency-analyzer.ts:55-66 | the entry of `a.ts` yields the single link `a.ts -> b.ts` |
| DependencyAnalyzer.OnlyAFetchedGraph | gitview/app/visualize/utils/dependency-analyzer.ts:4-69 | with `b.ts` unfetched, the graph is the node `a.ts` and the link `a.ts -> b.ts` |
| DependencyAnalyzer.TargetOutsideNodesExample | gitview/app/visualize/utils/dependency-analyzer.ts:58 | a link target need not be a node: `b.ts` is a target, yet no node has that id |

## Left out

- The regular-expression engine. The import patterns are table data: a named constant per pattern, with its source text, flags and capture group. Nothing matches them.
- `fetchFileContent` (`dependency-analyzer.ts:71-93`): network access and `atob` decoding. The model takes its outcome per path as the parameter `fetch`.
- `extractImports` and `findMatchingFile` are called by the analyzer but defined in no file of this model, and are parameters. The same goes for `RateLimitError`: `utils/errors` is not part of this model, and the error is a constructor of `ApiError`.
- Concurrency in the analyzer. The `setTimeout` stagger and `Promise.all` (`dependency-analyzer.ts:29-31, 52`) are modelled as one file after the other, in input order. The node order of the real program may differ, and no lemma about the whole graph relies on that order beyond this model's sequencing.
- The clock. `Date.now`, `toLocaleTimeString` and the back-off `setTimeout` are left out. The time is an input to each attempt, and the delays a call would wait are returned as a list.
- RateLimit.RateLimitService.UpdateRateLimitInfo: header values arrive already parsed, as `Option<int>`. `parseInt` and NaN are not modelled, and an empty header string counts as absent, as the source's truthiness test treats it.
- RateLimit.RateLimitService.ExecuteWithRetry: the call is modelled on its own. The source re-reads `rateLimitInfo` at every attempt and keeps `retryCount` on the shared singleton across its awaits, so another caller's `updateRateLimitInfo` or a concurrent `executeWithRetry` (whose success resets the counter to 0) can change both between attempts. The model assumes no other code updates the record or the counter during the call: one `rateLimitInfo` serves every attempt, and only this call moves `retryCount`.
- RateLimit.RateLimitService.ExecuteWithRetry: the optional error handler is a flag, and the handler's own effects and failures are not modelled. Neither is the returned value's identity beyond equality. The caller must supply enough attempts for the longest possible retry chain, which is at most four.
- LanguageRegistry.GetLanguageByExtension: `toLowerCase` is modelled for ASCII letters only. Unicode case mapping is not modelled.
- `console.warn` and the texts of error messages are not modelled.
- FileTreeBuilder.StepNewParent: in the arena, a synthesised parent takes the slot before its item's node. The source creates the two objects in the opposite order. Only the slot numbering differs; no structure does.
- The repository service (`services/repository-service.ts`) is not part of this model. Neither are the React pages and components, the authentication routes, the middleware or the deployment configuration: these are rendering and framework plumbing.
