# Build tool of the backend, in Dafny

This project models the Python build tool that packages the backend for AWS, along with the two domain
validators it ships with. It covers:

- **The Lambda builder.** It finds the `*_handler.py` files. For each handler it walks the import graph
  from the handler file and resolves every import to a file below `src`. It keeps only the
  dependencies the allow-list accepts (`application`, `domain`, `orm`, or a `*_handler.py` name). It
  stages those files with the handler and zips the staging directory.
- **The layer builder.** There are two identical copies, `builder/components/layer_builder.py` and `build_system/builders/layer_builder.py`. One model stands for both, and the table cites them in turn. It packs `src/adapters` and `src/utils` as
  `python/<layer>/…` inside `<layer>.zip`.
- **The AppSync schema builder.** It inlines `import "…"` lines recursively against the GraphQL root.
  A shared set of processed files guards the recursion. It then validates the result: not blank, no
  type declared twice, and balanced braces.
- **The server's schema compiler.** `compile_graphql_schema` finds directives anywhere in a file,
  and resolves them against the importing file. It replaces each `import "<p>"` text, and afterwards
  strips leftover directives and `#` comments.
- **The orchestrator** `BuilderManager`. It runs clean, prepare, then the layers, functions and
  schemas stages. Every item of a stage is built, and a stage succeeds when none failed.
- **The command-line entry.** This covers project-root detection and the exit status.
- **The domain validators.** The `Email` value object is checked against its fixed pattern.
  `UserEntity` has its construction checks, predicates and status changes.

How the model stands in for the machine:

- **Disk.** The disk is a `FileSystem`: a map from paths (sequences of segments) to contents
  (source text or an archive of entries), plus a set of directories.
- **Library calls.** `shutil.rmtree`, `mkdir(parents=True)`, `copytree`, `write_text`, `unlink`
  and the zip writer are functions on that value. Each returns `None` where the library call would
  raise.
- **Builders.** A builder object holds a shared `Disk` (a class with one mutable `fs` field), and
  its methods update it in place.
- **Parser.** `ast.parse` is a parameter `parse: string -> Option<seq<ImportNode>>`, where `None`
  stands for a syntax error.
- **Methods and functions.** Imperative source code is modelled by methods with loops and
  invariants. Each method is proved equal to a specification function. The properties of the
  builders are lemmas about those functions.

## Model

| member | source | states |
|---|---|---|
| LambdaBuilding.LambdaBuilder.Discover | builder/components/lambda_builder.py:13-24 | the result is strictly sorted (so each stem once) and holds exactly the stems of the non-hidden `*_handler.py` entries of an existing handlers directory |
| LambdaBuilding.HandlerStemsMembers | builder/components/lambda_builder.py:16-22 | a name is offered iff the handlers directory exists, `<name>.py` is one of its entries, and it does not start with `_` or `.`; every offered name ends in `_handler` |
| LambdaBuilding.HandlerStem | builder/components/lambda_builder.py:22 | `item.stem` of a `*_handler.py` name gives the name back with `.py` appended, and ends in `_handler` |
| DependencyWalker.AnalyzeDependencyTree | builder/components/lambda_builder.py:65-76 | the dependency set is exactly the existing resolved targets of imports of files reachable from the handler; every member exists |
| DependencyWalker.ResolveDependenciesRecursive | builder/components/lambda_builder.py:78-102 | visited and dependencies only grow; every visited path is reachable and every recorded dependency is a reachable target; on return all imports of visited files are closed except for files still on the call stack; the new visits are exactly those processed, with no path processed twice |
| DependencyWalker.ResolveImport | builder/components/lambda_builder.py:104-119 | the same invariants, and an import whose target exists ends up both visited and in the dependencies |
| DependencyWalker.ClassifyImport | builder/components/lambda_builder.py:107-114 | the target is the one the resolver specification gives: standard-library names resolve to nothing, a leading dot goes to relative resolution, anything else to absolute |
| DependencyWalker.TargetsOfMembers | builder/components/lambda_builder.py:93-99 | a path is a target of the first n imports of a file iff one of those imports resolves to an existing path equal to it |
| DependencyWalker.ReachableStep | builder/components/lambda_builder.py:116-119 | an existing target imported by a reachable file is reachable |
| DependencyWalker.WalkStaysInside | builder/components/lambda_builder.py:80-83 | every file on a walk from a member of an import-closed set lies in that set (used for completeness of the walk) |
| DependencyWalker.ReachableTargetsAgree | builder/components/lambda_builder.py:78-119 | two disks that differ at most in one non-`.py` file give the same reachable dependencies |
| DependencyWalker.ReachableTargetsExist | builder/components/lambda_builder.py:116-117 | every dependency recorded exists on the disk |
| ImportResolution.ModuleNamesMembers | builder/components/lambda_builder.py:93-99 | a module name is resolved iff some import statement contributes it: every alias of `import`, and the module of `from … import` when present |
| ImportResolution.FromImportDropsLevel | builder/components/lambda_builder.py:97-99 | `from .x import y` reaches the resolver as the bare name `x`; `from . import y` contributes nothing |
| ImportResolution.StandardLibraryRoot | builder/components/lambda_builder.py:121-131 | a name is skipped iff it is one of the 18 listed modules or a dotted name starting with one of them followed by `.` |
| ImportResolution.LeadingDots | builder/components/lambda_builder.py:136-139 | the dot count covers only dots and stops at the first non-dot character |
| ImportResolution.ResolveRelativeImport | builder/components/lambda_builder.py:133-161 | the loop that strips and counts dots, climbs and looks up the module returns the relative-resolution specification's target |
| ImportResolution.RelativeBaseAscends | builder/components/lambda_builder.py:145-147 | with n leading dots the lookup directory is n levels above the importing file (n-1 above its directory) |
| ImportResolution.RelativeDotsOnly | builder/components/lambda_builder.py:141-142 | a name made only of dots resolves to nothing |
| ImportResolution.RelativeTargetCharacterization | builder/components/lambda_builder.py:149-161 | below the base directory `<m>.py` wins; otherwise the package `<m>/__init__.py` is found iff `<m>` is a directory holding it |
| ImportResolution.ModuleLookupCharacterization | builder/components/lambda_builder.py:150-159 | the same two-step lookup for one plain segment |
| ImportResolution.ResolveTargetAgrees | builder/components/lambda_builder.py:104-192 | two disks that differ at most in one non-`.py` file resolve every import alike, and a resolved import is a `.py` file |
| ImportResolution.FirstExisting | builder/components/lambda_builder.py:175-177 | nothing is returned iff no candidate exists; a returned path is the first existing candidate |
| ImportResolution.DottedNameCandidates | builder/components/lambda_builder.py:166-192 | for a dotted name the five candidates in order are `src/<name>.py`, `src/<first>/<last>.py`, `src/<front>/<last>.py`, `src/<parts>/__init__.py`, `src/<front>/<last>.py` |
| ImportResolution.UndottedNameCandidates | builder/components/lambda_builder.py:169-192 | for a name without dots the candidates are `src/<name>.py`, `src/<name>/__init__.py`, `src/<name>.py` |
| LambdaBuilding.RelativeTo | builder/components/lambda_builder.py:214 | `relative_to` succeeds iff the path lies under the base, and then base plus the result is the path |
| LambdaBuilding.LambdaBuilder.CopyDependency | builder/components/lambda_builder.py:211-232 | one loop pass: the disk and the copied flag are the copy step's, which copies exactly an existing included file below `src` to its `src`-relative place |
| LambdaBuilding.LambdaBuilder.CopyDependencyFiles | builder/components/lambda_builder.py:207-234 | the set is walked in some enumeration order, and the disk and the count are those of the copy loop over that order |
| LambdaBuilding.CopyStepKeeps | builder/components/lambda_builder.py:211-232 | one pass keeps the staging invariant and copies `d` exactly when it is an included file |
| LambdaBuilding.CopyAllResult | builder/components/lambda_builder.py:207-234 | on a prepared staging directory the loop leaves exactly the handler and the included dependencies' entries below it, and the count is the number of included dependencies, whatever the order |
| LambdaBuilding.WrittenEntries | builder/components/lambda_builder.py:221-227 | the files written are the handler's plus the dependency entries, independent of the order of the set |
| LambdaBuilding.CountIncludedFiles | builder/components/lambda_builder.py:209-234 | the returned count equals the number of included dependency files |
| LambdaBuilding.LambdaBuilder.Build | builder/components/lambda_builder.py:26-63 | the result and the new disk are the build specification's for the order in which the dependency set was walked |
| LambdaBuilding.LambdaBuildNeedsHandler | builder/components/lambda_builder.py:35-37 | a missing handler file gives `False` with the disk untouched; success implies the handler exists |
| LambdaBuilding.LambdaBuildArchive | builder/components/lambda_builder.py:26-59 | a buildable handler is built: the archive holds the handler at its file name (content unchanged) and every included dependency at its `src`-relative path, the staging directory is gone, all other files are as before |
| LambdaBuilding.LambdaBuildFrame | builder/components/lambda_builder.py:39-56 | success or failure, no file outside the staging directory changes except the archive |
| LambdaBuilding.DependenciesExist | builder/components/lambda_builder.py:44 | every dependency found below `src` exists on the disk the build started from |
| LambdaBuilding.LambdaDependenciesOf | builder/components/lambda_builder.py:40-44 | the dependencies are the reachable targets of the handler on the freshly staged disk |
| LambdaBuilding.PrepareStaging | builder/components/lambda_builder.py:40-47 | cleaning and creating the staging directory and copying the handler succeed on a buildable handler, leaving the staging directory holding only the handler, with every dependency copyable |
| LambdaBuilding.PackStaging | builder/components/lambda_builder.py:53-56 | zipping the staged directory next to it and cleaning it up succeed and archive exactly what was written |
| LambdaBuilding.LambdaBuildIdempotent | builder/components/lambda_builder.py:26-63 | after a successful build the dependencies are the same, and building again succeeds and leaves the disk as the first build left it |
| LambdaBuilding.StagingTargetBelow | builder/components/lambda_builder.py:198 | the handler copy lands below the staging directory unless its name is absolute |
| Files.CreateZip | builder/components/lambda_builder.py:263-273 | succeeds iff the archive path is not the root, not a directory, and its parent is a directory; then the archive holds exactly the files below the source (an old archive at that path left out) and nothing else changes |
| Files.RemoveTree | build_system/builders/base_builder.py:27 | `rmtree` removes exactly the path and everything below it; all other files keep their contents |
| Files.CleanupDirectory | build_system/builders/base_builder.py:24-28 | a missing path is a no-op, a file makes `rmtree` raise, a directory is removed with everything below it |
| Files.CleanupOfTree | build_system/builders/base_builder.py:24-28 | on a disk with files only at leaves, cleaning up any path that is not a file succeeds and removes exactly what lies below it |
| Files.MakeDirs | build_system/builders/base_builder.py:30-33 | `mkdir(parents=True, exist_ok=True)` fails iff the path or one of its ancestors is a file; otherwise it adds the path and its ancestors as directories and nothing else |
| Files.WriteFile | builder/components/appsync_builder.py:49 | writing succeeds iff the parent is a directory and the path is not one; it then sets exactly that file |
| Files.CopyTree | build_system/builders/layer_builder.py:47 | `copytree` succeeds iff the source is a directory, the target does not exist and no file is on the way to it; below the target appear the source's files with their contents and its directories, and outside it only the directories on the way are added (the same lines of builder/components/layer_builder.py, an identical copy) |
| Files.Unlink | builder/components/layer_builder.py:65-66 | `unlink` succeeds iff the path is a file and removes exactly it |
| Files.FilesUnder | builder/components/layer_builder.py:68-73 | the walk's entries are exactly the files strictly below the directory, keyed by relative path, with their contents |
| Files.Children | builder/components/lambda_builder.py:20 | the names a one-level glob looks at are exactly the files and directories directly inside the directory |
| Ordering.Sort | builder/components/lambda_builder.py:24 | `sorted` returns an ordered permutation of its input (the handler names, and the schema names at builder/components/appsync_builder.py:25) |
| Ordering.SortDistinct | builder/components/lambda_builder.py:24 | sorting distinct names gives a strictly ordered list of the same names |
| Strings.Split | builder/components/appsync_builder.py:79 | `split` yields at least one piece and no piece holds the separator |
| Strings.JoinSplit | builder/components/appsync_builder.py:79-108 | joining the pieces of a split with the separator gives the text back |
| Packaging.ZipBeside | builder/components/layer_builder.py:63-73 | zipping a directory to a place apart from it writes an archive of exactly the files below it, keyed by relative path (the same lines of build_system/builders/layer_builder.py, an identical copy) |
| Packaging.FinishArchiveArchived | builder/components/layer_builder.py:50-54 | zipping the staging directory and removing it succeed and leave the archive beside it (the same lines of build_system/builders/layer_builder.py, an identical copy) |
| LayerBuilding.LayerBuilder.Discover | builder/components/layer_builder.py:11-28 | the result holds exactly those of `adapters`, `utils` whose source directory exists, in that order (the same lines of build_system/builders/layer_builder.py, an identical copy) |
| LayerBuilding.LayerBuilder.Build | build_system/builders/layer_builder.py:30-61 | the result and new disk are the layer build specification's (the same lines of builder/components/layer_builder.py, an identical copy) |
| LayerBuilding.LayerBuildArchive | builder/components/layer_builder.py:35-54 | a buildable layer is built: the archive holds every file of `src/<layer>` under `python/<layer>/`, the temporary directory is gone, every other file is as it was (the same lines of build_system/builders/layer_builder.py, an identical copy) |
| LayerBuilding.LayerBuildNeedsPackage | build_system/builders/layer_builder.py:35-47 | success requires a plain name whose source is a directory; a missing source gives `False` with the disk untouched (the same lines of builder/components/layer_builder.py, an identical copy) |
| LayerBuilding.LayerBuildFrame | build_system/builders/layer_builder.py:42-54 | success or failure, no file outside the temporary directory changes except the archive (the same lines of builder/components/layer_builder.py, an identical copy) |
| LayerBuilding.LayerStaged | build_system/builders/layer_builder.py:42-47 | recreating `<layer>_temp/python` and copying the package succeed; below the temporary directory are exactly the package's files under `python/<layer>` (the same lines of builder/components/layer_builder.py, an identical copy) |
| LayerBuilding.LayerBuildIdempotent | build_system/builders/layer_builder.py:30-61 | building a layer again after a successful build succeeds and changes nothing (the copy under `builder/components` is the same code) |
| Packaging.ArchivedAgain | builder/components/layer_builder.py:50-54 | archiving the same entries again from a disk that already holds them changes nothing |
| LayerBuilding.TempPaths | build_system/builders/layer_builder.py:42-50 | the temporary directory and archive are single entries `<layer>_temp` and `<layer>.zip` of the layers directory (the same lines of builder/components/layer_builder.py, an identical copy) |
| AppSyncBuilding.AppSyncBuilder.Discover | builder/components/appsync_builder.py:10-25 | the result is sorted and lists each stem as often as a `*.graphql` entry of the GraphQL directory has it |
| AppSyncBuilding.SchemaNameRoundTrip | builder/components/appsync_builder.py:20-32 | a discovered stem plus `.graphql` is the file name again |
| AppSyncBuilding.AppSyncBuilder.ProcessSchemaFile | builder/components/appsync_builder.py:58-108 | the method's text, processed set and files read are the schema-processing specification's |
| AppSyncBuilding.ProcessSchema | builder/components/appsync_builder.py:58-108 | the file's resolved name is processed afterwards; the processed set only grows; files are read at most once and only if not processed before; on success processed = before ∪ read |
| AppSyncBuilding.EachFileReadOnce | builder/components/appsync_builder.py:60-66 | however the imports nest, no file is read twice and none that was processed before |
| AppSyncBuilding.RevisitedFileIsEmpty | builder/components/appsync_builder.py:62-64 | a file already processed gives `""` and reads nothing |
| AppSyncBuilding.UnreadableFileFails | builder/components/appsync_builder.py:66-76 | a missing or unreadable file, once marked processed, makes the compile raise |
| AppSyncBuilding.MissingImportFails | builder/components/appsync_builder.py:96-104 | a line that imports a missing or unreadable file makes the whole compile fail |
| AppSyncBuilding.ImportLineStep | builder/components/appsync_builder.py:84-104 | a directive line is replaced by the import block of its target resolved against the GraphQL root, or the loop raises when that does |
| AppSyncBuilding.PlainLineStep | builder/components/appsync_builder.py:105-106 | a non-directive line is copied to the output |
| AppSyncBuilding.PlainLinesKept | builder/components/appsync_builder.py:78-108 | lines without directives come out verbatim and in order, and nothing is read |
| AppSyncBuilding.SelfContainedFile | builder/components/appsync_builder.py:72-108 | a readable file without directives compiles to its own text |
| AppSyncBuilding.RevisitedImportVanishes | builder/components/appsync_builder.py:97-101 | an import of something already processed disappears with its line (cycles end) |
| AppSyncBuilding.SelfImportDropped | builder/components/appsync_builder.py:60-101 | a file whose first line imports itself loses that line |
| AppSyncBuilding.AliasedFileCompiled | builder/components/appsync_builder.py:60-76 | a file reached under two spellings of the same resolved path compiles alike |
| AppSyncBuilding.ParentStepImport | builder/components/appsync_builder.py:60-76 | a file at `<dir>/../<name>` below the GraphQL directory compiles exactly like `<name>` |
| AppSyncBuilding.DirectiveRoundTrip | builder/components/appsync_builder.py:82-85 | `import "p"` on its own line is parsed as an import of `p` |
| AppSyncBuilding.PlainParse | builder/components/appsync_builder.py:79-106 | parsing keeps every non-directive line as text |
| AppSyncBuilding.TypeNames | builder/components/appsync_builder.py:126 | the captured names are non-empty runs of word characters |
| AppSyncBuilding.NoTypeKeyword | builder/components/appsync_builder.py:126 | text without `type` declares no names |
| AppSyncBuilding.DuplicateTypesIff | builder/components/appsync_builder.py:126-131 | the duplicate test holds iff the captured names are not pairwise distinct |
| AppSyncBuilding.AppSyncBuildOutcome | builder/components/appsync_builder.py:27-56 | success means the compiled schema was valid and is the only change, written to the output path; failure leaves the disk unchanged |
| AppSyncBuilding.AppSyncBuildFails | builder/components/appsync_builder.py:35-56 | the build fails exactly when the schema is missing, the compile raises, validation rejects it, or the write fails |
| AppSyncBuilding.AppSyncBuilder.Build | builder/components/appsync_builder.py:27-56 | the result and new disk are the build specification's |
| SchemaPatterns.ImportAt | server/schema_loader.py:21 | a match of `import\s+"([^"]+)"` at the start: the keyword, non-empty whitespace, and a non-empty quote-free path between quotes |
| SchemaPatterns.ImportAtRecognises | server/schema_loader.py:21 | every directive text is recognised with its whitespace and path, whatever follows |
| SchemaPatterns.FindImportsAfter | server/schema_loader.py:21-22 | a directive is found wherever it stands, after quote-free text |
| SchemaPatterns.FindImportsNone | server/schema_loader.py:21-22 | the finder reports nothing iff no directive starts anywhere |
| SchemaPatterns.StripImportsIdle | server/schema_loader.py:66 | the residual-directive cleanup changes a text iff a directive starts in it |
| SchemaPatterns.StripImportsShorter | server/schema_loader.py:66 | that cleanup never lengthens and strictly shortens when it removes something |
| SchemaPatterns.StripCommentsKeepsLines | server/schema_loader.py:67 | the comment cleanup keeps the number of newlines |
| SchemaPatterns.StripCommentsLeavesLastLine | server/schema_loader.py:67 | afterwards a `#` can stand only on the last line |
| SchemaPatterns.StripCommentsIdle | server/schema_loader.py:67 | the comment cleanup changes a text iff some `#` stands before a newline |
| SchemaLoading.Resolve | server/schema_loader.py:16-55 | the processed set only grows; no file read twice; every file read was not processed before; only an unreadable file or nesting past the recursion limit raises |
| SchemaLoading.ResolveImports | server/schema_loader.py:16-55 | the loop over imports returns the resolution specification's text, processed set and read order |
| SchemaLoading.Open | server/schema_loader.py:38-53 | opening finds the text iff the file at the path with `..` resolved is readable, and reports it absent iff nothing exists there |
| SchemaLoading.SkippedImportsKept | server/schema_loader.py:31-55 | when every import is already processed the content comes back unchanged and nothing is read |
| SchemaLoading.SpacedResolution | server/schema_loader.py:21-47 | a directive spaced other than by one blank has its target read and marked processed, but the resolved text is the directive unchanged |
| SchemaLoading.SkipStep | server/schema_loader.py:31-33 | an already-processed target is passed over and its directive stays |
| SchemaLoading.AbsentStep | server/schema_loader.py:35-53 | a missing target is marked processed and its `import "<p>"` text deleted |
| SchemaLoading.FoundFails | server/schema_loader.py:38-47 | a readable target is marked processed and resolved one level deeper; an exception of that nested call leaves this call too |
| SchemaLoading.FoundReplaced | server/schema_loader.py:35-47 | a readable target is marked processed, resolved against its own directory one level deeper with the shared set, and substituted for its directive |
| SchemaLoading.NestingExhausted | server/schema_loader.py:16-43 | a call with no nesting left raises `RecursionError` and reads nothing |
| SchemaLoading.DetourSelfImportTooDeep | server/schema_loader.py:31-43 | a file importing itself by a `d/../name` path is read again under a new key at every level, and the compile ends in `RecursionError` |
| SchemaLoading.RefusedStep | server/schema_loader.py:38-40 | a target that exists but cannot be read raises |
| SchemaLoading.DotSlashDropped | server/schema_loader.py:26-29 | a leading `./` makes no difference; both resolve beside the importing file |
| SchemaLoading.CompileGraphQLSchema | server/schema_loader.py:12-69 | the method's result is the compile specification's |
| SchemaLoading.UntouchedDocument | server/schema_loader.py:22-69 | a document with no directive and no `#` before a newline is returned unchanged |
| SchemaLoading.MissingImportRemoved | server/schema_loader.py:49-53 | a root starting with a directive for a missing file compiles to the rest of its text |
| SchemaLoading.RootImportedBack | server/schema_loader.py:32-63 | the root is never marked processed, so importing the root from itself inlines its text once more |
| SchemaLoading.SpacedImportLost | server/schema_loader.py:21-66 | a directive with whitespace other than one space has its target read, but the text never replaced, and the cleanup deletes it |
| SchemaLoading.LoadedSchemaNotFound | server/schema_loader.py:79-87 | `load_schema` raises `FileNotFoundError` for the schema file itself iff nothing exists at its path with `..` resolved |
| SchemaLoading.GraphQLSchemaLoader.constructor | server/schema_loader.py:75-77 | the directory is joined to the loader file's grandparent |
| SchemaLoading.DefaultDirectory | server/schema_loader.py:75-76 | the default directory `./src/api/graphql` joined to the loader file's grandparent is that grandparent's `src/api/graphql` |
| SchemaLoading.GraphQLSchemaLoader.Default | server/schema_loader.py:75-76 | the loader made without arguments holds the default directory joined to the loader file's grandparent |
| SchemaLoading.GraphQLSchemaLoader.LoadDefaultSchema | server/schema_loader.py:79-87 | `load_schema()` loads the schema named `haulink_app` |
| SchemaLoading.GraphQLSchemaLoader.LoadSchema | server/schema_loader.py:79-87 | the method's result is the load specification's |
| SchemaLoading.GraphQLSchemaLoader.GetSchemaInfo | server/schema_loader.py:89-94 | the directory, and the processed files as a list, which is always empty |
| Configuration.Config.EnsureBuildDirs | builder/config.py:29-35 | it raises iff a file lies on the way to one of the build directories; on success the files are unchanged, the four build paths are directories, and the directories are exactly the old ones plus the four paths and their ancestors |
| BuildManagement.BuilderManager.Create | builder/build_manager.py:12-23 | a manager is created iff the resolved root passes `validate()`; its builders share its configuration and disk |
| BuildManagement.BuilderManager.CleanBuildArtifacts | builder/build_manager.py:90-102 | the outcome and new disk are the cleaning specification's |
| BuildManagement.CleanArtifactsOutcome | builder/build_manager.py:90-102 | cleaning succeeds iff neither path is a file; then neither remains, everything outside both is kept, and with both absent it is a no-op |
| BuildManagement.ArtifactDirsApart | builder/build_manager.py:94-101 | the build directory and `devops/infrastructure/local/.extracted` lie apart |
| BuildManagement.BuilderManager.BuildItem | builder/build_manager.py:69 | the builder of the stage's kind ran on the current disk |
| BuildManagement.BuilderManager.BuildComponents | builder/build_manager.py:55-77 | discover ran, then every item was built in order from disk to disk; the result is true iff no build failed |
| BuildManagement.FailuresEmpty | builder/build_manager.py:67-74 | the failed list is empty iff every build returned true |
| BuildManagement.FailuresNamed | builder/build_manager.py:67-70 | an item is in the failed list iff some build of it returned false |
| BuildManagement.EmptyStage | builder/build_manager.py:61-63 | with nothing discovered the stage is true and nothing changes |
| BuildManagement.StageSucceeds | builder/build_manager.py:72-77 | a stage's result is true iff every item's build returned true |
| BuildManagement.BuilderManager.BuildStages | builder/build_manager.py:35-44 | the layers, functions and schemas stages all run in that order, and the flag is their conjunction |
| BuildManagement.BuilderManager.BuildAll | builder/build_manager.py:25-53 | clean and prepare, then the three stages; the result is `None` when cleaning or preparing raised; a summary of the artifacts is produced iff all succeeded |
| BuildManagement.StagesAllRun | builder/build_manager.py:35-53 | the three stages ran each on what it discovered, and the result is true iff every build of every stage returned true |
| BuildManagement.BuildAllOutcome | builder/build_manager.py:25-53 | the result is absent iff preparation raised; otherwise it is true iff every build returned true, and the summary exists iff it is true |
| CommandLine.NearestAncestorNamed | builder/main.py:25-27 | the answer is the nearest proper ancestor with that name; none means no ancestor has it |
| CommandLine.DetectProjectRoot | builder/main.py:12-30 | `builder` gives the parent (checked first), `backend` gives the cwd, else the nearest ancestor named `backend`, else the cwd |
| CommandLine.Run | builder/main.py:32-67 | the status is 0 or 1; an invalid structure gives 1 with no change, even with `--clean`; `--clean` gives 0 iff cleaning succeeded; otherwise 0 iff `build_all()` returned true |
| EmailAddress.IsValid | src/domain/value_objects/email.py:13-15 | the check holds iff the pattern matches the value, or the value minus one final newline |
| EmailAddress.ScanMatchesPattern | src/domain/value_objects/email.py:14 | the one-pass scan accepts exactly what the pattern with backtracking matches |
| EmailAddress.AcceptedParts | src/domain/value_objects/email.py:14 | accepted iff the address (newline aside) splits into a non-empty local part over `[a-zA-Z0-9._%+-]`, `@`, and a domain over `[a-zA-Z0-9.-]` whose last dot has a non-empty prefix and two or more letters after it |
| EmailAddress.OneAtSign | src/domain/value_objects/email.py:14 | an accepted address contains exactly one `@` |
| EmailAddress.TrailingNewline | src/domain/value_objects/email.py:14-15 | one trailing newline after a matching address is accepted; two are not |
| EmailAddress.NewEmail | src/domain/value_objects/email.py:4-18 | construction succeeds iff the value is valid, `__str__` returns the value, else the `ValueError` message `Invalid email: <value>` |
| Users.ConstructionError | src/domain/entities/user_entity.py:32-36 | accepted iff roles are non-empty and the email is non-empty and contains `@`; empty roles give the roles message, checked first |
| Users.UserEntity.Create | src/domain/entities/user_entity.py:19-36 | fails iff the construction check fails, with its message; otherwise a fresh entity with the given fields |
| Users.UserEntity.IsActive | src/domain/entities/user_entity.py:38-39 | true iff the status is `ACTIVE` |
| Users.UserEntity.HasRole | src/domain/entities/user_entity.py:41-42 | true iff the role occurs among the roles |
| Users.UserEntity.FullName | src/domain/entities/user_entity.py:44-45 | the first name, one space, the last name |
| Users.FullNameDetermines | src/domain/entities/user_entity.py:44-45 | when first names hold no space, equal full names mean equal first and last names |
| Users.UserEntity.Activate | src/domain/entities/user_entity.py:47-48 | the status becomes `ACTIVE` and the user is active |
| Users.UserEntity.Deactivate | src/domain/entities/user_entity.py:51-52 | the status becomes `INACTIVE` and the user is not active |

## Left out

- Logging, `print` and ANSI colours are not modelled. No output is checked, so the summary step of `build_all` is a `Summary` value returned exactly when all stages succeeded; the lines that print it are not modelled.
- The Query/Mutation check of `_validate_schema`, which only logs a warning and does not change the result.
- `argparse` itself and `--verbose`. `Run` takes the parsed values (`--project-root` as an optional string, `--clean` as a flag) and the working directory as parameters. It is not called `main`, and it returns the status instead of calling `sys.exit`.
- Zip compression, file metadata (`copy2`), the order of archive entries, and text encodings. An archive is the map from entry names to contents.
- `ast.parse`/`ast.walk` are the `parse` parameter. The model fixes the order of names that the walk visits, but not the exact breadth-first order of the real AST walk. The set of dependencies does not depend on that order.
- `\w` is modelled as the ASCII word characters; Unicode letters and digits are not. `\s` is Unicode whitespace, as in Python.
- Links are not modelled. `..` is resolved lexically (`Canonical`), both where `Path.resolve()` is called and where the operating system opens a path, so the directory before a `..` need not exist as it must on a real disk.
- SchemaLoading.Resolve: `RecursionError` is raised past `MaxNesting` = 1000 nested `resolve_imports` calls, Python's default recursion limit, as if no other frames were on the stack. `processed` is keyed by the path as joined, not resolved, so two spellings of one file are two keys; termination comes from the nesting limit.
- `shutil.rmtree` on a file, and `mkdir` through a file. The model returns failure (an exception) for both. `NotADirectoryError` and `IsADirectoryError` from other calls appear as a missing file or an unreadable one, depending on whether the path exists.
- Exceptions that escape a builder's `build` are modelled as the `False` result that its `except` clause returns. The exception types themselves are not kept.
- DependencyWalker.AnalyzeDependencyTree: the top-level `except` that returns an empty set is not modelled, because no call inside the walk raises in the model (a parse failure is `None`, and an unreadable file contributes no imports, and the recursion limit is left out as the next line says).
- DependencyWalker.AnalyzeDependencyTree and AppSyncBuilding.ProcessSchema: Python's recursion limit is not modelled for either. The walk spends two frames per import level, so a chain of about 500 distinct modules raises `RecursionError`. The per-file `except Exception` then skips that file's remaining imports and the source returns a truncated set, while the model gives the full closure. A chain of about 1000 distinct schema files makes `_process_schema` re-raise, so `build` returns False where the model's build succeeds.
- `UserEntity.updated_at`, `created_at` and timestamps are not modelled. The `datetime.timezone` lookup raises `AttributeError` after the status has already been set; the model keeps only the status change.
- `UserEntity` field types: `phone` is an optional string, and ids and names are strings. Dataclass equality and `repr` are not modelled.
- `build_system/main.py` is not part of this model; it imports a `builder` module that is not present. The server runtime, the resolvers, the ORM layer and the handlers are not part of it either.
