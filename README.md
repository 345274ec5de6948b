# Paraglide JS core, modelled in Dafny

Paraglide JS compiles an inlang project's messages into JavaScript modules and a small
runtime. This project models seven parts of it:

- The file-watching service (`src/services/file-watching/tracked-fs.ts`): a file system
  wrapper that records every path read through it, and the computation of which files and
  directories to watch.
- The watch mode of the `compile` CLI command (`src/cli/commands/compile/command.ts`):
  - watcher registries reconciled against the read set;
  - a 100 ms debounce timer;
  - a lock that coalesces changes arriving during a pass;
  - rollback of the read set when a pass fails.
- The bundler plugin (`src/bundler-plugins/unplugin.ts`): the `buildStart`, `watchChange` and
  webpack `beforeRun` hooks, their compile options, their watch-file registration and their
  rollback.
- Input-variable access in generated message code (`src/compiler/variable-access.ts`).
- The server middleware module (`src/compiler/server/create-server-file.ts`):
  - the `%async-local-storage` marker line is replaced by the store setup block;
  - the optional compiled-messages dictionary is inserted;
  - tabs are rewritten.
- The runtime's `generateStaticLocalizedUrls`
  (`src/compiler/runtime/generate-static-localized-urls.js`), in its default-prefix and
  custom-pattern branches.
- The runtime's `getLocale` and `overwriteGetLocale` (`src/compiler/runtime/get-locale.js`):
  - the static locale, then the request store, then the strategies in order;
  - the first-resolution `setLocale` call.

One Dafny module models each source file:

| module | file |
|---|---|
| `FileWatching` | `file_watching.dfy` |
| `CompileCommand` | `compile_command.dfy` |
| `Unplugin` | `unplugin.dfy` |
| `VariableAccess` | `variable_access.dfy` |
| `ServerFile` | `server_file.dfy` |
| `StaticLocalizedUrls` | `static_localized_urls.dfy` |
| `GetLocale` | `get_locale.dfy` |

Four small modules support them:

- `Wrappers`: `Option` and `Result`.
- `Strings`: JavaScript's `indexOf`, `lastIndexOf`, `includes`, `replace` and the tab regex.
- `Paths`: `nodeNormalizePath`, `path.resolve` and `path.dirname`.
- `Compiler`: the opaque `compile` call, as an outcome parameter.

The form of each module follows the source:

- State that the source updates in place is a `class` whose methods carry `modifies`
  clauses:
  - the shared `readFiles` set;
  - the tracked file system;
  - the CLI's watch session;
  - the plugin's module-level state;
  - the runtime's `_locale` and `localeInitiallySet`.
- Every source loop that changes state is a `while` or `for` loop, and each such method is
  proved against a specification function. The loop in `isPathWithinDirectories` is the `for`
  loop method `FileWatching.PathWithinDirectories`. Its specification is the recursive function
  `FileWatching.IsPathWithinDirectories`, which the pure plugin code calls.
- Pure code is written as functions.

Things the core reads from outside become parameters:

- `process.cwd()`.
- What `compile` reads and whether it throws.
- Whether `fs.watch` throws.
- What the underlying file system returns.
- The URL parser, `URLPattern` matching and `localizeUrl`.
- `JSON.stringify`, `toSafeModuleId` and string escaping.
- The request store, cookie, URL, navigator and localStorage lookups, and the custom
  strategies.

## Model

| member | source | states |
|---|---|---|
| `FileWatching.Insert` | src/services/file-watching/tracked-fs.ts:104-106 | `Set.add`: the element set gains exactly `x`; order and distinctness are kept; a present element changes nothing |
| `FileWatching.PathSet.constructor` | src/services/file-watching/tracked-fs.ts:101 | a new `readFiles` set is empty |
| `FileWatching.PathSet.Add` | src/services/file-watching/tracked-fs.ts:104-106 | `readFiles.add(p)` appends `p` unless present; the set stays duplicate-free |
| `FileWatching.PathSet.Clear` | src/services/file-watching/tracked-fs.ts:144-146 | `readFiles.clear()` empties the set |
| `FileWatching.IsPathWithinDirectories` | src/services/file-watching/tracked-fs.ts:30-45 | true iff the normalised path equals some normalised directory or extends it at a "/" boundary |
| `FileWatching.PathWithinDirectories` | src/services/file-watching/tracked-fs.ts:30-45 | the early-return loop returns true iff some normalised directory equals the normalised path or contains it at a "/" boundary |
| `FileWatching.WithinDirectoriesNormalized` | src/services/file-watching/tracked-fs.ts:34-42 | for paths without backslashes, normalisation plays no part in the test |
| `FileWatching.NestedPathIsWithin` | src/services/file-watching/tracked-fs.test.ts:127-138 | "/project/messages/nested/file.json" lies within "/project/messages" or "/project/other" |
| `FileWatching.UnknownPathIsNotWithin` | src/services/file-watching/tracked-fs.test.ts:139-141 | "/project/unknown/file.json" lies within neither directory |
| `FileWatching.SiblingPrefixIsNotWithin` | src/services/file-watching/tracked-fs.ts:37-40 | "/project/other2/x" is not in "/project/other": a bare string prefix is not enough |
| `FileWatching.OutdirPath` | src/services/file-watching/tracked-fs.ts:51-54 | an outdir is resolved iff `outdir` is given and non-empty (truthy), and then it is a non-empty path without backslashes |
| `FileWatching.Rules` | src/services/file-watching/tracked-fs.ts:51-57 | `ignoreCache` is on unless it is given as false; the outdir and `ignorePath` are taken from the options |
| `FileWatching.IsIgnoredPath` | src/services/file-watching/tracked-fs.ts:59-72 | with `ignoreCache`, a normalised path holding "cache" is ignored; with no cache hit, no outdir and no `ignorePath`, nothing is ignored |
| `FileWatching.TargetsAddOne` | src/services/file-watching/tracked-fs.ts:77-89 | one more recorded path adds its own target file and directory (if not ignored) to the watch sets |
| `FileWatching.GetWatchTargets` | src/services/file-watching/tracked-fs.ts:47-96 | the loop yields exactly the non-ignored normalised files, and (with `includeDirectories`) exactly their non-ignored parent directories, without duplicates |
| `FileWatching.CachePathsIgnored` | src/services/file-watching/tracked-fs.ts:61-63 | with `ignoreCache`, any normalised path containing "cache" is ignored |
| `FileWatching.CachePathsKeptWithoutIgnoreCache` | src/services/file-watching/tracked-fs.test.ts:96-104 | without `ignoreCache`, a path unmatched by the outdir rule and by `ignorePath` is kept |
| `FileWatching.OutdirIgnored` | src/services/file-watching/tracked-fs.ts:64-70 | the output directory and everything below it at a "/" boundary are ignored |
| `FileWatching.NoOutdirRuleWithoutOutdir` | src/services/file-watching/tracked-fs.ts:52-54 | with no `outdir` option, a path is ignored iff the cache rule or `ignorePath` says so |
| `FileWatching.IgnorePathConsultedLast` | src/services/file-watching/tracked-fs.ts:71 | `ignorePath` is asked only when neither earlier rule fires, and it receives the normalised path |
| `FileWatching.OutdirTrailingSeparator` | src/services/file-watching/tracked-fs.ts:52-54 | `outdir` with a trailing "/" resolves to the same output directory |
| `FileWatching.TargetFilesAreKept` | src/services/file-watching/tracked-fs.ts:77-82 | every watched file is normalised, not ignored, and outside the output directory |
| `FileWatching.TargetFilesMembership` | src/services/file-watching/tracked-fs.ts:77-82 | a recorded path is watched iff its normalised form is not ignored |
| `FileWatching.TargetDirectoriesAreParents` | src/services/file-watching/tracked-fs.ts:83-88 | watched directories are non-ignored parents of watched files, and there are none without `includeDirectories` |
| `FileWatching.ExampleOutdir` | src/services/file-watching/tracked-fs.test.ts:79-82 | base "/project" with outdir "src/paraglide" resolves to "/project/src/paraglide" |
| `FileWatching.OutdirExample` | src/services/file-watching/tracked-fs.test.ts:74-94 | a generated file below the output directory is ignored |
| `FileWatching.TrackedPath` | src/services/file-watching/tracked-fs.ts:103-107 | the recorded form has no backslash, is non-empty for a non-empty path, and an absolute backslash-free path is recorded as itself without trailing "/" |
| `FileWatching.AbsoluteReadRecordedAsIs` | src/services/file-watching/tracked-fs.ts:103-107 | an absolute path without backslashes is recorded as itself, less trailing "/" |
| `FileWatching.RecordedPathsAddOne` | src/services/file-watching/tracked-fs.ts:103-107 | recording one more path adds exactly its resolved, normalised form |
| `FileWatching.AfterReadsElements` | src/services/file-watching/tracked-fs.ts:103-107 | a run of reads adds exactly the recorded form of each path read, and keeps the set duplicate-free |
| `FileWatching.ReadsAfterClear` | src/services/file-watching/tracked-fs.ts:141-146 | after `clearReadFiles`, the set holds exactly the recorded forms of the later reads |
| `FileWatching.ReadsBetweenClears` | src/services/file-watching/tracked-fs.ts:101-107 | between clears, the recorded set depends only on which paths were read, not on order or repetition |
| `FileWatching.TrackedFs.constructor` | src/services/file-watching/tracked-fs.ts:98-101 | `baseDir` defaults to the working directory; the read set starts empty |
| `FileWatching.TrackedFs.TrackRead` | src/services/file-watching/tracked-fs.ts:103-107 | `trackRead` records `normalize(resolve(baseDir, path))` |
| `FileWatching.TrackedFs.ReadFile` | src/services/file-watching/tracked-fs.ts:112-119 | `readFile` records the path, then returns what the underlying file system returns |
| `FileWatching.TrackedFs.ReadFileSync` | src/services/file-watching/tracked-fs.ts:121-127 | the same for `readFileSync` |
| `FileWatching.TrackedFs.PromisesReadFile` | src/services/file-watching/tracked-fs.ts:131-137 | the same for `promises.readFile` |
| `FileWatching.TrackedFs.ClearReadFiles` | src/services/file-watching/tracked-fs.ts:144-146 | empties the shared read set only |
| `FileWatching.PerformReads` | src/services/file-watching/tracked-fs.ts:109-139 | a sequence of tracked reads leaves the read set equal to the recorded-paths function of the reads |
| `FileWatching.RestoreReadFiles` | src/cli/commands/compile/command.ts:183-186 | the rollback loop leaves exactly the snapshot in the read set |
| `Paths.Normalize` | src/services/file-watching/tracked-fs.ts:34 | every backslash becomes "/"; the length and all other characters are kept |
| `Paths.NormalizeUnchanged` | src/services/file-watching/tracked-fs.ts:34 | a path without backslashes is already normal |
| `Paths.NormalizeIdempotent` | src/services/file-watching/tracked-fs.ts:60 | normalising twice is normalising once, as `isIgnoredPath` does on already-normal paths |
| `Paths.StripTrailingSeparators` | src/services/file-watching/tracked-fs.ts:53 | the result is a prefix of the input, non-empty for non-empty input, and ends without "/" unless it is "/" |
| `Paths.Resolve` | src/services/file-watching/tracked-fs.ts:105 | resolving a non-empty path gives a non-empty path |
| `Paths.ResolveIgnoresTrailingSeparator` | src/services/file-watching/tracked-fs.ts:53 | a trailing "/" on the resolved path makes no difference |
| `Paths.Dirname` | src/services/file-watching/tracked-fs.ts:84 | the parent is a proper prefix ending before the last "/", or "/" or "." |
| `Paths.DirnameKeepsNormalized` | src/services/file-watching/tracked-fs.ts:84 | the parent of a normal path is normal |
| `Paths.WithinNormalized` | src/services/file-watching/tracked-fs.ts:37-40 | for normal paths, the boundary test is unaffected by normalising |
| `Paths.DifferentNameIsNotWithin` | src/services/file-watching/tracked-fs.ts:37-40 | a path that differs inside the directory's name is not within it |
| `Paths.SiblingIsNotWithin` | src/services/file-watching/tracked-fs.ts:37-40 | a path that extends the last segment without "/" is not within it |
| `CompileCommand.ReconciledWithinTargets` | src/cli/commands/compile/command.ts:97-124 | after reconciliation, every registered path is a current target |
| `CompileCommand.CloseStale` | src/cli/commands/compile/command.ts:97-109 | exactly the watchers of untargeted paths are closed and deleted; the others are kept unchanged |
| `CompileCommand.WatchNew` | src/cli/commands/compile/command.ts:111-148 | every targeted path without a watcher gets a fresh handle when `fs.watch` succeeds; existing entries are kept; new handles are distinct and fresh |
| `CompileCommand.ReconcileRegistry` | src/cli/commands/compile/command.ts:97-148 | both loops over one registry: stale entries are closed, new targets are watched, and the registry is the reconciled successor |
| `CompileCommand.StaleIdsBelow` | src/cli/commands/compile/command.ts:97-101 | a closed handle was live before, so it was handed out earlier |
| `CompileCommand.SurvivorNotClosed` | src/cli/commands/compile/command.ts:97-108 | a handle that survives reconciliation is closed by neither registry's stale loop |
| `CompileCommand.SuccessorInjective` | src/cli/commands/compile/command.ts:111-124 | reconciliation never gives two paths of a registry the same handle |
| `CompileCommand.SuccessorsDisjoint` | src/cli/commands/compile/command.ts:111-148 | the file and directory registries still share no handle |
| `CompileCommand.ReconcileKeepsRegistriesValid` | src/cli/commands/compile/command.ts:90-149 | `updateWatchers` preserves the registry invariant: every live handle was handed out, is not closed, and belongs to one entry |
| `CompileCommand.CloseAll` | src/cli/commands/compile/command.ts:210-215 | closes every handle of a registry |
| `CompileCommand.WatchSession.constructor` | src/cli/commands/compile/command.ts:82-88 | watch mode starts with empty registries, no previous compilation, no timer, and neither lock flag set |
| `CompileCommand.WatchSession.UpdateWatchers` | src/cli/commands/compile/command.ts:90-149 | the registries are reconciled against the watch targets of `files`; the registry invariant is kept |
| `CompileCommand.WatchSession.OnFileChange` | src/cli/commands/compile/command.ts:117-119 | a file watcher's event schedules a compile of that file |
| `CompileCommand.WatchSession.OnDirectoryChange` | src/cli/commands/compile/command.ts:132-143 | with no filename the directory is scheduled; an ignored changed path schedules nothing; otherwise the changed path is scheduled |
| `CompileCommand.WatchSession.ScheduleCompile` | src/cli/commands/compile/command.ts:200-207 | any pending timer is replaced by one that carries only the latest path |
| `CompileCommand.WatchSession.TimerFires` | src/cli/commands/compile/command.ts:204-206 | the timer calls `runCompile` with its path: during a pass it only defers; otherwise a pass begins |
| `CompileCommand.WatchSession.RunCompile` | src/cli/commands/compile/command.ts:151-168 | during a pass it only sets `compileRequested`; otherwise it takes the lock, snapshots and clears the read set, and records the pass, cleaning the outdir iff there was no previous compilation |
| `CompileCommand.WatchSession.SettleReads` | src/cli/commands/compile/command.ts:169-189 | success keeps the new reads and the result; failure restores the snapshot and drops the previous compilation |
| `CompileCommand.WatchSession.ReleasePass` | src/cli/commands/compile/command.ts:190-192 | the watchers are reconciled against the read set and the lock is released |
| `CompileCommand.WatchSession.FinishPass` | src/cli/commands/compile/command.ts:190-197 | the `finally`: reconcile, release, and start exactly one follow-up pass iff one was requested |
| `CompileCommand.WatchSession.CompletePass` | src/cli/commands/compile/command.ts:169-197 | the whole tail of `runCompile` once `compile` settles |
| `CompileCommand.WatchSession.CloseWatchers` | src/cli/commands/compile/command.ts:209-218 | every handle of both registries is closed and both registries are emptied |
| `CompileCommand.DebounceScenario` | src/cli/commands/compile/command.ts:200-207 | two changes in one quiet period start one pass, which reports the later path |
| `CompileCommand.CoalescingScenario` | src/cli/commands/compile/command.ts:151-207 | changes that arrive during a pass, each through its quiet-period timer, start no pass of their own; once the pass settles, one follow-up pass runs without a changed path, gets the new result and does not clean |
| `CompileCommand.GoodPass` | src/cli/commands/compile/command.ts:169-181 | a successful first pass keeps its reads and result |
| `CompileCommand.RollbackScenario` | src/cli/commands/compile/command.ts:182-189 | a failed pass restores the last good read set and drops the previous compilation |
| `Unplugin.OutputStructureFor` | src/bundler-plugins/unplugin.ts:32-34 | the configured output structure, else "message-modules" iff production |
| `Unplugin.CompileOptions` | src/bundler-plugins/unplugin.ts:36-46 | the plugin's choices of previous compilation, output structure, `cleanOutdir` and `isServer`, each overridden by `...args` when given |
| `Unplugin.PluginSession.constructor` | src/bundler-plugins/unplugin.ts:20-23 | no previous compilation and an empty read set |
| `Unplugin.PluginSession.AddWatchFiles` | src/bundler-plugins/unplugin.ts:55-60 | `addWatchFile` is called for every path given |
| `Unplugin.PluginSession.AddTargets` | src/bundler-plugins/unplugin.ts:54-60 | the watch files gain exactly the target files and directories of the read set |
| `Unplugin.PluginSession.BuildStart` | src/bundler-plugins/unplugin.ts:28-62 | compile with `cleanOutdir` iff there is no previous compilation; record the reads; register the targets in any case; throw iff compile fails in production |
| `Unplugin.PluginSession.ShouldCompile` | src/bundler-plugins/unplugin.ts:64-74 | true iff the normalised path is not ignored and is a target file or lies within a target directory |
| `Unplugin.PluginSession.WatchChange` | src/bundler-plugins/unplugin.ts:63-122 | an irrelevant path changes nothing; a relevant one recompiles without cleaning, registers the new targets on success, and rolls back on failure |
| `Unplugin.PluginSession.Recompile` | src/bundler-plugins/unplugin.ts:84-121 | snapshot and clear the reads, compile, then add the targets or restore the snapshot and drop the previous compilation |
| `Unplugin.PluginSession.BeforeRun` | src/bundler-plugins/unplugin.ts:145-169 | webpack's hook compiles without cleaning and without `isServer`, registers no watch files, and throws iff compile fails in production |
| `Unplugin.ArgsCleanOutdirWins` | src/bundler-plugins/unplugin.ts:43-45 | a `cleanOutdir` in `args` overrides the plugin's choice |
| `Unplugin.RebuildScenario` | src/bundler-plugins/unplugin.ts:40-43 | webpack calls `buildStart` again on rebuild: only the first call cleans, and the second receives the first's result |
| `VariableAccess.AllIdentifierParts` | src/compiler/variable-access.ts:3 | true iff every character is in `[A-Za-z0-9_$]` |
| `VariableAccess.IsValidIdentifier` | src/compiler/variable-access.ts:3-7 | true iff the name is non-empty, starts with `[A-Za-z_$]` and continues with `[A-Za-z0-9_$]` |
| `VariableAccess.QuotePropertyKey` | src/compiler/variable-access.ts:9-11 | the escaped name between two double quotes |
| `VariableAccess.CompileInputAccess` | src/compiler/variable-access.ts:13-18 | "i?." then the name for a valid identifier, else the quoted key in brackets |
| `VariableAccess.EmptyIsNotIdentifier` | src/compiler/variable-access.ts:3 | the empty name is not an identifier |
| `VariableAccess.HalfBangIsNotIdentifier` | examples/incremental-migration/src/main.ts:16-17 | "half!" is not an identifier, so it is accessed by bracket |
| `VariableAccess.LeadingDigitIsNotIdentifier` | src/compiler/variable-access.ts:3 | a leading digit is never an identifier |
| `VariableAccess.IdentifierExtend` | src/compiler/variable-access.ts:3 | appending identifier characters to an identifier keeps it one |
| `VariableAccess.AccessFormDecides` | src/compiler/variable-access.ts:13-18 | the character after "i?." is "[" iff the name is not an identifier |
| `VariableAccess.AccessInjective` | src/compiler/variable-access.ts:13-18 | with an injective escape, different names give different access code |
| `Strings.IndexOf` | src/compiler/server/create-server-file.ts:27 | `indexOf`: the first occurrence at or after `from`, or none |
| `Strings.Includes` | src/services/file-watching/tracked-fs.ts:61 | `includes` holds iff the pattern occurs somewhere |
| `Strings.LastIndexOfChar` | src/compiler/server/create-server-file.ts:34 | `lastIndexOf`: the last occurrence of the character at or before the bound, or -1 |
| `Strings.ReplaceFirst` | src/compiler/server/create-server-file.ts:61-64 | the first occurrence replaced literally; the text is unchanged when there is none |
| `Strings.ReplaceTabs` | src/compiler/server/create-server-file.ts:67 | no tab remains, and every character other than a tab or a space is present iff it was before |
| `Strings.ReplaceTabsAppend` | src/compiler/server/create-server-file.ts:67 | the tab rewrite distributes over concatenation |
| `Strings.ReplaceTabsNoTab` | src/compiler/server/create-server-file.ts:67 | text without tabs is unchanged |
| `Strings.Substitute` | src/compiler/server/create-server-file.ts:61-64 | JavaScript's replacement patterns (`$$`, `$&`, `` $` ``, `$'`); text without `$` is inserted as it is |
| `Strings.ReplaceFirstExpanding` | src/compiler/server/create-server-file.ts:61-64 | `replace` with a string pattern equals the literal replace when the replacement has no `$` |
| `Strings.DoubleDollarCollapses` | src/compiler/server/create-server-file.ts:61-64 | a `$$` in the replacement comes out as a single `$` |
| `Strings.CountChar` | src/compiler/server/create-server-file.ts:57 | the count is 0 iff the character is absent |
| `Strings.JoinCount` | src/compiler/server/create-server-file.ts:57 | joining n lines without the separator holds n-1 separators |
| `ServerFile.ServerModuleCode` | src/compiler/server/create-server-file.ts:20-24 | the module text ends with the middleware source followed by one newline |
| `ServerFile.FindMarkerLine` | src/compiler/server/create-server-file.ts:26-53 | none iff the marker is absent; otherwise the first marker, the start of its line, and the index just past its line end |
| `ServerFile.MarkerIndent` | src/compiler/server/create-server-file.ts:35 | the indentation holds no tab and no newline |
| `ServerFile.BlockLine` | src/compiler/server/create-server-file.ts:36-50 | a block line starts with the indent, plus two spaces for an inner line |
| `ServerFile.AsyncLocalStorageBlock` | src/compiler/server/create-server-file.ts:37-50 | 3 lines with the store disabled and 6 otherwise; all indented; the inner lines indented further; no newline or tab introduced |
| `ServerFile.BlockLineCount` | src/compiler/server/create-server-file.ts:57 | the block text holds exactly 3 or 6 newlines |
| `ServerFile.ReplaceMarkerLine` | src/compiler/server/create-server-file.ts:26-58 | an error iff no marker, with the source's message; otherwise the text before the line, the block, and the text after the line |
| `ServerFile.BundlesDeclaration` | src/compiler/server/create-server-file.ts:63 | `const compiledBundles = ` then the JSON exactly, then `;` |
| `ServerFile.SplitBundles` | src/compiler/server/create-server-file.ts:60-65 | the first placeholder becomes the declaration, inserted literally; no placeholder means no change |
| `ServerFile.SplitBundlesAsWritten` | src/compiler/server/create-server-file.ts:61-64 | the source's `replace` agrees with the literal splice when the JSON has no `$` |
| `ServerFile.DollarInBundlesIsCollapsed` | src/compiler/server/create-server-file.ts:61-64 | JSON holding `$$` is spliced in with `$` instead |
| `ServerFile.TabsAroundBlock` | src/compiler/server/create-server-file.ts:67 | the final tab rewrite leaves the block as it is |
| `ServerFile.CreateServerFile` | src/compiler/server/create-server-file.ts:9-68 | throws iff the module has no marker; the result has no tab; it is the marker splice, with the dictionary declaration when splitting is on |
| `ServerFile.StripTrailingSemicolon` | src/compiler/server/create-server-file.ts:86 | exactly one trailing `;` is dropped |
| `ServerFile.MessageExpression` | src/compiler/server/create-server-file.ts:84-86 | the expression is no longer than the module code, and code without the `export const` prefix only loses a final `;` |
| `ServerFile.MessageExpressionOfModule` | src/compiler/server/create-server-file.ts:84-86 | `export const <id> = <expr>;` reduces to `<expr>` |
| `ServerFile.WithMessages` | src/compiler/server/create-server-file.ts:81-87 | the locales already in the entry stay, and the last message's locale gets a key |
| `ServerFile.CompiledMessagesObject` | src/compiler/server/create-server-file.ts:70-90 | every bundle id gets an entry in the intended dictionary |
| `ServerFile.AddMessages` | src/compiler/server/create-server-file.ts:81-87 | the inner loop writes each message's expression under its locale, into this bundle's entry only |
| `ServerFile.CreateCompiledMessagesObject` | src/compiler/server/create-server-file.ts:70-90 | the loops build exactly the dictionary function of the bundles |
| `ServerFile.CompiledMessagesKeys` | src/compiler/server/create-server-file.ts:75-80 | one key per distinct bundle id |
| `ServerFile.WithMessagesMerges` | src/compiler/server/create-server-file.ts:78-84 | an entry that exists is merged into, not replaced |
| `ServerFile.MessageEntryLocales` | src/compiler/server/create-server-file.ts:81-84 | a locale has an entry iff some message has that locale |
| `ServerFile.LastMessageWins` | src/compiler/server/create-server-file.ts:84-86 | a locale's entry is the expression of the last message of that locale |
| `ServerFile.LaterBundleMerges` | src/compiler/server/create-server-file.ts:75-87 | a later bundle with a known id adds or overwrites locales of that entry and keeps the rest |
| `ServerFile.WrittenLocales` | src/compiler/server/create-server-file.ts:84 | the locale names a "__proto__" bundle writes onto `Object.prototype`, never "__proto__" itself |
| `ServerFile.AsWrittenRun` | src/compiler/server/create-server-file.ts:73-89 | as written, the own entries never name an `Object.prototype` property, and "__proto__" is never among the polluted names |
| `ServerFile.CompiledMessagesObjectAsWritten` | src/compiler/server/create-server-file.ts:70-90 | the dictionary as written, where it is built, holds no id that names an `Object.prototype` property |
| `ServerFile.AsWrittenLosesPrototypeNamedBundles` | src/compiler/server/create-server-file.ts:73-89 | as written and with no bundle named "__proto__", nothing is written onto `Object.prototype`, nothing throws, and the dictionary is the intended one without the ids that name `Object.prototype` properties |
| `ServerFile.AsWrittenAgreesWithoutPrototypeNames` | src/compiler/server/create-server-file.ts:73-89 | with no id naming an `Object.prototype` property, the dictionary as written is the intended one |
| `ServerFile.SplittingAgreesWithSource` | src/compiler/server/create-server-file.ts:60-64 | with no such id and no `$` in the stringified dictionary, the source's placeholder rewrite is the literal splice of the intended dictionary that `CreateServerFile` uses |
| `ServerFile.ProtoBundlePollutes` | src/compiler/server/create-server-file.ts:78-86 | a "__proto__" bundle with an "en" message, then an "en" bundle: as written the build throws, as intended both ids are keys |
| `ServerFile.ConstructorBundleIsLost` | src/compiler/server/create-server-file.ts:78-80 | a bundle named "constructor" is missing as written but present as intended |
| `StaticLocalizedUrls.ToUrlValue` | src/compiler/runtime/generate-static-localized-urls.js:58-61 | a caller's URL object is kept as that object; a string becomes a new object holding its parse, and a string the URL constructor rejects gives nothing (the call throws) |
| `StaticLocalizedUrls.Created` | src/compiler/runtime/generate-static-localized-urls.js:70 | `new URL(...)` gives fresh objects, one per URL |
| `StaticLocalizedUrls.Parsed` | src/compiler/runtime/generate-static-localized-urls.js:80-83 | the inputs convert iff every one of them does, and then into one value per input, in order |
| `StaticLocalizedUrls.AddUrl` | src/compiler/runtime/generate-static-localized-urls.js:64 | `Set.add` by object identity: a caller's object already present is not added again; a fresh object is always appended |
| `StaticLocalizedUrls.Prefixed` | src/compiler/runtime/generate-static-localized-urls.js:69-70 | for a valid base, the origin, search and hash are kept, and the href is the origin, "/", the locale, then the original path, search and hash |
| `StaticLocalizedUrls.PrefixedInjective` | src/compiler/runtime/generate-static-localized-urls.js:69-70 | different locales give different prefixed URLs |
| `StaticLocalizedUrls.PrefixedUrl` | src/compiler/runtime/generate-static-localized-urls.js:70 | the constructor throws iff the origin is "null"; otherwise it gives the prefixed URL |
| `StaticLocalizedUrls.DefaultVariants` | src/compiler/runtime/generate-static-localized-urls.js:67-73 | one prefixed URL per locale other than the base locale, and no others |
| `StaticLocalizedUrls.DefaultVariantsAppend` | src/compiler/runtime/generate-static-localized-urls.js:67-73 | the variants follow the locale order |
| `StaticLocalizedUrls.BaseLocaleNotPrefixed` | src/compiler/runtime/generate-static-localized-urls.js:68 | the base locale gets no prefixed variant |
| `StaticLocalizedUrls.AddPrefixedVariants` | src/compiler/runtime/generate-static-localized-urls.js:67-73 | the inner loop throws iff the URL's origin is "null" and some locale is not the base locale; otherwise it appends exactly the default variants as new objects |
| `StaticLocalizedUrls.GenerateDefault` | src/compiler/runtime/generate-static-localized-urls.js:56-75 | the default branch throws iff some string is rejected or an input with a "null" origin needs a prefixed variant; otherwise its loops produce exactly the default expansion of the converted inputs |
| `StaticLocalizedUrls.DefaultLayoutHandles` | src/compiler/runtime/generate-static-localized-urls.js:57-64 | the caller's objects in the default layout are exactly those among the converted inputs |
| `StaticLocalizedUrls.LastObjectIsNew` | src/compiler/runtime/generate-static-localized-urls.js:64 | an object passed once is not in anything that holds only objects of the inputs before it |
| `StaticLocalizedUrls.DefaultUrlsLayout` | src/compiler/runtime/generate-static-localized-urls.js:49-76 | when no object is passed twice, each input is directly followed by its variants, in input order, and nothing is dropped (the documented order) |
| `StaticLocalizedUrls.FirstMatch` | src/compiler/runtime/generate-static-localized-urls.js:87-94 | the first pattern whose match succeeds; earlier ones failed or threw |
| `StaticLocalizedUrls.LocalizedVariants` | src/compiler/runtime/generate-static-localized-urls.js:99-116 | at most one localised URL per locale of the pattern |
| `StaticLocalizedUrls.LocalizedHrefsAreNew` | src/compiler/runtime/generate-static-localized-urls.js:99-111 | no href is produced twice, and none that was already seen |
| `StaticLocalizedUrls.LocalizedAreLocalizations` | src/compiler/runtime/generate-static-localized-urls.js:102-110 | every URL produced is the localisation of one of the pattern's locales |
| `StaticLocalizedUrls.LocalizedCoverLocales` | src/compiler/runtime/generate-static-localized-urls.js:102-115 | every locale whose localisation succeeds has its href produced or already seen |
| `StaticLocalizedUrls.AddLocalizedVariants` | src/compiler/runtime/generate-static-localized-urls.js:99-116 | the `seenUrls` loop appends exactly the localised variants function |
| `StaticLocalizedUrls.ExpandWithPatterns` | src/compiler/runtime/generate-static-localized-urls.js:86-127 | the pattern loop adds the first matching pattern's variants, or the URL itself when none matches |
| `StaticLocalizedUrls.GenerateCustom` | src/compiler/runtime/generate-static-localized-urls.js:79-130 | the custom branch throws iff some string is rejected; otherwise its loops produce exactly the custom expansion of the converted inputs |
| `StaticLocalizedUrls.CustomLayoutHandles` | src/compiler/runtime/generate-static-localized-urls.js:79-127 | the custom layout holds no caller's object except those among the converted inputs |
| `StaticLocalizedUrls.CustomUrlsLayout` | src/compiler/runtime/generate-static-localized-urls.js:49-130 | when no object is passed twice, each input is directly followed by its localisations, or by itself when no pattern matches, in input order, and nothing is dropped (the documented order) |
| `StaticLocalizedUrls.GenerateStaticLocalizedUrls` | src/compiler/runtime/generate-static-localized-urls.js:52-131 | the default branch iff the default pattern is in use, otherwise the custom branch; the call throws iff a string is rejected or, in the default branch, an input with a "null" origin needs a prefixed variant |
| `StaticLocalizedUrls.FirstMatchIsFirstMatched` | src/compiler/runtime/generate-static-localized-urls.js:87-117 | a matching pattern with no earlier match is the one used |
| `StaticLocalizedUrls.UnmatchedInputIsKept` | src/compiler/runtime/generate-static-localized-urls.js:125-127 | an input that matches no pattern is emitted unchanged |
| `StaticLocalizedUrls.FirstMatchedPatternIsUsed` | src/compiler/runtime/generate-static-localized-urls.js:96-117 | a matched input contributes only the localisations of the first matching pattern, not itself |
| `GetLocale.StrategyStep` | src/compiler/runtime/get-locale.js:69-110 | "baseLocale" assigns the base locale; an enabled "cookie" assigns the cookie's locale; the step is skipped iff it is a registered custom strategy whose handler returns a Promise; any other name that is neither named in the chain nor custom leaves `locale` alone |
| `GetLocale.StrategyLocale` | src/compiler/runtime/get-locale.js:69-112 | the locale a strategy yields is exactly the value its step assigns, and nothing for a step that assigns nothing |
| `GetLocale.FirstResolved` | src/compiler/runtime/get-locale.js:69-122 | the first strategy that yields a locale; every earlier one yields nothing |
| `GetLocale.Resolve` | src/compiler/runtime/get-locale.js:52-127 | the static locale wins; then a truthy store locale; otherwise the result is what `FirstResolved` finds: the first strategy with a locale, and nothing resolves iff none of them gives one |
| `GetLocale.Outcome` | src/compiler/runtime/get-locale.js:52-127 | a static or strategy locale succeeds iff `assertIsLocale` accepts it, with the locale `assertIsLocale` returns, and otherwise fails with that value; the store locale is returned unchecked; the no-locale error, with its message, comes iff nothing resolves |
| `GetLocale.BaseLocaleEndsSearch` | src/compiler/runtime/get-locale.js:72-73 | a "baseLocale" strategy always resolves, so no later strategy is consulted |
| `GetLocale.ServerSkipsClientStrategies` | src/compiler/runtime/get-locale.js:74-98 | on the server, "url", "preferredLanguage" and "localStorage" yield nothing |
| `GetLocale.GlobalVariableNeedsLocale` | src/compiler/runtime/get-locale.js:81-86 | "globalVariable" yields nothing while `_locale` is undefined |
| `GetLocale.AsyncCustomStrategySkipped` | src/compiler/runtime/get-locale.js:99-107 | a custom strategy that returns a Promise is passed over |
| `GetLocale.LocaleRuntime.constructor` | src/compiler/runtime/get-locale.js:30-32 | `_locale` is undefined, `localeInitiallySet` is false, and no resolver override is installed |
| `GetLocale.LocaleRuntime.GetLocale` | src/compiler/runtime/get-locale.js:52-127 | the loop returns the outcome of the resolution order; only the first accepted strategy resolution sets `_locale` and calls `setLocale`, both with the locale `assertIsLocale` returns; an override is returned as it is |
| `GetLocale.LocaleRuntime.OverwriteGetLocale` | src/compiler/runtime/get-locale.js:144-146 | later calls use the given resolver |
| `GetLocale.FirstResolutionIsRemembered` | src/compiler/runtime/get-locale.js:112-120 | after the first resolution, "globalVariable" returns the remembered (asserted) locale and `setLocale` is called once only |
| `GetLocale.OverrideReplacesResolver` | src/compiler/runtime/get-locale.js:144-146 | after `overwriteGetLocale(fn)`, `getLocale` returns `fn()` and records nothing |

## Left out

- The internals of `compile` are not part of this model. Each call is an outcome parameter:
  the paths it reads, in order, and its result or its error.
- Logging is left out: the logger calls, the log texts and `relative(process.cwd(), path)`.
- The CLI's non-watch branch is left out, along with `process.exit`, the SIGINT handler and
  the default option merging at `command.ts` lines 40-64.
- Asynchrony is modelled as interleaving points, not as promises:
  - `runCompile` is split at its `await`: `RunCompile`, then `CompletePass`;
  - a timer is a state the `TimerFires` event consumes;
  - the 100 ms delay itself is not modelled.
- `fs.watch` handles are natural-number ids. Whether `fs.watch` throws is the `watchOk`
  parameter. File contents are opaque bytes.
- `nodeNormalizePath`, `path.resolve` and `path.dirname` are simplified in `Paths`. The model
  does backslash-to-slash, join-or-absolute with trailing separators removed, and drop the
  last segment. It does not collapse "." or ".." segments, and it keeps no drive letters.
- The plugin's module-level state (`previousCompilation` and the tracked file system) is
  shared by every plugin instance in one process. The model gives it one `PluginSession`.
- The vite `config` and `configEnvironment` hooks are left out. They only assign the
  `isServer` string, so `isServer` is a constructor parameter. The webpack `resolve.fallback`
  tweak is left out too.
- `process.env.NODE_ENV` is the `isProduction` parameter.
- `Unplugin.CompileOptions`: an `args` field is `None` only when the key is absent. A key present
  with the value `undefined` also overrides the plugin's choice in the spread, with
  `undefined`; for example, `outputStructure: undefined` keeps compile from getting the
  "locale-modules" default in development. The model cannot represent that input, and
  its contract is stated for absent keys only.
- `injectCode` (file search and regex import pruning) is not part of this model.
  `ServerModuleCode` takes the pruned middleware text.
- `JSON.stringify`, `toSafeModuleId` and `escapeForDoubleQuoteString` are not part of this
  model. They are function parameters.
- `ServerFile.CreateServerFile`: the text of the error is modelled; the thrown `Error` object
  is not.
- `ServerFile.CreateServerFile`: with locale splitting on, it uses the corrected halves of the
  two findings below: the literal splice (`SplitBundles`) and the own-key dictionary
  (`CompiledMessagesObject`). It therefore differs from the source's text when the
  stringified dictionary holds `$$`, `$&`, `` $` `` or `$'`, or when a bundle id names an
  `Object.prototype` property; `SplittingAgreesWithSource` shows that otherwise the two agree.
- `ServerFile.CreateServerFile`: `stringify` takes an unordered map, so the key order of
  `JSON.stringify` (the order in which ids and locales were first written) is not modelled.
- `ServerFile.AsWrittenRun`: a message locale is taken to be a language tag. A locale named
  "__proto__" (whose setter drops the write into an own entry) or a read-only property of the
  inherited function, such as "name" or "length" (whose write throws), is not modelled.
- `Object.entries` order is modelled as the given sequence of messages.
- `URL` parsing, `URLPattern` matching and `localizeUrl` are not part of this model. They
  are function parameters. A string the URL constructor rejects is `None` from `parse`, a
  throwing `URLPattern` is the `MatchThrows` outcome, and a throwing `localizeUrl` is
  `None`. The only base the model rejects is the origin "null"; every other origin of a
  parsed URL is taken to be a valid base. All these throws are one `None` result: which
  TypeError is thrown is not modelled.
- `StaticLocalizedUrls.Href`: `url.href` is taken to be origin, pathname, search and hash put
  together. A username or password in the URL is not modelled, so two localised URLs that
  differ only there are merged by `seenUrls` in the model but kept apart by the source.
- `StaticLocalizedUrls.Created`: `new URL(prefixedPath, url.origin)` is modelled as a record
  with that origin. This assumes a locale code holds no "?" or "#", so the pieces are not
  re-parsed.
- The doc comment of `generateStaticLocalizedUrls` lists "/en/" for a base locale "en". The
  code adds the unprefixed URL for the base locale, and the model follows the code.
- `strategy.js` is not part of this model. `isCustomStrategy` is taken as the "custom-" name
  prefix.
- The cookie, URL and navigator extractors and `localStorage` are fields of
  `LocaleEnvironment`.
- `assert-is-locale.js` is not part of this model. `assertIsLocale` is a function parameter
  giving the locale it returns (which may differ from its argument), or `None` where it
  throws; that thrown error is `NotALocale`.
- `setLocale` itself is not part of this model: its calls are recorded in `setLocaleCalls`,
  and what it does to cookies, history or reloads is not modelled.
- `AsyncLocalStorage` is not part of this model. `storeLocale` is what `getStore()?.locale`
  returns.
- A custom handler returning a non-string value such as `null` is not modelled. Only a
  locale, `undefined` or a Promise are.
- `GetLocale.LocaleRuntime.GetLocale`: a replaced resolver `fn` is modelled as a pure
  function. Its side effects and a `fn` that itself calls `getLocale` are not modelled.

## Findings

| source | as written | input that shows it | evidently intended | confidence | as-written member | corrected member |
|---|---|---|---|---|---|---|
| src/compiler/server/create-server-file.ts:61-64 | the stringified dictionary is the replacement string of `String.prototype.replace`, so `$$`, `$&`, `` $` `` and `$'` inside it are expanded | a message whose expression contains `$$`, as a template literal with a `$` right before `${...}` does: the JSON holds `$$` and the module gets `$` | the declaration is inserted literally (a replacer function, or `split`/`join`) | medium; not executed | `ServerFile.DollarInBundlesIsCollapsed` | `ServerFile.SplitBundles` |
| src/compiler/server/create-server-file.ts:73-80 | `result[bundleId] === undefined` on a plain `{}` is false for an id such as "constructor" or "toString", because they are inherited; the bundle's messages are then written onto the inherited object, and `JSON.stringify` leaves them out | one bundle with id "constructor" gives `{}` in the module | a dictionary with no prototype (`Object.create(null)`) or an own-property check, keeping every bundle | medium; not executed | `ServerFile.AsWrittenLosesPrototypeNamedBundles` | `ServerFile.CreateCompiledMessagesObject` |
| src/compiler/server/create-server-file.ts:78-86 | for a bundle id "__proto__", `result[bundleId]` is `Object.prototype`, so its messages are written onto `Object.prototype`; a later bundle whose id equals one of those locales finds an inherited string, and writing a message into it throws a TypeError in module code | a bundle "__proto__" with an "en" message, followed by a bundle "en" with a "de" message: the dictionary is never built | every bundle kept as its own entry, nothing written onto `Object.prototype` | medium; not executed | `ServerFile.ProtoBundlePollutes` | `ServerFile.CreateCompiledMessagesObject` |
