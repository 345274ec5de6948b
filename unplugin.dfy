/** src/bundler-plugins/unplugin.ts: the bundler-plugin session. The module-level state
    (`isServer`, `previousCompilation` and the tracked file system with its `readFiles`) and the
    files registered with `addWatchFile` are the fields of `PluginSession`; `buildStart`,
    `watchChange` and webpack's `beforeRun` hook are its methods. */
module Unplugin {
  import opened Wrappers
  import opened Paths
  import opened FileWatching
  import opened Compiler

  datatype OutputStructure = MessageModules | LocaleModules

  /** The plugin's options, as far as the plugin itself reads or overrides them; `None` is a key
      that is absent. */
  datatype PluginArgs = PluginArgs(
    outdir: Option<Path>,
    outputStructure: Option<OutputStructure>,
    cleanOutdir: Option<bool>,
    isServer: Option<string>)

  /** The options of one `compile` call that the plugin decides. */
  datatype CompileRequest = CompileRequest(
    previousCompilation: Option<CompilationResult>,
    outputStructure: OutputStructure,
    cleanOutdir: bool,
    isServer: Option<string>)

  /** The output structure: the configured one, else "message-modules" in production and
      "locale-modules" otherwise. */
  function OutputStructureFor(args: PluginArgs, isProduction: bool): (r: OutputStructure)
    ensures args.outputStructure.Some? ==> r == args.outputStructure.value
    ensures args.outputStructure.None? ==> (r == MessageModules <==> isProduction)
  {
    args.outputStructure.GetOr(if isProduction then MessageModules else LocaleModules)
  }

  /** The options object of a `compile` call: the plugin's own choices, then `...args` spread over
      them, so every option present in `args` wins. */
  function CompileOptions(args: PluginArgs, isProduction: bool, previousCompilation: Option<CompilationResult>,
                          cleanOutdir: bool, isServer: Option<string>): (r: CompileRequest)
    ensures r.previousCompilation == previousCompilation
    ensures r.outputStructure == OutputStructureFor(args, isProduction)
    ensures r.cleanOutdir == (if args.cleanOutdir.Some? then args.cleanOutdir.value else cleanOutdir)
    ensures r.isServer == (if args.isServer.Some? then args.isServer else isServer)
  {
    CompileRequest(previousCompilation, OutputStructureFor(args, isProduction),
                   args.cleanOutdir.GetOr(cleanOutdir),
                   if args.isServer.Some? then args.isServer else isServer)
  }

  class PluginSession {
    const args: PluginArgs
    const cwd: Path
    const tracked: TrackedFs
    /** The bundler-specific default that the vite hooks assign. */
    const isServer: Option<string>
    var previousCompilation: Option<CompilationResult>
    /** Every path handed to `this.addWatchFile`. */
    var watchFiles: set<Path>
    /** Every `compile` call made, in order. */
    var compileRequests: seq<CompileRequest>

    ghost predicate Valid()
      reads this, tracked.readFiles
    {
      tracked.readFiles.Valid() && tracked.baseDir == cwd
    }

    constructor (args: PluginArgs, cwd: Path, isServer: Option<string>)
      ensures Valid() && fresh(tracked) && fresh(tracked.readFiles)
      ensures this.args == args && this.cwd == cwd && this.isServer == isServer
      ensures previousCompilation == None && watchFiles == {} && compileRequests == []
      ensures tracked.readFiles.elems == []
    {
      this.args := args;
      this.cwd := cwd;
      this.isServer := isServer;
      tracked := new TrackedFs(TrackedFsOptions(None), cwd);
      previousCompilation := None;
      watchFiles := {};
      compileRequests := [];
    }

    /** The options every `getWatchTargets` call of the plugin passes. */
    function TargetOptions(): WatchTargetOptions {
      WatchTargetOptions(None, args.outdir, None, None, None)
    }

    function WatchRules(): IgnoreRules {
      Rules(TargetOptions(), cwd)
    }

    /** The watch targets of a read set, files and directories together. */
    ghost function AllTargets(readPaths: seq<Path>): set<Path> {
      TargetFiles(Elements(readPaths), WatchRules()) + TargetDirectories(Elements(readPaths), WatchRules(), true)
    }

    /** One of the `addWatchFile` loops. */
    method AddWatchFiles(paths: seq<Path>)
      modifies this`watchFiles
      ensures watchFiles == old(watchFiles) + Elements(paths)
    {
      for i := 0 to |paths|
        invariant watchFiles == old(watchFiles) + Elements(paths[..i])
      {
        assert Elements(paths[..i + 1]) == Elements(paths[..i]) + {paths[i]} by {
          assert paths[..i + 1] == paths[..i] + [paths[i]];
        }
        watchFiles := watchFiles + {paths[i]};
      }
      assert paths[..|paths|] == paths;
    }

    /** Both `addWatchFile` loops over the targets of the current read set. */
    method AddTargets()
      requires Valid()
      modifies this`watchFiles
      ensures watchFiles == old(watchFiles) + AllTargets(tracked.readFiles.elems)
    {
      var targets := GetWatchTargets(tracked.readFiles.elems, TargetOptions(), cwd);
      AddWatchFiles(targets.files);
      AddWatchFiles(targets.directories);
    }

    /** `buildStart`: compile, cleaning the output directory exactly when there is no previous
        compilation (unless `args` says otherwise). The read set is not cleared first and not
        rolled back, a failure keeps the previous compilation, the targets of the read set are
        registered whatever the outcome, and the error escapes (`thrown`) only in production. */
    method BuildStart(isProduction: bool, outcome: CompileOutcome, underlying: Path -> ReadResult)
      returns (thrown: bool)
      requires Valid()
      modifies this`previousCompilation, this`watchFiles, this`compileRequests, tracked.readFiles
      ensures Valid()
      ensures compileRequests == old(compileRequests) +
        [CompileOptions(args, isProduction, old(previousCompilation), old(previousCompilation).None?, isServer)]
      ensures tracked.readFiles.elems == AfterReads(cwd, old(tracked.readFiles.elems), outcome.readPaths)
      ensures previousCompilation == (if outcome.Succeeded? then Some(outcome.result) else old(previousCompilation))
      ensures watchFiles == old(watchFiles) + AllTargets(tracked.readFiles.elems)
      ensures thrown <==> outcome.Failed? && isProduction
    {
      compileRequests := compileRequests +
        [CompileOptions(args, isProduction, previousCompilation, previousCompilation == None, isServer)];
      PerformReads(tracked, outcome.readPaths, underlying);
      thrown := false;
      if outcome.Succeeded? {
        previousCompilation := Some(outcome.result);
      } else if isProduction {
        thrown := true;
      }
      // finally
      AddTargets();
    }

    /** The filter of `watchChange`: a path that is not ignored and is a target file or lies within
        a target directory. */
    ghost predicate Relevant(readPaths: seq<Path>, path: Path)
      reads this
    {
      var normalizedPath := Normalize(path);
      && !IsIgnoredPath(WatchRules(), normalizedPath)
      && (normalizedPath in TargetFiles(Elements(readPaths), WatchRules()) ||
          exists d :: d in TargetDirectories(Elements(readPaths), WatchRules(), true) &&
                      WithinDirectory(Normalize(normalizedPath), Normalize(d)))
    }

    /** The first lines of `watchChange`, which decide whether to compile. */
    method ShouldCompile(path: Path) returns (r: bool)
      requires Valid()
      ensures r <==> Relevant(tracked.readFiles.elems, path)
    {
      var normalizedPath := Normalize(path);
      var targets := GetWatchTargets(tracked.readFiles.elems, TargetOptions(), cwd);
      if targets.isIgnoredPath(normalizedPath) {
        return false;
      }
      r := normalizedPath in targets.files || IsPathWithinDirectories(normalizedPath, targets.directories);
      assert r <==> (normalizedPath in Elements(targets.files) ||
        exists d :: d in Elements(targets.directories) && WithinDirectory(Normalize(normalizedPath), Normalize(d))) by {
        if IsPathWithinDirectories(normalizedPath, targets.directories) {
          var i :| 0 <= i < |targets.directories| &&
            WithinDirectory(Normalize(normalizedPath), Normalize(targets.directories[i]));
          assert targets.directories[i] in Elements(targets.directories);
        }
      }
    }

    /** `watchChange(path)`: an irrelevant path changes nothing; a relevant one recompiles. */
    method WatchChange(path: Path, isProduction: bool, outcome: CompileOutcome, underlying: Path -> ReadResult)
      returns (compiled: bool)
      requires Valid()
      modifies this`previousCompilation, this`watchFiles, this`compileRequests, tracked.readFiles
      ensures Valid()
      ensures compiled <==> Relevant(old(tracked.readFiles.elems), path)
      ensures !compiled ==>
        && tracked.readFiles.elems == old(tracked.readFiles.elems)
        && previousCompilation == old(previousCompilation)
        && watchFiles == old(watchFiles) && compileRequests == old(compileRequests)
      ensures compiled ==>
        compileRequests == old(compileRequests) + [CompileOptions(args, isProduction, old(previousCompilation), false, isServer)]
      ensures compiled && outcome.Succeeded? ==>
        && tracked.readFiles.elems == AfterReads(cwd, [], outcome.readPaths)
        && previousCompilation == Some(outcome.result)
        && watchFiles == old(watchFiles) + AllTargets(tracked.readFiles.elems)
      ensures compiled && outcome.Failed? ==>
        && tracked.readFiles.elems == old(tracked.readFiles.elems)
        && previousCompilation == None
        && watchFiles == old(watchFiles)
    {
      compiled := ShouldCompile(path);
      if compiled {
        Recompile(isProduction, outcome, underlying);
      }
    }

    /** The `try` of `watchChange`: the read set is snapshotted and cleared and `compile` runs
        without cleaning the output directory (unless `args` says otherwise). On success the new
        result is kept and the targets of the new read set are registered; on failure the read set
        is restored exactly, the previous compilation is dropped, and nothing is thrown. */
    method Recompile(isProduction: bool, outcome: CompileOutcome, underlying: Path -> ReadResult)
      requires Valid()
      modifies this`previousCompilation, this`watchFiles, this`compileRequests, tracked.readFiles
      ensures Valid()
      ensures compileRequests ==
        old(compileRequests) + [CompileOptions(args, isProduction, old(previousCompilation), false, isServer)]
      ensures outcome.Succeeded? ==>
        && tracked.readFiles.elems == AfterReads(cwd, [], outcome.readPaths)
        && previousCompilation == Some(outcome.result)
        && watchFiles == old(watchFiles) + AllTargets(tracked.readFiles.elems)
      ensures outcome.Failed? ==>
        && tracked.readFiles.elems == old(tracked.readFiles.elems)
        && previousCompilation == None
        && watchFiles == old(watchFiles)
    {
      var previouslyReadFiles := tracked.readFiles.elems;
      tracked.ClearReadFiles();
      compileRequests := compileRequests + [CompileOptions(args, isProduction, previousCompilation, false, isServer)];
      PerformReads(tracked, outcome.readPaths, underlying);
      if outcome.Succeeded? {
        previousCompilation := Some(outcome.result);
        AddTargets();
      } else {
        RestoreReadFiles(tracked, previouslyReadFiles);
        previousCompilation := None;
      }
    }

    /** Webpack's `beforeRun` hook: compile without cleaning the output directory (unless `args`
        says otherwise) and without the plugin's `isServer` default; a failure keeps the previous
        compilation and escapes only in production. No watch file is registered. */
    method BeforeRun(isProduction: bool, outcome: CompileOutcome, underlying: Path -> ReadResult)
      returns (thrown: bool)
      requires Valid()
      modifies this`previousCompilation, this`compileRequests, tracked.readFiles
      ensures Valid()
      ensures compileRequests == old(compileRequests) +
        [CompileOptions(args, isProduction, old(previousCompilation), false, None)]
      ensures tracked.readFiles.elems == AfterReads(cwd, old(tracked.readFiles.elems), outcome.readPaths)
      ensures previousCompilation == (if outcome.Succeeded? then Some(outcome.result) else old(previousCompilation))
      ensures thrown <==> outcome.Failed? && isProduction
    {
      compileRequests := compileRequests + [CompileOptions(args, isProduction, previousCompilation, false, None)];
      PerformReads(tracked, outcome.readPaths, underlying);
      thrown := false;
      if outcome.Succeeded? {
        previousCompilation := Some(outcome.result);
      } else if isProduction {
        thrown := true;
      }
    }
  }

  // ---------------------------------------------------------------------------------------------
  // What the options promise

  /** A `cleanOutdir` in `args` overrides the plugin's choice in every hook. */
  lemma ArgsCleanOutdirWins(args: PluginArgs, isProduction: bool, previous: Option<CompilationResult>,
                            cleanOutdir: bool, isServer: Option<string>)
    requires args.cleanOutdir.Some?
    ensures CompileOptions(args, isProduction, previous, cleanOutdir, isServer).cleanOutdir == args.cleanOutdir.value
  {
  }

  /** Webpack calls `buildStart` on every rebuild in watch mode: only the first call of a session
      cleans the output directory, provided it succeeded and `args` leaves `cleanOutdir` alone. */
  method RebuildScenario(args: PluginArgs, cwd: Path, result: CompilationResult, underlying: Path -> ReadResult)
    returns (requests: seq<CompileRequest>)
    requires args.cleanOutdir.None?
    ensures |requests| == 2 && requests[0].cleanOutdir && !requests[1].cleanOutdir
    ensures requests[1].previousCompilation == Some(result)
  {
    var session := new PluginSession(args, cwd, None);
    var _ := session.BuildStart(false, Succeeded([], result), underlying);
    var _ := session.BuildStart(false, Succeeded([], result), underlying);
    requests := session.compileRequests;
  }
}
