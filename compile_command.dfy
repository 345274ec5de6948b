/** src/cli/commands/compile/command.ts, watch mode: the session state of lines 82-88, watcher
    reconciliation (`updateWatchers`), the coalescing compile driver (`runCompile`), the debounce
    timer (`scheduleCompile`) and shutdown (`closeWatchers`). */
module CompileCommand {
  import opened Wrappers
  import opened Paths
  import opened FileWatching
  import opened Compiler

  /** One pass: the changed path it reports in its log line (it is not passed to `compile`), and
      the previous compilation and `cleanOutdir` it hands to `compile`. */
  datatype CompilePass = CompilePass(changedPath: Option<Path>, previousCompilation: Option<CompilationResult>, cleanOutdir: bool)

  /** A watch handle returned by `fs.watch`. */
  type WatcherId = nat

  /** The entries of a registry whose path is still targeted. */
  ghost function Kept(watchers: map<Path, WatcherId>, keep: set<Path>): map<Path, WatcherId> {
    map p | p in watchers && p in keep :: watchers[p]
  }

  /** The handles of the entries whose path is no longer targeted. */
  ghost function StaleIds(watchers: map<Path, WatcherId>, keep: set<Path>): set<WatcherId> {
    set p | p in watchers && p !in keep :: watchers[p]
  }

  /** `after` is `before` reconciled against `targets`: exactly the targeted paths that already had
      a watcher or for which `fs.watch` succeeded are registered, a path that had a watcher keeps the
      same one, and every other handle is new. */
  ghost predicate Reconciled(before: map<Path, WatcherId>, after: map<Path, WatcherId>, targets: set<Path>,
                             watchOk: Path -> bool, firstNewId: nat)
  {
    && after.Keys == (set p | p in targets && (p in before || watchOk(p)))
    && (forall p :: p in after && p in before ==> after[p] == before[p])
    && (forall p :: p in after && p !in before ==> firstNewId <= after[p])
  }

  lemma ReconciledWithinTargets(before: map<Path, WatcherId>, after: map<Path, WatcherId>, targets: set<Path>,
                                watchOk: Path -> bool, firstNewId: nat)
    requires Reconciled(before, after, targets, watchOk, firstNewId)
    ensures after.Keys <= targets
  {
  }

  ghost predicate Injective(watchers: map<Path, WatcherId>) {
    forall p, q :: p in watchers && q in watchers && p != q ==> watchers[p] != watchers[q]
  }

  /** Every live handle was handed out, has not been closed, and belongs to one entry only. */
  ghost predicate RegistriesValid(files: map<Path, WatcherId>, directories: map<Path, WatcherId>,
                                  nextId: nat, closed: set<WatcherId>)
  {
    && (forall c :: c in closed ==> c < nextId)
    && (forall p :: p in files ==> files[p] < nextId && files[p] !in closed)
    && (forall p :: p in directories ==> directories[p] < nextId && directories[p] !in closed)
    && Injective(files) && Injective(directories)
    && (forall p, q :: p in files && q in directories ==> files[p] != directories[q])
  }

  /** The stale-removal loop of `updateWatchers` over one registry: each watcher whose path is not
      targeted is closed and deleted. */
  method CloseStale(watchers: map<Path, WatcherId>, targets: seq<Path>)
    returns (kept: map<Path, WatcherId>, closed: set<WatcherId>)
    ensures kept == Kept(watchers, Elements(targets))
    ensures closed == StaleIds(watchers, Elements(targets))
  {
    kept := watchers;
    closed := {};
    var pending := watchers.Keys;
    while pending != {}
      invariant pending <= watchers.Keys
      invariant kept == map p | p in watchers && (p in pending || p in targets) :: watchers[p]
      invariant closed == set p | p in watchers && p !in pending && p !in targets :: watchers[p]
      decreases pending
    {
      var p :| p in pending;
      if p !in targets {
        closed := closed + {kept[p]};
        kept := kept - {p};
      }
      pending := pending - {p};
    }
  }

  /** The creation loop of `updateWatchers` over one registry: each targeted path without a watcher
      gets a new handle, unless `fs.watch` throws for it (`watchOk` false), in which case the path is
      skipped and the loop goes on. */
  method WatchNew(watchers: map<Path, WatcherId>, targets: seq<Path>, watchOk: Path -> bool, nextId: nat)
    returns (result: map<Path, WatcherId>, nextId': nat)
    ensures result.Keys == watchers.Keys + (set p | p in targets && p !in watchers && watchOk(p))
    ensures forall p :: p in watchers ==> result[p] == watchers[p]
    ensures forall p :: p in result && p !in watchers ==> nextId <= result[p] < nextId'
    ensures forall p, q :: p in result && q in result && p != q && p !in watchers && q !in watchers ==> result[p] != result[q]
    ensures nextId <= nextId'
  {
    result, nextId' := watchers, nextId;
    for i := 0 to |targets|
      invariant result.Keys == watchers.Keys + (set p | p in targets[..i] && p !in watchers && watchOk(p))
      invariant forall p :: p in watchers ==> result[p] == watchers[p]
      invariant forall p :: p in result && p !in watchers ==> nextId <= result[p] < nextId'
      invariant forall p, q :: p in result && q in result && p != q && p !in watchers && q !in watchers ==> result[p] != result[q]
      invariant nextId <= nextId'
    {
      assert targets[..i + 1] == targets[..i] + [targets[i]];
      var p := targets[i];
      if p in result {
        continue;
      }
      if watchOk(p) {
        result := result[p := nextId'];
        nextId' := nextId' + 1;
      }
    }
    assert targets[..|targets|] == targets;
  }

  /** Both loops of `updateWatchers` over one registry: stale watchers are closed and dropped,
      then missing ones are created. */
  method ReconcileRegistry(watchers: map<Path, WatcherId>, targets: seq<Path>, watchOk: Path -> bool, nextId: nat)
    returns (result: map<Path, WatcherId>, closed: set<WatcherId>, nextId': nat)
    ensures Reconciled(watchers, result, Elements(targets), watchOk, nextId)
    ensures closed == StaleIds(watchers, Elements(targets))
    ensures forall p :: p in result && p !in watchers ==> result[p] < nextId'
    ensures forall p, q :: p in result && q in result && p != q && p !in watchers && q !in watchers ==> result[p] != result[q]
    ensures nextId <= nextId'
    ensures Successor(watchers, result, Elements(targets), closed, nextId, nextId')
  {
    var kept;
    kept, closed := CloseStale(watchers, targets);
    result, nextId' := WatchNew(kept, targets, watchOk, nextId);
    ReconciledWithinTargets(watchers, result, Elements(targets), watchOk, nextId);
  }

  /** What one reconciled registry keeps of the old one. */
  ghost predicate Successor(before: map<Path, WatcherId>, after: map<Path, WatcherId>, targets: set<Path>,
                            closed: set<WatcherId>, firstNewId: nat, nextId: nat)
  {
    && after.Keys <= targets
    && closed == StaleIds(before, targets)
    && (forall p :: p in after && p in before ==> after[p] == before[p])
    && (forall p :: p in after && p !in before ==> firstNewId <= after[p] < nextId)
    && (forall p, q :: p in after && q in after && p != q && p !in before && q !in before ==> after[p] != after[q])
  }

  /** A handle closed by reconciliation was live before, so it is below the old counter. */
  lemma StaleIdsBelow(before: map<Path, WatcherId>, targets: set<Path>, nextId: nat, c: WatcherId)
    requires forall p :: p in before ==> before[p] < nextId
    requires c in StaleIds(before, targets)
    ensures c < nextId
  {
    var p :| p in before && p !in targets && before[p] == c;
  }

  /** A handle that survives reconciliation of one registry is not among the handles closed from
      either registry. */
  lemma SurvivorNotClosed(before: map<Path, WatcherId>, after: map<Path, WatcherId>, targets: set<Path>,
                          closed: set<WatcherId>, n0: nat, n1: nat, other: map<Path, WatcherId>,
                          otherTargets: set<Path>, p: Path)
    requires Injective(before) && (forall q :: q in before ==> before[q] < n0)
    requires forall q, r :: q in before && r in other ==> before[q] != other[r]
    requires forall q :: q in other ==> other[q] < n0
    requires Successor(before, after, targets, closed, n0, n1)
    requires p in after
    ensures after[p] !in closed && after[p] !in StaleIds(other, otherTargets)
  {
  }

  /** Reconciliation keeps a registry free of shared handles. */
  lemma SuccessorInjective(before: map<Path, WatcherId>, after: map<Path, WatcherId>, targets: set<Path>,
                           closed: set<WatcherId>, n0: nat, n1: nat)
    requires Injective(before) && (forall q :: q in before ==> before[q] < n0)
    requires Successor(before, after, targets, closed, n0, n1)
    ensures Injective(after)
  {
  }

  /** The two registries, reconciled one after the other, still share no handle. */
  lemma SuccessorsDisjoint(files: map<Path, WatcherId>, directories: map<Path, WatcherId>, n0: nat,
                           files': map<Path, WatcherId>, targetFiles: set<Path>, closedFiles: set<WatcherId>, n1: nat,
                           directories': map<Path, WatcherId>, targetDirectories: set<Path>,
                           closedDirectories: set<WatcherId>, n2: nat)
    requires (forall q :: q in files ==> files[q] < n0) && (forall q :: q in directories ==> directories[q] < n0)
    requires forall p, q :: p in files && q in directories ==> files[p] != directories[q]
    requires Successor(files, files', targetFiles, closedFiles, n0, n1)
    requires Successor(directories, directories', targetDirectories, closedDirectories, n1, n2)
    requires n0 <= n1
    ensures forall p, q :: p in files' && q in directories' ==> files'[p] != directories'[q]
  {
  }

  /** Reconciling the file registry (new handles from `n0` to `n1`) and then the directory registry
      (from `n1` to `n2`) keeps every live handle unique, handed out and not closed. */
  lemma ReconcileKeepsRegistriesValid(files: map<Path, WatcherId>, directories: map<Path, WatcherId>, n0: nat,
                                      closed: set<WatcherId>, files': map<Path, WatcherId>, targetFiles: set<Path>,
                                      closedFiles: set<WatcherId>, n1: nat, directories': map<Path, WatcherId>,
                                      targetDirectories: set<Path>, closedDirectories: set<WatcherId>, n2: nat)
    requires RegistriesValid(files, directories, n0, closed)
    requires Successor(files, files', targetFiles, closedFiles, n0, n1)
    requires Successor(directories, directories', targetDirectories, closedDirectories, n1, n2)
    requires n0 <= n1 <= n2
    ensures RegistriesValid(files', directories', n2, closed + closedFiles + closedDirectories)
  {
    forall c | c in closedFiles ensures c < n2 {
      StaleIdsBelow(files, targetFiles, n0, c);
    }
    forall c | c in closedDirectories ensures c < n2 {
      StaleIdsBelow(directories, targetDirectories, n0, c);
    }
    forall p | p in files' ensures files'[p] !in closedFiles && files'[p] !in closedDirectories {
      SurvivorNotClosed(files, files', targetFiles, closedFiles, n0, n1, directories, targetDirectories, p);
    }
    forall p | p in directories' ensures directories'[p] !in closedDirectories && directories'[p] !in closedFiles {
      SurvivorNotClosed(directories, directories', targetDirectories, closedDirectories, n0, n2, files, targetFiles, p);
    }
    SuccessorInjective(files, files', targetFiles, closedFiles, n0, n1);
    SuccessorInjective(directories, directories', targetDirectories, closedDirectories, n1, n2);
    SuccessorsDisjoint(files, directories, n0, files', targetFiles, closedFiles, n1,
                       directories', targetDirectories, closedDirectories, n2);
  }

  /** One `for (const watcher of watchers.values()) watcher.close()` loop: every handle in the
      registry is closed, each once. */
  method CloseAll(watchers: map<Path, WatcherId>) returns (closed: set<WatcherId>)
    ensures closed == watchers.Values
  {
    closed := {};
    var pending := watchers.Values;
    while pending != {}
      invariant pending <= watchers.Values
      invariant closed == watchers.Values - pending
      decreases pending
    {
      var watcher :| watcher in pending;
      closed := closed + {watcher};
      pending := pending - {watcher};
    }
  }

  /** One watch-mode session of the compile command. `cwd` stands for `process.cwd()`. */
  class WatchSession {
    const outdir: Path
    const cwd: Path
    const tracked: TrackedFs
    var fileWatchers: map<Path, WatcherId>
    var directoryWatchers: map<Path, WatcherId>
    var previousCompilation: Option<CompilationResult>
    /** The pending debounce timer and the path it will compile, if one is armed and has not fired. */
    var compileTimer: Option<Option<Path>>
    var compileInProgress: bool
    var compileRequested: bool
    /** `previouslyReadFiles` of the pass in flight. */
    var previouslyReadFiles: seq<Path>
    /** The next handle `fs.watch` hands out, and the handles closed so far. */
    var nextWatcherId: nat
    var closedWatchers: set<WatcherId>
    /** The watch targets the registries were last reconciled against. */
    ghost var watchedFiles: set<Path>
    ghost var watchedDirectories: set<Path>
    /** Every pass started, in order. */
    var passes: seq<CompilePass>

    /** The options `updateWatchers` passes to `getWatchTargets`. */
    function TargetOptions(): WatchTargetOptions {
      WatchTargetOptions(None, Some(outdir), None, None, None)
    }

    function WatchRules(): IgnoreRules {
      Rules(TargetOptions(), cwd)
    }

    /** The read set the watchers were last reconciled against: the snapshot while a pass is in
        flight, the read set otherwise. */
    ghost function ReconciledReads(): seq<Path>
      reads this, tracked.readFiles
    {
      if compileInProgress then previouslyReadFiles else tracked.readFiles.elems
    }

    /** A pass is only ever requested while one is in flight, and the state is consistent. */
    ghost predicate Valid()
      reads this, tracked.readFiles
    {
      && (compileRequested ==> compileInProgress)
      && Consistent()
    }

    /** The read sets are duplicate-free, handles are sound, and every registered watcher is on a
        target of the read set it was reconciled against. */
    ghost predicate Consistent()
      reads this, tracked.readFiles
    {
      && tracked.readFiles.Valid()
      && tracked.baseDir == cwd
      && NoDup(previouslyReadFiles)
      && RegistriesValid(fileWatchers, directoryWatchers, nextWatcherId, closedWatchers)
      && fileWatchers.Keys <= watchedFiles && directoryWatchers.Keys <= watchedDirectories
    }

    /** Lines 82-88: a fresh tracked file system, empty registries, no previous compilation, no
        timer, both flags false. */
    constructor (outdir: Path, cwd: Path)
      ensures Valid() && fresh(tracked) && fresh(tracked.readFiles)
      ensures this.outdir == outdir && this.cwd == cwd
      ensures fileWatchers == map[] && directoryWatchers == map[]
      ensures previousCompilation == None && compileTimer == None
      ensures !compileInProgress && !compileRequested
      ensures tracked.readFiles.elems == [] && passes == [] && closedWatchers == {}
    {
      this.outdir := outdir;
      this.cwd := cwd;
      tracked := new TrackedFs(TrackedFsOptions(None), cwd);
      fileWatchers, directoryWatchers := map[], map[];
      previousCompilation, compileTimer := None, None;
      compileInProgress, compileRequested := false, false;
      previouslyReadFiles := [];
      nextWatcherId, closedWatchers := 0, {};
      watchedFiles, watchedDirectories := {}, {};
      passes := [];
    }

    /** `updateWatchers(files)`; `watchOk(p)` is false when `fs.watch(p, ...)` throws. */
    method UpdateWatchers(files: seq<Path>, watchOk: Path -> bool)
      requires RegistriesValid(fileWatchers, directoryWatchers, nextWatcherId, closedWatchers)
      modifies this`fileWatchers, this`directoryWatchers, this`nextWatcherId, this`closedWatchers,
               this`watchedFiles, this`watchedDirectories
      ensures RegistriesValid(fileWatchers, directoryWatchers, nextWatcherId, closedWatchers)
      ensures watchedFiles == TargetFiles(Elements(files), WatchRules())
      ensures watchedDirectories == TargetDirectories(Elements(files), WatchRules(), true)
      ensures fileWatchers.Keys <= watchedFiles && directoryWatchers.Keys <= watchedDirectories
      ensures Reconciled(old(fileWatchers), fileWatchers, watchedFiles, watchOk, old(nextWatcherId))
      ensures Reconciled(old(directoryWatchers), directoryWatchers, watchedDirectories, watchOk, old(nextWatcherId))
      ensures closedWatchers == old(closedWatchers)
        + StaleIds(old(fileWatchers), watchedFiles) + StaleIds(old(directoryWatchers), watchedDirectories)
      ensures old(nextWatcherId) <= nextWatcherId
    {
      var targets := GetWatchTargets(files, TargetOptions(), cwd);
      var newFiles, closedFiles, afterFiles := ReconcileRegistry(fileWatchers, targets.files, watchOk, nextWatcherId);
      var newDirectories, closedDirectories, afterDirectories :=
        ReconcileRegistry(directoryWatchers, targets.directories, watchOk, afterFiles);
      var closed := closedWatchers + closedFiles + closedDirectories;
      ReconcileKeepsRegistriesValid(fileWatchers, directoryWatchers, nextWatcherId, closedWatchers,
                                    newFiles, Elements(targets.files), closedFiles, afterFiles,
                                    newDirectories, Elements(targets.directories), closedDirectories, afterDirectories);
      assert RegistriesValid(newFiles, newDirectories, afterDirectories, closed);
      fileWatchers, directoryWatchers := newFiles, newDirectories;
      closedWatchers := closed;
      nextWatcherId := afterDirectories;
      watchedFiles, watchedDirectories := Elements(targets.files), Elements(targets.directories);
    }

    /** The callback of a file watcher. */
    method OnFileChange(filePath: Path)
      requires filePath in fileWatchers
      modifies this`compileTimer
      ensures compileTimer == Some(Some(filePath))
    {
      ScheduleCompile(Some(filePath));
    }

    /** The callback of a directory watcher; `filename` is what the watch backend reports. The
        ignore predicate is the one `getWatchTargets` returns, which is the same for every pass. */
    method OnDirectoryChange(directoryPath: Path, filename: Option<string>)
      requires directoryPath in directoryWatchers
      modifies this`compileTimer
      ensures filename.None? || filename.value == "" ==> compileTimer == Some(Some(directoryPath))
      ensures filename.Some? && filename.value != "" ==>
        var changedPath := Resolve(directoryPath, filename.value);
        compileTimer == (if IsIgnoredPath(WatchRules(), changedPath) then old(compileTimer) else Some(Some(changedPath)))
    {
      if filename.None? || filename.value == "" {
        ScheduleCompile(Some(directoryPath));
        return;
      }
      var changedPath := Resolve(directoryPath, filename.value);
      if IsIgnoredPath(WatchRules(), changedPath) {
        return;
      }
      ScheduleCompile(Some(changedPath));
    }

    /** `scheduleCompile(changedPath)`: any pending timer is cancelled and one timer carrying only
        this path is armed. It does not look at `compileInProgress`. */
    method ScheduleCompile(changedPath: Option<Path>)
      modifies this`compileTimer
      ensures compileTimer == Some(changedPath)
    {
      compileTimer := Some(changedPath);
    }

    /** The armed timer fires after its quiet period and calls `runCompile` with its path. */
    method TimerFires()
      requires Valid() && compileTimer.Some?
      modifies this, tracked.readFiles
      ensures Valid() && compileTimer == None
      ensures old(compileInProgress) ==> Deferred()
      ensures !old(compileInProgress) ==> Began(old(compileTimer).value)
    {
      var changedPath := compileTimer.value;
      compileTimer := None;
      RunCompile(changedPath);
    }

    /** `runCompile` was called during a pass: it only asks for one more pass. */
    twostate predicate Deferred()
      reads this, tracked.readFiles
    {
      && compileRequested && compileInProgress
      && tracked.readFiles.elems == old(tracked.readFiles.elems)
      && previouslyReadFiles == old(previouslyReadFiles)
      && previousCompilation == old(previousCompilation)
      && fileWatchers == old(fileWatchers) && directoryWatchers == old(directoryWatchers)
      && closedWatchers == old(closedWatchers) && nextWatcherId == old(nextWatcherId)
      && passes == old(passes)
    }

    /** `runCompile(changedPath)` started a pass: the read set is snapshotted and cleared and the
        compiler is called, cleaning the output directory exactly when there is no previous
        compilation. */
    twostate predicate Began(changedPath: Option<Path>)
      reads this, tracked.readFiles
    {
      && compileInProgress && !compileRequested
      && previouslyReadFiles == old(tracked.readFiles.elems)
      && tracked.readFiles.elems == []
      && previousCompilation == old(previousCompilation)
      && fileWatchers == old(fileWatchers) && directoryWatchers == old(directoryWatchers)
      && closedWatchers == old(closedWatchers) && nextWatcherId == old(nextWatcherId)
      && passes == old(passes) +
           [CompilePass(changedPath, old(previousCompilation), old(previousCompilation).None?)]
    }

    /** `runCompile(changedPath)` up to the point where it awaits `compile`. */
    method RunCompile(changedPath: Option<Path>)
      requires Valid()
      modifies this`compileInProgress, this`compileRequested, this`previouslyReadFiles, this`passes,
               tracked.readFiles
      ensures Valid()
      ensures old(compileInProgress) ==> Deferred()
      ensures !old(compileInProgress) ==> Began(changedPath)
    {
      if compileInProgress {
        compileRequested := true;
        return;
      }
      compileInProgress := true;
      previouslyReadFiles := tracked.readFiles.elems;
      tracked.ClearReadFiles();
      passes := passes + [CompilePass(changedPath, previousCompilation, previousCompilation == None)];
    }

    /** The part of `runCompile` between `compile` settling and `finally`: the reads it made are
        recorded; on success the result is kept, on failure the read set is rebuilt from the
        snapshot and the previous compilation dropped. */
    method SettleReads(outcome: CompileOutcome, underlying: Path -> ReadResult)
      requires tracked.readFiles.Valid() && tracked.baseDir == cwd && NoDup(previouslyReadFiles)
      modifies this`previousCompilation, tracked.readFiles
      ensures tracked.readFiles.Valid()
      ensures previousCompilation == (if outcome.Succeeded? then Some(outcome.result) else None)
      ensures tracked.readFiles.elems ==
        (if outcome.Succeeded? then AfterReads(cwd, old(tracked.readFiles.elems), outcome.readPaths)
         else previouslyReadFiles)
    {
      PerformReads(tracked, outcome.readPaths, underlying);
      if outcome.Succeeded? {
        previousCompilation := Some(outcome.result);
      } else {
        RestoreReadFiles(tracked, previouslyReadFiles);
        previousCompilation := None;
      }
    }

    /** The first half of the `finally` of `runCompile`: the watchers are reconciled against the
        read set and the lock is released. */
    method ReleasePass(watchOk: Path -> bool)
      requires Valid() && compileInProgress
      modifies this`fileWatchers, this`directoryWatchers, this`nextWatcherId, this`closedWatchers,
               this`watchedFiles, this`watchedDirectories, this`compileInProgress
      ensures Consistent() && !compileInProgress
      ensures watchedFiles == TargetFiles(Elements(tracked.readFiles.elems), WatchRules())
      ensures watchedDirectories == TargetDirectories(Elements(tracked.readFiles.elems), WatchRules(), true)
      ensures Reconciled(old(fileWatchers), fileWatchers, watchedFiles, watchOk, old(nextWatcherId))
      ensures Reconciled(old(directoryWatchers), directoryWatchers, watchedDirectories, watchOk, old(nextWatcherId))
      ensures closedWatchers == old(closedWatchers)
        + StaleIds(old(fileWatchers), watchedFiles) + StaleIds(old(directoryWatchers), watchedDirectories)
    {
      UpdateWatchers(tracked.readFiles.elems, watchOk);
      compileInProgress := false;
    }

    /** The `finally` of `runCompile`: the watchers are reconciled against the read set, the lock is
        released, and if a pass was requested meanwhile the flag is cleared and one pass without a
        changed path starts. */
    method FinishPass(watchOk: Path -> bool)
      requires Valid() && compileInProgress
      modifies this`fileWatchers, this`directoryWatchers, this`nextWatcherId, this`closedWatchers,
               this`watchedFiles, this`watchedDirectories, this`compileInProgress, this`compileRequested,
               this`previouslyReadFiles, this`passes, tracked.readFiles
      ensures Valid() && !compileRequested
      ensures ReconciledReads() == old(tracked.readFiles.elems)
      ensures watchedFiles == TargetFiles(Elements(ReconciledReads()), WatchRules())
      ensures watchedDirectories == TargetDirectories(Elements(ReconciledReads()), WatchRules(), true)
      ensures Reconciled(old(fileWatchers), fileWatchers, watchedFiles, watchOk, old(nextWatcherId))
      ensures Reconciled(old(directoryWatchers), directoryWatchers, watchedDirectories, watchOk, old(nextWatcherId))
      ensures closedWatchers == old(closedWatchers)
        + StaleIds(old(fileWatchers), watchedFiles) + StaleIds(old(directoryWatchers), watchedDirectories)
      ensures compileInProgress == old(compileRequested)
      ensures old(compileRequested) ==>
        tracked.readFiles.elems == [] &&
        passes == old(passes) + [CompilePass(None, previousCompilation, previousCompilation.None?)]
      ensures !old(compileRequested) ==> passes == old(passes)
    {
      ReleasePass(watchOk);
      if compileRequested {
        compileRequested := false;
        RunCompile(None);
      }
    }

    /** The rest of `runCompile` once `compile` settles with `outcome`: on failure the read set is
        restored from the snapshot and the previous compilation dropped; in either case the
        watchers are reconciled against the read set, the lock is released, and one path-less pass
        follows if any was requested meanwhile. `underlying` is the real file system behind the
        tracked reads. */
    method CompletePass(outcome: CompileOutcome, watchOk: Path -> bool, underlying: Path -> ReadResult)
      requires Valid() && compileInProgress
      modifies this, tracked.readFiles
      ensures Valid() && !compileRequested && compileTimer == old(compileTimer)
      ensures previousCompilation == (if outcome.Succeeded? then Some(outcome.result) else None)
      ensures ReconciledReads() ==
        (if outcome.Succeeded? then AfterReads(cwd, old(tracked.readFiles.elems), outcome.readPaths)
         else old(previouslyReadFiles))
      ensures watchedFiles == TargetFiles(Elements(ReconciledReads()), WatchRules())
      ensures watchedDirectories == TargetDirectories(Elements(ReconciledReads()), WatchRules(), true)
      ensures Reconciled(old(fileWatchers), fileWatchers, watchedFiles, watchOk, old(nextWatcherId))
      ensures Reconciled(old(directoryWatchers), directoryWatchers, watchedDirectories, watchOk, old(nextWatcherId))
      ensures closedWatchers == old(closedWatchers)
        + StaleIds(old(fileWatchers), watchedFiles) + StaleIds(old(directoryWatchers), watchedDirectories)
      ensures compileInProgress == old(compileRequested)
      ensures old(compileRequested) ==>
        tracked.readFiles.elems == [] &&
        passes == old(passes) + [CompilePass(None, previousCompilation, previousCompilation.None?)]
      ensures !old(compileRequested) ==> passes == old(passes)
    {
      SettleReads(outcome, underlying);
      FinishPass(watchOk);
    }

    /** `closeWatchers`: every handle in both registries is closed and both are emptied. */
    method CloseWatchers()
      requires Valid()
      modifies this`fileWatchers, this`directoryWatchers, this`closedWatchers
      ensures Valid()
      ensures fileWatchers == map[] && directoryWatchers == map[]
      ensures closedWatchers == old(closedWatchers) + old(fileWatchers).Values + old(directoryWatchers).Values
    {
      var closedFiles := CloseAll(fileWatchers);
      var closedDirectories := CloseAll(directoryWatchers);
      closedWatchers := closedWatchers + closedFiles + closedDirectories;
      fileWatchers, directoryWatchers := map[], map[];
    }
  }

  // ---------------------------------------------------------------------------------------------
  // Sessions of the driver

  /** Two changes inside one quiet period start one pass, which reports the later path; the first
      pass of a session cleans the output directory. */
  method DebounceScenario(outdir: Path, cwd: Path, first: Path, second: Path) returns (passes: seq<CompilePass>)
    ensures passes == [CompilePass(Some(second), None, true)]
  {
    var session := new WatchSession(outdir, cwd);
    session.ScheduleCompile(Some(first));
    session.ScheduleCompile(Some(second));
    session.TimerFires();
    passes := session.passes;
  }

  /** Changes that arrive while a pass is in flight, each through its quiet-period timer, start
      no pass of their own: once it settles, one follow-up pass runs without a changed path,
      hands on the new result and does not clean. */
  method CoalescingScenario(outdir: Path, cwd: Path, first: Path, second: Path, result: CompilationResult,
                            watchOk: Path -> bool, underlying: Path -> ReadResult)
    returns (passes: seq<CompilePass>)
    ensures passes == [CompilePass(None, None, true), CompilePass(None, Some(result), false)]
  {
    var session := new WatchSession(outdir, cwd);
    session.RunCompile(None);
    session.ScheduleCompile(Some(first));
    session.TimerFires();
    session.ScheduleCompile(Some(second));
    session.TimerFires();
    session.CompletePass(Succeeded([], result), watchOk, underlying);
    passes := session.passes;
  }

  /** A session whose first pass succeeded after reading `good`. */
  method GoodPass(outdir: Path, cwd: Path, good: Path, result: CompilationResult,
                  watchOk: Path -> bool, underlying: Path -> ReadResult)
    returns (session: WatchSession)
    ensures fresh(session) && fresh(session.tracked) && fresh(session.tracked.readFiles)
    ensures session.Valid() && !session.compileInProgress && session.cwd == cwd
    ensures session.tracked.readFiles.elems == [TrackedPath(cwd, good)]
    ensures session.previousCompilation == Some(result)
    ensures session.passes == [CompilePass(None, None, true)]
  {
    session := new WatchSession(outdir, cwd);
    session.RunCompile(None);
    session.CompletePass(Succeeded([good], result), watchOk, underlying);
    assert [good][..0] == [];
  }

  /** A failed pass leaves the read set of the last good pass in place and drops the previous
      compilation, so the pass after it cleans the output directory again. */
  method RollbackScenario(outdir: Path, cwd: Path, good: Path, bad: Path, result: CompilationResult,
                          watchOk: Path -> bool, underlying: Path -> ReadResult)
    returns (readFiles: seq<Path>, passes: seq<CompilePass>)
    ensures readFiles == [TrackedPath(cwd, good)]
    ensures passes == [CompilePass(None, None, true), CompilePass(Some(bad), Some(result), false),
                       CompilePass(None, None, true)]
  {
    var session := GoodPass(outdir, cwd, good, result, watchOk, underlying);
    session.RunCompile(Some(bad));
    session.CompletePass(Failed([bad]), watchOk, underlying);
    readFiles := session.tracked.readFiles.elems;
    session.RunCompile(None);
    passes := session.passes;
  }
}
