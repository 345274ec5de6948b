/** src/services/file-watching/tracked-fs.ts: a file system wrapper that records every path read
    through it, and the rules that turn the recorded paths into watch targets. */
module FileWatching {
  import opened Wrappers
  import opened Strings
  import opened Paths

  // ---------------------------------------------------------------------------------------------
  // JavaScript `Set<string>`: distinct elements in insertion order.

  predicate NoDup(s: seq<Path>) {
    forall i, j :: 0 <= i < j < |s| ==> s[i] != s[j]
  }

  function Elements(s: seq<Path>): set<Path> {
    set x | x in s
  }

  /** `set.add(x)`: appends `x` unless it is already present. */
  function Insert(s: seq<Path>, x: Path): (r: seq<Path>)
    ensures Elements(r) == Elements(s) + {x}
    ensures NoDup(s) ==> NoDup(r)
    ensures x in s ==> r == s
    ensures x !in s ==> r == s + [x]
  {
    if x in s then s else s + [x]
  }

  /** The `readFiles` set object shared by the tracked file system and its users. */
  class PathSet {
    var elems: seq<Path>

    ghost predicate Valid()
      reads this
    {
      NoDup(elems)
    }

    constructor ()
      ensures Valid() && elems == []
    {
      elems := [];
    }

    method Add(p: Path)
      requires Valid()
      modifies this
      ensures Valid() && elems == Insert(old(elems), p)
    {
      elems := Insert(elems, p);
    }

    method Clear()
      modifies this
      ensures Valid() && elems == []
    {
      elems := [];
    }
  }

  // ---------------------------------------------------------------------------------------------
  // isPathWithinDirectories

  /** The early-return loop over `directories`: true at the first directory that the normalised
      path equals or lies below at a "/" boundary. */
  function IsPathWithinDirectories(path: Path, directories: seq<Path>): (r: bool)
    ensures r <==> exists i :: 0 <= i < |directories| && WithinDirectory(Normalize(path), Normalize(directories[i]))
  {
    if directories == [] then false
    else if WithinDirectory(Normalize(path), Normalize(directories[0])) then true
    else
      var rest := IsPathWithinDirectories(path, directories[1..]);
      assert forall i :: 1 <= i < |directories| ==> directories[i] == directories[1..][i - 1];
      rest
  }

  /** The source's loop: each directory is normalised and compared in turn, and the first one
      that contains the path ends the loop. */
  method PathWithinDirectories(path: Path, directories: seq<Path>) returns (r: bool)
    ensures r <==> exists i :: 0 <= i < |directories| && WithinDirectory(Normalize(path), Normalize(directories[i]))
  {
    var normalizedPath := Normalize(path);
    for k := 0 to |directories|
      invariant forall i :: 0 <= i < k ==> !WithinDirectory(normalizedPath, Normalize(directories[i]))
    {
      var normalizedDirectory := Normalize(directories[k]);
      if WithinDirectory(normalizedPath, normalizedDirectory) {
        return true;
      }
    }
    return false;
  }

  /** For paths already in normal form the test is the plain boundary-qualified prefix test. */
  lemma WithinDirectoriesNormalized(path: Path, directories: seq<Path>)
    requires '\\' !in path && forall i :: 0 <= i < |directories| ==> '\\' !in directories[i]
    ensures IsPathWithinDirectories(path, directories) <==>
      exists i :: 0 <= i < |directories| && WithinDirectory(path, directories[i])
  {
    forall i | 0 <= i < |directories|
      ensures WithinDirectory(Normalize(path), Normalize(directories[i])) == WithinDirectory(path, directories[i])
    {
      WithinNormalized(path, directories[i]);
    }
  }

  /** The first path of the test "isPathWithinDirectories matches nested paths". */
  lemma NestedPathIsWithin(nested: Path, dirs: seq<Path>)
    requires nested == "/project/messages/nested/file.json"
    requires dirs == ["/project/messages", "/project/other"]
    ensures IsPathWithinDirectories(nested, dirs)
  {
    var messages := dirs[0];
    assert StartsWith(nested, messages + "/") by {
      assert nested[..|messages + "/"|] == messages + "/";
    }
    WithinNormalized(nested, messages);
  }

  /** The second path of the same test. */
  lemma UnknownPathIsNotWithin(unknown: Path, dirs: seq<Path>)
    requires unknown == "/project/unknown/file.json"
    requires dirs == ["/project/messages", "/project/other"]
    ensures !IsPathWithinDirectories(unknown, dirs)
  {
    var messages, other := dirs[0], dirs[1];
    assert !WithinDirectory(Normalize(unknown), Normalize(messages)) by {
      DifferentNameIsNotWithin(unknown, messages, 9);
      WithinNormalized(unknown, messages);
    }
    assert !IsPathWithinDirectories(unknown, [other]) by {
      DifferentNameIsNotWithin(unknown, other, 9);
      WithinNormalized(unknown, other);
      assert [other][1..] == [];
    }
    assert dirs[1..] == [other];
  }

  /** A directory that only shares a string prefix does not contain the path. */
  lemma SiblingPrefixIsNotWithin(p: Path, d: Path)
    requires p == "/project/other2/x" && d == "/project/other"
    ensures !IsPathWithinDirectories(p, [d])
  {
    assert p[..|d|] == d && p[|d|] == '2';
    SiblingIsNotWithin(d, p);
    WithinNormalized(p, d);
    assert [d][0] == d;
  }

  // ---------------------------------------------------------------------------------------------
  // getWatchTargets

  datatype WatchTargetOptions = WatchTargetOptions(
    baseDir: Option<Path>,
    outdir: Option<Path>,
    ignoreCache: Option<bool>,
    includeDirectories: Option<bool>,
    ignorePath: Option<Path -> bool>)

  /** The ignore rules once the options' defaults are applied (`cwd` stands for `process.cwd()`). */
  datatype IgnoreRules = IgnoreRules(ignoreCache: bool, outdirPath: Option<Path>, ignorePath: Option<Path -> bool>)

  /** The resolved output directory; an absent or empty `outdir` is falsy and gives none. */
  function OutdirPath(options: WatchTargetOptions, cwd: Path): (r: Option<Path>)
    ensures r.Some? <==> options.outdir.Some? && options.outdir.value != ""
    ensures r.Some? ==> r.value != "" && '\\' !in r.value
  {
    if options.outdir.Some? && options.outdir.value != "" then
      Some(Normalize(Resolve(options.baseDir.GetOr(cwd), options.outdir.value)))
    else None
  }

  /** The defaults: `ignoreCache` is on unless turned off; `baseDir` defaults to `cwd`. */
  function Rules(options: WatchTargetOptions, cwd: Path): (rules: IgnoreRules)
    ensures rules.ignoreCache <==> options.ignoreCache != Some(false)
    ensures rules.outdirPath == OutdirPath(options, cwd) && rules.ignorePath == options.ignorePath
  {
    IgnoreRules(options.ignoreCache.GetOr(true), OutdirPath(options, cwd), options.ignorePath)
  }

  /** `isIgnoredPath`. A resolved outdir is never the empty string, so `outdirPath &&` is the
      presence test. */
  predicate IsIgnoredPath(rules: IgnoreRules, path: Path)
    ensures rules.ignoreCache && Includes(Normalize(path), "cache") ==> IsIgnoredPath(rules, path)
    ensures IsIgnoredPath(rules, path) ==>
      (rules.ignoreCache && Includes(Normalize(path), "cache")) || rules.outdirPath.Some? || rules.ignorePath.Some?
  {
    var normalizedPath := Normalize(path);
    if rules.ignoreCache && Includes(normalizedPath, "cache") then true
    else if rules.outdirPath.Some? && WithinDirectory(normalizedPath, rules.outdirPath.value) then true
    else if rules.ignorePath.Some? then rules.ignorePath.value(normalizedPath)
    else false
  }

  datatype WatchTargets = WatchTargets(files: seq<Path>, directories: seq<Path>, isIgnoredPath: Path -> bool)

  /** The watched files for a set of recorded paths: the normalised paths that are not ignored. */
  ghost function TargetFiles(files: set<Path>, rules: IgnoreRules): set<Path> {
    set f | f in files && !IsIgnoredPath(rules, Normalize(f)) :: Normalize(f)
  }

  /** The watched directories: the parent of each watched file, unless that parent is ignored. */
  ghost function TargetDirectories(files: set<Path>, rules: IgnoreRules, includeDirectories: bool): set<Path> {
    if !includeDirectories then {}
    else
      set f | f in files && !IsIgnoredPath(rules, Normalize(f)) && !IsIgnoredPath(rules, Dirname(Normalize(f)))
        :: Dirname(Normalize(f))
  }

  lemma TargetsAddOne(files: set<Path>, x: Path, rules: IgnoreRules, includeDirectories: bool)
    ensures TargetFiles(files + {x}, rules) ==
      TargetFiles(files, rules) + (if IsIgnoredPath(rules, Normalize(x)) then {} else {Normalize(x)})
    ensures TargetDirectories(files + {x}, rules, includeDirectories) ==
      TargetDirectories(files, rules, includeDirectories) +
      (if !includeDirectories || IsIgnoredPath(rules, Normalize(x)) || IsIgnoredPath(rules, Dirname(Normalize(x)))
       then {} else {Dirname(Normalize(x))})
  {
  }

  /** `getWatchTargets(files, options)`; `cwd` stands for `process.cwd()`. */
  method GetWatchTargets(files: seq<Path>, options: WatchTargetOptions, cwd: Path) returns (t: WatchTargets)
    ensures NoDup(t.files) && NoDup(t.directories)
    ensures Elements(t.files) == TargetFiles(Elements(files), Rules(options, cwd))
    ensures Elements(t.directories) ==
      TargetDirectories(Elements(files), Rules(options, cwd), options.includeDirectories.GetOr(true))
    ensures forall p :: t.isIgnoredPath(p) == IsIgnoredPath(Rules(options, cwd), p)
  {
    var rules := Rules(options, cwd);
    var includeDirectories := options.includeDirectories.GetOr(true);
    var nextFiles: seq<Path> := [];
    var nextDirectories: seq<Path> := [];
    for i := 0 to |files|
      invariant NoDup(nextFiles) && NoDup(nextDirectories)
      invariant Elements(nextFiles) == TargetFiles(Elements(files[..i]), rules)
      invariant Elements(nextDirectories) == TargetDirectories(Elements(files[..i]), rules, includeDirectories)
    {
      assert Elements(files[..i + 1]) == Elements(files[..i]) + {files[i]} by {
        assert files[..i + 1] == files[..i] + [files[i]];
      }
      TargetsAddOne(Elements(files[..i]), files[i], rules, includeDirectories);
      var normalizedPath := Normalize(files[i]);
      if IsIgnoredPath(rules, normalizedPath) {
        continue;
      }
      nextFiles := Insert(nextFiles, normalizedPath);
      if includeDirectories {
        var directoryPath := Dirname(normalizedPath);
        if !IsIgnoredPath(rules, directoryPath) {
          nextDirectories := Insert(nextDirectories, directoryPath);
        }
      }
    }
    assert files[..|files|] == files;
    t := WatchTargets(nextFiles, nextDirectories, p => IsIgnoredPath(rules, p));
  }

  // ---------------------------------------------------------------------------------------------
  // What the ignore rules promise

  /** With `ignoreCache`, a normalised path containing "cache" is ignored. */
  lemma CachePathsIgnored(rules: IgnoreRules, path: Path)
    requires rules.ignoreCache && Contains(Normalize(path), "cache")
    ensures IsIgnoredPath(rules, path)
  {
  }

  /** Without `ignoreCache`, "cache" plays no part: such a path is kept unless the outdir rule or
      the predicate rejects it. */
  lemma CachePathsKeptWithoutIgnoreCache(rules: IgnoreRules, path: Path)
    requires !rules.ignoreCache
    requires rules.outdirPath.None? || !WithinDirectory(Normalize(path), rules.outdirPath.value)
    requires rules.ignorePath.None? || !rules.ignorePath.value(Normalize(path))
    ensures !IsIgnoredPath(rules, path)
  {
  }

  /** The output directory and everything below it at a "/" boundary are ignored. */
  lemma OutdirIgnored(rules: IgnoreRules, path: Path)
    requires rules.outdirPath.Some? && WithinDirectory(Normalize(path), rules.outdirPath.value)
    ensures IsIgnoredPath(rules, path)
  {
  }

  /** With no outdir option the outdir rule never fires. */
  lemma NoOutdirRuleWithoutOutdir(options: WatchTargetOptions, cwd: Path, path: Path)
    requires options.outdir.None?
    ensures IsIgnoredPath(Rules(options, cwd), path) <==>
      (options.ignoreCache.GetOr(true) && Contains(Normalize(path), "cache")) ||
      (options.ignorePath.Some? && options.ignorePath.value(Normalize(path)))
  {
  }

  /** `ignorePath` sees the normalised path and is consulted only when neither the cache rule nor
      the outdir rule has already ignored it: replacing the predicate changes nothing then. */
  lemma IgnorePathConsultedLast(rules: IgnoreRules, path: Path, other: Option<Path -> bool>)
    ensures (rules.ignoreCache && Contains(Normalize(path), "cache")) ||
            (rules.outdirPath.Some? && WithinDirectory(Normalize(path), rules.outdirPath.value))
      ==> IsIgnoredPath(rules.(ignorePath := other), path) && IsIgnoredPath(rules, path)
    ensures !(rules.ignoreCache && Contains(Normalize(path), "cache")) &&
            !(rules.outdirPath.Some? && WithinDirectory(Normalize(path), rules.outdirPath.value))
      ==> (IsIgnoredPath(rules, path) <==> rules.ignorePath.Some? && rules.ignorePath.value(Normalize(path)))
  {
  }

  /** A trailing separator on `outdir` resolves to the same output directory. */
  lemma OutdirTrailingSeparator(options: WatchTargetOptions, cwd: Path)
    requires options.outdir.Some? && options.outdir.value != ""
    ensures OutdirPath(options.(outdir := Some(options.outdir.value + "/")), cwd) == OutdirPath(options, cwd)
  {
    ResolveIgnoresTrailingSeparator(options.baseDir.GetOr(cwd), options.outdir.value);
  }

  /** Every watched file is normalised, not ignored and not under the output directory. */
  lemma TargetFilesAreKept(files: set<Path>, rules: IgnoreRules)
    ensures forall f :: f in TargetFiles(files, rules) ==>
      Normalize(f) == f && !IsIgnoredPath(rules, f) &&
      (rules.outdirPath.Some? ==> !WithinDirectory(f, rules.outdirPath.value))
  {
    forall f | f in TargetFiles(files, rules)
      ensures Normalize(f) == f && !IsIgnoredPath(rules, f)
    {
      var x :| x in files && !IsIgnoredPath(rules, Normalize(x)) && f == Normalize(x);
      NormalizeIdempotent(x);
    }
  }

  /** A recorded path is watched exactly when its normalised form is not ignored. */
  lemma TargetFilesMembership(files: set<Path>, rules: IgnoreRules, x: Path)
    requires x in files
    ensures Normalize(x) in TargetFiles(files, rules) <==> !IsIgnoredPath(rules, Normalize(x))
  {
    if Normalize(x) in TargetFiles(files, rules) {
      var y :| y in files && !IsIgnoredPath(rules, Normalize(y)) && Normalize(x) == Normalize(y);
    }
  }

  /** Every watched directory is the parent of a watched file and is itself not ignored; none are
      produced when `includeDirectories` is false. */
  lemma TargetDirectoriesAreParents(files: set<Path>, rules: IgnoreRules, includeDirectories: bool)
    ensures !includeDirectories ==> TargetDirectories(files, rules, includeDirectories) == {}
    ensures forall d :: d in TargetDirectories(files, rules, includeDirectories) ==>
      !IsIgnoredPath(rules, d) && exists f :: f in TargetFiles(files, rules) && d == Dirname(f)
  {
    forall d | d in TargetDirectories(files, rules, includeDirectories)
      ensures !IsIgnoredPath(rules, d) && exists f :: f in TargetFiles(files, rules) && d == Dirname(f)
    {
      var x :| x in files && !IsIgnoredPath(rules, Normalize(x)) && !IsIgnoredPath(rules, Dirname(Normalize(x)))
        && d == Dirname(Normalize(x));
      assert Normalize(x) in TargetFiles(files, rules);
    }
  }

  /** The outdir of the test "getWatchTargets ignores outdir and descendants". */
  lemma ExampleOutdir(options: WatchTargetOptions, cwd: Path)
    requires options == WatchTargetOptions(Some("/project"), Some("src/paraglide"), None, None, None)
    ensures Rules(options, cwd).outdirPath == Some("/project/src/paraglide")
  {
    var outdir := "/project/src/paraglide";
    assert Resolve("/project", "src/paraglide") == outdir by {
      assert "/project" + "/" + "src/paraglide" == outdir;
    }
    NormalizeUnchanged(outdir);
  }

  /** The test "getWatchTargets ignores outdir and descendants". */
  lemma OutdirExample(options: WatchTargetOptions, cwd: Path, generated: Path)
    requires options == WatchTargetOptions(Some("/project"), Some("src/paraglide"), None, None, None)
    requires generated == "/project/src/paraglide/index.js"
    ensures Rules(options, cwd).outdirPath == Some("/project/src/paraglide")
    ensures IsIgnoredPath(Rules(options, cwd), generated)
  {
    ExampleOutdir(options, cwd);
    var outdir := "/project/src/paraglide";
    assert generated == outdir + "/" + "index.js";
    NormalizeUnchanged(generated);
    assert generated[..|outdir + "/"|] == outdir + "/";
  }

  // ---------------------------------------------------------------------------------------------
  // createTrackedFs

  datatype TrackedFsOptions = TrackedFsOptions(baseDir: Option<Path>)

  /** What the underlying file system returns for one read. */
  datatype ReadResult = Contents(data: seq<bv8>) | ReadError(code: string)

  /** An absolute path without backslashes is recorded as itself, less trailing "/". */
  lemma AbsoluteReadRecordedAsIs(baseDir: Path, p: Path)
    ensures |p| > 0 && p[0] == '/' && '\\' !in p ==> Normalize(Resolve(baseDir, p)) == StripTrailingSeparators(p)
  {
    if |p| > 0 && p[0] == '/' && '\\' !in p {
      var stripped := StripTrailingSeparators(p);
      assert forall i :: 0 <= i < |stripped| ==> stripped[i] == p[i];
      NormalizeUnchanged(stripped);
    }
  }

  /** The path recorded for a read of `p` relative to `baseDir`. */
  function TrackedPath(baseDir: Path, p: Path): (r: Path)
    ensures '\\' !in r
    ensures p != "" ==> r != ""
    ensures |p| > 0 && p[0] == '/' && '\\' !in p ==> r == StripTrailingSeparators(p)
  {
    AbsoluteReadRecordedAsIs(baseDir, p);
    Normalize(Resolve(baseDir, p))
  }

  /** The recorded set after a run of tracked reads of `paths`, in order, starting from `start`. */
  ghost function AfterReads(baseDir: Path, start: seq<Path>, paths: seq<Path>): seq<Path>
    decreases |paths|
  {
    if paths == [] then start
    else Insert(AfterReads(baseDir, start, paths[..|paths| - 1]), TrackedPath(baseDir, paths[|paths| - 1]))
  }

  /** The recorded form of each path in `paths`. */
  ghost function RecordedPaths(baseDir: Path, paths: set<Path>): set<Path> {
    set p | p in paths :: TrackedPath(baseDir, p)
  }

  lemma RecordedPathsAddOne(baseDir: Path, paths: seq<Path>, x: Path)
    ensures RecordedPaths(baseDir, Elements(paths + [x])) == RecordedPaths(baseDir, Elements(paths)) + {TrackedPath(baseDir, x)}
  {
    assert Elements(paths + [x]) == Elements(paths) + {x};
  }

  /** A run of reads adds exactly the recorded form of each path read and keeps the set free of
      repetitions, so a repeated read does not grow it. */
  lemma {:induction false} AfterReadsElements(baseDir: Path, start: seq<Path>, paths: seq<Path>)
    ensures Elements(AfterReads(baseDir, start, paths)) == Elements(start) + RecordedPaths(baseDir, Elements(paths))
    ensures NoDup(start) ==> NoDup(AfterReads(baseDir, start, paths))
    decreases |paths|
  {
    if paths == [] {
      assert Elements(paths) == {};
    } else {
      var init := paths[..|paths| - 1];
      AfterReadsElements(baseDir, start, init);
      assert paths == init + [paths[|paths| - 1]];
      RecordedPathsAddOne(baseDir, init, paths[|paths| - 1]);
    }
  }

  /** Reads after a clear record nothing but the paths read, and record something exactly when
      something was read. */
  lemma ReadsAfterClear(baseDir: Path, paths: seq<Path>)
    ensures Elements(AfterReads(baseDir, [], paths)) == RecordedPaths(baseDir, Elements(paths))
    ensures AfterReads(baseDir, [], paths) == [] <==> paths == []
  {
    AfterReadsElements(baseDir, [], paths);
    assert Elements([]) == {};
    if paths != [] {
      assert paths[0] in Elements(paths);
      assert TrackedPath(baseDir, paths[0]) in Elements(AfterReads(baseDir, [], paths));
    }
  }

  /** Between two clears the recorded set depends only on which paths were read, not on the order
      of the reads or how often each path was read. */
  lemma ReadsBetweenClears(baseDir: Path, paths: seq<Path>, others: seq<Path>)
    requires Elements(paths) == Elements(others)
    ensures Elements(AfterReads(baseDir, [], paths)) == Elements(AfterReads(baseDir, [], others))
  {
    ReadsAfterClear(baseDir, paths);
    ReadsAfterClear(baseDir, others);
  }

  /** The wrapped file system: each of the three read calls records the resolved, normalised path
      before it delegates, and returns what the underlying call returns. */
  class TrackedFs {
    const baseDir: Path
    const readFiles: PathSet

    /** `createTrackedFs(options)`; `cwd` stands for `process.cwd()`. */
    constructor (options: TrackedFsOptions, cwd: Path)
      ensures baseDir == options.baseDir.GetOr(cwd)
      ensures fresh(readFiles) && readFiles.Valid() && readFiles.elems == []
    {
      baseDir := options.baseDir.GetOr(cwd);
      readFiles := new PathSet();
    }

    method TrackRead(path: Path)
      requires readFiles.Valid()
      modifies readFiles
      ensures readFiles.Valid() && readFiles.elems == Insert(old(readFiles.elems), TrackedPath(baseDir, path))
    {
      readFiles.Add(Normalize(Resolve(baseDir, path)));
    }

    /** `fs.readFile(path, options, callback)`: `r` is what the callback receives. */
    method ReadFile(path: Path, underlying: Path -> ReadResult) returns (r: ReadResult)
      requires readFiles.Valid()
      modifies readFiles
      ensures readFiles.Valid() && readFiles.elems == Insert(old(readFiles.elems), TrackedPath(baseDir, path))
      ensures r == underlying(path)
    {
      TrackRead(path);
      r := underlying(path);
    }

    /** `fs.readFileSync(path, options)`. */
    method ReadFileSync(path: Path, underlying: Path -> ReadResult) returns (r: ReadResult)
      requires readFiles.Valid()
      modifies readFiles
      ensures readFiles.Valid() && readFiles.elems == Insert(old(readFiles.elems), TrackedPath(baseDir, path))
      ensures r == underlying(path)
    {
      TrackRead(path);
      r := underlying(path);
    }

    /** `fs.promises.readFile(path, options)`: `r` is what the promise settles with. */
    method PromisesReadFile(path: Path, underlying: Path -> ReadResult) returns (r: ReadResult)
      requires readFiles.Valid()
      modifies readFiles
      ensures readFiles.Valid() && readFiles.elems == Insert(old(readFiles.elems), TrackedPath(baseDir, path))
      ensures r == underlying(path)
    {
      TrackRead(path);
      r := underlying(path);
    }

    method ClearReadFiles()
      modifies readFiles
      ensures readFiles.Valid() && readFiles.elems == []
    {
      readFiles.Clear();
    }
  }

  /** The reads an external compile issues through the tracked file system, in order. */
  method PerformReads(fs: TrackedFs, paths: seq<Path>, underlying: Path -> ReadResult)
    requires fs.readFiles.Valid()
    modifies fs.readFiles
    ensures fs.readFiles.Valid() && fs.readFiles.elems == AfterReads(fs.baseDir, old(fs.readFiles.elems), paths)
  {
    for i := 0 to |paths|
      invariant fs.readFiles.Valid()
      invariant fs.readFiles.elems == AfterReads(fs.baseDir, old(fs.readFiles.elems), paths[..i])
    {
      assert paths[..i + 1][..i] == paths[..i];
      var _ := fs.ReadFileSync(paths[i], underlying);
    }
    assert paths[..|paths|] == paths;
  }

  /** The rollback loop both drivers run when a compile fails: clear the read set, then add the
      snapshot back path by path, so the read set is exactly the snapshot again. */
  method RestoreReadFiles(fs: TrackedFs, snapshot: seq<Path>)
    requires NoDup(snapshot)
    modifies fs.readFiles
    ensures fs.readFiles.Valid() && fs.readFiles.elems == snapshot
  {
    fs.ClearReadFiles();
    for i := 0 to |snapshot|
      invariant fs.readFiles.Valid()
      invariant fs.readFiles.elems == snapshot[..i]
    {
      assert snapshot[i] !in snapshot[..i];
      assert snapshot[..i + 1] == snapshot[..i] + [snapshot[i]];
      fs.readFiles.Add(snapshot[i]);
    }
    assert snapshot[..|snapshot|] == snapshot;
  }
}
