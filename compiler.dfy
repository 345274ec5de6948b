/** The external `compile` call, seen from the drivers that call it: it is opaque, reads some
    files through the file system it is handed, and either returns a result or throws. */
module Compiler {
  import opened Paths

  /** The opaque value `compile` returns; it is handed back on the next call. */
  datatype CompilationResult = CompilationResult(id: nat)

  /** How one `compile` call settles: the paths it read through the tracked file system, then
      success with a result, or a thrown error. */
  datatype CompileOutcome = Succeeded(readPaths: seq<Path>, result: CompilationResult) | Failed(readPaths: seq<Path>)
}
