/**
  The records that flow through the import checker: one occurrence of an
  import statement, and the reasons a module can fail to resolve.
 */
module ImportRecords {
  import opened Wrappers

  /**
    Why a module failed to resolve. Every case but `ImportFailed` stands for
    a translated message, which is never empty; `ImportFailed` carries the
    last line of the child interpreter's stderr verbatim.
   */
  datatype ResolveError =
    | InvalidModuleName(name: string)
    | ModuleNotFound(name: string)
    | FindSpecFailed(reason: string)
    | ImportFailed(stderrLine: string)
    | ImportTimeout(seconds: int)
    | FailedToExecute(reason: string)
    | UnexpectedError(reason: string)

  /** `if error:` on a resolver's result: an error that is present and not the empty string. */
  predicate Truthy(error: Option<ResolveError>) {
    error.Some? && !(error.value.ImportFailed? && error.value.stderrLine == "")
  }

  datatype ImportKind = Absolute | Relative

  /**
    One import occurrence: the module it names, its line, the statement as
    reconstructed for reports, the file, its kind, and for a relative
    import its level (the number of leading dots).
   */
  datatype ImportEntry = ImportEntry(
    moduleName: string,
    line: nat,
    statement: string,
    file: string,
    kind: ImportKind,
    level: Option<nat>)

  /**
    An occurrence as the resolution coordinator holds it: the entry, shared
    by reference, and the `error` key it may gain.
   */
  class ImportInfo {
    const entry: ImportEntry
    var error: Option<ResolveError>

    constructor (entry: ImportEntry)
      ensures this.entry == entry
      ensures error.None?
    {
      this.entry := entry;
      error := None;
    }

    function Module(): string
    {
      entry.moduleName
    }
  }
}
