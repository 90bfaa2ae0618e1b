/**
  Import extraction: the syntax tree of one file is walked in source order
  and every `import` / `from … import` statement becomes an occurrence
  record, absolute or relative. Parsing and file reading are oracles.
 */
module ImportExtraction {
  import opened Wrappers
  import opened Strings
  import opened Paths
  import opened Utils
  import opened ImportRecords
  import opened CompletionOrder

  /**
    The parts of a Python syntax tree extraction looks at: `import a, b`,
    `from [dots]m import x, y`, and any other node with its children in
    field order.
   */
  datatype Node =
    | Import(names: seq<string>, line: nat)
    | ImportFrom(moduleName: Option<string>, names: seq<string>, level: nat, line: nat)
    | Other(children: seq<Node>)

  /** The absolute and the relative occurrences found, each in visiting order. */
  datatype Extracted = Extracted(absolute: seq<ImportEntry>, relative: seq<ImportEntry>)
  {
    function Then(later: Extracted): Extracted
    {
      Extracted(absolute + later.absolute, relative + later.relative)
    }
  }

  const Nothing: Extracted := Extracted([], [])

  lemma ThenAssociates(a: Extracted, b: Extracted, c: Extracted)
    ensures a.Then(b).Then(c) == a.Then(b.Then(c))
  {
    assert a.absolute + b.absolute + c.absolute == a.absolute + (b.absolute + c.absolute);
    assert a.relative + b.relative + c.relative == a.relative + (b.relative + c.relative);
  }

  /** `node.module` used as a truth value: present and non-empty. */
  predicate HasModule(m: Option<string>) {
    m.Some? && m.value != ""
  }

  /** `node.module or default`. */
  function ModuleOr(m: Option<string>, default: string): string
  {
    if HasModule(m) then m.value else default
  }

  /** The statement reported for a from-import: "from " + level dots + module + " import " + the names joined by ", ". */
  function FromStatement(m: Option<string>, names: seq<string>, level: nat): string
  {
    "from " + Repeat('.', level) + ModuleOr(m, "") + " import " + Join(names, ", ")
  }

  /** The occurrences `visit_Import` appends: one absolute entry per alias. */
  function ImportEntries(names: seq<string>, line: nat, file: string): seq<ImportEntry>
  {
    seq(|names|, i requires 0 <= i < |names| => ImportEntry(names[i], line, "import " + names[i], file, Absolute, None))
  }

  /** The occurrences `visit_ImportFrom` appends. */
  function FromEntries(m: Option<string>, names: seq<string>, level: nat, line: nat, file: string): (r: Extracted)
    ensures |r.relative| == (if level > 0 then 1 else 0)
    ensures |r.absolute| == (if level == 0 && HasModule(m) then 1 else 0)
    ensures level > 0 ==>
              r.relative[0] == ImportEntry(ModuleOr(m, "."), line, FromStatement(m, names, level), file, Relative, Some(level))
    ensures level == 0 && HasModule(m) ==>
              r.absolute[0] == ImportEntry(m.value, line, "from " + m.value + " import " + Join(names, ", "), file, Absolute, None)
  {
    if level > 0 then
      Extracted([], [ImportEntry(ModuleOr(m, "."), line, FromStatement(m, names, level), file, Relative, Some(level))])
    else if HasModule(m) then
      Extracted([ImportEntry(m.value, line, FromStatement(m, names, 0), file, Absolute, None)], [])
    else Nothing
  }

  /** What the visitor collects from a subtree, in pre-order. */
  function ExtractNode(n: Node, file: string): Extracted
    decreases n, 1
  {
    match n
    case Import(names, line) => Extracted(ImportEntries(names, line, file), [])
    case ImportFrom(m, names, level, line) => FromEntries(m, names, level, line, file)
    case Other(children) => ExtractNodes(children, file)
  }

  function ExtractNodes(ns: seq<Node>, file: string): Extracted
    decreases ns, 0
  {
    if ns == [] then Nothing
    else ExtractNode(ns[0], file).Then(ExtractNodes(ns[1..], file))
  }

  /** An absolute entry: tagged absolute, without a level, its statement an `import` or a level-0 `from`. */
  predicate AbsoluteEntry(e: ImportEntry, file: string) {
    e.file == file && e.kind == Absolute && e.level.None?
    && (StartsWith(e.statement, "import ") || StartsWith(e.statement, "from "))
  }

  /** A relative entry: tagged relative, with level `l >= 1` and a statement opening with "from " and `l` dots. */
  predicate RelativeEntry(e: ImportEntry, file: string) {
    e.file == file && e.kind == Relative && e.level.Some? && e.level.value >= 1
    && StartsWith(e.statement, "from " + Repeat('.', e.level.value))
  }

  predicate WellFormed(ex: Extracted, file: string) {
    (forall i :: 0 <= i < |ex.absolute| ==> AbsoluteEntry(ex.absolute[i], file))
    && (forall i :: 0 <= i < |ex.relative| ==> RelativeEntry(ex.relative[i], file))
  }

  lemma ThenWellFormed(a: Extracted, b: Extracted, file: string)
    requires WellFormed(a, file) && WellFormed(b, file)
    ensures WellFormed(a.Then(b), file)
  {
    var c := a.Then(b);
    assert forall i :: |a.absolute| <= i < |c.absolute| ==> c.absolute[i] == b.absolute[i - |a.absolute|];
    assert forall i :: |a.relative| <= i < |c.relative| ==> c.relative[i] == b.relative[i - |a.relative|];
  }

  /**
    Every occurrence extracted from a file names that file and carries the
    kind, level and statement shape of the statement it came from.
   */
  lemma {:induction false} ExtractNodeWellFormed(n: Node, file: string)
    ensures WellFormed(ExtractNode(n, file), file)
    decreases n, 1
  {
    match n
    case Import(names, line) =>
      var es := ImportEntries(names, line, file);
      forall i | 0 <= i < |es| ensures AbsoluteEntry(es[i], file) {
        assert es[i].statement == "import " + names[i];
      }
    case ImportFrom(m, names, level, line) =>
      var r := FromEntries(m, names, level, line, file);
      if level > 0 {
        var st := FromStatement(m, names, level);
        assert st == "from " + Repeat('.', level) + (ModuleOr(m, "") + " import " + Join(names, ", "));
        assert StartsWith(st, "from " + Repeat('.', level));
      } else if HasModule(m) {
        assert StartsWith(r.absolute[0].statement, "from ");
      }
    case Other(children) =>
      ExtractNodesWellFormed(children, file);
  }

  lemma {:induction false} ExtractNodesWellFormed(ns: seq<Node>, file: string)
    ensures WellFormed(ExtractNodes(ns, file), file)
    decreases ns, 0
  {
    if ns != [] {
      ExtractNodeWellFormed(ns[0], file);
      ExtractNodesWellFormed(ns[1..], file);
      ThenWellFormed(ExtractNode(ns[0], file), ExtractNodes(ns[1..], file), file);
    }
  }

  /** The AST visitor: it appends to its two list fields as it meets import statements. */
  class ImportVisitor {
    const filepath: string
    var imports: seq<ImportEntry>
    var relativeImports: seq<ImportEntry>

    constructor (filepath: string)
      ensures this.filepath == filepath
      ensures imports == [] && relativeImports == []
    {
      this.filepath := filepath;
      imports := [];
      relativeImports := [];
    }

    function Collected(): Extracted
      reads this
    {
      Extracted(imports, relativeImports)
    }

    /** `visit_Import`: one absolute entry per alias, in alias order. */
    method VisitImport(names: seq<string>, line: nat)
      modifies this
      ensures imports == old(imports) + ImportEntries(names, line, filepath)
      ensures relativeImports == old(relativeImports)
    {
      for i := 0 to |names|
        invariant imports == old(imports) + ImportEntries(names[..i], line, filepath)
        invariant relativeImports == old(relativeImports)
      {
        assert ImportEntries(names[..i + 1], line, filepath)
               == ImportEntries(names[..i], line, filepath) + [ImportEntry(names[i], line, "import " + names[i], filepath, Absolute, None)];
        imports := imports + [ImportEntry(names[i], line, "import " + names[i], filepath, Absolute, None)];
      }
      assert names[..|names|] == names;
    }

    /** `visit_ImportFrom`: a relative entry when `level > 0`, an absolute one when a module is named, otherwise nothing. */
    method VisitImportFrom(m: Option<string>, names: seq<string>, level: nat, line: nat)
      modifies this
      ensures Collected() == old(Collected()).Then(FromEntries(m, names, level, line, filepath))
    {
      if level > 0 {
        var dots := Repeat('.', level);
        var modulePart := ModuleOr(m, "");
        var namesPart := Join(names, ", ");
        var statement := "from " + dots + modulePart + " import " + namesPart;
        relativeImports := relativeImports + [ImportEntry(ModuleOr(m, "."), line, statement, filepath, Relative, Some(level))];
      } else if HasModule(m) {
        var namesPart := Join(names, ", ");
        var statement := "from " + m.value + " import " + namesPart;
        assert Repeat('.', 0) == "";
        imports := imports + [ImportEntry(m.value, line, statement, filepath, Absolute, None)];
      }
    }

    /** `visit`: dispatch on the node kind; other nodes have their children visited in order. */
    method Visit(n: Node)
      modifies this
      ensures Collected() == old(Collected()).Then(ExtractNode(n, filepath))
      decreases n
    {
      match n {
        case Import(names, line) =>
          VisitImport(names, line);
        case ImportFrom(m, names, level, line) =>
          VisitImportFrom(m, names, level, line);
        case Other(children) =>
          ghost var start := Collected();
          for i := 0 to |children|
            invariant Collected() == start.Then(ExtractNodes(children[..i], filepath))
          {
            ExtractNodesSnoc(children[..i], children[i], filepath);
            assert children[..i + 1] == children[..i] + [children[i]];
            ThenAssociates(start, ExtractNodes(children[..i], filepath), ExtractNode(children[i], filepath));
            Visit(children[i]);
          }
          assert children[..|children|] == children;
      }
    }
  }

  lemma {:induction false} ExtractNodesSnoc(ns: seq<Node>, n: Node, file: string)
    ensures ExtractNodes(ns + [n], file) == ExtractNodes(ns, file).Then(ExtractNode(n, file))
    decreases |ns|
  {
    if ns == [] {
      assert [] + [n] == [n];
      assert ExtractNodes([n], file) == ExtractNode(n, file).Then(Nothing);
    } else {
      assert (ns + [n])[1..] == ns[1..] + [n];
      ExtractNodesSnoc(ns[1..], n, file);
    }
  }

  /**
    What `ast.parse` and the visitor's walk make of a file's source: its
    tree, a syntax error, or another exception that
    `extract_imports_from_code` does not catch (a `ValueError` for a NUL
    byte, a `RecursionError` on a deeply nested tree, a `MemoryError`).
   */
  datatype ParseOutcome = Parsed(tree: Node) | SyntaxFailure | ParseRaised

  /**
    `extract_imports_from_code` once the source is parsed: what the visitor
    collects, or nothing on a syntax error; `None` when the exception
    leaves the function.
   */
  function ExtractFromCode(code: string, filepath: string, parse: string -> ParseOutcome): Option<Extracted>
  {
    match parse(code)
    case ParseRaised => None
    case SyntaxFailure => Some(Nothing)
    case Parsed(tree) => Some(ExtractNode(tree, filepath))
  }

  /**
    `extract_imports_from_code`: build a visitor, walk the parsed tree,
    return its two lists; `raised` when the exception escapes.
   */
  method ExtractImportsFromCode(code: string, filepath: string, parse: string -> ParseOutcome)
    returns (imports: seq<ImportEntry>, relativeImports: seq<ImportEntry>, raised: bool)
    ensures raised <==> parse(code).ParseRaised?
    ensures parse(code).SyntaxFailure? ==> imports == [] && relativeImports == []
    ensures !raised ==> ExtractFromCode(code, filepath, parse) == Some(Extracted(imports, relativeImports))
    ensures WellFormed(Extracted(imports, relativeImports), filepath)
  {
    match parse(code)
    case ParseRaised =>
      return [], [], true;
    case SyntaxFailure =>
      return [], [], false;
    case Parsed(tree) =>
      var visitor := new ImportVisitor(filepath);
      visitor.Visit(tree);
      ExtractNodeWellFormed(tree, filepath);
      assert Extracted(visitor.imports, visitor.relativeImports) == ExtractNode(tree, filepath);
      return visitor.imports, visitor.relativeImports, false;
  }

  /** `process_single_file`: an unreadable file contributes nothing; `None` when parsing raised. */
  function FileResult(filepath: string, read: string -> Option<string>, parse: string -> ParseOutcome): Option<Extracted>
  {
    match read(filepath)
    case None => Some(Nothing)
    case Some(code) => ExtractFromCode(code, filepath, parse)
  }

  method ProcessSingleFile(filepath: string, read: string -> Option<string>, parse: string -> ParseOutcome)
    returns (imports: seq<ImportEntry>, relativeImports: seq<ImportEntry>, raised: bool)
    ensures read(filepath).None? ==> imports == [] && relativeImports == [] && !raised
    ensures raised <==> read(filepath).Some? && parse(read(filepath).value).ParseRaised?
    ensures !raised ==> FileResult(filepath, read, parse) == Some(Extracted(imports, relativeImports))
    ensures WellFormed(Extracted(imports, relativeImports), filepath)
  {
    var code := read(filepath);
    if code.None? {
      return [], [], false;
    }
    imports, relativeImports, raised := ExtractImportsFromCode(code.value, filepath, parse);
  }

  /** The directories `extract_from_all_files` skips when it is given none. */
  const ExtractDefaultIgnoreDirs: set<string> :=
    {"venv", "env", ".venv", "node_modules", "__pycache__", ".git", "build", "dist", "experiments", ".layer_build"}

  /** The base of the ignore set the stand-alone command line builds before adding its own options. */
  const CommandLineDefaultIgnoreDirs: set<string> :=
    {"venv", "env", ".venv", "node_modules", "__pycache__", ".git", "build", "dist", ".layer_build"}

  /** The three default exclusion sets of the program are not the same set. */
  lemma DefaultIgnoreSetsDiffer()
    ensures "experiments" in ExtractDefaultIgnoreDirs && "experiments" !in CommandLineDefaultIgnoreDirs
    ensures ".layer_build" in ExtractDefaultIgnoreDirs && ".layer_build" !in DefaultExcludeDirs
    ensures "htmlcov" in DefaultExcludeDirs && "htmlcov" !in ExtractDefaultIgnoreDirs
    ensures CommandLineDefaultIgnoreDirs < ExtractDefaultIgnoreDirs
  {
    assert "experiments" !in CommandLineDefaultIgnoreDirs;
  }

  /** A globbed file is kept when its basename is not ignored and no part of its path is an ignored directory. */
  predicate Keeps(path: string, ignoreDirs: set<string>, ignoreFiles: set<string>) {
    Basename(path) !in ignoreFiles
    && !(exists i :: 0 <= i < |PathParts(path)| && PathParts(path)[i] in ignoreDirs)
  }

  /** The per-part test here and the set-intersection test of the shared helper agree. */
  lemma KeepsIffNotExcluded(path: string, ignoreDirs: set<string>, ignoreFiles: set<string>)
    ensures Keeps(path, ignoreDirs, ignoreFiles) <==>
              Basename(path) !in ignoreFiles && !ShouldExcludePath(path, ignoreDirs)
  {
    var parts := PathParts(path);
    if exists i :: 0 <= i < |parts| && parts[i] in ignoreDirs {
      var i :| 0 <= i < |parts| && parts[i] in ignoreDirs;
      assert parts[i] in (set part | part in parts) * ignoreDirs;
    }
    if ShouldExcludePath(path, ignoreDirs) {
      var part :| part in (set part | part in parts) * ignoreDirs;
      var i :| 0 <= i < |parts| && parts[i] == part;
    }
  }

  /** The glob results that survive the filters, in glob order. */
  function KeptFiles(globbed: seq<string>, ignoreDirs: set<string>, ignoreFiles: set<string>): (r: seq<string>)
    ensures |r| <= |globbed|
    ensures forall x :: x in r <==> x in globbed && Keeps(x, ignoreDirs, ignoreFiles)
  {
    if globbed == [] then []
    else
      var rest := KeptFiles(globbed[1..], ignoreDirs, ignoreFiles);
      if Keeps(globbed[0], ignoreDirs, ignoreFiles) then [globbed[0]] + rest else rest
  }

  /** The files to process: the target list verbatim when it is non-empty, the filtered glob otherwise. */
  function SelectedFiles(ignoreDirs: Option<set<string>>, ignoreFiles: Option<set<string>>,
                         targetFiles: seq<string>, globbed: seq<string>): (r: seq<string>)
    ensures targetFiles != [] ==> r == targetFiles
    ensures targetFiles == [] ==> forall x :: x in r <==>
              x in globbed && Keeps(x, if ignoreDirs.None? then ExtractDefaultIgnoreDirs else ignoreDirs.value,
                                    if ignoreFiles.None? then {} else ignoreFiles.value)
  {
    var dirs := if ignoreDirs.None? then ExtractDefaultIgnoreDirs else ignoreDirs.value;
    var files := if ignoreFiles.None? then {} else ignoreFiles.value;
    if targetFiles != [] then targetFiles else KeptFiles(globbed, dirs, files)
  }

  /** The absolute occurrences of the file submitted as task `k`. */
  function AbsoluteResults(files: seq<string>, read: string -> Option<string>, parse: string -> ParseOutcome): nat -> seq<ImportEntry>
  {
    (k: nat) => if k < |files| && FileResult(files[k], read, parse).Some? then FileResult(files[k], read, parse).value.absolute else []
  }

  function RelativeResults(files: seq<string>, read: string -> Option<string>, parse: string -> ParseOutcome): nat -> seq<ImportEntry>
  {
    (k: nat) => if k < |files| && FileResult(files[k], read, parse).Some? then FileResult(files[k], read, parse).value.relative else []
  }

  /** A file whose parsing raises an exception that nothing catches. */
  predicate Raises(file: string, read: string -> Option<string>, parse: string -> ParseOutcome)
  {
    FileResult(file, read, parse).None?
  }

  /**
    `extract_from_all_files`: every selected file is processed once. When
    one file's parsing raises, `future.result()` re-raises it and the whole
    extraction fails (`raised`). Otherwise the results arrive in completion
    order, so only their multisets are fixed: those of all files' results
    concatenated in submission order. Before any file is read, a negative
    `max_workers` makes the pool itself raise `ValueError` when there is at
    least one file.
   */
  method ExtractFromAllFiles(ignoreDirs: Option<set<string>>, ignoreFiles: Option<set<string>>,
                             maxWorkers: Option<int>, cpuCount: Option<nat>,
                             targetFiles: seq<string>, globbed: seq<string>,
                             read: string -> Option<string>, parse: string -> ParseOutcome)
    returns (allImports: seq<ImportEntry>, allRelativeImports: seq<ImportEntry>, raised: bool)
    ensures var files := SelectedFiles(ignoreDirs, ignoreFiles, targetFiles, globbed);
            raised <==> PoolRefused(maxWorkers, |files|, cpuCount)
                        || exists k :: 0 <= k < |files| && Raises(files[k], read, parse)
    ensures var files := SelectedFiles(ignoreDirs, ignoreFiles, targetFiles, globbed);
            !raised ==>
              && multiset(allImports) == multiset(Gathered(Submitted(|files|), AbsoluteResults(files, read, parse)))
              && multiset(allRelativeImports) == multiset(Gathered(Submitted(|files|), RelativeResults(files, read, parse)))
    ensures SelectedFiles(ignoreDirs, ignoreFiles, targetFiles, globbed) == [] ==> allImports == [] && allRelativeImports == []
  {
    var files := SelectedFiles(ignoreDirs, ignoreFiles, targetFiles, globbed);
    if files != [] && PoolSize(maxWorkers, |files|, cpuCount) < 1 {
      return [], [], true;
    }
    allImports, allRelativeImports, raised := GatherFiles(files, read, parse);
  }

  /** The thread-pool part of `extract_from_all_files`, over the selected files. */
  method GatherFiles(files: seq<string>, read: string -> Option<string>, parse: string -> ParseOutcome)
    returns (allImports: seq<ImportEntry>, allRelativeImports: seq<ImportEntry>, raised: bool)
    ensures raised <==> exists k :: 0 <= k < |files| && Raises(files[k], read, parse)
    ensures !raised ==>
              && multiset(allImports) == multiset(Gathered(Submitted(|files|), AbsoluteResults(files, read, parse)))
              && multiset(allRelativeImports) == multiset(Gathered(Submitted(|files|), RelativeResults(files, read, parse)))
    ensures files == [] ==> allImports == [] && allRelativeImports == []
  {
    if files == [] {
      return [], [], false;
    }
    ghost var absoluteOf := AbsoluteResults(files, read, parse);
    ghost var relativeOf := RelativeResults(files, read, parse);
    allImports, allRelativeImports, raised := [], [], false;
    var pending: set<nat> := set k | k in Submitted(|files|);
    ghost var order: seq<nat> := [];
    SubmittedAsSet(|files|);
    while pending != {}
      invariant forall k :: k in pending ==> k < |files|
      invariant multiset(order) + multiset(pending) == multiset(Submitted(|files|))
      invariant NoneRaise(order, files, read, parse)
      invariant allImports == Gathered(order, absoluteOf)
      invariant allRelativeImports == Gathered(order, relativeOf)
      decreases |pending|
    {
      var k: nat :| k in pending;
      Complete(order, pending, k);
      var imports, relativeImports, failed := ProcessSingleFile(files[k], read, parse);
      if failed {
        assert Raises(files[k], read, parse);
        return allImports, allRelativeImports, true;
      }
      assert FileResult(files[k], read, parse) == Some(Extracted(imports, relativeImports));
      GatheredSnoc(order, k, absoluteOf);
      GatheredSnoc(order, k, relativeOf);
      allImports := allImports + imports;
      allRelativeImports := allRelativeImports + relativeImports;
      NoneRaiseSnoc(order, k, files, read, parse);
      order := order + [k];
      pending := pending - {k};
    }
    NoneRaiseDone(order, files, read, parse);
    GatheredPermutation(order, Submitted(|files|), absoluteOf);
    GatheredPermutation(order, Submitted(|files|), relativeOf);
  }

  /** No file submitted in `order` has a parse that raised. */
  ghost predicate NoneRaise(order: seq<nat>, files: seq<string>, read: string -> Option<string>, parse: string -> ParseOutcome)
  {
    forall j :: j in order ==> j < |files| && !Raises(files[j], read, parse)
  }

  lemma NoneRaiseSnoc(order: seq<nat>, k: nat, files: seq<string>, read: string -> Option<string>, parse: string -> ParseOutcome)
    requires NoneRaise(order, files, read, parse) && k < |files| && !Raises(files[k], read, parse)
    ensures NoneRaise(order + [k], files, read, parse)
  {
  }

  /** When every task completed without raising, no selected file raises. */
  lemma NoneRaiseDone(order: seq<nat>, files: seq<string>, read: string -> Option<string>, parse: string -> ParseOutcome)
    requires NoneRaise(order, files, read, parse) && multiset(order) == multiset(Submitted(|files|))
    ensures forall k :: 0 <= k < |files| ==> !Raises(files[k], read, parse)
  {
    EveryTaskDone(order, |files|);
  }

  /** Once nothing is pending, every submitted task has completed. */
  lemma EveryTaskDone(order: seq<nat>, n: nat)
    requires multiset(order) == multiset(Submitted(n))
    ensures forall k :: 0 <= k < n ==> k in order
  {
    forall k | 0 <= k < n ensures k in order {
      assert Submitted(n)[k] == k;
      assert k in multiset(Submitted(n));
    }
  }
}
