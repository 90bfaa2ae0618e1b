/**
  The syntax checker: the list of Python files to check (glob, then the
  ignore, exclusion and symlink filters, then sorted), the classification of
  one file's parse outcome, and the aggregation of all files' outcomes in
  the order the pool completes them.
 */
module Syntax {
  import opened Wrappers
  import opened Strings
  import opened Paths
  import opened Utils
  import opened CompletionOrder

  /*
   * The symlink walk.
   */

  /**
    What the walk asks of the file system: `resolve(p)` is `Path(p).resolve()`
    (None when resolving raises `OSError` or `ValueError`), and `symlinks`
    are the paths for which `is_symlink()` holds.
   */
  datatype LinkWorld = LinkWorld(resolve: Path -> Option<Path>, symlinks: set<Path>)

  /**
    The walk from `current` toward the root: None when a resolution raises,
    otherwise whether a symlink was met before the base directory or the root.
   */
  function Walk(current: Path, base: Path, w: LinkWorld): Option<bool>
    decreases |current|
  {
    if w.resolve(current).None? then None
    else if w.resolve(current).value == base then Some(false)
    else if current in w.symlinks then Some(true)
    else if Parent(current) == current then Some(false)
    else Walk(Parent(current), base, w)
  }

  /** `_has_symlink_in_path`: a symlink on the way up, with any resolution error read as "no". */
  predicate SymlinkVerdict(filePath: Path, baseDir: Path, w: LinkWorld)
  {
    w.resolve(baseDir).Some? && Walk(filePath, w.resolve(baseDir).value, w) == Some(true)
  }

  /** Every ancestor from depth `k` up to the file itself resolves, and not to the base. */
  predicate PassedFrom(p: Path, k: nat, base: Path, w: LinkWorld)
    requires k <= |p|
  {
    forall j :: k <= j <= |p| ==> w.resolve(p[..j]).Some? && w.resolve(p[..j]).value != base
  }

  /**
    The walk answers yes exactly when some ancestor of the file (or the file
    itself) is a symlink and everything visited up to it resolved to
    something other than the base directory.
   */
  lemma {:induction false} WalkFindsSymlink(p: Path, base: Path, w: LinkWorld)
    ensures Walk(p, base, w) == Some(true) <==>
              exists k :: 0 <= k <= |p| && p[..k] in w.symlinks && PassedFrom(p, k, base, w)
    decreases |p|
  {
    assert p[..|p|] == p;
    if w.resolve(p).None? || w.resolve(p).value == base {
    } else if p in w.symlinks {
      assert PassedFrom(p, |p|, base, w);
    } else if p == [] {
    } else {
      var q := Parent(p);
      WalkFindsSymlink(q, base, w);
      assert forall j :: 0 <= j <= |q| ==> q[..j] == p[..j];
      if Walk(p, base, w) == Some(true) {
        var k :| 0 <= k <= |q| && q[..k] in w.symlinks && PassedFrom(q, k, base, w);
        assert PassedFrom(p, k, base, w);
      }
      if exists k :: 0 <= k <= |p| && p[..k] in w.symlinks && PassedFrom(p, k, base, w) {
        var k :| 0 <= k <= |p| && p[..k] in w.symlinks && PassedFrom(p, k, base, w);
        assert k < |p|;
        assert PassedFrom(q, k, base, w);
      }
    }
  }

  /** A file whose own resolution raises is never reported as under a symlink. */
  lemma UnresolvableFileIsNotLinked(filePath: Path, baseDir: Path, w: LinkWorld)
    requires w.resolve(filePath).None?
    ensures !SymlinkVerdict(filePath, baseDir, w)
  {
  }

  /**
    `_has_symlink_in_path`: step from the file to its parent until the base
    directory or the root is reached, answering yes at the first symlink.
   */
  method HasSymlinkInPath(filePath: Path, baseDir: Path, w: LinkWorld) returns (r: bool)
    ensures r == SymlinkVerdict(filePath, baseDir, w)
  {
    var baseP := w.resolve(baseDir);
    if baseP.None? {
      return false;
    }
    var current := filePath;
    while true
      invariant Walk(current, baseP.value, w) == Walk(filePath, baseP.value, w)
      decreases |current|
    {
      var resolved := w.resolve(current);
      if resolved.None? {
        return false;
      }
      if resolved.value == baseP.value {
        break;
      }
      if current in w.symlinks {
        return true;
      }
      var parent := Parent(current);
      if parent == current {
        break;
      }
      current := parent;
    }
    return false;
  }

  /*
   * The file list.
   */

  /** Code-point order on strings, as Python compares `str` values. */
  predicate LexLe(a: string, b: string)
    decreases |a|
  {
    a == [] || (b != [] && (a[0] < b[0] || (a[0] == b[0] && LexLe(a[1..], b[1..]))))
  }

  lemma {:induction false} LexLeTotal(a: string, b: string)
    ensures LexLe(a, b) || LexLe(b, a)
    decreases |a|
  {
    if a != [] && b != [] && a[0] == b[0] {
      LexLeTotal(a[1..], b[1..]);
    }
  }

  lemma {:induction false} LexLeTransitive(a: string, b: string, c: string)
    requires LexLe(a, b) && LexLe(b, c)
    ensures LexLe(a, c)
    decreases |a|
  {
    if a != [] && a[0] == b[0] && b[0] == c[0] {
      LexLeTransitive(a[1..], b[1..], c[1..]);
    }
  }

  lemma {:induction false} LexLeAntisymmetric(a: string, b: string)
    requires LexLe(a, b) && LexLe(b, a)
    ensures a == b
    decreases |a|
  {
    if a != [] {
      LexLeAntisymmetric(a[1..], b[1..]);
      assert a == [a[0]] + a[1..] && b == [b[0]] + b[1..];
    }
  }

  lemma {:induction false} LexLeReflexive(a: string)
    ensures LexLe(a, a)
    decreases |a|
  {
    if a != [] {
      LexLeReflexive(a[1..]);
    }
  }

  /** Ascending in code-point order: each element is at most its successor. */
  predicate Sorted(s: seq<string>)
  {
    forall i :: 1 <= i < |s| ==> LexLe(s[i - 1], s[i])
  }

  /** In a sorted sequence every element is at most every later one. */
  lemma {:induction false} SortedPairwise(s: seq<string>, i: nat, j: nat)
    requires Sorted(s) && i <= j < |s|
    ensures LexLe(s[i], s[j])
    decreases j - i
  {
    if i == j {
      LexLeReflexive(s[i]);
    } else {
      SortedPairwise(s, i, j - 1);
      LexLeTransitive(s[i], s[j - 1], s[j]);
    }
  }

  /** Insertion of `x` into a sorted sequence, in front of the first element not below it. */
  function Insert(x: string, s: seq<string>): seq<string>
  {
    if s == [] then [x]
    else if LexLe(x, s[0]) then [x] + s
    else [s[0]] + Insert(x, s[1..])
  }

  lemma {:induction false} InsertPermutes(x: string, s: seq<string>)
    ensures multiset(Insert(x, s)) == multiset(s) + multiset{x}
    ensures |Insert(x, s)| == |s| + 1
    ensures Insert(x, s)[0] == x || Insert(x, s)[0] == s[0]
    decreases |s|
  {
    if s != [] && !LexLe(x, s[0]) {
      InsertPermutes(x, s[1..]);
      assert s == [s[0]] + s[1..];
    }
  }

  lemma {:induction false} InsertSorted(x: string, s: seq<string>)
    requires Sorted(s)
    ensures Sorted(Insert(x, s))
    decreases |s|
  {
    if s != [] && !LexLe(x, s[0]) {
      var rest := Insert(x, s[1..]);
      InsertSorted(x, s[1..]);
      InsertPermutes(x, s[1..]);
      LexLeTotal(x, s[0]);
      assert LexLe(s[0], rest[0]);
      var r := [s[0]] + rest;
      forall i | 1 <= i < |r| ensures LexLe(r[i - 1], r[i]) {
        if i > 1 {
          assert r[i - 1] == rest[i - 2] && r[i] == rest[i - 1];
        }
      }
    }
  }

  /** `sorted(paths)`: insertion sort. */
  function SortPaths(s: seq<string>): seq<string>
  {
    if s == [] then [] else Insert(s[0], SortPaths(s[1..]))
  }

  /** `sorted` returns the same paths, ascending. */
  lemma SortPathsSpec(s: seq<string>)
    ensures multiset(SortPaths(s)) == multiset(s)
    ensures Sorted(SortPaths(s))
  {
    SortPathsPermutes(s);
    SortPathsSorted(s);
  }

  lemma {:induction false} SortPathsPermutes(s: seq<string>)
    ensures multiset(SortPaths(s)) == multiset(s)
    decreases |s|
  {
    if s != [] {
      SortPathsPermutes(s[1..]);
      InsertPermutes(s[0], SortPaths(s[1..]));
      assert s == [s[0]] + s[1..];
    }
  }

  lemma {:induction false} SortPathsSorted(s: seq<string>)
    ensures Sorted(SortPaths(s))
    decreases |s|
  {
    if s != [] {
      SortPathsSorted(s[1..]);
      InsertSorted(s[0], SortPaths(s[1..]));
    }
  }

  /** Dropping the same first element from two equal multisets leaves equal multisets. */
  lemma SameTail(a: seq<string>, b: seq<string>)
    requires a != [] && b != [] && a[0] == b[0] && multiset(a) == multiset(b)
    ensures multiset(a[1..]) == multiset(b[1..])
  {
    assert a == [a[0]] + a[1..] && b == [b[0]] + b[1..];
    assert multiset(a[1..]) == multiset(a) - multiset{a[0]};
    assert multiset(b[1..]) == multiset(b) - multiset{b[0]};
  }

  /** Two sorted sequences with the same elements are equal: `sorted` has only one possible answer. */
  lemma {:induction false} SortedUnique(a: seq<string>, b: seq<string>)
    requires Sorted(a) && Sorted(b) && multiset(a) == multiset(b)
    ensures a == b
    decreases |a|
  {
    assert |a| == |multiset(a)| == |multiset(b)| == |b|;
    if a != [] {
      assert a[0] in multiset(b) && b[0] in multiset(a);
      var i :| 0 <= i < |b| && b[i] == a[0];
      var j :| 0 <= j < |a| && a[j] == b[0];
      SortedPairwise(b, 0, i);
      SortedPairwise(a, 0, j);
      LexLeAntisymmetric(a[0], b[0]);
      SameTail(a, b);
      SortedUnique(a[1..], b[1..]);
    }
  }

  /** The two framework entry files never checked. */
  const IgnoreFiles: set<string> := {"starlette_app.py", "sanic_app.py"}

  /** `exclude_dirs`, or the default set when none is given. */
  function ExcludeSet(excludeDirs: Option<seq<string>>): (r: set<string>)
    ensures excludeDirs.None? ==> r == DefaultExcludeDirs
    ensures excludeDirs.Some? ==> forall d :: d in r <==> d in excludeDirs.value
  {
    if excludeDirs.None? then DefaultExcludeDirs else set d | d in excludeDirs.value
  }

  /** One globbed path survives the three filters. */
  predicate Kept(filePath: string, excluded: set<string>, directory: string, w: LinkWorld)
  {
    Basename(filePath) !in IgnoreFiles
    && !ShouldExcludePath(filePath, excluded)
    && !SymlinkVerdict(Segments(filePath), Segments(directory), w)
  }

  /** The list comprehension: the kept paths, in glob order. */
  function KeptPaths(globbed: seq<string>, excluded: set<string>, directory: string, w: LinkWorld): (r: seq<string>)
    ensures forall f :: f in r <==> f in globbed && Kept(f, excluded, directory, w)
    ensures |r| <= |globbed|
  {
    if globbed == [] then []
    else
      var last := globbed[|globbed| - 1];
      var rest := KeptPaths(globbed[..|globbed| - 1], excluded, directory, w);
      assert globbed == globbed[..|globbed| - 1] + [last];
      if Kept(last, excluded, directory, w) then rest + [last] else rest
  }

  /**
    `find_python_files`: the paths `glob("<directory>/**/*.py")` returned
    (an input), filtered and sorted.
   */
  function FindPythonFiles(directory: string, excludeDirs: Option<seq<string>>, globbed: seq<string>,
                           w: LinkWorld): seq<string>
  {
    SortPaths(KeptPaths(globbed, ExcludeSet(excludeDirs), directory, w))
  }

  /**
    The result is the sorted arrangement of exactly the kept paths: no
    ignored entry file, no path with an excluded segment, nothing under a
    symlink, each kept path as often as glob listed it.
   */
  lemma FindPythonFilesSpec(directory: string, excludeDirs: Option<seq<string>>, globbed: seq<string>, w: LinkWorld)
    ensures var r := FindPythonFiles(directory, excludeDirs, globbed, w);
            Sorted(r)
            && multiset(r) == multiset(KeptPaths(globbed, ExcludeSet(excludeDirs), directory, w))
            && forall f :: f in r <==> f in globbed && Kept(f, ExcludeSet(excludeDirs), directory, w)
  {
    var kept := KeptPaths(globbed, ExcludeSet(excludeDirs), directory, w);
    var r := SortPaths(kept);
    SortPathsSpec(kept);
    forall f ensures f in r <==> f in kept {
      assert f in r <==> f in multiset(r);
      assert f in kept <==> f in multiset(kept);
    }
  }

  /** Without an exclusion list the default directories are skipped, whatever else the path holds. */
  lemma DefaultExclusionApplies(directory: string, globbed: seq<string>, w: LinkWorld, f: string)
    requires ShouldExcludePath(f, DefaultExcludeDirs)
    ensures f !in FindPythonFiles(directory, None, globbed, w)
  {
    FindPythonFilesSpec(directory, None, globbed, w);
  }

  /**
    A given exclusion list replaces the defaults rather than adding to them:
    a globbed path that is no ignored entry file and lies under no symlink
    is listed exactly when none of its parts is in the list, so a default
    name such as ".venv" excludes nothing once a list is given.
   */
  lemma ExplicitListReplacesDefaults(directory: string, dirs: seq<string>, globbed: seq<string>, w: LinkWorld,
                                     f: string)
    requires f in globbed && Basename(f) !in IgnoreFiles
    requires !SymlinkVerdict(Segments(f), Segments(directory), w)
    ensures f in FindPythonFiles(directory, Some(dirs), globbed, w) <==> forall part :: part in PathParts(f) ==> part !in dirs
  {
    FindPythonFilesSpec(directory, Some(dirs), globbed, w);
    var parts := set part | part in PathParts(f);
    if exists part :: part in PathParts(f) && part in dirs {
      var part :| part in PathParts(f) && part in dirs;
      assert part in parts * ExcludeSet(Some(dirs));
    } else {
      forall part | part in parts ensures part !in ExcludeSet(Some(dirs)) {
      }
      assert parts * ExcludeSet(Some(dirs)) == {};
    }
  }

  /** The entry files of the two web frameworks are never listed. */
  lemma IgnoredFilesNeverListed(directory: string, excludeDirs: Option<seq<string>>, globbed: seq<string>,
                                w: LinkWorld, f: string)
    requires Basename(f) in IgnoreFiles
    ensures f !in FindPythonFiles(directory, excludeDirs, globbed, w)
  {
    FindPythonFilesSpec(directory, excludeDirs, globbed, w);
  }

  /*
   * One file's check.
   */

  /**
    What reading and parsing one file ended in: parsed, or the exception
    raised with its text.
   */
  datatype ParseOutcome =
    | Parsed
    | SyntaxFailure(detail: string)
    | DecodeFailure(detail: string)
    | ReadFailure(detail: string)
    | OtherFailure(detail: string)

  const SyntaxErrorPrefix := "SyntaxError: "
  const EncodingErrorPrefix := "Encoding Error: "
  const FileErrorPrefix := "File Error: "
  const UnexpectedErrorPrefix := "Unexpected Error: "

  /** The four message prefixes, one per kind of failure. */
  function Prefixes(): seq<string>
  {
    [SyntaxErrorPrefix, EncodingErrorPrefix, FileErrorPrefix, UnexpectedErrorPrefix]
  }

  /** Which prefix a failure's message carries. */
  function PrefixIndex(o: ParseOutcome): (i: nat)
    requires !o.Parsed?
    ensures i < |Prefixes()|
  {
    match o
    case SyntaxFailure(_) => 0
    case DecodeFailure(_) => 1
    case ReadFailure(_) => 2
    case OtherFailure(_) => 3
  }

  /** `check_file_syntax`: `(True, "")` when the file parses, otherwise `False` and a prefixed message. */
  function CheckFileSyntax(o: ParseOutcome): (r: (bool, string))
  {
    match o
    case Parsed => (true, "")
    case SyntaxFailure(d) => (false, SyntaxErrorPrefix + d)
    case DecodeFailure(d) => (false, EncodingErrorPrefix + d)
    case ReadFailure(d) => (false, FileErrorPrefix + d)
    case OtherFailure(d) => (false, UnexpectedErrorPrefix + d)
  }

  /**
    A file is valid exactly when it parsed, with an empty message; a failed
    file's message starts with exactly one of the four prefixes, the one of
    its kind, followed by the exception's text.
   */
  lemma CheckFileSyntaxClassifies(o: ParseOutcome)
    ensures CheckFileSyntax(o).0 <==> o.Parsed?
    ensures o.Parsed? ==> CheckFileSyntax(o).1 == ""
    ensures !o.Parsed? ==> CheckFileSyntax(o).1 == Prefixes()[PrefixIndex(o)] + o.detail
    ensures !o.Parsed? ==> forall i :: 0 <= i < |Prefixes()| ==>
              (StartsWith(CheckFileSyntax(o).1, Prefixes()[i]) <==> i == PrefixIndex(o))
  {
    if !o.Parsed? {
      var m := CheckFileSyntax(o).1;
      var k := PrefixIndex(o);
      forall i | 0 <= i < |Prefixes()|
        ensures StartsWith(m, Prefixes()[i]) <==> i == k
      {
        assert m[0] == Prefixes()[k][0];
        if i != k {
          assert Prefixes()[i][0] != Prefixes()[k][0];
        }
      }
    }
  }

  /*
   * The aggregation.
   */

  /** What `future.result()` gave for one file: the check's pair, or the exception it raised. */
  datatype TaskOutcome = Finished(outcome: ParseOutcome) | Crashed(exception: string)

  /** One reported error: the path relative to the working directory and the message. */
  datatype SyntaxError = SyntaxError(path: string, message: string)

  /** The error one file adds to the report: none when it is valid. */
  function ErrorsOf(files: seq<string>, run: string -> TaskOutcome, rel: string -> string): nat -> seq<SyntaxError>
  {
    (k: nat) =>
      if k >= |files| then []
      else match run(files[k])
        case Crashed(e) => [SyntaxError(rel(files[k]), "Exception: " + e)]
        case Finished(o) =>
          var (valid, message) := CheckFileSyntax(o);
          if valid then [] else [SyntaxError(rel(files[k]), message)]
  }

  /** The file itself when it is valid. */
  function ValidOf(files: seq<string>, run: string -> TaskOutcome): nat -> seq<nat>
  {
    (k: nat) => if k < |files| && run(files[k]).Finished? && CheckFileSyntax(run(files[k]).outcome).0 then [k] else []
  }

  /** One completed future: whether the file counts as a success, and the error it adds otherwise. */
  method TallyOne(files: seq<string>, run: string -> TaskOutcome, rel: string -> string, k: nat)
    returns (valid: bool, reported: seq<SyntaxError>)
    requires k < |files|
    ensures reported == ErrorsOf(files, run, rel)(k)
    ensures ValidOf(files, run)(k) == if valid then [k] else []
    ensures |reported| == if valid then 0 else 1
  {
    var outcome := run(files[k]);
    match outcome {
      case Crashed(e) =>
        valid, reported := false, [SyntaxError(rel(files[k]), "Exception: " + e)];
      case Finished(o) =>
        var (isValid, message) := CheckFileSyntax(o);
        valid := isValid;
        reported := if isValid then [] else [SyntaxError(rel(files[k]), message)];
    }
  }

  /**
    `check_files_parallel`: every file's outcome is counted once, as a
    success or as an error. `run` stands for the pool running
    `check_file_syntax` and `rel` for `safe_relpath` against the working
    directory.
   */
  method CheckFilesParallel(files: seq<string>, run: string -> TaskOutcome, rel: string -> string)
    returns (successCount: nat, errorCount: nat, errors: seq<SyntaxError>)
    ensures successCount + errorCount == |files|
    ensures errorCount == |errors|
    ensures successCount == |Gathered(Submitted(|files|), ValidOf(files, run))|
    ensures multiset(errors) == multiset(Gathered(Submitted(|files|), ErrorsOf(files, run, rel)))
    ensures files == [] ==> successCount == 0 && errorCount == 0 && errors == []
  {
    if files == [] {
      return 0, 0, [];
    }
    ghost var errorsOf := ErrorsOf(files, run, rel);
    ghost var validOf := ValidOf(files, run);
    errors := [];
    successCount := 0;
    var pending: set<nat> := set k | k in Submitted(|files|);
    ghost var order: seq<nat> := [];
    ghost var valid: seq<nat> := [];
    SubmittedAsSet(|files|);
    while pending != {}
      invariant forall k :: k in pending ==> k < |files|
      invariant multiset(order) + multiset(pending) == multiset(Submitted(|files|))
      invariant errors == Gathered(order, errorsOf)
      invariant valid == Gathered(order, validOf)
      invariant successCount == |valid| && successCount + |errors| == |order|
      decreases |pending|
    {
      var k: nat :| k in pending;
      Complete(order, pending, k);
      GatheredSnoc(order, k, errorsOf);
      GatheredSnoc(order, k, validOf);
      var isValid, reported := TallyOne(files, run, rel, k);
      if isValid {
        successCount := successCount + 1;
        valid := valid + [k];
      }
      errors := errors + reported;
      order := order + [k];
      pending := pending - {k};
    }
    assert |multiset(order)| == |multiset(Submitted(|files|))|;
    GatheredPermutation(order, Submitted(|files|), errorsOf);
    GatheredPermutation(order, Submitted(|files|), validOf);
    assert |multiset(valid)| == |multiset(Gathered(Submitted(|files|), validOf))|;
    errorCount := |errors|;
  }
}
