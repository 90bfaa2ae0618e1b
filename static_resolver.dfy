/**
  The static resolver `check_module_importable_static`: ask the import
  system's finder for the module on a search path temporarily extended with
  the project and its existing source directories, and failing that, look
  for the module's file or package directly under the project and under
  each existing source directory. The module itself is not imported (the
  finder may import its parent package). The finder and the file system
  are oracles.
 */
module StaticResolver {
  import opened Wrappers
  import opened Strings
  import opened Paths
  import opened ImportRecords

  /** What `importlib.util.find_spec` does for a name on a search path: finds it, returns None, or raises. */
  datatype SpecResult = Found | NotFound | Raised(message: string)

  function Reverse<T>(s: seq<T>): (r: seq<T>)
    ensures |r| == |s|
    ensures forall i :: 0 <= i < |s| ==> r[i] == s[|s| - 1 - i]
  {
    if s == [] then [] else [s[|s| - 1]] + Reverse(s[..|s| - 1])
  }

  /**
    The search path the finder is asked with: with a project and a non-empty
    list of source directories, the project first, then each existing
    source directory, the last listed first, then the original entries;
    otherwise the original entries alone.
   */
  function SearchPath(original: seq<Path>, projectDir: Option<Path>, srcDirs: seq<Path>, existing: set<Path>): seq<Path>
  {
    if projectDir.Some? && |srcDirs| > 0 then
      [projectDir.value] + Reverse(ExistingUnder(projectDir.value, srcDirs, existing)) + original
    else original
  }

  /** The files whose existence makes the module resolve under a directory `dir`. */
  function ModuleFilesUnder(dir: Path, parts: seq<string>): seq<Path>
    requires |parts| >= 1
  {
    [dir + [parts[0] + ".py"], dir + [parts[0], "__init__.py"]]
    + (if |parts| > 1 then [dir + parts[..|parts| - 1] + [parts[|parts| - 1] + ".py"], dir + parts + ["__init__.py"]]
       else [])
  }

  /** The candidates under every existing source directory, in the order listed. */
  function SrcCandidates(parts: seq<string>, project: Path, srcDirs: seq<Path>, existing: set<Path>): (r: seq<Path>)
    requires |parts| >= 1
    ensures forall c :: c in r <==>
              exists i :: 0 <= i < |srcDirs| && project + srcDirs[i] in existing
                          && c in ModuleFilesUnder(project + srcDirs[i], parts)
  {
    if srcDirs == [] then []
    else
      var init := srcDirs[..|srcDirs| - 1];
      var src := project + srcDirs[|srcDirs| - 1];
      assert forall i :: 0 <= i < |init| ==> init[i] == srcDirs[i];
      SrcCandidates(parts, project, init, existing) + (if src in existing then ModuleFilesUnder(src, parts) else [])
  }

  /** The manual probe's candidates: the module's file and package directly under the project, then under each source directory. */
  function ProbeCandidates(name: string, project: Path, srcDirs: seq<Path>, existing: set<Path>): seq<Path>
  {
    var parts := Split(name, '.');
    [project + [parts[0] + ".py"], project + [parts[0], "__init__.py"]] + SrcCandidates(parts, project, srcDirs, existing)
  }

  predicate ProbeHits(name: string, project: Path, srcDirs: seq<Path>, existing: set<Path>) {
    exists c :: c in ProbeCandidates(name, project, srcDirs, existing) && c in existing
  }

  /** The resolver's answer: `None` when the module is found, otherwise why not. */
  function StaticResolution(name: string, original: seq<Path>, projectDir: Option<Path>, srcDirs: seq<Path>,
                            existing: set<Path>, findSpec: (string, seq<Path>) -> SpecResult): Option<ResolveError>
  {
    match findSpec(name, SearchPath(original, projectDir, srcDirs, existing))
    case Raised(message) => Some(FindSpecFailed(message))
    case Found => None
    case NotFound =>
      if projectDir.Some? && ProbeHits(name, projectDir.value, srcDirs, existing) then None
      else Some(ModuleNotFound(name))
  }

  lemma SrcCandidatesSnoc(parts: seq<string>, project: Path, srcDirs: seq<Path>, i: nat, existing: set<Path>)
    requires |parts| >= 1 && i < |srcDirs|
    ensures SrcCandidates(parts, project, srcDirs[..i + 1], existing)
            == SrcCandidates(parts, project, srcDirs[..i], existing)
               + (if project + srcDirs[i] in existing then ModuleFilesUnder(project + srcDirs[i], parts) else [])
  {
    assert srcDirs[..i + 1][..i] == srcDirs[..i];
  }

  /**
    The probe of one existing source directory: the module's file, its
    package, and for a dotted name the submodule's file and package, the
    submodule path built one part at a time.
   */
  method ProbeSource(srcPath: Path, parts: seq<string>, existing: set<Path>) returns (found: bool)
    requires |parts| >= 1
    ensures found <==> exists c :: c in ModuleFilesUnder(srcPath, parts) && c in existing
  {
    var base := parts[0];
    ghost var files := ModuleFilesUnder(srcPath, parts);
    if srcPath + [base + ".py"] in existing {
      assert files[0] == srcPath + [base + ".py"];
      return true;
    }
    if srcPath + [base, "__init__.py"] in existing {
      assert files[1] == srcPath + [base, "__init__.py"];
      return true;
    }
    if |parts| > 1 {
      var submodule := srcPath + [base];
      var part := base;
      for k := 1 to |parts|
        invariant submodule == srcPath + parts[..k]
        invariant part == parts[k - 1]
      {
        assert parts[..k + 1] == parts[..k] + [parts[k]];
        submodule := submodule + [parts[k]];
        part := parts[k];
      }
      assert parts[..|parts|] == parts;
      assert Parent(submodule) == srcPath + parts[..|parts| - 1];
      if Parent(submodule) + [part + ".py"] in existing {
        assert files[2] == Parent(submodule) + [part + ".py"];
        return true;
      }
      if submodule + ["__init__.py"] in existing {
        assert files[3] == submodule + ["__init__.py"];
        return true;
      }
    }
    return false;
  }

  /** The probe after the finder gave up: the project root first, then each source directory that exists. */
  method ProbeProject(name: string, project: Path, srcDirs: seq<Path>, existing: set<Path>) returns (found: bool)
    ensures found <==> ProbeHits(name, project, srcDirs, existing)
  {
    var parts := Split(name, '.');
    var base := parts[0];
    ghost var candidates := ProbeCandidates(name, project, srcDirs, existing);
    if project + [base + ".py"] in existing {
      assert candidates[0] == project + [base + ".py"];
      return true;
    }
    if project + [base, "__init__.py"] in existing {
      assert candidates[1] == project + [base, "__init__.py"];
      return true;
    }
    for i := 0 to |srcDirs|
      invariant forall c :: c in SrcCandidates(parts, project, srcDirs[..i], existing) ==> c !in existing
    {
      SrcCandidatesSnoc(parts, project, srcDirs, i, existing);
      var srcPath := project + srcDirs[i];
      if srcPath in existing {
        found := ProbeSource(srcPath, parts, existing);
        if found {
          var c :| c in ModuleFilesUnder(srcPath, parts) && c in existing;
          assert c in SrcCandidates(parts, project, srcDirs, existing);
          assert c in candidates;
          return true;
        }
      }
    }
    assert srcDirs[..|srcDirs|] == srcDirs;
    return false;
  }

  /** The interpreter's module search path, `sys.path`, which the resolver extends and then restores. */
  class ModuleSearchPath {
    var entries: seq<Path>

    constructor (entries: seq<Path>)
      ensures this.entries == entries
    {
      this.entries := entries;
    }

    /** Put the existing source directories, then the project, in front of the entries. */
    method Extend(project: Path, srcDirs: seq<Path>, existing: set<Path>)
      requires |srcDirs| > 0
      modifies this
      ensures entries == SearchPath(old(entries), Some(project), srcDirs, existing)
    {
      ghost var original := entries;
      for i := 0 to |srcDirs|
        invariant entries == Reverse(ExistingUnder(project, srcDirs[..i], existing)) + original
      {
        PrependStep(project, srcDirs, i, existing, original);
        var srcPath := project + srcDirs[i];
        if srcPath in existing {
          entries := [srcPath] + entries;
        }
      }
      assert srcDirs[..|srcDirs|] == srcDirs;
      SearchPathExtended(original, project, srcDirs, existing);
      entries := [project] + entries;
    }

    /**
      Resolve `name` statically. The search path is extended only for the
      finder's call and is back to its original entries afterwards, whatever
      the finder does.
     */
    method CheckStatic(name: string, projectDir: Option<Path>, srcDirs: seq<Path>, existing: set<Path>,
                       findSpec: (string, seq<Path>) -> SpecResult) returns (error: Option<ResolveError>)
      modifies this
      ensures entries == old(entries)
      ensures error == StaticResolution(name, old(entries), projectDir, srcDirs, existing, findSpec)
    {
      var original := entries;
      if projectDir.Some? && |srcDirs| > 0 {
        Extend(projectDir.value, srcDirs, existing);
      }
      var spec := findSpec(name, entries);
      entries := original;
      if spec.Raised? {
        return Some(FindSpecFailed(spec.message));
      }
      if spec.Found? {
        return None;
      }
      if projectDir.Some? {
        var found := ProbeProject(name, projectDir.value, srcDirs, existing);
        if found {
          return None;
        }
      }
      return Some(ModuleNotFound(name));
    }
  }

  /** Inserting the next existing source directory at the front extends the reversed prefix. */
  lemma PrependStep(project: Path, srcDirs: seq<Path>, i: nat, existing: set<Path>, original: seq<Path>)
    requires i < |srcDirs|
    ensures var before := Reverse(ExistingUnder(project, srcDirs[..i], existing)) + original;
            var after := Reverse(ExistingUnder(project, srcDirs[..i + 1], existing)) + original;
            after == if project + srcDirs[i] in existing then [project + srcDirs[i]] + before else before
  {
    ExistingUnderSnoc(project, srcDirs, i, existing);
    ReverseSnoc(ExistingUnder(project, srcDirs[..i], existing), project + srcDirs[i]);
  }

  lemma SearchPathExtended(original: seq<Path>, project: Path, srcDirs: seq<Path>, existing: set<Path>)
    requires |srcDirs| > 0
    ensures SearchPath(original, Some(project), srcDirs, existing)
            == [project] + (Reverse(ExistingUnder(project, srcDirs, existing)) + original)
  {
  }

  lemma ReverseSnoc<T>(s: seq<T>, x: T)
    ensures Reverse(s + [x]) == [x] + Reverse(s)
  {
    assert (s + [x])[..|s|] == s;
  }

  /**
    The static resolver reports only "not found" and "finder failed", never
    an empty message: its error is truthy exactly when there is one.
   */
  lemma StaticErrorKinds(name: string, original: seq<Path>, projectDir: Option<Path>, srcDirs: seq<Path>,
                         existing: set<Path>, findSpec: (string, seq<Path>) -> SpecResult)
    ensures var r := StaticResolution(name, original, projectDir, srcDirs, existing, findSpec);
            (r.None? || r.value == ModuleNotFound(name) || r.value.FindSpecFailed?) && (Truthy(r) <==> r.Some?)
  {
  }

  /** The extended search path: the project first, then the existing source directories last-listed first, then the original entries. */
  lemma SearchPathShape(original: seq<Path>, project: Path, srcDirs: seq<Path>, existing: set<Path>)
    requires |srcDirs| > 0
    ensures var r := SearchPath(original, Some(project), srcDirs, existing);
            var added := ExistingUnder(project, srcDirs, existing);
            && r[0] == project
            && |r| == 1 + |added| + |original|
            && (forall i :: 1 <= i <= |added| ==> r[i] == added[|added| - i])
            && r[1 + |added|..] == original
  {
  }

  /** Without a project directory, or with no source directories, the finder sees the search path unchanged. */
  lemma SearchPathUnchanged(original: seq<Path>, projectDir: Option<Path>, srcDirs: seq<Path>, existing: set<Path>)
    requires projectDir.None? || srcDirs == []
    ensures SearchPath(original, projectDir, srcDirs, existing) == original
  {
  }

  /** A module file directly in the project root resolves when the finder misses it. */
  lemma RootModuleFileResolves(name: string, original: seq<Path>, project: Path, srcDirs: seq<Path>,
                               existing: set<Path>, findSpec: (string, seq<Path>) -> SpecResult)
    requires findSpec(name, SearchPath(original, Some(project), srcDirs, existing)) == NotFound
    requires project + [Split(name, '.')[0] + ".py"] in existing
    ensures StaticResolution(name, original, Some(project), srcDirs, existing, findSpec) == None
  {
    assert ProbeCandidates(name, project, srcDirs, existing)[0] == project + [Split(name, '.')[0] + ".py"];
  }

  /** A submodule `a.b` found as `a/b.py` under an existing source directory resolves when the finder misses it. */
  lemma SubmoduleUnderSourceResolves(a: string, b: string, original: seq<Path>, project: Path, srcDirs: seq<Path>, i: nat,
                                     existing: set<Path>, findSpec: (string, seq<Path>) -> SpecResult)
    requires '.' !in a && '.' !in b
    requires i < |srcDirs| && project + srcDirs[i] in existing
    requires project + srcDirs[i] + [a, b + ".py"] in existing
    requires findSpec(a + "." + b, SearchPath(original, Some(project), srcDirs, existing)) == NotFound
    ensures StaticResolution(a + "." + b, original, Some(project), srcDirs, existing, findSpec) == None
  {
    var parts := Split(a + "." + b, '.');
    SplitAppend(a, b, '.');
    SplitWithoutSeparator(a, '.');
    SplitWithoutSeparator(b, '.');
    assert parts == [a, b];
    var dir := project + srcDirs[i];
    assert ModuleFilesUnder(dir, parts)[2] == dir + [a, b + ".py"];
    assert dir + [a, b + ".py"] in SrcCandidates(parts, project, srcDirs, existing);
    assert dir + [a, b + ".py"] in ProbeCandidates(a + "." + b, project, srcDirs, existing);
  }

  /** Without a project directory, a module the finder misses is reported missing. */
  lemma MissWithoutProjectIsNotFound(name: string, original: seq<Path>, srcDirs: seq<Path>,
                                     existing: set<Path>, findSpec: (string, seq<Path>) -> SpecResult)
    requires findSpec(name, original) == NotFound
    ensures StaticResolution(name, original, None, srcDirs, existing, findSpec) == Some(ModuleNotFound(name))
  {
  }

  /** Nothing under a source directory that does not exist is probed. */
  lemma MissingSourceDirIgnored(parts: seq<string>, project: Path, srcDirs: seq<Path>, i: nat, existing: set<Path>, c: Path)
    requires |parts| >= 1
    requires i < |srcDirs| && project + srcDirs[i] !in existing
    requires c in SrcCandidates(parts, project, srcDirs, existing)
    ensures exists j :: 0 <= j < |srcDirs| && project + srcDirs[j] != project + srcDirs[i]
                        && c in ModuleFilesUnder(project + srcDirs[j], parts)
  {
  }
}
