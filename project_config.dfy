/**
  Project configuration: the nearest `pyproject.toml` at or above the
  project directory, the source roots and exclusions read from its
  `[tool.ruff]` and `[tool.pyci-check]` sections, and the configured
  virtual environment.
 */
module ProjectConfig {
  import opened Wrappers
  import opened Strings
  import opened Paths
  import opened Toml

  const ConfigFileName: string := "pyproject.toml"

  /**
    `find_pyproject_toml`: the project directory itself first, then each
    parent up to and including the root.
   */
  method FindPyprojectToml(projectDir: Path, existing: set<Path>) returns (r: Option<Path>)
    ensures r == NearestHolding(projectDir, ConfigFileName, existing)
  {
    if projectDir + [ConfigFileName] in existing {
      return Some(projectDir + [ConfigFileName]);
    }
    var current := projectDir;
    while true
      invariant current + [ConfigFileName] !in existing
      invariant NearestHolding(current, ConfigFileName, existing) == NearestHolding(projectDir, ConfigFileName, existing)
      decreases |current|
    {
      var parent := Parent(current);
      if parent == current {
        break;
      }
      var candidate := parent + [ConfigFileName];
      if candidate in existing {
        return Some(candidate);
      }
      current := parent;
    }
    return None;
  }

  /** The settings read from the file; `src` is kept as read, after a lone string is wrapped into a list. */
  datatype RuffConfig = RuffConfig(src: TomlValue, excludeDirs: seq<string>, excludeFiles: seq<string>)

  const EmptyConfig: RuffConfig := RuffConfig(Arr([]), [], [])

  /** A list of strings: all its items are strings. */
  predicate StringList(v: TomlValue) {
    v.Arr? && forall i :: 0 <= i < |v.items| ==> v.items[i].Str?
  }

  function StringItems(v: TomlValue): (r: set<string>)
    requires StringList(v)
    ensures forall x :: x in r <==> exists i :: 0 <= i < |v.items| && v.items[i] == Str(x)
  {
    set i | 0 <= i < |v.items| :: v.items[i].s
  }

  /**
    The merged exclusion set `set(pyci_exclude + exclude + extend_exclude)`,
    each value wrapped when it is a lone string. `None` when the
    concatenation, the hashing or the later `rstrip` would raise: some value
    is not a list, or holds an item that is not a string.
   */
  function MergedExcludes(pyciExclude: TomlValue, exclude: TomlValue, extendExclude: TomlValue): (r: Option<set<string>>)
    ensures r.Some? <==> StringList(WrapString(pyciExclude)) && StringList(WrapString(exclude)) && StringList(WrapString(extendExclude))
    ensures r.Some? ==> r.value == StringItems(WrapString(pyciExclude)) + StringItems(WrapString(exclude)) + StringItems(WrapString(extendExclude))
  {
    var a, b, c := WrapString(pyciExclude), WrapString(exclude), WrapString(extendExclude);
    if StringList(a) && StringList(b) && StringList(c) then Some(StringItems(a) + StringItems(b) + StringItems(c)) else None
  }

  /** An entry without its trailing "/" characters. */
  function Trimmed(item: string): string
  {
    RStripChar(item, '/')
  }

  /** The file rule: the basename has a "." and the entry does not start with ".". */
  predicate IsFileExclude(item: string) {
    Contains(Basename(item), ".") && !StartsWith(item, ".")
  }

  /** The entries of `merged` whose normal form is `e`. */
  function NormalisingTo(merged: set<string>, trim: string -> string, e: string): set<string>
  {
    set x | x in merged && trim(x) == e
  }

  /**
    `dirs` and `files` sort the normalised entries of `merged`: one list
    entry per merged entry (each value as often as there are merged entries
    normalising to it), each normalised entry in the list the rule selects,
    and nothing else.
   */
  ghost predicate SortedBy(merged: set<string>, dirs: seq<string>, files: seq<string>,
                     trim: string -> string, isFile: string -> bool) {
    |dirs| + |files| == |merged|
    && (forall e :: multiset(dirs)[e] + multiset(files)[e] == |NormalisingTo(merged, trim, e)|)
    && (forall x :: x in merged && isFile(trim(x)) ==> trim(x) in files)
    && (forall x :: x in merged && !isFile(trim(x)) ==> trim(x) in dirs)
    && (forall e :: e in files ==> isFile(e) && exists x :: x in merged && trim(x) == e)
    && (forall e :: e in dirs ==> !isFile(e) && exists x :: x in merged && trim(x) == e)
  }

  /** The exclusion lists of the configuration classify the merged set by the file rule, after trimming. */
  ghost predicate Classifies(merged: set<string>, dirs: seq<string>, files: seq<string>) {
    SortedBy(merged, dirs, files, Trimmed, IsFileExclude)
  }

  /** Sorting one more entry extends the sorting of the entries seen so far. */
  lemma SortStep(done: set<string>, dirs: seq<string>, files: seq<string>,
                 trim: string -> string, isFile: string -> bool, item: string)
    requires SortedBy(done, dirs, files, trim, isFile)
    requires item !in done
    ensures isFile(trim(item)) ==> SortedBy(done + {item}, dirs, files + [trim(item)], trim, isFile)
    ensures !isFile(trim(item)) ==> SortedBy(done + {item}, dirs + [trim(item)], files, trim, isFile)
  {
    assert |done + {item}| == |done| + 1;
    NormalisingStep(done, trim, item);
    if isFile(trim(item)) {
      assert multiset(files + [trim(item)]) == multiset(files) + multiset{trim(item)};
    } else {
      assert multiset(dirs + [trim(item)]) == multiset(dirs) + multiset{trim(item)};
    }
  }

  /** One more entry adds one to the count of its own normal form only. */
  lemma NormalisingStep(done: set<string>, trim: string -> string, item: string)
    requires item !in done
    ensures forall e :: |NormalisingTo(done + {item}, trim, e)|
                        == |NormalisingTo(done, trim, e)| + (if trim(item) == e then 1 else 0)
  {
    forall e
      ensures |NormalisingTo(done + {item}, trim, e)| == |NormalisingTo(done, trim, e)| + (if trim(item) == e then 1 else 0)
    {
      if trim(item) == e {
        assert NormalisingTo(done + {item}, trim, e) == NormalisingTo(done, trim, e) + {item};
      } else {
        assert NormalisingTo(done + {item}, trim, e) == NormalisingTo(done, trim, e);
      }
    }
  }

  /** The lists after sorting the entries in the order given. */
  function SortInOrder(order: seq<string>, trim: string -> string, isFile: string -> bool): (seq<string>, seq<string>)
  {
    if order == [] then ([], [])
    else
      var lists := SortInOrder(order[..|order| - 1], trim, isFile);
      var normal := trim(order[|order| - 1]);
      if isFile(normal) then (lists.0, lists.1 + [normal]) else (lists.0 + [normal], lists.1)
  }

  /** Sorting one more entry appends its normal form to the list the rule selects. */
  lemma SortInOrderSnoc(order: seq<string>, item: string, trim: string -> string, isFile: string -> bool)
    ensures isFile(trim(item)) ==>
              SortInOrder(order + [item], trim, isFile)
              == (SortInOrder(order, trim, isFile).0, SortInOrder(order, trim, isFile).1 + [trim(item)])
    ensures !isFile(trim(item)) ==>
              SortInOrder(order + [item], trim, isFile)
              == (SortInOrder(order, trim, isFile).0 + [trim(item)], SortInOrder(order, trim, isFile).1)
  {
    assert (order + [item])[..|order|] == order;
  }

  /** The entries of `order`, as a set. */
  function Members(order: seq<string>): (r: set<string>)
    ensures forall x :: x in r <==> x in order
  {
    set x | x in order
  }

  predicate Distinct(order: seq<string>) {
    forall i, j :: 0 <= i < j < |order| ==> order[i] != order[j]
  }

  /** Whatever order a set is visited in, the lists sort it. */
  lemma {:induction false} InOrderSorts(order: seq<string>, trim: string -> string, isFile: string -> bool)
    requires Distinct(order)
    ensures SortedBy(Members(order), SortInOrder(order, trim, isFile).0, SortInOrder(order, trim, isFile).1, trim, isFile)
    decreases |order|
  {
    if order != [] {
      var init := order[..|order| - 1];
      var item := order[|order| - 1];
      InOrderSorts(init, trim, isFile);
      assert Members(order) == Members(init) + {item} by {
        assert order == init + [item];
      }
      var lists := SortInOrder(init, trim, isFile);
      SortStep(Members(init), lists.0, lists.1, trim, isFile, item);
    }
  }

  /** Visiting one more unvisited element keeps the visit order distinct and the partition exact. */
  lemma VisitOne(order: seq<string>, rest: set<string>, all: set<string>, item: string)
    requires Distinct(order)
    requires Members(order) + rest == all && Members(order) !! rest
    requires item in rest
    ensures Distinct(order + [item])
    ensures Members(order + [item]) + (rest - {item}) == all && Members(order + [item]) !! (rest - {item})
    ensures |rest - {item}| < |rest|
  {
    assert Members(order + [item]) == Members(order) + {item};
  }

  /**
    The classification loop over a set of entries: each entry normalised by
    `trim` goes to `files` when `isFile` holds of it and to `dirs` otherwise,
    visiting the entries in the set's iteration order `order`.
   */
  method SortEntries(merged: set<string>, trim: string -> string, isFile: string -> bool)
    returns (dirs: seq<string>, files: seq<string>, ghost order: seq<string>)
    ensures Distinct(order) && Members(order) == merged
    ensures (dirs, files) == SortInOrder(order, trim, isFile)
  {
    dirs, files := [], [];
    var rest := merged;
    order := [];
    while rest != {}
      invariant Distinct(order)
      invariant Members(order) + rest == merged && Members(order) !! rest
      invariant dirs == SortInOrder(order, trim, isFile).0 && files == SortInOrder(order, trim, isFile).1
      decreases |rest|
    {
      var item :| item in rest;
      SortInOrderSnoc(order, item, trim, isFile);
      var normal := trim(item);
      if isFile(normal) {
        files := files + [normal];
      } else {
        dirs := dirs + [normal];
      }
      VisitOne(order, rest, merged, item);
      order := order + [item];
      rest := rest - {item};
    }
  }

  /** The source's classification: trailing "/" trimmed, then the file rule. */
  method ClassifyExcludes(merged: set<string>) returns (dirs: seq<string>, files: seq<string>)
    ensures Classifies(merged, dirs, files)
  {
    ghost var order;
    dirs, files, order := SortEntries(merged, Trimmed, IsFileExclude);
    InOrderSorts(order, Trimmed, IsFileExclude);
  }

  /**
    `get_ruff_config_from_pyproject` once the file is found and read: empty
    settings without a readable file; otherwise the `src` list and the
    classified exclusions, or `Raises` when a section is not a table or an
    exclusion value is not a string or a list of strings.
   */
  ghost predicate ConfigFrom(found: Option<Path>, read: Path -> TomlLoad, r: Outcome<RuffConfig>) {
    if found.None? || read(found.value).LoadFailed? then r == Returns(EmptyConfig)
    else
      var data := read(found.value).data;
      var ruff := ToolSection(data, "ruff");
      var pyci := ToolSection(data, "pyci-check");
      if ruff.Raises? || pyci.Raises? then r.Raises?
      else
        var merged := MergedExcludes(Get(pyci.value, "exclude", Arr([])), Get(ruff.value, "exclude", Arr([])),
                                     Get(ruff.value, "extend-exclude", Arr([])));
        if merged.None? then r.Raises?
        else
          r.Returns? && r.value.src == WrapString(Get(ruff.value, "src", Arr([])))
          && Classifies(merged.value, r.value.excludeDirs, r.value.excludeFiles)
  }

  method GetRuffConfig(projectDir: Path, existing: set<Path>, read: Path -> TomlLoad) returns (r: Outcome<RuffConfig>)
    ensures ConfigFrom(NearestHolding(projectDir, ConfigFileName, existing), read, r)
  {
    var found := FindPyprojectToml(projectDir, existing);
    if found.None? {
      return Returns(EmptyConfig);
    }
    var load := read(found.value);
    if load.LoadFailed? {
      return Returns(EmptyConfig);
    }
    var ruff := ToolSection(load.data, "ruff");
    var pyci := ToolSection(load.data, "pyci-check");
    if ruff.Raises? || pyci.Raises? {
      return Raises;
    }
    var src := WrapString(Get(ruff.value, "src", Arr([])));
    var merged := MergedExcludes(Get(pyci.value, "exclude", Arr([])), Get(ruff.value, "exclude", Arr([])),
                                 Get(ruff.value, "extend-exclude", Arr([])));
    if merged.None? {
      return Raises;
    }
    var dirs, files := ClassifyExcludes(merged.value);
    return Returns(RuffConfig(src, dirs, files));
  }

  /** Without a configuration file every setting is empty. */
  lemma NoConfigMeansEmpty(projectDir: Path, existing: set<Path>, read: Path -> TomlLoad, r: Outcome<RuffConfig>)
    requires NearestHolding(projectDir, ConfigFileName, existing).None?
    requires ConfigFrom(NearestHolding(projectDir, ConfigFileName, existing), read, r)
    ensures r == Returns(RuffConfig(Arr([]), [], []))
  {
  }

  /** Every merged entry lands in exactly one of the two lists, after trimming, by the file rule. */
  lemma ClassificationIsExclusive(merged: set<string>, dirs: seq<string>, files: seq<string>, x: string)
    requires Classifies(merged, dirs, files)
    requires x in merged
    ensures IsFileExclude(Trimmed(x)) <==> Trimmed(x) in files
    ensures !IsFileExclude(Trimmed(x)) <==> Trimmed(x) in dirs
    ensures !(Trimmed(x) in files && Trimmed(x) in dirs)
  {
  }

  /** A name without "/" is its own basename. */
  lemma BasenameOfPlain(name: string)
    requires '/' !in name
    ensures Basename(name) == name
  {
    SplitWithoutSeparator(name, '/');
  }

  /** A file name with an extension is a file entry. */
  lemma ModuleFileIsFileEntry(name: string)
    requires name == "app.py"
    ensures IsFileExclude(name)
  {
    BasenameOfPlain(name);
    assert OccursAt(name, ".", 3);
  }

  /** A name without a dot is a directory entry. */
  lemma DotlessNameIsDirEntry(name: string)
    requires name == "build"
    ensures !IsFileExclude(name)
  {
    BasenameOfPlain(name);
    assert !Contains(name, ".") by {
      forall i: nat | i <= |name| ensures !OccursAt(name, ".", i) {
        OccursAtChar(name, '.', i);
      }
    }
  }

  /** A leading dot makes a directory entry even though the name holds a dot. */
  lemma HiddenNameIsDirEntry(name: string)
    requires name == ".venv"
    ensures !IsFileExclude(name)
  {
  }

  /** Trailing "/" characters are dropped before the rule applies. */
  lemma TrailingSlashIsTrimmed(name: string)
    requires name == "build/"
    ensures Trimmed(name) == "build"
  {
    assert name[..5] == "build";
    assert RStripChar(name, '/') == RStripChar("build", '/');
  }

  /**
    `get_venv_from_pyproject` once the file is found and read: the
    `venv` entry of `[tool.pyci-check]` when it is a non-empty string.
   */
  function VenvFrom(found: Option<Path>, read: Path -> TomlLoad): (r: Outcome<Option<string>>)
    ensures found.None? ==> r == Returns(None)
    ensures r.Returns? && r.value.Some? ==> r.value.value != ""
  {
    if found.None? then Returns(None)
    else
      match read(found.value)
      case LoadFailed => Returns(None)
      case Loaded(data) =>
        match ToolSection(data, "pyci-check")
        case Raises => Raises
        case Returns(section) =>
          if "venv" in section && IsNonEmptyStr(section["venv"]) then Returns(Some(section["venv"].s))
          else Returns(None)
  }

  /** The configured venv is used exactly when it is a non-empty string. */
  lemma VenvOnlyFromNonEmptyString(dir: Path, read: Path -> TomlLoad, section: map<string, TomlValue>)
    requires read(dir).Loaded? && ToolSection(read(dir).data, "pyci-check") == Returns(section)
    ensures VenvFrom(Some(dir), read).Returns?
    ensures VenvFrom(Some(dir), read).value.Some? <==> "venv" in section && IsNonEmptyStr(section["venv"])
    ensures VenvFrom(Some(dir), read).value.Some? ==> VenvFrom(Some(dir), read).value.value == section["venv"].s
  {
  }

  method GetVenvFromPyproject(projectDir: Path, existing: set<Path>, read: Path -> TomlLoad) returns (r: Outcome<Option<string>>)
    ensures r == VenvFrom(NearestHolding(projectDir, ConfigFileName, existing), read)
  {
    var found := FindPyprojectToml(projectDir, existing);
    r := VenvFrom(found, read);
  }
}
