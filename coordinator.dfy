/**
  The resolution coordinator `check_missing_modules`: group the import
  occurrences by module, leave out the interpreter's built-in modules, check
  each remaining module once with the chosen resolver, and for every module
  that fails record the error on each of its occurrences and report them.
  The modules are checked in whatever order the pool completes them.
 */
module Coordinator {
  import opened Wrappers
  import opened Paths
  import opened Utils
  import opened ImportRecords
  import opened StaticResolver
  import opened ExecResolver
  import opened CompletionOrder
  import opened ModuleNames

  /** Names treated as built in on top of the interpreter's own list. */
  const ImplicitBuiltins: set<string> := {"__main__", "__future__", "__builtins__"}

  /** `sys.builtin_module_names` plus the implicit names: never checked. */
  function Builtins(builtinNames: set<string>): (r: set<string>)
    ensures builtinNames <= r && ImplicitBuiltins <= r
    ensures forall m :: m in r ==> m in builtinNames || m in ImplicitBuiltins
  {
    builtinNames + ImplicitBuiltins
  }

  /**
    The caller's choices: project, source directories, timeout, venv, and
    which resolver to use. `asWritten` selects the execution resolver's guard
    and error text as the source has them rather than the corrected ones.
   */
  datatype Settings = Settings(
    projectDir: Option<Path>,
    srcDirs: seq<Path>,
    timeout: int,
    venv: Option<Path>,
    useStatic: bool,
    asWritten: bool)

  /** The error the chosen resolver reports for one module, given the search path the static resolver starts from. */
  function Resolution(name: string, settings: Settings, searchPath: seq<Path>, world: ExecWorld,
                      findSpec: (string, seq<Path>) -> SpecResult): Option<ResolveError>
  {
    if settings.useStatic then StaticResolution(name, searchPath, settings.projectDir, settings.srcDirs, world.existing, findSpec)
    else ExecResolution(name, settings.projectDir, settings.srcDirs, settings.timeout, settings.venv, world, settings.asWritten)
  }

  /**
    With the static resolver, or with the corrected execution resolver, a
    reported error is never the empty text: a module fails exactly when it
    has an error.
   */
  lemma FailsIffError(name: string, settings: Settings, searchPath: seq<Path>, world: ExecWorld,
                      findSpec: (string, seq<Path>) -> SpecResult)
    ensures settings.useStatic || !settings.asWritten ==>
              (Truthy(Resolution(name, settings, searchPath, world, findSpec))
               <==> Resolution(name, settings, searchPath, world, findSpec).Some?)
  {
    if settings.useStatic {
      StaticErrorKinds(name, searchPath, settings.projectDir, settings.srcDirs, world.existing, findSpec);
    } else if !settings.asWritten {
      ExecResolvesIffCleanExit(name, settings.projectDir, settings.srcDirs, settings.timeout, settings.venv, world);
    }
  }

  /** The modules named by some occurrence. */
  function Names(imports: seq<ImportInfo>): set<string>
  {
    set info | info in imports :: info.Module()
  }

  /** The occurrences of module `name`, in input order. */
  function Occurrences(imports: seq<ImportInfo>, name: string): seq<ImportInfo>
  {
    if imports == [] then []
    else Occurrences(imports[..|imports| - 1], name)
         + (if imports[|imports| - 1].Module() == name then [imports[|imports| - 1]] else [])
  }

  /** The occurrences of `name` are exactly the elements of the input for module `name`; none when no occurrence names it. */
  lemma {:induction false} OccurrencesMembers(imports: seq<ImportInfo>, name: string)
    ensures forall info :: info in Occurrences(imports, name) ==> info in imports && info.Module() == name
    ensures forall info :: info in imports && info.Module() == name ==> info in Occurrences(imports, name)
    ensures name !in Names(imports) ==> Occurrences(imports, name) == []
    decreases |imports|
  {
    if imports != [] {
      var init, last := imports[..|imports| - 1], imports[|imports| - 1];
      OccurrencesMembers(init, name);
      assert imports == init + [last];
      assert forall info :: info in imports <==> info in init || info == last;
      if name !in Names(imports) {
        assert last.Module() in Names(imports);
        assert name !in Names(init);
      }
    }
  }

  /** `modules_by_name`: each module that is not built in, with its occurrences. */
  function Grouped(imports: seq<ImportInfo>, builtins: set<string>): map<string, seq<ImportInfo>>
  {
    map name | name in Names(imports) && name !in builtins :: Occurrences(imports, name)
  }

  /** One more occurrence extends the module set by its module. */
  lemma NamesSnoc(imports: seq<ImportInfo>, i: nat)
    requires i < |imports|
    ensures Names(imports[..i + 1]) == Names(imports[..i]) + {imports[i].Module()}
  {
    assert forall info :: info in imports[..i + 1] <==> info in imports[..i] || info == imports[i];
  }

  /** One more occurrence is appended to its own module's occurrences only. */
  lemma OccurrencesSnoc(imports: seq<ImportInfo>, i: nat, name: string)
    requires i < |imports|
    ensures Occurrences(imports[..i + 1], name)
            == Occurrences(imports[..i], name) + (if imports[i].Module() == name then [imports[i]] else [])
  {
    var s := imports[..i + 1];
    assert s[..|s| - 1] == imports[..i] && s[|s| - 1] == imports[i];
  }

  /** Adding one occurrence appends it to its module's group, unless the module is built in. */
  lemma GroupedSnoc(imports: seq<ImportInfo>, i: nat, builtins: set<string>)
    requires i < |imports|
    ensures var g := Grouped(imports[..i], builtins);
            var name := imports[i].Module();
            Grouped(imports[..i + 1], builtins)
            == if name in builtins then g else g[name := (if name in g then g[name] else []) + [imports[i]]]
  {
    var g, h := Grouped(imports[..i], builtins), Grouped(imports[..i + 1], builtins);
    var name := imports[i].Module();
    var rhs := if name in builtins then g else g[name := (if name in g then g[name] else []) + [imports[i]]];
    NamesSnoc(imports, i);
    assert h.Keys == rhs.Keys;
    forall n | n in h.Keys
      ensures h[n] == rhs[n]
    {
      OccurrencesSnoc(imports, i, n);
      if n == name && n !in g {
        assert n !in Names(imports[..i]);
        OccurrencesMembers(imports[..i], n);
      }
    }
  }

  /** The grouping loop over the occurrences. */
  method GroupByModule(imports: seq<ImportInfo>, builtins: set<string>) returns (byName: map<string, seq<ImportInfo>>)
    ensures byName == Grouped(imports, builtins)
  {
    byName := map[];
    for i := 0 to |imports|
      invariant byName == Grouped(imports[..i], builtins)
    {
      GroupedSnoc(imports, i, builtins);
      var name := imports[i].Module();
      if name !in builtins {
        var group := if name in byName then byName[name] else [];
        byName := byName[name := group + [imports[i]]];
      }
    }
    assert imports[..|imports|] == imports;
  }

  /** `info["error"] = error` for each occurrence of a failed module. */
  method RecordError(group: seq<ImportInfo>, error: Option<ResolveError>)
    modifies set info | info in group
    ensures forall info :: info in group ==> info.error == error
  {
    for j := 0 to |group|
      invariant forall info :: info in group[..j] ==> info.error == error
    {
      group[j].error := error;
      assert group[..j + 1] == group[..j] + [group[j]];
    }
    assert group[..|group|] == group;
  }

  /** One module's check with the resolver the settings choose. */
  method CheckOne(name: string, settings: Settings, sysPath: ModuleSearchPath, world: ExecWorld,
                  findSpec: (string, seq<Path>) -> SpecResult) returns (error: Option<ResolveError>)
    modifies sysPath
    ensures sysPath.entries == old(sysPath.entries)
    ensures error == Resolution(name, settings, old(sysPath.entries), world, findSpec)
  {
    if settings.useStatic {
      error := sysPath.CheckStatic(name, settings.projectDir, settings.srcDirs, world.existing, findSpec);
    } else {
      error := ExecResolution(name, settings.projectDir, settings.srcDirs, settings.timeout, settings.venv, world, settings.asWritten);
    }
  }

  /** The report after the modules in `done` were checked: the failed ones, with their occurrences. */
  function Missing(byName: map<string, seq<ImportInfo>>, done: set<string>, checker: Checker): map<string, seq<ImportInfo>>
  {
    map name | name in byName && name in done && Truthy(checker.ErrorOf(name)) :: byName[name]
  }

  /** Everything one module's check depends on besides the module's name. */
  datatype Checker = Checker(settings: Settings, searchPath: seq<Path>, world: ExecWorld,
                             findSpec: (string, seq<Path>) -> SpecResult)
  {
    /** The resolver's answer for module `name`. */
    function ErrorOf(name: string): Option<ResolveError> {
      Resolution(name, settings, searchPath, world, findSpec)
    }
  }

  /** Each group holds only occurrences of its own module. */
  predicate GroupsByModule(byName: map<string, seq<ImportInfo>>) {
    forall name, info :: name in byName && info in byName[name] ==> info.Module() == name
  }

  /**
    The occurrences after the modules of `missing` were reported: each
    occurrence of a reported module carries its module's error, every other
    occurrence in `infos` still has the error it had in `start`.
   */
  predicate Recorded(byName: map<string, seq<ImportInfo>>, infos: set<ImportInfo>,
                     start: map<ImportInfo, Option<ResolveError>>, missing: map<string, seq<ImportInfo>>, checker: Checker)
    reads infos
  {
    && (forall info :: info in infos ==> info in start)
    && (forall n, info :: n in byName && info in byName[n] && info in infos ==>
          info.error == if n in missing then checker.ErrorOf(n) else start[info])
    && (forall info :: info in infos && (forall n :: n in byName ==> info !in byName[n]) ==> info.error == start[info])
  }

  /** What `Recorded` says of one occurrence, given that its module's group is the one it sits in. */
  lemma RecordedMeans(byName: map<string, seq<ImportInfo>>, infos: set<ImportInfo>,
                      start: map<ImportInfo, Option<ResolveError>>, missing: map<string, seq<ImportInfo>>,
                      checker: Checker, done: set<string>)
    requires GroupsByModule(byName)
    requires missing == Missing(byName, done, checker) && Recorded(byName, infos, start, missing, checker)
    ensures forall info :: info in infos ==>
              info.error == if info.Module() in missing && info in missing[info.Module()]
                            then checker.ErrorOf(info.Module()) else start[info]
  {
    forall info | info in infos
      ensures info.error == if info.Module() in missing && info in missing[info.Module()]
                            then checker.ErrorOf(info.Module()) else start[info]
    {
      var m := info.Module();
      if !(m in byName && info in byName[m]) {
        forall n | n in byName ensures info !in byName[n] {
          if info in byName[n] {
            assert false;
          }
        }
      }
    }
  }

  /**
    The body of the completion loop once module `name` has finished with
    `error`: when the error is set, every occurrence of the module carries
    it and the module joins the report.
   */
  method Report(byName: map<string, seq<ImportInfo>>, ghost infos: set<ImportInfo>,
                ghost start: map<ImportInfo, Option<ResolveError>>, ghost checker: Checker, ghost done: set<string>,
                name: string, error: Option<ResolveError>, missing: map<string, seq<ImportInfo>>)
    returns (missing': map<string, seq<ImportInfo>>)
    requires GroupsByModule(byName) && name in byName && name !in done
    requires forall n, info :: n in byName && info in byName[n] ==> info in infos
    requires error == checker.ErrorOf(name)
    requires missing == Missing(byName, done, checker) && Recorded(byName, infos, start, missing, checker)
    modifies infos
    ensures missing' == Missing(byName, done + {name}, checker) && Recorded(byName, infos, start, missing', checker)
  {
    MissingStep(byName, done, checker, name);
    assert name !in missing;
    missing' := missing;
    if Truthy(error) {
      RecordError(byName[name], error);
      missing' := missing[name := byName[name]];
      forall n, info | n in byName && info in byName[n] && n != name
        ensures info !in byName[name]
      {
        assert info.Module() == n;
      }
    }
  }

  /** One module of the completion loop: its check, then its report. */
  method Complete(byName: map<string, seq<ImportInfo>>, ghost infos: set<ImportInfo>,
                  ghost start: map<ImportInfo, Option<ResolveError>>, ghost checker: Checker, ghost done: set<string>,
                  name: string, settings: Settings, sysPath: ModuleSearchPath, world: ExecWorld,
                  findSpec: (string, seq<Path>) -> SpecResult, missing: map<string, seq<ImportInfo>>)
    returns (missing': map<string, seq<ImportInfo>>)
    requires GroupsByModule(byName) && name in byName && name !in done
    requires forall n, info :: n in byName && info in byName[n] ==> info in infos
    requires checker == Checker(settings, sysPath.entries, world, findSpec)
    requires missing == Missing(byName, done, checker) && Recorded(byName, infos, start, missing, checker)
    modifies sysPath, infos
    ensures sysPath.entries == old(sysPath.entries)
    ensures missing' == Missing(byName, done + {name}, checker) && Recorded(byName, infos, start, missing', checker)
  {
    var error := CheckOne(name, settings, sysPath, world, findSpec);
    missing' := Report(byName, infos, start, checker, done, name, error, missing);
  }

  /**
    The completion loop: each module is checked once, in the order the pool
    completes them, and a failed module's error is recorded on its group.
   */
  method ResolveGroups(byName: map<string, seq<ImportInfo>>, ghost infos: set<ImportInfo>, settings: Settings,
                       sysPath: ModuleSearchPath, world: ExecWorld, findSpec: (string, seq<Path>) -> SpecResult)
    returns (missing: map<string, seq<ImportInfo>>)
    requires GroupsByModule(byName)
    requires forall name, info :: name in byName && info in byName[name] ==> info in infos
    modifies sysPath, infos
    ensures sysPath.entries == old(sysPath.entries)
    ensures missing == Missing(byName, byName.Keys, Checker(settings, old(sysPath.entries), world, findSpec))
    ensures forall info :: info in infos ==>
              info.error == if info.Module() in missing && info in missing[info.Module()]
                            then Checker(settings, old(sysPath.entries), world, findSpec).ErrorOf(info.Module())
                            else old(info.error)
  {
    ghost var checker := Checker(settings, sysPath.entries, world, findSpec);
    ghost var start: map<ImportInfo, Option<ResolveError>> := map info | info in infos :: info.error;
    missing := ResolveAll(byName, infos, start, checker, settings, sysPath, world, findSpec);
    RecordedMeans(byName, infos, start, missing, checker, byName.Keys);
    assert forall info :: info in infos ==> start[info] == old(info.error);
  }

  /** The completion loop over all modules, from `Recorded` with nothing reported yet. */
  method ResolveAll(byName: map<string, seq<ImportInfo>>, ghost infos: set<ImportInfo>,
                    ghost start: map<ImportInfo, Option<ResolveError>>, ghost checker: Checker, settings: Settings,
                    sysPath: ModuleSearchPath, world: ExecWorld, findSpec: (string, seq<Path>) -> SpecResult)
    returns (missing: map<string, seq<ImportInfo>>)
    requires GroupsByModule(byName)
    requires forall name, info :: name in byName && info in byName[name] ==> info in infos
    requires checker == Checker(settings, sysPath.entries, world, findSpec)
    requires Recorded(byName, infos, start, map[], checker)
    modifies sysPath, infos
    ensures sysPath.entries == old(sysPath.entries)
    ensures missing == Missing(byName, byName.Keys, checker)
    ensures Recorded(byName, infos, start, missing, checker)
  {
    missing := map[];
    var pending := byName.Keys;
    ghost var done: set<string> := {};
    while pending != {}
      invariant pending + done == byName.Keys && pending !! done
      invariant sysPath.entries == old(sysPath.entries)
      invariant missing == Missing(byName, done, checker)
      invariant Recorded(byName, infos, start, missing, checker)
      decreases |pending|
    {
      var name :| name in pending;
      missing := Complete(byName, infos, start, checker, done, name, settings, sysPath, world, findSpec, missing);
      TakeOne(pending, done, byName.Keys, name);
      pending := pending - {name};
      done := done + {name};
    }
  }

  /**
    `check_missing_modules`. The result maps each failed module that is not
    built in to all its occurrences, in input order; each of those
    occurrences carries the module's error, every other occurrence keeps
    its own, and the interpreter's search path is as it was. When there is
    at least one module to check, a negative `max_workers` makes the pool
    raise `ValueError` (`refused`) before any module is checked.
   */
  method CheckMissingModules(imports: seq<ImportInfo>, builtinNames: set<string>, settings: Settings,
                             maxWorkers: Option<int>, cpuCount: Option<nat>,
                             sysPath: ModuleSearchPath, world: ExecWorld, findSpec: (string, seq<Path>) -> SpecResult)
    returns (missing: map<string, seq<ImportInfo>>, refused: bool)
    modifies sysPath, set info | info in imports
    ensures sysPath.entries == old(sysPath.entries)
    ensures refused <==> PoolRefused(maxWorkers, |Grouped(imports, Builtins(builtinNames)).Keys|, cpuCount)
    ensures refused ==> missing == map[]
    ensures !refused ==>
              missing == Missing(Grouped(imports, Builtins(builtinNames)), Names(imports),
                                 Checker(settings, old(sysPath.entries), world, findSpec))
    ensures forall info :: info in imports ==>
              info.error == if info.Module() in missing
                            then Resolution(info.Module(), settings, old(sysPath.entries), world, findSpec)
                            else old(info.error)
  {
    ghost var checker := Checker(settings, sysPath.entries, world, findSpec);
    var byName := GroupByModule(imports, Builtins(builtinNames));
    GroupedFacts(imports, Builtins(builtinNames));
    if byName == map[] {
      assert Missing(byName, Names(imports), checker) == map[];
      return map[], false;
    }
    if PoolSize(maxWorkers, |byName.Keys|, cpuCount) < 1 {
      return map[], true;
    }
    refused := false;
    ghost var infos := set info | info in imports;
    missing := ResolveGroups(byName, infos, settings, sysPath, world, findSpec);
    MissingOverAll(byName, imports, Builtins(builtinNames), checker);
  }

  /** The groups hold exactly the occurrences of modules that are not built in, each under its own module. */
  lemma GroupedFacts(imports: seq<ImportInfo>, builtins: set<string>)
    ensures GroupsByModule(Grouped(imports, builtins))
    ensures forall name, info :: name in Grouped(imports, builtins) && info in Grouped(imports, builtins)[name] ==> info in imports
    ensures forall info :: info in imports && info.Module() !in builtins ==>
              info.Module() in Grouped(imports, builtins) && info in Grouped(imports, builtins)[info.Module()]
  {
    var g := Grouped(imports, builtins);
    forall name, info | name in g && info in g[name]
      ensures info in imports && info.Module() == name
    {
      assert info in Occurrences(imports, name);
      OccurrencesMembers(imports, name);
    }
    forall info | info in imports && info.Module() !in builtins
      ensures info.Module() in g && info in g[info.Module()]
    {
      assert info.Module() in Names(imports);
      OccurrencesMembers(imports, info.Module());
    }
  }

  lemma MissingStep(byName: map<string, seq<ImportInfo>>, done: set<string>, checker: Checker, name: string)
    requires name in byName
    ensures Missing(byName, done + {name}, checker)
            == if Truthy(checker.ErrorOf(name)) then Missing(byName, done, checker)[name := byName[name]] else Missing(byName, done, checker)
  {
  }

  lemma MissingOverAll(byName: map<string, seq<ImportInfo>>, imports: seq<ImportInfo>, builtins: set<string>,
                       checker: Checker)
    requires byName == Grouped(imports, builtins)
    ensures Missing(byName, byName.Keys, checker) == Missing(byName, Names(imports), checker)
  {
  }

  /**
    The report names exactly the failed modules that some occurrence imports
    and that are not built in, each with all its occurrences: a module of
    `sys.builtin_module_names`, `__main__`, `__future__` or `__builtins__` is
    never reported, whatever its resolver would say.
   */
  lemma ReportedModules(imports: seq<ImportInfo>, builtinNames: set<string>, checker: Checker)
    ensures var missing := Missing(Grouped(imports, Builtins(builtinNames)), Names(imports), checker);
            && (forall m :: m in missing <==>
                  m in Names(imports) && m !in builtinNames && m !in ImplicitBuiltins && Truthy(checker.ErrorOf(m)))
            && (forall m :: m in missing ==> missing[m] == Occurrences(imports, m))
  {
  }

  /**
    As written, a module whose child exits with status 1 after printing a
    bare newline is left out of the report; with the corrected error text it
    is reported.
   */
  lemma BlankStderrUnreportedAsWritten(imports: seq<ImportInfo>, builtinNames: set<string>, checker: Checker,
                                       name: string)
    requires name in Names(imports) && name !in Builtins(builtinNames)
    requires !checker.settings.useStatic && Accepts(name)
    requires var s := checker.settings;
             checker.world.run(InvocationFor(name, s.projectDir, s.srcDirs, s.timeout, s.venv, checker.world))
             == Exited(1, "\n")
    ensures checker.settings.asWritten ==>
              name !in Missing(Grouped(imports, Builtins(builtinNames)), Names(imports), checker)
    ensures !checker.settings.asWritten ==>
              name in Missing(Grouped(imports, Builtins(builtinNames)), Names(imports), checker)
  {
    var s := checker.settings;
    var byName := Grouped(imports, Builtins(builtinNames));
    BlankStderrResolvesAsWritten(name, s.projectDir, s.srcDirs, s.timeout, s.venv, checker.world);
    assert checker.ErrorOf(name)
           == ExecResolution(name, s.projectDir, s.srcDirs, s.timeout, s.venv, checker.world, s.asWritten);
    assert name in byName;
    assert name in Missing(byName, Names(imports), checker) <==> Truthy(checker.ErrorOf(name));
  }
}
