/**
  The execution resolver `check_module_importable` and the interpreter
  choice `find_python_executable`: after the module-name guard, a child
  interpreter is started on a short script that imports the module, with
  the project on `PYTHONPATH` and a sandboxed environment, and its exit is
  mapped to an error. The child process, the environment, the file system
  and `sys.executable` are parameters.
 */
module ExecResolver {
  import opened Wrappers
  import opened Strings
  import opened Paths
  import opened ModuleNames
  import opened ImportRecords

  /** The interpreters tried inside a virtual environment: uv's `.venv`, a POSIX venv, a Windows venv. */
  function UvPython(venv: Path): Path { venv + [".venv", "bin", "python"] }
  function StdPython(venv: Path): Path { venv + ["bin", "python"] }
  function WinPython(venv: Path): Path { venv + ["Scripts", "python.exe"] }

  /**
    `find_python_executable`: the first of the venv's interpreters that
    exists, else the running interpreter. `venv` is `None` when no venv, or
    an empty one, is configured.
   */
  function FindPythonExecutable(venv: Option<Path>, existing: set<Path>, sysExecutable: string): (r: string)
    ensures venv.None? ==> r == sysExecutable
    ensures r != sysExecutable ==>
              && venv.Some?
              && ((UvPython(venv.value) in existing && r == Render(UvPython(venv.value)))
                  || (StdPython(venv.value) in existing && r == Render(StdPython(venv.value)))
                  || (WinPython(venv.value) in existing && r == Render(WinPython(venv.value))))
  {
    if venv.Some? && UvPython(venv.value) in existing then Render(UvPython(venv.value))
    else if venv.Some? && StdPython(venv.value) in existing then Render(StdPython(venv.value))
    else if venv.Some? && WinPython(venv.value) in existing then Render(WinPython(venv.value))
    else sysExecutable
  }

  /** A uv environment wins over a plain venv layout in the same directory. */
  lemma UvInterpreterPreferred(venv: Path, existing: set<Path>, sysExecutable: string)
    requires UvPython(venv) in existing
    ensures FindPythonExecutable(Some(venv), existing, sysExecutable) == Render(UvPython(venv))
  {
  }

  /** Without uv's layout, a POSIX venv's interpreter comes next. */
  lemma StdInterpreterSecond(venv: Path, existing: set<Path>, sysExecutable: string)
    requires UvPython(venv) !in existing && StdPython(venv) in existing
    ensures FindPythonExecutable(Some(venv), existing, sysExecutable) == Render(StdPython(venv))
  {
  }

  /** The Windows layout is used only when neither POSIX layout exists. */
  lemma WindowsInterpreterLast(venv: Path, existing: set<Path>, sysExecutable: string)
    requires WinPython(venv) in existing
    ensures FindPythonExecutable(Some(venv), existing, sysExecutable) == Render(WinPython(venv))
            <==> UvPython(venv) !in existing && StdPython(venv) !in existing
  {
    RenderEndsWith(WinPython(venv));
    if UvPython(venv) in existing {
      RenderEndsWith(UvPython(venv));
      DifferentEndings(Render(UvPython(venv)), Render(WinPython(venv)), "python", "python.exe");
    } else if StdPython(venv) in existing {
      RenderEndsWith(StdPython(venv));
      DifferentEndings(Render(StdPython(venv)), Render(WinPython(venv)), "python", "python.exe");
    }
  }

  /** Strings ending in different last characters differ. */
  lemma DifferentEndings(a: string, b: string, x: string, y: string)
    requires x != [] && y != [] && x[|x| - 1] != y[|y| - 1]
    requires EndsWith(a, x) && EndsWith(b, y)
    ensures a != b
  {
    assert a[|a| - 1] == x[|x| - 1];
    assert b[|b| - 1] == y[|y| - 1];
  }

  /** A rendered path ends with its last segment. */
  lemma RenderEndsWith(p: Path)
    requires |p| >= 1
    ensures EndsWith(Render(p), p[|p| - 1])
  {
    JoinEndsWith(p, "/");
    assert Render(p) == "/" + Join(p, "/");
  }

  lemma {:induction false} JoinEndsWith(parts: seq<string>, sep: string)
    requires |parts| >= 1
    ensures EndsWith(Join(parts, sep), parts[|parts| - 1])
    decreases |parts|
  {
    if |parts| > 1 {
      JoinEndsWith(parts[1..], sep);
      assert Join(parts, sep) == (parts[0] + sep) + Join(parts[1..], sep);
    }
  }

  /** Without a usable venv interpreter the running interpreter is used. */
  lemma FallsBackToRunningInterpreter(venv: Path, existing: set<Path>, sysExecutable: string)
    requires UvPython(venv) !in existing && StdPython(venv) !in existing && WinPython(venv) !in existing
    ensures FindPythonExecutable(Some(venv), existing, sysExecutable) == sysExecutable
  {
  }

  /** `os.pathsep` on POSIX. */
  const PathSeparator: char := ':'

  /**
    The directories put on `PYTHONPATH`: with a project, the project first
    and then each source directory that is a directory, in the order
    listed; without one, none.
   */
  function PythonPathEntries(projectDir: Option<Path>, srcDirs: seq<Path>, dirs: set<Path>): (r: seq<Path>)
    ensures projectDir.None? <==> r == []
    ensures projectDir.Some? ==> r == [projectDir.value] + ExistingUnder(projectDir.value, srcDirs, dirs)
  {
    if projectDir.None? then [] else [projectDir.value] + ExistingUnder(projectDir.value, srcDirs, dirs)
  }

  function RenderAll(entries: seq<Path>): (r: seq<string>)
    ensures |r| == |entries|
    ensures forall i :: 0 <= i < |entries| ==> r[i] == Render(entries[i])
  {
    seq(|entries|, i requires 0 <= i < |entries| => Render(entries[i]))
  }

  /** The new `PYTHONPATH`: the entries, then the inherited value when it is not empty, joined by the separator. */
  function PythonPathValue(entries: seq<Path>, current: string): string
  {
    Join(RenderAll(entries) + (if current != "" then [current] else []), [PathSeparator])
  }

  /** The environment the child starts from: `PYTHONPATH` rewritten when there are entries. */
  function WithPythonPath(environ: map<string, string>, entries: seq<Path>): map<string, string>
  {
    if entries == [] then environ
    else
      var current := if "PYTHONPATH" in environ then environ["PYTHONPATH"] else "";
      environ["PYTHONPATH" := PythonPathValue(entries, current)]
  }

  /** No segment of the path holds `c`. */
  predicate FreeOf(p: Path, c: char) {
    forall i :: 0 <= i < |p| ==> c !in p[i]
  }

  /**
    Splitting the new `PYTHONPATH` on the separator gives back the entries,
    in order, followed by the parts of the inherited value, when no entry
    holds the separator.
   */
  lemma {:induction false} PythonPathSplits(entries: seq<Path>, current: string)
    requires |entries| >= 1
    requires forall i :: 0 <= i < |entries| ==> FreeOf(entries[i], PathSeparator)
    ensures Split(PythonPathValue(entries, current), PathSeparator)
            == RenderAll(entries) + (if current != "" then Split(current, PathSeparator) else [])
  {
    var rendered := RenderAll(entries);
    forall i | 0 <= i < |rendered| ensures PathSeparator !in rendered[i] {
      NotInJoin(entries[i], "/", PathSeparator);
    }
    SplitJoin(rendered, PathSeparator);
    if current != "" {
      JoinAppend(rendered, current, [PathSeparator]);
      SplitAppend(Join(rendered, [PathSeparator]), current, PathSeparator);
    } else {
      assert rendered + [] == rendered;
    }
  }

  /** Joining with one more part appends the separator and the part. */
  lemma {:induction false} JoinAppend(parts: seq<string>, last: string, sep: string)
    requires |parts| >= 1
    ensures Join(parts + [last], sep) == Join(parts, sep) + sep + last
    decreases |parts|
  {
    if |parts| > 1 {
      JoinAppend(parts[1..], last, sep);
      assert (parts + [last])[1..] == parts[1..] + [last];
    }
  }

  /** Environment variables whose names start with these are withheld from the child. */
  const SensitivePrefixes: set<string> := {"AWS", "SECRET", "TOKEN", "KEY", "PASSWORD"}

  predicate Sensitive(key: string) {
    exists prefix :: prefix in SensitivePrefixes && StartsWith(key, prefix)
  }

  /** The variables set for the child whatever it inherits: no bytecode, no interactive mode, no buffering. */
  const Overrides: map<string, string> :=
    map["PYTHONDONTWRITEBYTECODE" := "1", "PYTHONINSPECT" := "0", "PYTHONUNBUFFERED" := "1"]

  /** The child's environment: the inherited variables minus the sensitive ones, then the overrides. */
  function SandboxEnv(environ: map<string, string>): (r: map<string, string>)
    ensures forall k :: k in r <==> (k in environ && !Sensitive(k)) || k in Overrides
    ensures forall k :: k in Overrides ==> r[k] == Overrides[k]
    ensures forall k :: k in environ && !Sensitive(k) && k !in Overrides ==> r[k] == environ[k]
  {
    var kept := map k | k in environ && !Sensitive(k) :: environ[k];
    kept["PYTHONDONTWRITEBYTECODE" := "1"]["PYTHONINSPECT" := "0"]["PYTHONUNBUFFERED" := "1"]
  }

  /** The overrides are not themselves sensitive names, so the child sees no sensitive variable at all. */
  lemma SandboxHasNoSensitiveKey(environ: map<string, string>)
    ensures forall k :: k in SandboxEnv(environ) ==> !Sensitive(k)
  {
    forall k | k in Overrides ensures !Sensitive(k) {
      assert k[0] == 'P' && k[1] == 'Y';
      forall prefix | prefix in SensitivePrefixes ensures !StartsWith(k, prefix) {
        if prefix == "PASSWORD" {
          assert k[..8][1] != prefix[1];
        } else {
          assert k[..|prefix|][0] != prefix[0];
        }
      }
    }
  }

  /** Only a name's prefix is checked: a token whose name merely contains "TOKEN" is passed to the child. */
  lemma SuffixedSecretPassedThrough(environ: map<string, string>, key: string)
    requires key == "GITHUB_TOKEN" && key in environ
    ensures key in SandboxEnv(environ) && SandboxEnv(environ)[key] == environ[key]
  {
    forall prefix | prefix in SensitivePrefixes ensures !StartsWith(key, prefix) {
      assert key[..|prefix|][0] == 'G';
    }
  }

  /** The text of the check script before and after the module name. */
  const ScriptHead: string :=
    "\nimport sys\nimport os\n\n# \U{7981}\U{6B62}\U{5BEB}\U{5165}\U{64CD}\U{4F5C}\nsys.dont_write_bytecode = True\n\ntry:\n    __import__('"
  const ScriptTail: string := "')" + ScriptEnd
  const ScriptEnd: string :=
    "\n    sys.exit(0)\nexcept Exception as e:\n    print(str(e), file=sys.stderr)\n    sys.exit(1)\n"

  /** The check script with the module name substituted, as `str.format` does. */
  function ImportScript(name: string): string
  {
    ScriptHead + name + ScriptTail
  }

  /**
    For a name that passes the guard, the quoted argument of `__import__`
    in the script is exactly the name: nothing in it can end the literal,
    escape a character or start a new statement, and the closing quote
    follows it.
   */
  lemma GuardedNameStaysQuoted(name: string)
    requires Accepts(name)
    ensures var s := ImportScript(name);
            && s[..|ScriptHead|] == ScriptHead
            && s[|ScriptHead|..|ScriptHead| + |name|] == name
            && s[|ScriptHead| + |name|] == '\''
            && forall i :: |ScriptHead| <= i < |ScriptHead| + |name| ==> s[i] != '\'' && s[i] != '\\' && s[i] != '\n'
  {
    AcceptedNameIsInert(name);
    var s := ImportScript(name);
    assert ScriptTail[0] == '\'';
    assert s[|ScriptHead| + |name|] == ScriptTail[0];
    assert forall i :: |ScriptHead| <= i < |ScriptHead| + |name| ==> s[i] == name[i - |ScriptHead|];
  }

  /** How the child process ended, or what stopped it from being run. */
  datatype ProcessOutcome =
    | Exited(code: int, stderr: string)
    | TimedOut
    | OSErr(message: string)
    | OtherErr(message: string)

  /** One child process: its argument vector, environment, working directory and timeout. */
  datatype Invocation = Invocation(argv: seq<string>, env: map<string, string>, cwd: Option<Path>, timeout: int)

  /** The outside world the resolver sees: directories, files, the inherited environment, the running interpreter, and the child process. */
  datatype ExecWorld = ExecWorld(
    dirs: set<Path>,
    existing: set<Path>,
    environ: map<string, string>,
    sysExecutable: string,
    run: Invocation -> ProcessOutcome)

  /** The child the resolver starts for an accepted name. */
  function InvocationFor(name: string, projectDir: Option<Path>, srcDirs: seq<Path>, timeout: int,
                         venv: Option<Path>, world: ExecWorld): Invocation
  {
    var env := WithPythonPath(world.environ, PythonPathEntries(projectDir, srcDirs, world.dirs));
    Invocation([FindPythonExecutable(venv, world.existing, world.sysExecutable), "-c", ImportScript(name)],
               SandboxEnv(env), projectDir, timeout)
  }

  /**
    The error text for a non-zero exit, as written: the last line of the
    stripped stderr when stderr is not empty, else a fixed text.
   */
  function ExitErrorAsWritten(stderr: string): string
  {
    var lines := if stderr != "" then Split(Strip(stderr), '\n') else [];
    if lines != [] then Last(lines) else "Unknown error"
  }

  /**
    The discrepancy: an exception with an empty message makes the child
    write a bare newline and exit with status 1, and the error text is then
    empty, which the coordinator reads as success.
   */
  lemma BlankStderrIsFalsyAsWritten()
    ensures ExitErrorAsWritten("\n") == ""
    ensures !Truthy(Some(ImportFailed(ExitErrorAsWritten("\n"))))
  {
    assert IsSpace('\n');
    assert RStrip("\n") == RStrip("");
    assert Strip("\n") == "";
  }

  /** The error text for a non-zero exit: the last line of the stripped stderr, or a fixed text when nothing is left. */
  function ExitError(stderr: string): (r: string)
    ensures r != ""
  {
    var stripped := Strip(stderr);
    if stripped == "" then "Unknown error"
    else
      StripEndsInText(stderr);
      LastPartNonEmpty(stripped, '\n');
      Last(Split(stripped, '\n'))
  }

  lemma StripEndsInText(s: string)
    requires Strip(s) != ""
    ensures Strip(s)[|Strip(s)| - 1] != '\n'
  {
    var r := RStrip(s);
    assert Strip(s) == r[|r| - |Strip(s)|..];
    assert Strip(s)[|Strip(s)| - 1] == r[|r| - 1];
  }

  /** Where stderr has text, the corrected error text agrees with the source's. */
  lemma ExitErrorAgreesOnText(stderr: string)
    requires Strip(stderr) != ""
    ensures ExitError(stderr) == ExitErrorAsWritten(stderr)
  {
  }

  /**
    `check_module_importable`: the resolver's answer, `None` when the child
    imported the module. With `asWritten` the source's guard and error text
    are used, otherwise the corrected ones (`Accepts`, `ExitError`).
   */
  function ExecResolution(name: string, projectDir: Option<Path>, srcDirs: seq<Path>, timeout: int,
                          venv: Option<Path>, world: ExecWorld, asWritten: bool): Option<ResolveError>
  {
    if !(if asWritten then MatchesAsWritten(name) else Accepts(name)) then Some(InvalidModuleName(name))
    else
      match world.run(InvocationFor(name, projectDir, srcDirs, timeout, venv, world))
      case Exited(code, stderr) =>
        if code != 0 then Some(ImportFailed(if asWritten then ExitErrorAsWritten(stderr) else ExitError(stderr)))
        else None
      case TimedOut => Some(ImportTimeout(timeout))
      case OSErr(message) => Some(FailedToExecute(message))
      case OtherErr(message) => Some(UnexpectedError(message))
  }

  /** The module resolves exactly when its name passes the guard and the child exits with status 0. */
  lemma ExecResolvesIffCleanExit(name: string, projectDir: Option<Path>, srcDirs: seq<Path>, timeout: int,
                                 venv: Option<Path>, world: ExecWorld)
    ensures var r := ExecResolution(name, projectDir, srcDirs, timeout, venv, world, false);
            var outcome := world.run(InvocationFor(name, projectDir, srcDirs, timeout, venv, world));
            && (r.None? <==> Accepts(name) && outcome.Exited? && outcome.code == 0)
            && (Truthy(r) <==> r.Some?)
  {
  }

  /**
    As written, a child that exits with status 1 after printing a bare
    newline yields an error whose text reads as success; the corrected
    resolver reports a failure.
   */
  lemma BlankStderrResolvesAsWritten(name: string, projectDir: Option<Path>, srcDirs: seq<Path>, timeout: int,
                                     venv: Option<Path>, world: ExecWorld)
    requires Accepts(name)
    requires world.run(InvocationFor(name, projectDir, srcDirs, timeout, venv, world)) == Exited(1, "\n")
    ensures ExecResolution(name, projectDir, srcDirs, timeout, venv, world, true) == Some(ImportFailed(""))
    ensures !Truthy(ExecResolution(name, projectDir, srcDirs, timeout, venv, world, true))
    ensures Truthy(ExecResolution(name, projectDir, srcDirs, timeout, venv, world, false))
  {
    BlankStderrIsFalsyAsWritten();
  }

  /** A name the guard rejects is reported without starting any child: the result does not depend on the process. */
  lemma RejectedNameNeverRuns(name: string, projectDir: Option<Path>, srcDirs: seq<Path>, timeout: int,
                              venv: Option<Path>, world: ExecWorld, other: Invocation -> ProcessOutcome)
    requires !Accepts(name)
    ensures ExecResolution(name, projectDir, srcDirs, timeout, venv, world, false)
            == ExecResolution(name, projectDir, srcDirs, timeout, venv, world.(run := other), false)
            == Some(InvalidModuleName(name))
  {
  }

  /**
    The child runs in the project directory with the chosen interpreter,
    no sensitive variable, the overrides, and the project on `PYTHONPATH`.
   */
  lemma ChildIsSandboxed(name: string, project: Path, srcDirs: seq<Path>, timeout: int,
                         venv: Option<Path>, world: ExecWorld)
    ensures var inv := InvocationFor(name, Some(project), srcDirs, timeout, venv, world);
            && inv.cwd == Some(project)
            && inv.argv[0] == FindPythonExecutable(venv, world.existing, world.sysExecutable)
            && inv.timeout == timeout
            && (forall k :: k in inv.env ==> !Sensitive(k))
            && (forall k :: k in Overrides ==> k in inv.env && inv.env[k] == Overrides[k])
            && "PYTHONPATH" in inv.env
            && StartsWith(inv.env["PYTHONPATH"], Render(project))
  {
    var env := WithPythonPath(world.environ, PythonPathEntries(Some(project), srcDirs, world.dirs));
    SandboxHasNoSensitiveKey(env);
    assert !Sensitive("PYTHONPATH") by {
      forall prefix | prefix in SensitivePrefixes ensures !StartsWith("PYTHONPATH", prefix) {
        if prefix == "PASSWORD" {
          assert "PYTHONPATH"[..8][1] != prefix[1];
        } else {
          assert "PYTHONPATH"[..|prefix|][0] != prefix[0];
        }
      }
    }
    var entries := PythonPathEntries(Some(project), srcDirs, world.dirs);
    var current := if "PYTHONPATH" in world.environ then world.environ["PYTHONPATH"] else "";
    var parts := RenderAll(entries) + (if current != "" then [current] else []);
    assert parts[0] == Render(project);
    JoinStartsWithFirst(parts, [PathSeparator]);
  }

  lemma JoinStartsWithFirst(parts: seq<string>, sep: string)
    requires |parts| >= 1
    ensures StartsWith(Join(parts, sep), parts[0])
  {
    if |parts| > 1 {
      assert Join(parts, sep) == parts[0] + (sep + Join(parts[1..], sep));
    }
  }
}
