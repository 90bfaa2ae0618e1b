/** Shared helpers: the worker-count formula and the path-exclusion test. */
module Utils {
  import opened Wrappers
  import opened Strings

  /** `os.cpu_count() or 1`: an unknown or zero count counts as one CPU. */
  function EffectiveCpuCount(cpuCount: Option<nat>): (n: nat)
    ensures n >= 1
    ensures cpuCount.None? || cpuCount.value == 0 ==> n == 1
    ensures cpuCount.Some? && cpuCount.value > 0 ==> n == cpuCount.value
  {
    if cpuCount.None? || cpuCount.value == 0 then 1 else cpuCount.value
  }

  /**
    Pool size for `taskCount` I/O-bound tasks: twice the CPUs, at most 32, at
    most one per task, and never below one.
   */
  function CalculateOptimalWorkers(taskCount: int, cpuCount: Option<nat>): (r: int)
    ensures 1 <= r <= 32
    ensures r <= 2 * EffectiveCpuCount(cpuCount)
    ensures taskCount >= 1 ==> r <= taskCount
    ensures taskCount <= 1 ==> r == 1
    ensures taskCount >= 1 ==> r == 2 * EffectiveCpuCount(cpuCount) || r == 32 || r == taskCount
  {
    var bound := Min(Min(2 * EffectiveCpuCount(cpuCount), 32), taskCount);
    if bound < 1 then 1 else bound
  }

  /**
    `max_workers or calculate_optimal_workers(task_count)`: a requested pool
    size is used as given unless it is absent or zero, in which case the
    formula picks between one and 32 workers, never more than there are
    tasks. A negative request is passed on unchanged.
   */
  function PoolSize(maxWorkers: Option<int>, taskCount: nat, cpuCount: Option<nat>): (r: int)
    ensures maxWorkers.Some? && maxWorkers.value != 0 ==> r == maxWorkers.value
    ensures maxWorkers.None? || maxWorkers.value == 0 ==> 1 <= r <= 32 && (taskCount >= 1 ==> r <= taskCount)
  {
    if maxWorkers.Some? && maxWorkers.value != 0 then maxWorkers.value
    else CalculateOptimalWorkers(taskCount, cpuCount)
  }

  /**
    `ThreadPoolExecutor(max_workers=...)` raises `ValueError` for a size
    below one; the callers only build a pool when there is at least one task.
   */
  predicate PoolRefused(maxWorkers: Option<int>, taskCount: nat, cpuCount: Option<nat>)
  {
    taskCount >= 1 && PoolSize(maxWorkers, taskCount, cpuCount) < 1
  }

  /** The pool is refused exactly when there is work and the request is negative. */
  lemma PoolRefusedIffNegative(maxWorkers: Option<int>, taskCount: nat, cpuCount: Option<nat>)
    ensures PoolRefused(maxWorkers, taskCount, cpuCount)
            <==> taskCount >= 1 && maxWorkers.Some? && maxWorkers.value < 0
  {
  }

  function Min(a: int, b: int): int
  {
    if a <= b then a else b
  }

  /** The directories `find_python_files` skips when it is given none. */
  const DefaultExcludeDirs: set<string> :=
    {"__pycache__", ".git", "venv", "env", ".venv", "node_modules", "htmlcov",
     ".pytest_cache", "build", "dist", ".eggs", "*.egg-info"}

  /** The parts of a path once "\\" is read as "/". */
  function PathParts(path: string): seq<string>
  {
    Split(ReplaceChar(path, '\\', '/'), '/')
  }

  /** Some part of the path is one of the excluded names. */
  function ShouldExcludePath(path: string, excludeDirs: set<string>): (r: bool)
  {
    (set part | part in PathParts(path)) * excludeDirs != {}
  }

  /** A separator-free segment: neither "/" nor "\\" occurs in it. */
  predicate PlainSegment(seg: string)
  {
    '/' !in seg && '\\' !in seg
  }

  lemma {:induction false} ReplaceInJoin(segs: seq<string>)
    requires forall i :: 0 <= i < |segs| ==> PlainSegment(segs[i])
    ensures ReplaceChar(Join(segs, "\\"), '\\', '/') == Join(segs, "/")
    decreases |segs|
  {
    if |segs| == 1 {
      assert ReplaceChar(segs[0], '\\', '/') == segs[0];
    } else if |segs| > 1 {
      ReplaceInJoin(segs[1..]);
      var tail := Join(segs[1..], "\\");
      assert Join(segs, "\\") == segs[0] + "\\" + tail;
      var lhs := ReplaceChar(segs[0] + "\\" + tail, '\\', '/');
      assert lhs == segs[0] + "/" + ReplaceChar(tail, '\\', '/') by {
        assert |lhs| == |segs[0] + "/" + ReplaceChar(tail, '\\', '/')|;
        forall i | 0 <= i < |lhs|
          ensures lhs[i] == (segs[0] + "/" + ReplaceChar(tail, '\\', '/'))[i]
        {
          if i < |segs[0]| {
          } else if i == |segs[0]| {
          } else {
            assert (segs[0] + "\\" + tail)[i] == tail[i - |segs[0]| - 1];
          }
        }
      }
    }
  }

  /** A path written with either separator splits back into its segments. */
  lemma PathPartsOfJoined(segs: seq<string>, sep: char)
    requires sep == '/' || sep == '\\'
    requires |segs| >= 1
    requires forall i :: 0 <= i < |segs| ==> PlainSegment(segs[i])
    ensures PathParts(Join(segs, [sep])) == segs
  {
    assert forall i :: 0 <= i < |segs| ==> '/' !in segs[i];
    if sep == '\\' {
      ReplaceInJoin(segs);
    } else {
      var s := Join(segs, "/");
      ReplaceInJoin(segs);
      assert ReplaceChar(s, '\\', '/') == s by {
        JoinPlain(segs, "/");
      }
    }
    SplitJoin(segs, '/');
  }

  lemma {:induction false} JoinPlain(segs: seq<string>, sep: string)
    requires forall i :: 0 <= i < |segs| ==> PlainSegment(segs[i])
    requires '\\' !in sep
    ensures '\\' !in Join(segs, sep)
    decreases |segs|
  {
    if |segs| > 1 {
      JoinPlain(segs[1..], sep);
    }
  }

  /**
    Exclusion is exact equality of whole segments: a path made of plain
    segments is excluded exactly when one of its segments is in the set.
   */
  lemma ExcludedIffSegmentListed(segs: seq<string>, sep: char, excludeDirs: set<string>)
    requires sep == '/' || sep == '\\'
    requires |segs| >= 1
    requires forall i :: 0 <= i < |segs| ==> PlainSegment(segs[i])
    ensures ShouldExcludePath(Join(segs, [sep]), excludeDirs) <==>
              exists i :: 0 <= i < |segs| && segs[i] in excludeDirs
  {
    PathPartsOfJoined(segs, sep);
    var parts := set part | part in segs;
    if exists i :: 0 <= i < |segs| && segs[i] in excludeDirs {
      var i :| 0 <= i < |segs| && segs[i] in excludeDirs;
      assert segs[i] in parts * excludeDirs;
    }
  }
}

/** Worked cases of the exclusion test on concrete paths. */
module ExclusionExamples {
  import opened Strings
  import opened Utils

  lemma JoinThree(segs: seq<string>, sep: string)
    requires |segs| == 3
    ensures Join(segs, sep) == segs[0] + sep + segs[1] + sep + segs[2]
  {
    assert Join(segs[2..], sep) == segs[2];
    assert segs[1..][1..] == segs[2..];
    assert Join(segs[1..], sep) == segs[1] + sep + segs[2];
  }

  lemma JoinFour(segs: seq<string>, sep: string)
    requires |segs| == 4
    ensures Join(segs, sep) == segs[0] + sep + segs[1] + sep + segs[2] + sep + segs[3]
  {
    JoinThree(segs[1..], sep);
  }

  /** A path joined from plain segments, one of them listed, is excluded. */
  lemma ExcludedWhenListed(path: string, segs: seq<string>, sep: char, i: nat)
    requires sep == '/' || sep == '\\'
    requires |segs| >= 1 && forall k :: 0 <= k < |segs| ==> PlainSegment(segs[k])
    requires Join(segs, [sep]) == path && i < |segs| && segs[i] in DefaultExcludeDirs
    ensures ShouldExcludePath(path, DefaultExcludeDirs)
  {
    ExcludedIffSegmentListed(segs, sep, DefaultExcludeDirs);
  }

  /** A path joined from plain segments, none of them listed, is kept. */
  lemma KeptWhenUnlisted(path: string, segs: seq<string>, sep: char)
    requires sep == '/' || sep == '\\'
    requires |segs| >= 1 && forall k :: 0 <= k < |segs| ==> PlainSegment(segs[k])
    requires Join(segs, [sep]) == path && forall k :: 0 <= k < |segs| ==> segs[k] !in DefaultExcludeDirs
    ensures !ShouldExcludePath(path, DefaultExcludeDirs)
  {
    ExcludedIffSegmentListed(segs, sep, DefaultExcludeDirs);
  }

  /** A ".venv" segment excludes the file under it. */
  lemma VenvExcluded(path: string)
    requires path == "/p/.venv/m.py"
    ensures ShouldExcludePath(path, DefaultExcludeDirs)
  {
    var segs := VenvSegments(path);
    ExcludedWhenListed(path, segs, '/', 2);
  }

  lemma VenvSegments(path: string) returns (segs: seq<string>)
    requires path == "/p/.venv/m.py"
    ensures |segs| == 4 && forall k :: 0 <= k < |segs| ==> PlainSegment(segs[k])
    ensures Join(segs, "/") == path && segs[2] in DefaultExcludeDirs
  {
    segs := ["", "p", ".venv", "m.py"];
    JoinFour(segs, "/");
    assert segs[2] == ".venv";
  }

  /** A "__pycache__" segment excludes, in a relative path too. */
  lemma PycacheExcluded(path: string)
    requires path == "p/__pycache__/m.pyc"
    ensures ShouldExcludePath(path, DefaultExcludeDirs)
  {
    var segs := PycacheSegments(path);
    ExcludedWhenListed(path, segs, '/', 1);
  }

  lemma PycacheSegments(path: string) returns (segs: seq<string>)
    requires path == "p/__pycache__/m.pyc"
    ensures |segs| == 3 && forall k :: 0 <= k < |segs| ==> PlainSegment(segs[k])
    ensures Join(segs, "/") == path && segs[1] in DefaultExcludeDirs
  {
    segs := ["p", "__pycache__", "m.pyc"];
    JoinThree(segs, "/");
    assert segs[1] == "__pycache__";
  }

  /** An ordinary source tree is not excluded. */
  lemma SourceNotExcluded(path: string)
    requires path == "/p/src/m.py"
    ensures !ShouldExcludePath(path, DefaultExcludeDirs)
  {
    var segs := SourceSegments(path);
    KeptWhenUnlisted(path, segs, '/');
  }

  lemma SourceSegments(path: string) returns (segs: seq<string>)
    requires path == "/p/src/m.py"
    ensures |segs| == 4 && forall k :: 0 <= k < |segs| ==> PlainSegment(segs[k])
    ensures Join(segs, "/") == path && forall k :: 0 <= k < |segs| ==> segs[k] !in DefaultExcludeDirs
  {
    segs := ["", "p", "src", "m.py"];
    JoinFour(segs, "/");
    forall k | 0 <= k < |segs| ensures segs[k] !in DefaultExcludeDirs {
      assert |segs[k]| != 4 ==> segs[k] !in DefaultExcludeDirs;
    }
  }

  /** Windows separators are read as "/". */
  lemma WindowsSeparatorExcluded(path: string)
    requires path == "C:\\p\\node_modules\\m.py"
    ensures ShouldExcludePath(path, DefaultExcludeDirs)
  {
    var segs := WindowsSegments(path);
    ExcludedWhenListed(path, segs, '\\', 2);
  }

  lemma WindowsSegments(path: string) returns (segs: seq<string>)
    requires path == "C:\\p\\node_modules\\m.py"
    ensures |segs| == 4 && forall k :: 0 <= k < |segs| ==> PlainSegment(segs[k])
    ensures Join(segs, "\\") == path && segs[2] in DefaultExcludeDirs
  {
    segs := ["C:", "p", "node_modules", "m.py"];
    JoinFour(segs, "\\");
    assert segs[2] == "node_modules";
  }

  /** "*.egg-info" is compared literally, so it matches no real egg-info directory. */
  lemma EggInfoGlobIsLiteral(path: string)
    requires path == "/p/a.egg-info/m.py"
    ensures !ShouldExcludePath(path, DefaultExcludeDirs)
  {
    var segs := EggInfoSegments(path);
    KeptWhenUnlisted(path, segs, '/');
  }

  lemma EggInfoSegments(path: string) returns (segs: seq<string>)
    requires path == "/p/a.egg-info/m.py"
    ensures |segs| == 4 && forall k :: 0 <= k < |segs| ==> PlainSegment(segs[k])
    ensures Join(segs, "/") == path && forall k :: 0 <= k < |segs| ==> segs[k] !in DefaultExcludeDirs
  {
    segs := ["", "p", "a.egg-info", "m.py"];
    JoinFour(segs, "/");
    forall k | 0 <= k < |segs| ensures segs[k] !in DefaultExcludeDirs {
      assert |segs[k]| != 4 ==> segs[k] !in DefaultExcludeDirs;
    }
  }
}
