/**
  File-system paths as sequences of segments. `[]` is the root directory, the
  parent of the root is the root (as `os.path.dirname("/")` and
  `Path("/").parent` are), and joining a path with further segments is
  concatenation. The file system itself is an oracle: the set of paths that
  exist.
 */
module Paths {
  import opened Wrappers
  import opened Strings

  type Path = seq<string>

  /** `os.path.dirname` / `Path.parent` of a normalised absolute path. */
  function Parent(p: Path): (r: Path)
    ensures p == [] ==> r == []
    ensures p != [] ==> r + [p[|p| - 1]] == p
  {
    if p == [] then [] else p[..|p| - 1]
  }

  /** `os.path.basename` of a POSIX path string: the text after its last "/". */
  function Basename(s: string): string
  {
    Last(Split(s, '/'))
  }

  /** The segments `pathlib.Path(s).parts` keeps of an absolute path string (empty and "." parts dropped). */
  function Segments(s: string): Path
  {
    DropTrivial(Split(s, '/'))
  }

  function DropTrivial(parts: seq<string>): (r: Path)
    ensures forall i :: 0 <= i < |r| ==> r[i] != "" && r[i] != "."
  {
    if parts == [] then []
    else if parts[0] == "" || parts[0] == "." then DropTrivial(parts[1..])
    else [parts[0]] + DropTrivial(parts[1..])
  }

  /** The string form of an absolute path, as `os.path.join` builds it. */
  function Render(p: Path): string
  {
    "/" + Join(p, "/")
  }

  /** `dir[..k] + [name]` exists: the ancestor of `dir` at depth `k` holds a file `name`. */
  predicate HoldsAt(dir: Path, k: nat, name: string, existing: set<Path>)
    requires k <= |dir|
  {
    dir[..k] + [name] in existing
  }

  /**
    The upward search of both configuration lookups: `dir` first, then each
    parent in turn up to the root; the first directory that holds `name`.
   */
  function NearestHolding(dir: Path, name: string, existing: set<Path>): Option<Path>
    decreases |dir|
  {
    if dir + [name] in existing then Some(dir + [name])
    else if dir == [] then None
    else NearestHolding(Parent(dir), name, existing)
  }

  /**
    The search finds a file exactly when some ancestor-or-self of `dir` holds
    one, and then it is the deepest such ancestor's.
   */
  lemma {:induction false} NearestHoldingIsDeepest(dir: Path, name: string, existing: set<Path>)
    ensures NearestHolding(dir, name, existing).None? <==>
              forall k :: 0 <= k <= |dir| ==> !HoldsAt(dir, k, name, existing)
    ensures NearestHolding(dir, name, existing).Some? ==>
              exists k :: 0 <= k <= |dir| && HoldsAt(dir, k, name, existing)
                          && NearestHolding(dir, name, existing).value == dir[..k] + [name]
                          && forall j :: k < j <= |dir| ==> !HoldsAt(dir, j, name, existing)
    decreases |dir|
  {
    var r := NearestHolding(dir, name, existing);
    assert dir[..|dir|] == dir;
    if dir + [name] in existing {
      assert HoldsAt(dir, |dir|, name, existing);
    } else if dir == [] {
      forall k | 0 <= k <= |dir| ensures !HoldsAt(dir, k, name, existing) {
        assert dir[..k] == dir;
      }
    } else {
      var up := Parent(dir);
      NearestHoldingIsDeepest(up, name, existing);
      assert forall k :: 0 <= k <= |up| ==> up[..k] == dir[..k];
      assert forall k :: 0 <= k <= |up| ==> (HoldsAt(up, k, name, existing) <==> HoldsAt(dir, k, name, existing));
      assert !HoldsAt(dir, |dir|, name, existing);
      if r.Some? {
        var k :| 0 <= k <= |up| && HoldsAt(up, k, name, existing) && r.value == up[..k] + [name]
                 && forall j :: k < j <= |up| ==> !HoldsAt(up, j, name, existing);
        assert HoldsAt(dir, k, name, existing) && r.value == dir[..k] + [name];
      }
    }
  }

  /** The sub-directories, joined to `project`, that are in `present`, in the order listed. */
  function ExistingUnder(project: Path, srcDirs: seq<Path>, present: set<Path>): (r: seq<Path>)
    ensures forall q :: q in r <==> q in present && exists i :: 0 <= i < |srcDirs| && q == project + srcDirs[i]
  {
    if srcDirs == [] then []
    else
      var init := srcDirs[..|srcDirs| - 1];
      var src := project + srcDirs[|srcDirs| - 1];
      assert forall i :: 0 <= i < |init| ==> init[i] == srcDirs[i];
      ExistingUnder(project, init, present) + (if src in present then [src] else [])
  }

  /** Listing more source directories appends the ones of them that exist, after the others. */
  lemma {:induction false} ExistingUnderAppend(project: Path, a: seq<Path>, b: seq<Path>, present: set<Path>)
    ensures ExistingUnder(project, a + b, present) == ExistingUnder(project, a, present) + ExistingUnder(project, b, present)
    decreases |b|
  {
    if b == [] {
      assert a + b == a;
    } else {
      var init := b[..|b| - 1];
      assert (a + b)[..|a + b| - 1] == a + init;
      assert (a + b)[|a + b| - 1] == b[|b| - 1];
      ExistingUnderAppend(project, a, init, present);
    }
  }

  /**
    `r` is the order-preserving selection of the joined source directories
    that exist, through the indices `idx`: each entry comes from a listed
    index, the indices strictly increase, and every index whose directory
    exists is taken, so a directory listed twice appears twice.
   */
  ghost predicate SelectsPresent(r: seq<Path>, project: Path, srcDirs: seq<Path>, present: set<Path>, idx: seq<nat>)
  {
    && |idx| == |r|
    && (forall k :: 0 <= k < |idx| ==> idx[k] < |srcDirs| && r[k] == project + srcDirs[idx[k]])
    && (forall k, l :: 0 <= k < l < |idx| ==> idx[k] < idx[l])
    && (forall i :: 0 <= i < |srcDirs| && project + srcDirs[i] in present ==> i in idx)
  }

  /** `ExistingUnder` keeps the existing source directories in the order listed, repeats included. */
  lemma {:induction false} ExistingUnderIndices(project: Path, srcDirs: seq<Path>, present: set<Path>) returns (idx: seq<nat>)
    ensures SelectsPresent(ExistingUnder(project, srcDirs, present), project, srcDirs, present, idx)
    decreases |srcDirs|
  {
    if srcDirs == [] {
      idx := [];
    } else {
      var n := |srcDirs| - 1;
      var prev := ExistingUnderIndices(project, srcDirs[..n], present);
      ExistingUnderSnoc(project, srcDirs, n, present);
      assert srcDirs[..n + 1] == srcDirs;
      idx := SelectsPresentSnoc(ExistingUnder(project, srcDirs[..n], present), project, srcDirs, present, prev);
    }
  }

  lemma SelectsPresentSnoc(before: seq<Path>, project: Path, srcDirs: seq<Path>, present: set<Path>, prev: seq<nat>)
      returns (idx: seq<nat>)
    requires |srcDirs| >= 1
    requires SelectsPresent(before, project, srcDirs[..|srcDirs| - 1], present, prev)
    ensures var src := project + srcDirs[|srcDirs| - 1];
            SelectsPresent(before + (if src in present then [src] else []), project, srcDirs, present, idx)
  {
    var n := |srcDirs| - 1;
    var init := srcDirs[..n];
    var src := project + srcDirs[n];
    assert forall i :: 0 <= i < n ==> init[i] == srcDirs[i];
    if src in present {
      idx := prev + [n];
      var r := before + [src];
      assert forall k :: 0 <= k < |prev| ==> idx[k] == prev[k] && r[k] == before[k];
      assert idx[|prev|] == n && r[|prev|] == src;
    } else {
      idx := prev;
      forall i | 0 <= i < |srcDirs| && project + srcDirs[i] in present ensures i in idx {
        assert i < n && project + init[i] in present;
      }
    }
  }

  lemma ExistingUnderSnoc(project: Path, srcDirs: seq<Path>, i: nat, present: set<Path>)
    requires i < |srcDirs|
    ensures ExistingUnder(project, srcDirs[..i + 1], present)
            == ExistingUnder(project, srcDirs[..i], present)
               + (if project + srcDirs[i] in present then [project + srcDirs[i]] else [])
  {
    assert srcDirs[..i + 1][..i] == srcDirs[..i];
  }
}
