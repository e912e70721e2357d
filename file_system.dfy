/**
 * The filesystem as the scaffolder sees it, and the two in-place changes it
 * makes to it: the template extraction and the cleanup loop that deletes the
 * template repository's own files from the new project.
 *
 * A filesystem is the set of paths that exist; it is a tree, so every
 * ancestor of an existing path exists too. Files and directories are not
 * told apart: a file is a path with nothing beneath it.
 */
module FileSystem {
  import opened Paths

  /** The entries removed from a freshly downloaded project, in loop order. */
  const CLEANUP: seq<string> := ["cli", ".github", ".ref", "AGENTS.md"]

  /** Every ancestor of an existing path exists. */
  ghost predicate IsTree(paths: set<Path>) {
    forall p, k :: p in paths && 0 <= k <= |p| ==> p[..k] in paths
  }

  /** `p` lies strictly beneath `dir`. */
  predicate StrictlyBelow(dir: Path, p: Path) {
    |dir| < |p| && p[..|dir|] == dir
  }

  /** `p` is the entry of `dir` named `name`, or lies beneath it. */
  lemma EntryPrefix(dir: Path, name: string, p: Path)
    ensures IsPrefix(dir + [name], p) <==> StrictlyBelow(dir, p) && p[|dir|] == name
  {
    if StrictlyBelow(dir, p) && p[|dir|] == name {
      assert p[..|dir| + 1] == p[..|dir|] + [p[|dir|]];
    }
    if IsPrefix(dir + [name], p) {
      assert p[..|dir|] == p[..|dir| + 1][..|dir|];
      assert p[|dir|] == p[..|dir| + 1][|dir|];
    }
  }

  /** The tree without the subtree rooted at `root`. */
  function Pruned(paths: set<Path>, root: Path): set<Path> {
    set p | p in paths && !IsPrefix(root, p)
  }

  /** `p` is an entry of `dir` whose name is listed in `names`, or beneath one. */
  predicate InListedEntry(dir: Path, names: seq<string>, p: Path) {
    StrictlyBelow(dir, p) && p[|dir|] in names
  }

  /**
   * The tree once every entry of `dir` named in `names` has been deleted
   * together with everything beneath it.
   */
  function Swept(paths: set<Path>, dir: Path, names: seq<string>): (r: set<Path>)
    ensures r <= paths
    ensures forall p, i :: p in r && 0 <= i < |names| ==> !IsPrefix(dir + [names[i]], p)
    ensures forall p :: p in paths && (forall i :: 0 <= i < |names| ==> !IsPrefix(dir + [names[i]], p))
                        ==> p in r
  {
    var r := set p | p in paths && !InListedEntry(dir, names, p);
    forall p, i | 0 <= i < |names|
      ensures IsPrefix(dir + [names[i]], p) <==> StrictlyBelow(dir, p) && p[|dir|] == names[i]
    {
      EntryPrefix(dir, names[i], p);
    }
    r
  }

  /** Cleaning up inside `dir` changes nothing outside `dir`. */
  lemma SweptStaysInside(paths: set<Path>, dir: Path, names: seq<string>)
    ensures forall p :: !IsPrefix(dir, p) ==> (p in Swept(paths, dir, names) <==> p in paths)
  {
  }

  /** Deleting a subtree from a tree leaves a tree. */
  lemma PrunedIsTree(paths: set<Path>, root: Path)
    requires IsTree(paths)
    ensures IsTree(Pruned(paths, root))
  {
    forall p, k | p in Pruned(paths, root) && 0 <= k <= |p|
      ensures p[..k] in Pruned(paths, root)
    {
      if |root| <= k {
        assert p[..k][..|root|] == p[..|root|];
      }
    }
  }

  /** In a tree, a path that does not exist has nothing beneath it. */
  lemma AbsentHasNoSubtree(paths: set<Path>, root: Path)
    requires IsTree(paths) && root !in paths
    ensures Pruned(paths, root) == paths
  {
    forall p | p in paths ensures !IsPrefix(root, p) {
      if |root| <= |p| {
        assert p[..|root|] in paths;
      }
    }
  }

  /** Deleting one more listed entry is pruning its subtree. */
  lemma SweptStep(paths: set<Path>, dir: Path, names: seq<string>, name: string)
    ensures Swept(paths, dir, names + [name]) == Pruned(Swept(paths, dir, names), dir + [name])
  {
    forall p ensures p in Swept(paths, dir, names + [name])
                 <==> p in Pruned(Swept(paths, dir, names), dir + [name])
    {
      EntryPrefix(dir, name, p);
    }
  }

  /** Sweeping a tree leaves a tree. */
  lemma SweptIsTree(paths: set<Path>, dir: Path, names: seq<string>)
    requires IsTree(paths)
    ensures IsTree(Swept(paths, dir, names))
  {
    var r := Swept(paths, dir, names);
    forall p, k | p in r && 0 <= k <= |p|
      ensures p[..k] in r
    {
      if |dir| < k {
        assert p[..k][..|dir|] == p[..|dir|];
        assert p[..k][|dir|] == p[|dir|];
      }
    }
  }

  /** Cleaning up twice leaves the same tree as cleaning up once. */
  lemma SweptIdempotent(paths: set<Path>, dir: Path, names: seq<string>)
    ensures Swept(Swept(paths, dir, names), dir, names) == Swept(paths, dir, names)
  {
    var once := Swept(paths, dir, names);
    forall p | p in once ensures p in Swept(once, dir, names) {
      assert !InListedEntry(dir, names, p);
    }
  }

  /** Cleaning up a tree where none of the listed entries exist changes nothing. */
  lemma SweptAbsentEntries(paths: set<Path>, dir: Path, names: seq<string>)
    requires IsTree(paths)
    requires forall i :: 0 <= i < |names| ==> dir + [names[i]] !in paths
    ensures Swept(paths, dir, names) == paths
  {
    forall p | p in paths ensures !InListedEntry(dir, names, p) {
      if StrictlyBelow(dir, p) {
        assert p[..|dir| + 1] in paths;
        assert p[..|dir| + 1] == dir + [p[|dir|]];
      }
    }
  }

  /**
   * What the template download adds beneath `dir`: every relative path of
   * the archive, with all of its prefixes, and `dir` itself when the
   * archive has any entry at all.
   */
  function Grafted(dir: Path, tree: set<Path>): set<Path> {
    set r, k | r in tree && 0 <= k <= |r| :: dir + r[..k]
  }

  /**
   * A template extracted into `dir` and then cleaned up keeps every archive
   * path whose first segment is not listed, and loses every one whose first
   * segment is.
   */
  lemma CleanedTemplate(paths: set<Path>, dir: Path, tree: set<Path>)
    ensures forall r :: r in tree && (r == [] || r[0] !in CLEANUP) ==>
              dir + r in Swept(paths + Grafted(dir, tree), dir, CLEANUP)
    ensures forall r :: r != [] && r[0] in CLEANUP ==>
              dir + r !in Swept(paths + Grafted(dir, tree), dir, CLEANUP)
  {
    var after := Swept(paths + Grafted(dir, tree), dir, CLEANUP);
    forall r | r in tree && (r == [] || r[0] !in CLEANUP) ensures dir + r in after {
      assert r[..|r|] == r;
      assert (dir + r)[..|dir|] == dir;
      assert r != [] ==> (dir + r)[|dir|] == r[0];
    }
    forall r | r != [] && r[0] in CLEANUP ensures dir + r !in after {
      assert (dir + r)[..|dir|] == dir;
      assert (dir + r)[|dir|] == r[0];
    }
  }

  /** The filesystem, updated in place by the scaffolder. */
  class Disk {
    var paths: set<Path>

    ghost predicate Valid()
      reads this
    {
      IsTree(paths)
    }

    constructor (initial: set<Path>)
      requires IsTree(initial)
      ensures Valid() && paths == initial
    {
      paths := initial;
    }

    /** `existsSync(p)`. */
    function Exists(p: Path): (b: bool)
      reads this
      requires Valid()
      ensures b <==> p in paths
      ensures b ==> forall k :: 0 <= k <= |p| ==> p[..k] in paths
    {
      p in paths
    }

    /** `readdirSync(dir)`: the names of the entries directly inside `dir`. */
    function ReadDir(dir: Path): (names: set<string>)
      reads this
      requires dir in paths
      ensures forall n :: n in names <==> dir + [n] in paths
    {
      var names := set p | p in paths && |p| == |dir| + 1 && p[..|dir|] == dir :: p[|dir|];
      assert forall p :: p in paths && |p| == |dir| + 1 && p[..|dir|] == dir ==> p == dir + [p[|dir|]];
      assert forall n :: dir + [n] in paths ==> (dir + [n])[|dir|] == n && (dir + [n])[..|dir|] == dir;
      names
    }

    /**
     * `isEmpty(dir)`: true when `dir` does not exist; otherwise true exactly
     * when it has no entries, which in a tree means nothing lies beneath it.
     */
    function IsEmpty(dir: Path): (r: bool)
      reads this
      requires Valid()
      ensures r <==> dir !in paths || |ReadDir(dir)| == 0
      ensures r <==> dir !in paths || forall p :: p in paths ==> !StrictlyBelow(dir, p)
    {
      if !Exists(dir) then true
      else
        var entries := ReadDir(dir);
        assert forall p :: p in paths && StrictlyBelow(dir, p) ==> p[|dir|] in entries by {
          forall p | p in paths && StrictlyBelow(dir, p) ensures p[|dir|] in entries {
            assert p[..|dir| + 1] in paths;
            assert p[..|dir| + 1] == dir + [p[|dir|]];
          }
        }
        assert forall n :: n in entries ==> StrictlyBelow(dir, dir + [n]);
        |entries| == 0
    }

    /** `rmSync(target, { recursive: true, force: true })`. */
    method Remove(target: Path)
      requires Valid()
      modifies this
      ensures Valid()
      ensures paths == Pruned(old(paths), target)
    {
      PrunedIsTree(paths, target);
      paths := Pruned(paths, target);
    }

    /**
     * `downloadTemplate` into `dir`, whose parent exists: the archive's
     * paths appear beneath `dir`, and nothing else changes.
     */
    method Extract(dir: Path, tree: set<Path>)
      requires Valid()
      requires dir == [] || dir[..|dir| - 1] in paths
      modifies this
      ensures Valid()
      ensures paths == old(paths) + Grafted(dir, tree)
      ensures forall p :: !IsPrefix(dir, p) ==> (p in paths <==> p in old(paths))
    {
      var added := Grafted(dir, tree);
      forall p, k | p in paths + added && 0 <= k <= |p|
        ensures p[..k] in paths + added
      {
        if p in added {
          var r, j :| r in tree && 0 <= j <= |r| && p == dir + r[..j];
          if k < |dir| {
            assert p[..k] == dir[..|dir| - 1][..k];
          } else {
            assert p[..k] == dir + r[..k - |dir|];
          }
        }
      }
      paths := paths + added;
    }

    /**
     * The cleanup loop: each listed entry that exists inside `dir` is
     * deleted with everything beneath it; absent entries are skipped.
     */
    method Cleanup(dir: Path)
      requires Valid()
      modifies this
      ensures Valid()
      ensures paths == Swept(old(paths), dir, CLEANUP)
    {
      for i := 0 to |CLEANUP|
        invariant Valid()
        invariant paths == Swept(old(paths), dir, CLEANUP[..i])
      {
        var target := dir + [CLEANUP[i]];
        SweptStep(old(paths), dir, CLEANUP[..i], CLEANUP[i]);
        assert CLEANUP[..i + 1] == CLEANUP[..i] + [CLEANUP[i]];
        if Exists(target) {
          Remove(target);
        } else {
          AbsentHasNoSubtree(paths, target);
        }
      }
      assert CLEANUP[..|CLEANUP|] == CLEANUP;
    }
  }
}
