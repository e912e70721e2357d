/**
 * Paths as the scaffolder uses them: a path is the sequence of its segments
 * from the filesystem root, so `/home/ada/blog` is ["home", "ada", "blog"]
 * and the root is []. Only the part of `node:path` the tool touches is
 * modelled: joining one segment onto a directory, and `basename`.
 */
module Paths {

  type Path = seq<string>

  /** `p` is `root` itself or lies somewhere beneath it. */
  predicate IsPrefix(root: Path, p: Path) {
    |root| <= |p| && p[..|root|] == root
  }

  /** `path.basename`: the last segment; the root's basename is "". */
  function Basename(p: Path): string {
    if p == [] then "" else p[|p| - 1]
  }

  /**
   * `path.resolve(dir, name)` for a one-segment name: "." names `dir`
   * itself, any other name the entry of that name inside `dir`.
   */
  function Resolve(dir: Path, name: string): (p: Path)
    requires name != ""
    ensures IsPrefix(dir, p) && |p| <= |dir| + 1
    ensures p == dir <==> name == "."
    ensures p != dir ==> Basename(p) == name
  {
    if name == "." then dir else dir + [name]
  }
}
