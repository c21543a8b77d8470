/**
 * The parts of Node's `path` module and of the file system that the procedures
 * use. Paths are POSIX strings; the file system is the set of paths that exist.
 */
module Paths {
  import opened Text

  /** `p` with every trailing '/' removed. */
  function StripTrailingSlashes(p: string): (q: string)
    ensures |q| <= |p| && q == p[..|q|]
    ensures |q| == 0 || q[|q| - 1] != '/'
    ensures forall k :: |q| <= k < |p| ==> p[k] == '/'
  {
    if |p| > 0 && p[|p| - 1] == '/' then StripTrailingSlashes(p[..|p| - 1]) else p
  }

  /** What follows the last '/' of `q` (all of `q` when it has none). */
  function LastSegment(q: string): (r: string)
    ensures '/' !in r
    ensures EndsWith(q, r)
    ensures '/' !in q ==> r == q
    ensures |r| == |q| || q[|q| - |r| - 1] == '/'
  {
    if |q| == 0 || q[|q| - 1] == '/' then ""
    else
      var r := LastSegment(q[..|q| - 1]) + [q[|q| - 1]];
      assert q == q[..|q| - 1] + [q[|q| - 1]];
      r
  }

  /**
   * `path.basename(p)`: the last segment, ignoring trailing separators. The
   * result is the longest separator-free ending of `p` without its trailing '/'s.
   */
  function Basename(p: string): (r: string)
    ensures '/' !in r
    ensures var q := StripTrailingSlashes(p);
      EndsWith(q, r) && (|r| == |q| || q[|q| - |r| - 1] == '/')
  {
    LastSegment(StripTrailingSlashes(p))
  }

  /** `path.join(dir, name)` for a plain name; normalisation of the result is not modelled. */
  function Join(dir: string, name: string): string {
    dir + "/" + name
  }

  /** A name without separators is its own basename. */
  lemma BasenameOfName(name: string)
    requires '/' !in name
    ensures Basename(name) == name
  {
  }

  /** The basename of `Join(dir, name)` is `name` itself. */
  lemma BasenameOfJoin(dir: string, name: string)
    requires |name| > 0 && '/' !in name
    ensures Basename(Join(dir, name)) == name
  {
    var p := Join(dir, name);
    assert StripTrailingSlashes(p) == p;
    LastSegmentAfterSlash(dir, name);
  }

  lemma {:induction false} LastSegmentAfterSlash(dir: string, name: string)
    requires '/' !in name
    ensures LastSegment(dir + "/" + name) == name
    decreases |name|
  {
    var q := dir + "/" + name;
    if |name| > 0 {
      assert q[..|q| - 1] == dir + "/" + name[..|name| - 1];
      LastSegmentAfterSlash(dir, name[..|name| - 1]);
      assert name == name[..|name| - 1] + [name[|name| - 1]];
    }
  }

  /** Joining two names under one directory gives one path only for one name. */
  lemma JoinInjective(dir: string, a: string, b: string)
    requires Join(dir, a) == Join(dir, b)
    ensures a == b
  {
    assert a == Join(dir, a)[|dir| + 1..];
    assert b == Join(dir, b)[|dir| + 1..];
  }

  /** `p` names an entry directly inside `dir`. */
  predicate DirectlyIn(p: string, dir: string) {
    |p| > |dir| + 1 && StartsWith(p, dir + "/") && '/' !in p[|dir| + 1..]
  }

  /** An entry directly inside `dir` is `dir` joined with its basename. */
  lemma JoinBasename(p: string, dir: string)
    requires DirectlyIn(p, dir)
    ensures Join(dir, Basename(p)) == p
  {
    var name := p[|dir| + 1..];
    assert p == Join(dir, name) by {
      assert p[..|dir| + 1] == dir + "/";
    }
    BasenameOfJoin(dir, name);
  }

  /** `p` is `root` or lies below it. */
  predicate InTree(p: string, root: string) {
    p == root || StartsWith(p, root + "/")
  }

  /** `rmSync(root, { recursive: true, force: true })`: `root` and everything below it disappear. */
  function RemoveTree(fs: set<string>, root: string): (r: set<string>)
    ensures forall p :: p in r <==> p in fs && !InTree(p, root)
  {
    set p | p in fs && !InTree(p, root)
  }

  /** A joined path lies in the tree of its directory. */
  lemma JoinInTree(dir: string, name: string)
    ensures InTree(Join(dir, name), dir)
  {
    assert Join(dir, name)[..|dir + "/"|] == dir + "/";
  }
}
