/** The two functions of Go's `path` package the core uses to build and take
    apart file names. */
module Paths {
  import opened Base

  /** `path.Join(dir, elem)`: the non-empty operands joined by one "/".
      Go also cleans the joined path (collapsing "//", "." and ".."); that
      lexical clean-up is not modelled. */
  function Join(dir: Bytes, elem: Bytes): (r: Bytes)
    ensures dir == [] ==> r == elem
    ensures elem == [] ==> r == dir
    ensures dir != [] && elem != [] ==>
      |r| == |dir| + 1 + |elem| && r[..|dir|] == dir && r[|dir|] == '/' && r[|dir| + 1..] == elem
  {
    if dir == [] then elem else if elem == [] then dir else dir + "/" + elem
  }

  /** `p` with its trailing slashes removed. */
  function TrimTrailingSlashes(p: Bytes): (r: Bytes)
    ensures |r| <= |p| && r == p[..|r|]
    ensures r == [] || r[|r| - 1] != '/'
    ensures forall t :: |r| <= t < |p| ==> p[t] == '/'
  {
    if p != [] && p[|p| - 1] == '/' then TrimTrailingSlashes(p[..|p| - 1]) else p
  }

  /** What follows the last "/" of `p` (all of `p` when it has none). */
  function AfterLastSlash(p: Bytes): (r: Bytes)
    ensures |r| <= |p| && r == p[|p| - |r|..]
    ensures '/' !in r
    ensures |r| < |p| ==> p[|p| - |r| - 1] == '/'
  {
    if p == [] || p[|p| - 1] == '/' then [] else AfterLastSlash(p[..|p| - 1]) + [p[|p| - 1]]
  }

  /** `path.Base(p)`: the last element of `p`; "." for the empty path and
      "/" for a path made only of slashes. */
  function BaseName(p: Bytes): (r: Bytes)
    ensures r != []
    ensures p != [] && '/' !in p ==> r == p
  {
    if p == [] then "."
    else
      var trimmed := TrimTrailingSlashes(p);
      var last := AfterLastSlash(trimmed);
      if last == [] then "/" else last
  }

  lemma {:induction false} AfterLastSlashOfJoin(dir: Bytes, name: Bytes)
    requires '/' !in name
    ensures AfterLastSlash(dir + "/" + name) == name
  {
    if name == [] {
      assert (dir + "/" + name)[|dir|] == '/';
    } else {
      var front := name[..|name| - 1];
      assert (dir + "/" + name)[..|dir + "/" + name| - 1] == dir + "/" + front;
      assert '/' !in front by {
        forall t | 0 <= t < |front| ensures front[t] != '/' {
          assert front[t] == name[t];
        }
      }
      AfterLastSlashOfJoin(dir, front);
      assert front + [name[|name| - 1]] == name;
    }
  }

  /** The last element of `dir/name` is `name` when `name` is a single, non-
      empty path element. This is how `ReadVaultUser` recovers a user's email
      from the directory it reads. */
  lemma BaseNameOfJoin(dir: Bytes, name: Bytes)
    requires name != [] && '/' !in name
    ensures BaseName(Join(dir, name)) == name
  {
    if dir != [] {
      var p := dir + "/" + name;
      assert Join(dir, name) == p;
      assert p[|p| - 1] == name[|name| - 1];
      assert TrimTrailingSlashes(p) == p;
      AfterLastSlashOfJoin(dir, name);
    }
  }
}
