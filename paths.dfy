/**
 * The two helpers of Node's `path` module the folders use, for POSIX paths
 * and without normalisation of `.` and `..` segments.
 */
module Paths {

  /** `p` without its trailing `/` separators. */
  function StripTrailing(p: string): (r: string)
    ensures |r| <= |p| && r == p[..|r|]
    ensures r == [] || r[|r| - 1] != '/'
    ensures forall k :: |r| <= k < |p| ==> p[k] == '/'
  {
    if p != [] && p[|p| - 1] == '/' then StripTrailing(p[..|p| - 1]) else p
  }

  /** The text after the last `/` of `s`. */
  function AfterLastSlash(s: string): (r: string)
    ensures |r| <= |s| && r == s[|s| - |r|..]
    ensures '/' !in r
    ensures |r| < |s| ==> s[|s| - |r| - 1] == '/'
  {
    if s == [] || s[|s| - 1] == '/' then []
    else
      var r := AfterLastSlash(s[..|s| - 1]) + [s[|s| - 1]];
      assert s[..|s| - 1][|s| - 1 - (|r| - 1)..] + [s[|s| - 1]] == s[|s| - |r|..];
      r
  }

  /** `path.basename(p)`: the last segment of `p`, trailing separators ignored. */
  function Basename(p: string): string
  {
    AfterLastSlash(StripTrailing(p))
  }

  /** `path.join(dir, name)` for a `name` without separators. */
  function JoinPath(dir: string, name: string): string
  {
    if dir == [] then name else StripTrailing(dir) + "/" + name
  }

  lemma {:induction false} AfterSeparator(pre: string, name: string)
    requires '/' !in name
    ensures AfterLastSlash(pre + "/" + name) == name
    decreases |name|
  {
    var s := pre + "/" + name;
    if name != [] {
      assert s[..|s| - 1] == pre + "/" + name[..|name| - 1];
      AfterSeparator(pre, name[..|name| - 1]);
      assert name == name[..|name| - 1] + [name[|name| - 1]];
    }
  }

  /** The base name of a joined path is the name that was joined. */
  lemma BasenameOfJoin(dir: string, name: string)
    requires name != [] && '/' !in name
    ensures Basename(JoinPath(dir, name)) == name
  {
    var j := JoinPath(dir, name);
    assert j[|j| - 1] == name[|name| - 1];
    if dir != [] {
      AfterSeparator(StripTrailing(dir), name);
    } else {
      assert AfterLastSlash(name) == name;
    }
  }
}
