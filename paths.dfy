/**
 * Path and name strings as the driver scripts build them: `os.path.join`, Python's negative and
 * prefix slices, and the "append a suffix until the path is free" loops, over a finite set of
 * existing paths standing for the file system.
 */
module Paths {
  /** `os.path.join(folder, name)` for a relative name. */
  function Join(folder: string, name: string): (p: string)
    ensures |p| == |folder| + 1 + |name|
    ensures p[|folder| + 1..] == name
  {
    folder + "/" + name
  }

  /** `os.path.basename(p)`: the part after the last separator. */
  function Basename(p: string): (b: string)
    ensures '/' !in b
    ensures |b| <= |p| && b == p[|p| - |b|..]
    ensures |b| < |p| ==> p[|p| - |b| - 1] == '/'
  {
    if |p| == 0 || p[|p| - 1] == '/' then "" else Basename(p[..|p| - 1]) + [p[|p| - 1]]
  }

  /** The base name of a joined path is the name joined, when that name has no separator. */
  lemma {:induction false} BasenameJoin(folder: string, name: string)
    requires '/' !in name
    ensures Basename(Join(folder, name)) == name
  {
    var p := Join(folder, name);
    var b := Basename(p);
    assert p[|folder|] == '/';
    assert |b| == |name|;
    assert b == p[|folder| + 1..] == name;
  }

  /** `s[:-n]`: all but the last n characters, or "" when s is not longer than n. */
  function DropLast(s: string, n: nat): (p: string)
    ensures |s| <= n ==> p == ""
    ensures |s| > n ==> |p| == |s| - n && p + s[|s| - n..] == s
  {
    if |s| <= n then "" else s[..|s| - n]
  }

  /** `s[:n]`: the first n characters, or all of s when it is shorter. */
  function Prefix(s: string, n: nat): (p: string)
    ensures |p| == if |s| < n then |s| else n
    ensures p <= s
  {
    if |s| < n then s else s[..n]
  }

  /** `s[-n:]`: the last n characters, or all of s when it is shorter. */
  function Suffix(s: string, n: nat): (p: string)
    ensures |p| == if |s| < n then |s| else n
    ensures forall k :: 0 <= k < |p| ==> p[k] == s[|s| - |p| + k]
  {
    if |s| < n then s else s[|s| - n..]
  }

  /** `s[-a:-b]` for a > b > 0, with Python's clamping of indices that fall before the start. */
  function Slice(s: string, a: nat, b: nat): (p: string)
    requires a > b > 0
    ensures |s| >= a ==> p == s[|s| - a..|s| - b]
    ensures |s| <= b ==> p == ""
  {
    var start := if |s| < a then 0 else |s| - a;
    var end := if |s| < b then 0 else |s| - b;
    if start >= end then "" else s[start..end]
  }

  /** The length of the longest existing path; no longer path exists. */
  ghost function MaxLen(existing: set<string>): (m: nat)
    ensures forall p :: p in existing ==> |p| <= m
    decreases |existing|
  {
    if existing == {} then 0
    else
      var p :| p in existing;
      var rest := MaxLen(existing - {p});
      if |p| > rest then |p| else rest
  }

  /** `n` copies of "_1". */
  function Ones(n: nat): (s: string)
    ensures |s| == 2 * n
  {
    if n == 0 then "" else Ones(n - 1) + "_1"
  }
}
