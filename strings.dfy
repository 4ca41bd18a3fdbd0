/** The few string and path operations of Python that the minifier relies on. */
module Strings {
  import opened Wrappers

  /** `s.rfind(c)`: the index of the last `c` in `s`, or None where Python gives -1. */
  function LastIndex(s: string, c: char): (r: Option<nat>)
    ensures r.None? <==> c !in s
    ensures r.Some? ==> r.value < |s| && s[r.value] == c && c !in s[r.value + 1..]
  {
    if |s| == 0 then None
    else if s[|s| - 1] == c then
      Some(|s| - 1)
    else
      assert s == s[..|s| - 1] + [s[|s| - 1]];
      var r := LastIndex(s[..|s| - 1], c);
      if r.Some? then
        assert s[r.value + 1..] == s[..|s| - 1][r.value + 1..] + [s[|s| - 1]];
        r
      else
        r
  }

  /** `s.endswith(suffix)`. */
  predicate EndsWith(s: string, suffix: string)
  {
    |suffix| <= |s| && s[|s| - |suffix|..] == suffix
  }

  /** `os.path.basename(p)` on POSIX: what follows the last `/`, the longest `/`-free suffix. */
  function Basename(p: string): (b: string)
    ensures EndsWith(p, b)
    ensures '/' !in b
    ensures |b| < |p| ==> p[|p| - |b| - 1] == '/'
  {
    match LastIndex(p, '/')
    case None => p
    case Some(i) => p[i + 1..]
  }

  /** Text appended after the last `c` does not move it. */
  lemma {:induction false} LastIndexAppend(s: string, u: string, c: char)
    requires c !in u
    ensures LastIndex(s + u, c) == LastIndex(s, c)
    decreases |u|
  {
    if |u| == 0 {
      assert s + u == s;
    } else {
      var n := |s + u|;
      assert (s + u)[..n - 1] == s + u[..|u| - 1];
      assert (s + u)[n - 1] == u[|u| - 1];
      LastIndexAppend(s, u[..|u| - 1], c);
    }
  }

  /** Appending `/`-free text extends the base name by exactly that text. */
  lemma {:induction false} BasenameAppend(s: string, u: string)
    requires '/' !in u
    ensures Basename(s + u) == Basename(s) + u
  {
    LastIndexAppend(s, u, '/');
    match LastIndex(s, '/')
    case None =>
    case Some(i) =>
      assert (s + u)[i + 1..] == s[i + 1..] + u;
  }

  /** A suffix of a suffix is a suffix. */
  lemma {:induction false} EndsWithTrans(s: string, mid: string, suffix: string)
    requires EndsWith(s, mid) && EndsWith(mid, suffix)
    ensures EndsWith(s, suffix)
  {
    assert s[|s| - |suffix|..] == s[|s| - |mid|..][|mid| - |suffix|..];
  }

  /** The text from a `.` at index `i` to the end is that dot and what follows it. */
  lemma {:induction false} DotSuffix(b: string, i: nat)
    requires i < |b| && b[i] == '.'
    ensures EndsWith(b, "." + b[i + 1..])
  {
    assert b[i..] == "." + b[i + 1..];
  }

  lemma {:induction false} BasenameOfDotted(stem: string, e: string)
    requires '/' !in e
    ensures Basename(stem + "." + e) == Basename(stem) + "." + e
  {
    var dotted := "." + e;
    assert stem + "." + e == stem + dotted;
    BasenameAppend(stem, dotted);
    assert Basename(stem) + dotted == Basename(stem) + "." + e;
  }

  lemma {:induction false} LastIndexOfDotted(b: string, e: string)
    requires '.' !in e
    ensures LastIndex(b + "." + e, '.') == Some(|b|)
  {
    LastIndexAppend(b + ".", e, '.');
    assert LastIndex(b + ".", '.') == Some(|b|);
  }

  lemma {:induction false} EndsWithConcat(a: string, b: string)
    ensures EndsWith(a + b, b)
  {
    assert (a + b)[|a|..] == b;
  }

  lemma {:induction false} SplitSuffix(s: string, suffix: string)
    requires EndsWith(s, suffix)
    ensures s == s[..|s| - |suffix|] + suffix
  {
  }

  lemma {:induction false} CancelSuffix(a: string, b: string, suffix: string)
    requires a + suffix == b + suffix
    ensures a == b
  {
    assert a == (a + suffix)[..|a|];
    assert b == (b + suffix)[..|b|];
  }

  /** A common tail can be dropped from both sides of `endswith`. */
  lemma {:induction false} EndsWithCancel(x: string, z: string, y: string)
    ensures EndsWith(x + y, z + y) <==> EndsWith(x, z)
  {
    if |z| <= |x| {
      assert (x + y)[|x + y| - |z + y|..] == x[|x| - |z|..] + y;
      if EndsWith(x + y, z + y) {
        CancelSuffix(x[|x| - |z|..], z, y);
      }
    }
  }

  /** The base name of a path in a directory is the base name of its last component. */
  lemma {:induction false} BasenameInDirectory(d: string, f: string)
    requires '/' !in f
    ensures Basename(d + "/" + f) == f
  {
    var s := d + "/";
    assert d + "/" + f == s + f;
    BasenameAppend(s, f);
    assert s[..|s| - 1] + [s[|s| - 1]] == s;
    assert LastIndex(s, '/') == Some(|d|);
    assert Basename(s) == [];
  }

  /** Cutting `.<e>` off `<stem>.<e>` gives back the stem. */
  lemma {:induction false} StemOfDotted(stem: string, e: string)
    ensures var p := stem + "." + e; (p)[..|p| - |e| - 1] == stem
  {
    var p := stem + "." + e;
    assert |p| - |e| - 1 == |stem|;
    assert p[..|stem|] == stem;
  }
}
