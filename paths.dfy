/** The parts of Python's `posixpath` and `str` the tasks use on paths. */
module Paths {

  predicate StartsWith(s: string, prefix: string)
  {
    |prefix| <= |s| && s[..|prefix|] == prefix
  }

  predicate EndsWith(s: string, suffix: string)
  {
    |suffix| <= |s| && s[|s| - |suffix|..] == suffix
  }

  /** Index of the last '/' among the first `n` characters of `p`, or -1. */
  function LastSlashBefore(p: string, n: nat): (r: int)
    requires n <= |p|
    ensures -1 <= r < n
    ensures r >= 0 ==> p[r] == '/'
  {
    if n == 0 then -1
    else if p[n - 1] == '/' then n - 1
    else LastSlashBefore(p, n - 1)
  }

  /** Index of the last '/' in `p`, or -1 when there is none. */
  function LastSlash(p: string): (r: int)
    ensures -1 <= r < |p|
    ensures r >= 0 ==> p[r] == '/'
  {
    LastSlashBefore(p, |p|)
  }

  lemma {:induction false} NoSlashAfter(p: string, n: nat, k: int)
    requires n <= |p|
    requires LastSlashBefore(p, n) < k < n
    ensures p[k] != '/'
  {
    if k < n - 1 {
      NoSlashAfter(p, n - 1, k);
    }
  }

  lemma NoSlashAfterLast(p: string, k: int)
    requires LastSlash(p) < k < |p|
    ensures p[k] != '/'
  {
    NoSlashAfter(p, |p|, k);
  }

  /** `os.path.basename`: everything after the last '/'. */
  function Basename(p: string): string
  {
    p[LastSlash(p) + 1..]
  }

  function StripTrailingSlashes(s: string): string
  {
    if s != [] && s[|s| - 1] == '/' then StripTrailingSlashes(s[..|s| - 1]) else s
  }

  /** `os.path.dirname`: the head up to the last '/', without its trailing
      slashes unless the head consists of slashes only. */
  function Dirname(p: string): string
  {
    var head := p[..LastSlash(p) + 1];
    var stripped := StripTrailingSlashes(head);
    if stripped != [] then stripped else head
  }

  /** `os.path.join(a, b)` for two components. */
  function Join(a: string, b: string): string
  {
    if StartsWith(b, "/") then b
    else if a == [] || a[|a| - 1] == '/' then a + b
    else a + "/" + b
  }

  /** The driver's backup location for `full`:
      `os.path.join(os.path.dirname(full), basename + ".original")`. */
  function SiblingBackup(full: string): string
  {
    Join(Dirname(full), Basename(full) + ".original")
  }

  lemma StripOneSlash(s: string)
    requires |s| >= 2 && s[|s| - 1] == '/' && s[|s| - 2] != '/'
    ensures StripTrailingSlashes(s) == s[..|s| - 1]
  {
    var t := s[..|s| - 1];
    assert t[|t| - 1] != '/';
  }

  lemma DirnameBeforeSingleSlash(full: string)
    requires LastSlash(full) >= 1 && full[LastSlash(full) - 1] != '/'
    ensures Dirname(full) == full[..LastSlash(full)]
  {
    var head := full[..LastSlash(full) + 1];
    assert head[|head| - 2] != '/';
    StripOneSlash(head);
  }

  lemma NotRooted(s: string)
    requires s == [] || s[0] != '/'
    ensures !StartsWith(s, "/")
  {
  }

  /** Joining a relative directory and then a relative name is joining the
      two as one relative path. */
  lemma JoinJoin(a: string, x: string, y: string)
    requires x != [] && x[0] != '/' && x[|x| - 1] != '/'
    requires y == [] || y[0] != '/'
    ensures Join(Join(a, x), y) == Join(a, x + "/" + y)
  {
    var xy := x + "/" + y;
    assert xy[0] == x[0];
    NotRooted(x);
    NotRooted(xy);
    if a == [] || a[|a| - 1] == '/' {
      JoinJoinAt(a, x, y, a);
    } else {
      JoinJoinAt(a, x, y, a + "/");
    }
  }

  /** `JoinJoin` where `Join(a, ...)` puts `prefix` in front. */
  lemma JoinJoinAt(a: string, x: string, y: string, prefix: string)
    requires x != [] && x[|x| - 1] != '/'
    requires y == [] || y[0] != '/'
    requires Join(a, x) == prefix + x
    requires Join(a, x + "/" + y) == prefix + (x + "/" + y)
    ensures Join(Join(a, x), y) == Join(a, x + "/" + y)
  {
    var ax := prefix + x;
    assert ax[|ax| - 1] == x[|x| - 1];
    NotRooted(y);
    assert Join(ax, y) == ax + "/" + y;
    assert prefix + x + "/" + y == prefix + (x + "/" + y);
  }

  lemma BaseTailNotRooted(full: string, suffix: string)
    requires suffix != [] && suffix[0] != '/'
    ensures !StartsWith(Basename(full) + suffix, "/")
  {
    var i := LastSlash(full);
    var base := full[i + 1..];
    var tail := base + suffix;
    assert Basename(full) == base;
    if base != [] {
      NoSlashAfterLast(full, i + 1);
      assert tail[0] == full[i + 1];
    } else {
      assert tail[0] == suffix[0];
    }
    NotRooted(tail);
  }

  lemma JoinInDirectory(full: string, tail: string)
    requires LastSlash(full) >= 1 && full[LastSlash(full) - 1] != '/'
    requires !StartsWith(tail, "/")
    ensures Join(Dirname(full), tail) == full[..LastSlash(full)] + "/" + tail
  {
    DirnameBeforeSingleSlash(full);
    var d := full[..LastSlash(full)];
    assert d[|d| - 1] != '/';
  }

  lemma JoinAtRoot(full: string, tail: string)
    requires LastSlash(full) == 0
    requires !StartsWith(tail, "/")
    ensures Join(Dirname(full), tail) == "/" + tail
  {
    assert full[..1] == "/";
    assert StripTrailingSlashes("/") == StripTrailingSlashes([]);
  }

  /** Joining the directory of `full` with its base name plus a suffix gives
      `full` plus that suffix, unless the last '/' follows another '/'. */
  lemma JoinDirnameBasename(full: string, suffix: string)
    requires suffix != [] && suffix[0] != '/'
    requires LastSlash(full) < 1 || full[LastSlash(full) - 1] != '/'
    ensures Join(Dirname(full), Basename(full) + suffix) == full + suffix
  {
    var i := LastSlash(full);
    var base := full[i + 1..];
    assert Basename(full) == base;
    BaseTailNotRooted(full, suffix);
    if i >= 1 {
      JoinInDirectory(full, base + suffix);
      assert full[..i] + "/" + (base + suffix) == full + suffix by {
        assert full == full[..i] + "/" + base;
      }
    } else if i == 0 {
      JoinAtRoot(full, base + suffix);
      assert "/" + (base + suffix) == full + suffix by {
        assert full == "/" + base;
      }
    } else {
      JoinNoSlash(full, base + suffix);
      assert full == base;
    }
  }

  lemma JoinNoSlash(full: string, tail: string)
    requires LastSlash(full) == -1
    requires !StartsWith(tail, "/")
    ensures Join(Dirname(full), tail) == tail
  {
    assert full[..0] == [];
    assert Dirname(full) == [];
  }

  /** The sibling backup is the path with ".original" appended, unless the
      last '/' of the path follows another '/'. */
  lemma SiblingBackupIsSuffixed(full: string)
    requires LastSlash(full) < 1 || full[LastSlash(full) - 1] != '/'
    ensures SiblingBackup(full) == full + ".original"
  {
    JoinDirnameBasename(full, ".original");
  }

  // ---------------------------------------------------------------------
  // splitext, split("/") and commonprefix

  /** Number of '/' in `p`: `p.split("/")` has one more element than this. */
  function SlashCount(p: string): nat
  {
    if p == [] then 0 else SlashCount(p[..|p| - 1]) + if p[|p| - 1] == '/' then 1 else 0
  }

  /** Index of the last '.' among the first `n` characters of `p`, or -1. */
  function LastDotBefore(p: string, n: nat): (r: int)
    requires n <= |p|
    ensures -1 <= r < n
    ensures r >= 0 ==> p[r] == '.'
  {
    if n == 0 then -1
    else if p[n - 1] == '.' then n - 1
    else LastDotBefore(p, n - 1)
  }

  /** `os.path.splitext(p)[1]`: from the last '.' of the base name, provided
      the base name has a character other than '.' before it. */
  function Extension(p: string): (ext: string)
    ensures ext == [] || (ext[0] == '.' && EndsWith(p, ext))
  {
    var sep := LastSlash(p);
    var dot := LastDotBefore(p, |p|);
    if dot > sep && (exists i :: sep + 1 <= i < dot && p[i] != '.') then p[dot..] else []
  }

  /** The longest common prefix of two strings. */
  function CommonPrefix2(a: string, b: string): (r: string)
    ensures StartsWith(a, r) && StartsWith(b, r)
  {
    if a == [] || b == [] || a[0] != b[0] then []
    else [a[0]] + CommonPrefix2(a[1..], b[1..])
  }

  /** `os.path.commonprefix(names)`, which compares the least and the
      greatest name; the result is the longest prefix shared by all names. */
  function CommonPrefix(names: seq<string>): string
  {
    if names == [] then []
    else if |names| == 1 then names[0]
    else CommonPrefix2(CommonPrefix(names[..|names| - 1]), names[|names| - 1])
  }

  lemma {:induction false} CommonPrefix2IsLongest(a: string, b: string, q: string)
    requires StartsWith(a, q) && StartsWith(b, q)
    ensures StartsWith(CommonPrefix2(a, b), q)
  {
    if q != [] {
      assert a[0] == q[0] && b[0] == q[0];
      assert a[1..][..|q| - 1] == q[1..] && b[1..][..|q| - 1] == q[1..];
      CommonPrefix2IsLongest(a[1..], b[1..], q[1..]);
      assert CommonPrefix2(a, b) == [a[0]] + CommonPrefix2(a[1..], b[1..]);
    }
  }

  lemma StartsWithTrans(s: string, p: string, q: string)
    requires StartsWith(s, p) && StartsWith(p, q)
    ensures StartsWith(s, q)
  {
    assert s[..|q|] == s[..|p|][..|q|];
  }

  /** The common prefix is a prefix of every name, and every prefix shared
      by all names is a prefix of it. */
  lemma {:induction false} CommonPrefixIsLongest(names: seq<string>, q: string)
    ensures forall i :: 0 <= i < |names| ==> StartsWith(names[i], CommonPrefix(names))
    ensures names != [] && (forall i :: 0 <= i < |names| ==> StartsWith(names[i], q)) ==>
      StartsWith(CommonPrefix(names), q)
  {
    if |names| == 1 {
      assert names[0][..|names[0]|] == names[0];
    } else if |names| > 1 {
      var init := names[..|names| - 1];
      var last := names[|names| - 1];
      CommonPrefixIsLongest(init, q);
      var c := CommonPrefix(init);
      forall i | 0 <= i < |names| ensures StartsWith(names[i], CommonPrefix(names)) {
        if i < |init| {
          assert names[i] == init[i];
          StartsWithTrans(names[i], c, CommonPrefix2(c, last));
        }
      }
      if forall i :: 0 <= i < |names| ==> StartsWith(names[i], q) {
        forall i | 0 <= i < |init| ensures StartsWith(init[i], q) {
          assert init[i] == names[i];
        }
        CommonPrefix2IsLongest(c, last, q);
      }
    }
  }
}
