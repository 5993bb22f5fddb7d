/** Path helpers the server routes rely on: the separator sanitiser of the
    bridge and the POSIX `join`, `dirname` and `basename` of the host
    language's path library. Paths are plain strings. */
module Paths {

  /** Two-argument POSIX join: an absolute second part discards the first;
      otherwise a separator is inserted unless the first part is empty or
      already ends with one. */
  function Join(a: string, b: string): string
  {
    if |b| > 0 && b[0] == '/' then b
    else if a == [] || a[|a| - 1] == '/' then a + b
    else a + "/" + b
  }

  /** Replaces every backslash by a forward slash, scanning left to right. */
  function Sanitize(s: string): string
  {
    if s == [] then []
    else [if s[0] == '\\' then '/' else s[0]] + Sanitize(s[1..])
  }

  /** One past the last '/' among the first `k` characters of `p`, or 0
      when there is none. */
  function LastSlashEnd(p: string, k: nat): (n: nat)
    requires k <= |p|
    ensures n <= k
    ensures n > 0 ==> p[n - 1] == '/'
    ensures forall i :: n <= i < k ==> p[i] != '/'
  {
    if k == 0 then 0
    else if p[k - 1] == '/' then k
    else LastSlashEnd(p, k - 1)
  }

  /** Length of the head of `p`: one past its last '/', or 0 without one
      (the position where POSIX `basename` starts). */
  function HeadLen(p: string): (n: nat)
    ensures n <= |p|
    ensures n > 0 ==> p[n - 1] == '/'
    ensures forall i :: n <= i < |p| ==> p[i] != '/'
  {
    LastSlashEnd(p, |p|)
  }

  predicate AllSlashes(s: string)
  {
    forall i :: 0 <= i < |s| ==> s[i] == '/'
  }

  /** Removes every trailing '/'. */
  function RStripSlashes(s: string): string
  {
    if s != [] && s[|s| - 1] == '/' then RStripSlashes(s[..|s| - 1]) else s
  }

  function Basename(p: string): string
  {
    p[HeadLen(p)..]
  }

  /** POSIX dirname: the head without its trailing slashes, unless the head
      consists of slashes only. */
  function Dirname(p: string): string
  {
    var head := p[..HeadLen(p)];
    if head != [] && !AllSlashes(head) then RStripSlashes(head) else head
  }

  /** No two consecutive separators. */
  predicate NoDoubleSlash(p: string)
  {
    forall i :: 0 < i < |p| ==> !(p[i - 1] == '/' && p[i] == '/')
  }

  // ---------------------------------------------------------------------
  // Sanitize

  /** The sanitiser keeps the length, turns every backslash into '/' and
      leaves every other character as it was. */
  lemma {:induction false} SanitizeAt(s: string)
    ensures |Sanitize(s)| == |s|
    ensures forall i :: 0 <= i < |s| ==>
      Sanitize(s)[i] == (if s[i] == '\\' then '/' else s[i])
  {
    if s != [] {
      SanitizeAt(s[1..]);
      forall i | 0 <= i < |s|
        ensures Sanitize(s)[i] == (if s[i] == '\\' then '/' else s[i])
      {
        if i > 0 {
          assert Sanitize(s)[i] == Sanitize(s[1..])[i - 1];
        }
      }
    }
  }

  lemma SanitizeHasNoBackslash(s: string)
    ensures '\\' !in Sanitize(s)
  {
    SanitizeAt(s);
  }

  lemma SanitizeIdempotent(s: string)
    ensures Sanitize(Sanitize(s)) == Sanitize(s)
  {
    SanitizeAt(s);
    SanitizeAt(Sanitize(s));
  }

  /** A string without backslashes is its own sanitised form. */
  lemma SanitizeFixesClean(s: string)
    requires '\\' !in s
    ensures Sanitize(s) == s
  {
    SanitizeAt(s);
  }

  // ---------------------------------------------------------------------
  // Join, Dirname, Basename

  /** Joining with an absolute name discards the prefix. */
  lemma JoinAbsolute(a: string, b: string)
    requires |b| > 0 && b[0] == '/'
    ensures Join(a, b) == b
  {
  }

  lemma HeadLenOfNoSlash(p: string)
    requires '/' !in p
    ensures HeadLen(p) == 0
  {
  }

  /** `HeadLen` is determined by its contract. */
  lemma HeadLenUnique(p: string, m: nat)
    requires m <= |p|
    requires m > 0 ==> p[m - 1] == '/'
    requires forall i :: m <= i < |p| ==> p[i] != '/'
    ensures HeadLen(p) == m
  {
  }

  /** The head of `a + "/" + b` is `a + "/"` when `b` holds no separator. */
  lemma HeadLenAfterSlash(a: string, b: string)
    requires '/' !in b
    ensures HeadLen(a + "/" + b) == |a| + 1
  {
    var p := a + "/" + b;
    assert p[|a|] == '/';
    forall j | |a| < j < |p| ensures p[j] != '/' {
      assert p[j] == b[j - |a| - 1];
    }
    HeadLenUnique(p, |a| + 1);
  }

  /** A trailing-slash path has an empty basename (`basename("/a/b/") == ""`). */
  lemma BasenameOfTrailingSlash(p: string)
    requires |p| > 0 && p[|p| - 1] == '/'
    ensures Basename(p) == ""
  {
  }

  lemma RStripKeepsClean(s: string)
    requires s == [] || s[|s| - 1] != '/'
    ensures RStripSlashes(s) == s
  {
  }

  /** Every dirname is empty, made of slashes only, or ends in a name. */
  lemma DirnameShape(p: string)
    ensures var d := Dirname(p); d == [] || AllSlashes(d) || d[|d| - 1] != '/'
  {
    var head := p[..HeadLen(p)];
    if head != [] && !AllSlashes(head) {
      RStripShape(head);
    }
  }

  lemma {:induction false} RStripShape(s: string)
    requires !AllSlashes(s)
    ensures var r := RStripSlashes(s); r != [] && r[|r| - 1] != '/'
  {
    if s != [] && s[|s| - 1] == '/' {
      var t := s[..|s| - 1];
      if AllSlashes(t) {
        forall i | 0 <= i < |s| ensures s[i] == '/' {
          if i < |s| - 1 { assert s[i] == t[i]; }
        }
      }
      RStripShape(t);
    }
  }

  /** Joining a directory part with a plain name and splitting again gives
      both parts back, for any directory part that `Dirname` can produce. */
  lemma SplitJoin(a: string, n: string)
    requires n != [] && '/' !in n
    requires a == [] || AllSlashes(a) || a[|a| - 1] != '/'
    ensures Dirname(Join(a, n)) == a
    ensures Basename(Join(a, n)) == n
  {
    assert n[0] in n;
    var p := Join(a, n);
    if a == [] {
      HeadLenOfNoSlash(n);
    } else if a[|a| - 1] == '/' {
      assert p == a[..|a| - 1] + "/" + n;
      HeadLenAfterSlash(a[..|a| - 1], n);
      assert p[..HeadLen(p)] == a;
    } else {
      HeadLenAfterSlash(a, n);
      assert p[..HeadLen(p)] == a + "/";
      assert p[HeadLen(p)..] == n;
      assert !AllSlashes(a + "/") by { assert (a + "/")[|a| - 1] != '/'; }
      assert (a + "/")[..|a|] == a;
      RStripKeepsClean(a);
    }
  }

  /** Re-joining the two halves of a path gives it back when it has no
      doubled separator. */
  lemma JoinDirnameBasename(p: string)
    requires NoDoubleSlash(p)
    ensures Join(Dirname(p), Basename(p)) == p
  {
    var n := HeadLen(p);
    var head, tail := p[..n], p[n..];
    assert p == head + tail;
    assert tail != [] ==> tail[0] != '/';
    if head != [] && !AllSlashes(head) {
      var i :| 0 <= i < |head| && head[i] != '/';
      assert i < n - 1;
      assert p[n - 2] != '/';
      var h := head[..n - 1];
      assert head == h + "/";
      assert RStripSlashes(head) == RStripSlashes(h);
      RStripKeepsClean(h);
      assert Join(h, tail) == h + "/" + tail;
    }
  }

  lemma {:induction false} RStripPrefix(s: string)
    ensures RStripSlashes(s) <= s
  {
    if s != [] && s[|s| - 1] == '/' {
      RStripPrefix(s[..|s| - 1]);
    }
  }

  /** The dirname of a path is one of its prefixes. */
  lemma DirnamePrefix(p: string)
    ensures Dirname(p) <= p
  {
    RStripPrefix(p[..HeadLen(p)]);
  }
}
