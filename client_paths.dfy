/** The two path helpers of the browser client: `parentDir`, which picks
    the directory an upload or a new entry goes to when a file is selected,
    and `isDirPath`, which decides whether a selected path is a directory.
    Both treat '/' and '\' alike as separators. */
module ClientPaths {
  import opened ServerPaths

  predicate IsSep(c: char)
  {
    c == '/' || c == '\\'
  }

  predicate IsLetter(c: char)
  {
    'A' <= c <= 'Z' || 'a' <= c <= 'z'
  }

  /** A drive root such as "C:" or "C:\". */
  predicate IsDriveRoot(p: string)
  {
    (|p| == 2 || (|p| == 3 && p[2] == '\\')) && IsLetter(p[0]) && p[1] == ':'
  }

  /** `isDirPath`: the path ends with a separator. */
  predicate IsDirPath(p: string)
  {
    p != [] && IsSep(p[|p| - 1])
  }

  /** One past the last separator among the first `k` characters of `p`, or
      0 when there is none. */
  function NameStart(p: string, k: nat): (n: nat)
    requires k <= |p|
    ensures n <= k
    ensures n > 0 ==> IsSep(p[n - 1])
    ensures forall i :: n <= i < k ==> !IsSep(p[i])
  {
    if k == 0 then 0
    else if IsSep(p[k - 1]) then k
    else NameStart(p, k - 1)
  }

  /** Where the run of separators that ends at `k` starts. */
  function RunStart(p: string, k: nat): (n: nat)
    requires k <= |p|
    ensures n <= k
    ensures forall i :: n <= i < k ==> IsSep(p[i])
    ensures n > 0 ==> !IsSep(p[n - 1])
  {
    if k > 0 && IsSep(p[k - 1]) then RunStart(p, k - 1) else k
  }

  /** `parentDir`: a root ("/", "\", a drive root) is its own parent;
      otherwise the last name, the separators before it and at most one
      separator after it are cut from the end. A path with no separator
      before its last name, or with no last name, comes back unchanged. */
  function ParentDir(p: string): (r: string)
    ensures r <= p
  {
    if p == "/" || p == "\\" || IsDriveRoot(p) then p
    else
      var q := if p != [] && IsSep(p[|p| - 1]) then p[..|p| - 1] else p;
      var h := NameStart(q, |q|);
      if h == 0 || h == |q| then p
      else p[..RunStart(q, h)]
  }

  // ---------------------------------------------------------------------

  lemma NameStartUnique(p: string, m: nat)
    requires 0 < m <= |p| && IsSep(p[m - 1])
    requires forall i :: m <= i < |p| ==> !IsSep(p[i])
    ensures NameStart(p, |p|) == m
  {
  }

  /** The parent of `a + "/" + n`, or of `a + "/" + n + "/"`, for a name `n`
      after a part `a` that does not end in a separator, is `a`. */
  lemma ParentOfName(a: string, n: string, trailing: bool)
    requires n != [] && forall i :: 0 <= i < |n| ==> !IsSep(n[i])
    requires a == [] || !IsSep(a[|a| - 1])
    ensures ParentDir(a + "/" + n + (if trailing then "/" else "")) == a
  {
    var q := a + "/" + n;
    var p := q + (if trailing then "/" else "");
    assert p[|a|] == '/';
    assert p[|p| - 1] == (if trailing then '/' else n[|n| - 1]);
    assert q[|a|] == '/';
    forall i | |a| + 1 <= i < |q| ensures !IsSep(q[i]) {
      assert q[i] == n[i - |a| - 1];
    }
    NameStartUnique(q, |a| + 1);
    if a != [] {
      assert q[|a| - 1] == a[|a| - 1];
    }
    RunStartOfOne(q, |a| + 1);
    assert p[..|a|] == a;
    ParentDirCut(p, q);
  }

  /** Where a single separator ends at `m`, the run starts one before. */
  lemma RunStartOfOne(q: string, m: nat)
    requires 0 < m <= |q| && IsSep(q[m - 1])
    requires m == 1 || !IsSep(q[m - 2])
    ensures RunStart(q, m) == m - 1
  {
    assert RunStart(q, m) == RunStart(q, m - 1);
  }

  /** A path that is not a root, whose name starts after some separator,
      loses that name and the separators before it. */
  lemma ParentDirCut(p: string, q: string)
    requires |p| >= 2 && !IsDriveRoot(p)
    requires q == if IsSep(p[|p| - 1]) then p[..|p| - 1] else p
    requires 0 < NameStart(q, |q|) < |q|
    ensures ParentDir(p) == p[..RunStart(q, NameStart(q, |q|))]
  {
  }

  /** The parent the client computes for a stored entry: the path of the
      directory holding it, except for an entry directly under the root,
      whose parent comes out as the empty string rather than "/". A
      trailing separator makes no difference. */
  lemma ParentDirOfEntry(k: Key)
    requires ValidKey(k) && |k| >= 1
    ensures ParentDir(Render(k)) == (if |k| == 1 then "" else Render(Parent(k)))
    ensures ParentDir(Render(k) + "/") == ParentDir(Render(k))
  {
    var n := k[|k| - 1];
    NameHasNoSep(n);
    var a := if |k| == 1 then "" else Render(Parent(k));
    if |k| >= 2 {
      ParentKeyValid(k);
      RenderEndsInName(Parent(k));
    }
    assert Render(k) == a + "/" + n;
    ParentOfName(a, n, false);
    ParentOfName(a, n, true);
    assert Render(k) + "" == Render(k);
  }

  lemma NameHasNoSep(n: string)
    requires ValidName(n)
    ensures n != [] && forall i :: 0 <= i < |n| ==> !IsSep(n[i])
  {
    assert forall i :: 0 <= i < |n| ==> n[i] in n;
  }

  /** The path of a stored entry other than the root ends in a name. */
  lemma RenderEndsInName(k: Key)
    requires ValidKey(k) && |k| >= 1
    ensures Render(k) != [] && !IsSep(Render(k)[|Render(k)| - 1])
  {
    RelPathShape(k);
    var r := RelPath(k);
    assert Render(k)[|Render(k)| - 1] == r[|r| - 1];
    assert r[|r| - 1] in r;
  }

  /** The client never takes a stored entry's path for a directory path,
      except the root's: listed directories carry no trailing separator. */
  lemma OnlyRootLooksLikeDirectory(k: Key)
    requires ValidKey(k)
    ensures IsDirPath(Render(k)) <==> k == []
  {
    if |k| >= 1 {
      RelPathShape(k);
      var r := RelPath(k);
      assert Render(k)[|Render(k)| - 1] == r[|r| - 1];
      assert r[|r| - 1] in r;
    }
  }

  /** Roots, including drive roots, are their own parents. */
  lemma RootsAreTheirOwnParents()
    ensures ParentDir("/") == "/" && ParentDir("\\") == "\\"
    ensures ParentDir("C:") == "C:" && ParentDir("c:\\") == "c:\\"
  {
  }

  /** A top-level entry's parent is the empty string; deeper entries get
      the path of their directory. */
  lemma ParentDirOfSlashPaths()
    ensures ParentDir("/a") == "" && ParentDir("/a/b") == "/a"
  {
    ParentOfTopName();
    ParentOfNestedName();
  }

  lemma ParentOfTopName()
    ensures ParentDir("/a") == ""
  {
    var p := "" + "/" + "a";
    ParentOfName("", "a", false);
    assert p + "" == p == "/a";
  }

  lemma ParentOfNestedName()
    ensures ParentDir("/a/b") == "/a"
  {
    var p := "/a" + "/" + "b";
    ParentOfName("/a", "b", false);
    assert p + "" == p == "/a/b";
  }

  /** Backslashes separate names like slashes do, and a drive root is
      where the cutting stops. */
  lemma ParentDirOfDrivePaths()
    ensures ParentDir("C:\\x\\y.txt") == "C:\\x" && ParentDir("C:\\x") == "C:"
  {
    var p := "C:\\x\\y.txt";
    assert !IsDriveRoot(p) && |p| == 10;
    NameStartUnique(p, 5);
    assert RunStart(p, 5) == 4;
    assert p[..4] == "C:\\x";
    var p2 := "C:\\x";
    assert !IsDriveRoot(p2) && |p2| == 4;
    NameStartUnique(p2, 3);
    assert RunStart(p2, 3) == 2;
  }

  /** Without a separator before a last name, or without a last name
      (two separators at the end), nothing is cut. */
  lemma ParentDirWithoutName(p: string)
    requires || (forall i :: 0 <= i < |p| - 1 ==> !IsSep(p[i]))
             || (|p| >= 2 && IsSep(p[|p| - 1]) && IsSep(p[|p| - 2]))
    ensures ParentDir(p) == p
  {
    if |p| >= 2 && IsSep(p[|p| - 1]) && IsSep(p[|p| - 2]) {
      var q := p[..|p| - 1];
      assert IsSep(q[|q| - 1]);
      assert NameStart(q, |q|) == |q|;
    } else if p != [] && !IsDriveRoot(p) {
      var q := if IsSep(p[|p| - 1]) then p[..|p| - 1] else p;
      forall i | 0 <= i < |q| ensures !IsSep(q[i]) {
        assert q[i] == p[i];
      }
      NameStartNone(q, |q|);
    }
  }

  lemma {:induction false} NameStartNone(q: string, k: nat)
    requires k <= |q| && forall i :: 0 <= i < k ==> !IsSep(q[i])
    ensures NameStart(q, k) == 0
  {
    if k > 0 {
      NameStartNone(q, k - 1);
    }
  }

  /** The two shapes above, on examples. */
  lemma ParentDirWithoutNameExamples()
    ensures ParentDir("a") == "a" && ParentDir("/a//") == "/a//"
  {
    ParentDirWithoutName("a");
    var p := "/a//";
    assert IsSep(p[3]) && IsSep(p[2]);
    ParentDirWithoutName(p);
  }
}
