/** How the remote file server names its entries. A stored entry is
    identified by the sequence of names leading to it from the root (its
    key); the wire form of a key is the canonical absolute path
    "/name1/name2/...", and the root is "/". */
module ServerPaths {
  import opened Outcomes
  import opened Paths

  type Key = seq<string>

  /** A name the server stores: non-empty, no separator of either kind,
      and neither "." nor "..". */
  predicate ValidName(n: string)
  {
    n != [] && '/' !in n && '\\' !in n && n != "." && n != ".."
  }

  predicate ValidKey(k: Key)
  {
    forall i :: 0 <= i < |k| ==> ValidName(k[i])
  }

  function Parent(k: Key): Key
    requires k != []
  {
    k[..|k| - 1]
  }

  /** The names of a key joined by '/'. */
  function RelPath(k: Key): string
  {
    if |k| == 0 then ""
    else if |k| == 1 then k[0]
    else RelPath(k[..|k| - 1]) + "/" + k[|k| - 1]
  }

  /** The canonical absolute path of a key. */
  function Render(k: Key): string
  {
    "/" + RelPath(k)
  }

  /** Splits a relative path at its separators, from the right; fails on
      an empty or otherwise invalid name. */
  function SplitNames(t: string): Option<Key>
    decreases |t|
  {
    var h := HeadLen(t);
    if !ValidName(t[h..]) then None
    else if h == 0 then Some([t])
    else match SplitNames(t[..h - 1])
      case None => None
      case Some(ks) => Some(ks + [t[h..]])
  }

  /** The key a path string names on the server, if it is canonical. */
  function Parse(s: string): Option<Key>
  {
    if s == "/" then Some([])
    else if |s| >= 2 && s[0] == '/' then SplitNames(s[1..])
    else None
  }

  // ---------------------------------------------------------------------

  /** A non-empty relative path neither starts nor ends with a separator
      and holds no backslash. */
  lemma {:induction false} RelPathShape(k: Key)
    requires ValidKey(k) && |k| >= 1
    ensures var r := RelPath(k);
      r != [] && r[0] != '/' && r[|r| - 1] != '/' && '\\' !in r
  {
    if |k| > 1 {
      var k' := k[..|k| - 1];
      RelPathShape(k');
      var n := k[|k| - 1];
      assert ValidName(n);
      assert n[|n| - 1] in n;
    } else {
      assert ValidName(k[0]);
      assert k[0][0] in k[0];
      assert k[0][|k[0]| - 1] in k[0];
    }
  }

  lemma RenderHasNoBackslash(k: Key)
    requires ValidKey(k)
    ensures '\\' !in Render(k)
  {
    if |k| >= 1 {
      RelPathShape(k);
    }
  }

  /** Splitting the relative path of a key gives the key back. */
  lemma {:induction false} SplitRelPath(k: Key)
    requires ValidKey(k) && |k| >= 1
    ensures SplitNames(RelPath(k)) == Some(k)
  {
    var n := k[|k| - 1];
    assert ValidName(n);
    if |k| == 1 {
      SplitOneName(n);
      assert k == [n];
    } else {
      var k' := Parent(k);
      ParentKeyValid(k);
      SplitRelPath(k');
      SplitAfterSlash(RelPath(k'), n, k');
      assert k == k' + [n];
    }
  }

  lemma SplitOneName(n: string)
    requires ValidName(n)
    ensures SplitNames(n) == Some([n])
  {
    HeadLenOfNoSlash(n);
    assert n[0..] == n;
  }

  lemma ParentKeyValid(k: Key)
    requires ValidKey(k) && |k| >= 1
    ensures ValidKey(Parent(k))
  {
    forall i | 0 <= i < |Parent(k)| ensures ValidName(Parent(k)[i]) {
      assert Parent(k)[i] == k[i];
    }
  }

  /** Splitting `a + "/" + n` splits `a` and adds the name `n`. */
  lemma SplitAfterSlash(a: string, n: string, ks: Key)
    requires ValidName(n) && SplitNames(a) == Some(ks)
    ensures SplitNames(a + "/" + n) == Some(ks + [n])
  {
    var t := a + "/" + n;
    HeadLenAfterSlash(a, n);
    assert t[HeadLen(t)..] == n;
    assert t[..HeadLen(t) - 1] == a;
  }

  /** Whatever `SplitNames` accepts joins back to the string it came from. */
  lemma {:induction false} SplitNamesSound(t: string, k: Key)
    requires SplitNames(t) == Some(k)
    ensures ValidKey(k) && |k| >= 1 && RelPath(k) == t
    decreases |t|
  {
    var h := HeadLen(t);
    if h == 0 {
      assert t[h..] == t;
      assert k == [t];
    } else {
      match SplitNames(t[..h - 1])
      case Some(ks) =>
        assert k == ks + [t[h..]];
        SplitNamesSound(t[..h - 1], ks);
        assert k[..|k| - 1] == ks;
        assert t == t[..h - 1] + "/" + t[h..];
    }
  }

  lemma ParseRender(k: Key)
    requires ValidKey(k)
    ensures Parse(Render(k)) == Some(k)
  {
    if |k| >= 1 {
      RelPathShape(k);
      SplitRelPath(k);
      assert Render(k)[1..] == RelPath(k);
    }
  }

  lemma RenderParse(s: string, k: Key)
    requires Parse(s) == Some(k)
    ensures ValidKey(k) && Render(k) == s
  {
    if s != "/" {
      SplitNamesSound(s[1..], k);
      assert s == "/" + s[1..];
    }
  }

  lemma ChildKeyValid(k: Key, n: string)
    requires ValidKey(k) && ValidName(n)
    ensures ValidKey(k + [n])
  {
    var c := k + [n];
    forall i | 0 <= i < |c| ensures ValidName(c[i]) {
      if i < |k| { assert c[i] == k[i]; }
    }
  }

  /** Joining a key's path with a name gives the child's path. */
  lemma JoinChild(k: Key, n: string)
    requires ValidKey(k) && ValidName(n)
    ensures Join(Render(k), n) == Render(k + [n])
  {
    assert n[0] in n;
    RelPathSnoc(k, n);
    if |k| >= 1 {
      RelPathShape(k);
    }
  }

  lemma RelPathSnoc(k: Key, n: string)
    ensures RelPath(k + [n]) == if k == [] then n else RelPath(k) + "/" + n
  {
    assert (k + [n])[..|k|] == k;
  }

  /** The path of a child, as the routes build it from its parent's path
      and its name, is the child's canonical path, and splitting it again
      gives the parent's path and the name. */
  lemma ChildPath(k: Key, n: string)
    requires ValidKey(k) && ValidName(n)
    ensures ValidKey(k + [n])
    ensures Join(Render(k), n) == Render(k + [n])
    ensures Sanitize(Render(k + [n])) == Render(k + [n])
    ensures Dirname(Render(k + [n])) == Render(k)
    ensures Basename(Render(k + [n])) == n
  {
    ChildKeyValid(k, n);
    JoinChild(k, n);
    RenderHasNoBackslash(k + [n]);
    SanitizeFixesClean(Render(k + [n]));
    assert n[0] in n;
    if |k| >= 1 {
      RelPathShape(k);
    }
    var r := Render(k);
    assert r == [] || AllSlashes(r) || r[|r| - 1] != '/';
    SplitJoin(r, n);
  }
}
