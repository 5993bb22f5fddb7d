/** The download route: a file is sent as it is; a directory is sent as a
    ZIP archive holding one entry per file below it, named by its path
    relative to the directory, under the directory's basename. The archive
    is modelled by its sequence of entries, not by its encoding. */
module Archive {
  import opened Outcomes
  import opened Paths
  import opened ServerPaths
  import opened RemoteFs

  type Entry = (string, seq<byte>)

  /** The archive being written. */
  class ZipWriter {
    var entries: seq<Entry>

    constructor ()
      ensures entries == []
    {
      entries := [];
    }

    /** `writestr`: appends one entry. */
    method WriteStr(name: string, data: seq<byte>)
      modifies this
      ensures entries == old(entries) + [(name, data)]
    {
      entries := entries + [(name, data)];
    }
  }

  /** The entry name of the entry at `rel` below a directory archived under
      `zipPath`: the names of `rel` joined onto `zipPath` one by one. */
  function ZipName(zipPath: string, rel: Key): string
  {
    if rel == [] then zipPath
    else Join(ZipName(zipPath, rel[..|rel| - 1]), rel[|rel| - 1])
  }

  /** The stored files strictly below `k` whose first name below `k` is
      in `ns`. */
  function FilesBelow(t: Tree, k: Key, ns: set<string>): set<Key>
  {
    set q | q in t && |q| > |k| && q[..|k|] == k && q[|k|] in ns && t[q].File?
  }

  /** Every stored file strictly below `k`. */
  function AllFilesBelow(t: Tree, k: Key): set<Key>
  {
    set q | q in t && |q| > |k| && q[..|k|] == k && t[q].File?
  }

  predicate Distinct<T(==)>(s: seq<T>)
  {
    forall i, j :: 0 <= i < j < |s| ==> s[i] != s[j]
  }

  /** `entries` holds, in the order given by `order`, one entry per file of
      `files`, named by its path below `k` and holding its bytes. */
  ghost predicate Layout(t: Tree, k: Key, zipPath: string, files: set<Key>, order: seq<Key>, entries: seq<Entry>)
  {
    && Distinct(order)
    && (set q | q in order) == files
    && |entries| == |order|
    && (forall i :: 0 <= i < |order| ==>
          order[i] in t && t[order[i]].File? && k < order[i]
          && entries[i] == (ZipName(zipPath, order[i][|k|..]), t[order[i]].data))
  }

  // ---------------------------------------------------------------------

  /** Joining names one by one onto a joined prefix is joining the whole
      relative path. */
  lemma {:induction false} ZipNameAppend(z: string, a: Key, b: Key)
    ensures ZipName(ZipName(z, a), b) == ZipName(z, a + b)
  {
    if b != [] {
      ZipNameAppend(z, a, b[..|b| - 1]);
      assert (a + b)[..|a + b| - 1] == a + b[..|b| - 1];
      assert (a + b)[|a + b| - 1] == b[|b| - 1];
    } else {
      assert a + b == a;
    }
  }

  /** Joining a relative path onto a root without separators. */
  lemma JoinRel(z: string, r: string)
    requires '/' !in z && r != [] && r[0] != '/' && r[|r| - 1] != '/'
    ensures Join(z, r) == (if z == [] then r else z + "/" + r)
    ensures var j := Join(z, r); j != [] && j[|j| - 1] != '/'
  {
    if z != [] {
      assert z[|z| - 1] in z;
    }
  }

  lemma ValidInit(rel: Key)
    requires ValidKey(rel) && rel != []
    ensures ValidKey(rel[..|rel| - 1]) && ValidName(rel[|rel| - 1])
  {
    var init := rel[..|rel| - 1];
    forall i | 0 <= i < |init| ensures ValidName(init[i]) { assert init[i] == rel[i]; }
  }

  /** Below an archive root without separators, an entry name is the root
      joined with the relative path. */
  lemma {:induction false} ZipNameShape(z: string, rel: Key)
    requires '/' !in z && ValidKey(rel) && rel != []
    ensures ZipName(z, rel) == Join(z, RelPath(rel))
  {
    var n := rel[|rel| - 1];
    var init := rel[..|rel| - 1];
    ValidInit(rel);
    assert n[0] in n;
    if init == [] {
      assert ZipName(z, init) == z;
      assert RelPath(rel) == n;
    } else {
      ZipNameShape(z, init);
      RelPathShape(init);
      RelPathShape(rel);
      var r := RelPath(init);
      assert RelPath(rel) == r + "/" + n;
      JoinRel(z, r);
      JoinRel(z, RelPath(rel));
    }
  }

  /** Different files get different entry names. */
  lemma ZipNameInjective(z: string, r1: Key, r2: Key)
    requires '/' !in z && ValidKey(r1) && ValidKey(r2) && r1 != [] && r2 != []
    ensures ZipName(z, r1) == ZipName(z, r2) ==> r1 == r2
  {
    ZipNameShape(z, r1);
    ZipNameShape(z, r2);
    RelPathShape(r1);
    RelPathShape(r2);
    var p1, p2 := RelPath(r1), RelPath(r2);
    JoinRel(z, p1);
    JoinRel(z, p2);
    if z != [] {
      assert p1 == (z + "/" + p1)[|z| + 1..];
      assert p2 == (z + "/" + p2)[|z| + 1..];
    }
    ParseRender(r1);
    ParseRender(r2);
  }

  lemma {:induction false} DistinctCard<T>(s: seq<T>)
    requires Distinct(s)
    ensures |set x | x in s| == |s|
  {
    if s != [] {
      var init := s[..|s| - 1];
      assert Distinct(init);
      DistinctCard(init);
      assert (set x | x in s) == (set x | x in init) + {s[|s| - 1]};
      assert s[|s| - 1] !in (set x | x in init);
    }
  }

  /** The archive of a directory: one entry per file below it, none for
      directories (so empty directories leave no trace), each named by the
      archive root joined with its relative path, no two alike. */
  lemma ArchiveContents(t: Tree, k: Key, z: string, order: seq<Key>, entries: seq<Entry>)
    requires WellFormed(t) && '/' !in z
    requires Layout(t, k, z, AllFilesBelow(t, k), order, entries)
    ensures |entries| == |AllFilesBelow(t, k)|
    ensures forall i :: 0 <= i < |entries| ==>
      entries[i].0 == Join(z, RelPath(order[i][|k|..])) && entries[i].1 == t[order[i]].data
    ensures forall i, j :: 0 <= i < j < |entries| ==> entries[i].0 != entries[j].0
  {
    DistinctCard(order);
    forall i | 0 <= i < |entries|
      ensures entries[i].0 == Join(z, RelPath(order[i][|k|..])) && ValidKey(order[i][|k|..])
    {
      var rel := order[i][|k|..];
      assert ValidKey(order[i]);
      assert ValidKey(rel) by {
        forall m | 0 <= m < |rel| ensures ValidName(rel[m]) { assert rel[m] == order[i][|k| + m]; }
      }
      ZipNameShape(z, rel);
    }
    forall i, j | 0 <= i < j < |entries| ensures entries[i].0 != entries[j].0 {
      var r1, r2 := order[i][|k|..], order[j][|k|..];
      ZipNameInjective(z, r1, r2);
      assert order[i] == k + r1 && order[j] == k + r2;
    }
  }

  // ---------------------------------------------------------------------
  // Building the archive

  lemma LayoutAppend(t: Tree, k: Key, z: string, f1: set<Key>, o1: seq<Key>, e1: seq<Entry>,
                     f2: set<Key>, o2: seq<Key>, e2: seq<Entry>)
    requires Layout(t, k, z, f1, o1, e1) && Layout(t, k, z, f2, o2, e2) && f1 !! f2
    ensures Layout(t, k, z, f1 + f2, o1 + o2, e1 + e2)
  {
    DistinctAppend(o1, o2, f1, f2);
    ElementsAppend(o1, o2);
    var o, e := o1 + o2, e1 + e2;
    forall i | 0 <= i < |o|
      ensures o[i] in t && t[o[i]].File? && k < o[i]
      ensures e[i] == (ZipName(z, o[i][|k|..]), t[o[i]].data)
    {
      if i < |o1| {
        assert o[i] == o1[i] && e[i] == e1[i];
      } else {
        assert o[i] == o2[i - |o1|] && e[i] == e2[i - |e1|];
      }
    }
  }

  lemma DistinctAppend<T>(a: seq<T>, b: seq<T>, fa: set<T>, fb: set<T>)
    requires Distinct(a) && Distinct(b) && fa !! fb
    requires (set x | x in a) == fa && (set x | x in b) == fb
    ensures Distinct(a + b)
  {
    var c := a + b;
    forall i, j | 0 <= i < j < |c| ensures c[i] != c[j] {
      if j < |a| {
        assert c[i] == a[i] && c[j] == a[j];
      } else if i >= |a| {
        assert c[i] == b[i - |a|] && c[j] == b[j - |a|];
      } else {
        assert c[i] == a[i] && c[j] == b[j - |a|];
        assert c[i] in fa && c[j] in fb;
      }
    }
  }

  lemma ElementsAppend<T>(a: seq<T>, b: seq<T>)
    ensures (set x | x in a + b) == (set x | x in a) + (set x | x in b)
  {
  }

  /** The layout of a child directory's archive, under the child's own
      entry name, is a layout of the parent's archive. */
  lemma LayoutChild(t: Tree, k: Key, z: string, n: string, order: seq<Key>, entries: seq<Entry>)
    requires k + [n] in t && t[k + [n]].Dir?
    requires Layout(t, k + [n], Join(z, n), AllFilesBelow(t, k + [n]), order, entries)
    ensures Layout(t, k, z, FilesBelow(t, k, {n}), order, entries)
  {
    var c := k + [n];
    forall i | 0 <= i < |order|
      ensures ZipName(Join(z, n), order[i][|c|..]) == ZipName(z, order[i][|k|..])
    {
      var q := order[i];
      assert ZipName(z, [n]) == Join(z, n) by { assert [n][..0] == []; }
      ZipNameAppend(z, [n], q[|c|..]);
      assert q[|k|..] == [n] + q[|c|..];
    }
    forall q | q in AllFilesBelow(t, c) ensures q in FilesBelow(t, k, {n}) {
      assert q[..|k|] == c[..|k|];
    }
    forall q | q in FilesBelow(t, k, {n}) ensures q in AllFilesBelow(t, c) {
      assert q[..|c|] == c;
      assert q[..|q|] == q;
      assert q != c;
    }
  }

  /** Below a file there is only the file. */
  lemma FilesBelowFile(t: Tree, k: Key, n: string)
    requires WellFormed(t) && k + [n] in t && t[k + [n]].File?
    ensures FilesBelow(t, k, {n}) == {k + [n]}
  {
    var c := k + [n];
    FileHasNoChildren(t, c);
    NoChildrenNoSubtree(t, c);
    forall q | q in FilesBelow(t, k, {n}) ensures q == c {
      assert q[..|c|] == c;
      assert q in Subtree(t, c);
    }
    assert c in FilesBelow(t, k, {n}) by { assert c[..|k|] == k; }
  }

  /** A file's archive part is its single entry. */
  lemma LayoutFile(t: Tree, k: Key, z: string, n: string)
    requires WellFormed(t) && k + [n] in t && t[k + [n]].File?
    ensures Layout(t, k, z, FilesBelow(t, k, {n}), [k + [n]], [(Join(z, n), t[k + [n]].data)])
  {
    var c := k + [n];
    FilesBelowFile(t, k, n);
    assert ZipName(z, [n]) == Join(z, n) by { assert [n][..0] == []; }
    assert c[|k|..] == [n];
    assert (set q | q in [c]) == {c};
  }

  /** The files below the children of a directory are all the files below it. */
  lemma FilesBelowChildren(t: Tree, k: Key)
    requires WellFormed(t) && k in t
    ensures FilesBelow(t, k, Children(t, k)) == AllFilesBelow(t, k)
  {
    SubtreeByChildren(t, k);
    forall q | q in AllFilesBelow(t, k) ensures q in FilesBelow(t, k, Children(t, k)) {
      assert k <= q;
      assert q in Subtree(t, k);
    }
  }

  /** `add_dir_to_zip(sftp, remote, zipPath)`: adds an entry for every file
      below the directory `remote`, reading each, in the order the server
      lists them, depth first. The server is only read. */
  method AddDirToZip(fs: Server, remote: string, zipPath: string, zipf: ZipWriter, ghost k: Key)
    returns (r: Result<()>, ghost order: seq<Key>)
    requires fs.Valid() && Parse(remote) == Some(k) && k in fs.tree && fs.tree[k] == Dir
    modifies zipf
    decreases Subtree(fs.tree, k), 1
    ensures r.Ok? <==> Subtree(fs.tree, k) !! fs.denied
    ensures r.Err? ==> r.msg == PermissionDenied
    ensures r.Ok? ==>
      && |zipf.entries| >= |old(zipf.entries)| && zipf.entries[..|old(zipf.entries)|] == old(zipf.entries)
      && Layout(fs.tree, k, zipPath, AllFilesBelow(fs.tree, k), order, zipf.entries[|old(zipf.entries)|..])
  {
    RenderParse(remote, k);
    SubtreeByChildren(fs.tree, k);
    var listed := fs.ListdirAttr(remote);
    if listed.Err? {
      assert k in Subtree(fs.tree, k);
      return Err(listed.msg), [];
    }
    r, order := AddEntries(fs, remote, zipPath, zipf, listed.value, k);
  }

  /** One pass of the loop of `add_dir_to_zip`: a directory entry is added
      recursively, a file entry is read and written to the archive. */
  method AddEntry(fs: Server, remote: string, zipPath: string, zipf: ZipWriter, a: Attr, ghost k: Key)
    returns (r: Result<()>, ghost part: seq<Key>)
    requires fs.Valid() && Parse(remote) == Some(k) && k in fs.tree
    requires k + [a.filename] in fs.tree && a == AttrOf(a.filename, fs.tree[k + [a.filename]])
    modifies zipf
    decreases Subtree(fs.tree, k + [a.filename]), 2
    ensures r.Ok? <==> Subtree(fs.tree, k + [a.filename]) !! fs.denied
    ensures r.Err? ==> r.msg == PermissionDenied
    ensures r.Ok? ==>
      && |zipf.entries| >= |old(zipf.entries)| && zipf.entries[..|old(zipf.entries)|] == old(zipf.entries)
      && Layout(fs.tree, k, zipPath, FilesBelow(fs.tree, k, {a.filename}), part,
                zipf.entries[|old(zipf.entries)|..])
  {
    RenderParse(remote, k);
    ghost var t, c := fs.tree, k + [a.filename];
    var remoteItem := Sanitize(Join(remote, a.filename));
    var zipItem := Join(zipPath, a.filename);
    assert ValidName(a.filename) by { assert c[|k|] == a.filename; }
    ChildPath(k, a.filename);
    ParseRender(c);
    AttrOfKind(a.filename, t[c]);
    if IsDirMode(a.st_mode) {
      r, part := AddDirToZip(fs, remoteItem, zipItem, zipf, c);
      if r.Ok? {
        LayoutChild(t, k, zipPath, a.filename, part, zipf.entries[|old(zipf.entries)|..]);
      }
    } else {
      FileHasNoChildren(t, c);
      NoChildrenNoSubtree(t, c);
      var data := fs.ReadFile(remoteItem);
      if data.Err? {
        return Err(data.msg), [];
      }
      zipf.WriteStr(zipItem, data.value);
      part := [c];
      LayoutFile(t, k, zipPath, a.filename);
      assert zipf.entries[|old(zipf.entries)|..] == [(zipItem, data.value)];
      r := Ok(());
    }
  }

  /** The loop of `add_dir_to_zip` over the listed entries of `remote`. */
  method AddEntries(fs: Server, remote: string, zipPath: string, zipf: ZipWriter,
                    attrs: seq<Attr>, ghost k: Key)
    returns (r: Result<()>, ghost order: seq<Key>)
    requires fs.Valid() && Parse(remote) == Some(k) && k in fs.tree && fs.tree[k] == Dir
    requires Listing(fs.tree, k, attrs)
    modifies zipf
    decreases Subtree(fs.tree, k), 0
    ensures r.Ok? <==> Below(fs.tree, k, Children(fs.tree, k)) !! fs.denied
    ensures r.Err? ==> r.msg == PermissionDenied
    ensures r.Ok? ==>
      && |zipf.entries| >= |old(zipf.entries)| && zipf.entries[..|old(zipf.entries)|] == old(zipf.entries)
      && Layout(fs.tree, k, zipPath, AllFilesBelow(fs.tree, k), order, zipf.entries[|old(zipf.entries)|..])
  {
    ghost var t, e0 := fs.tree, zipf.entries;
    order := [];
    var i := 0;
    assert zipf.entries[|e0|..] == [] && attrs[..0] == [];
    while i < |attrs|
      invariant 0 <= i <= |attrs|
      invariant |zipf.entries| >= |e0| && zipf.entries[..|e0|] == e0
      invariant Layout(t, k, zipPath, FilesBelow(t, k, Names(attrs[..i])), order, zipf.entries[|e0|..])
      invariant Below(t, k, Names(attrs[..i])) !! fs.denied
    {
      var a := attrs[i];
      ghost var before := zipf.entries;
      ghost var part: seq<Key>;
      NamesPrefixStep(attrs, i);
      BelowOfChild(t, k, a.filename, Names(attrs[..i]));
      assert Subtree(t, k + [a.filename]) < Subtree(t, k) by {
        assert k in Subtree(t, k) && k !in Subtree(t, k + [a.filename]);
      }
      r, part := AddEntry(fs, remote, zipPath, zipf, a, k);
      if r.Err? {
        assert a.filename in Children(t, k);
        BelowGrows(t, k, {a.filename}, Children(t, k));
        return;
      }
      PrefixSplit(e0, before, zipf.entries);
      ArchiveStep(t, k, zipPath, Names(attrs[..i]), a.filename, order, before[|e0|..], part, zipf.entries[|before|..]);
      order := order + part;
      i := i + 1;
    }
    assert attrs[..i] == attrs;
    FilesBelowChildren(t, k);
    r := Ok(());
  }

  lemma ArchiveStep(t: Tree, k: Key, z: string, ns: set<string>, n: string,
                    o1: seq<Key>, e1: seq<Entry>, o2: seq<Key>, e2: seq<Entry>)
    requires n !in ns
    requires Layout(t, k, z, FilesBelow(t, k, ns), o1, e1)
    requires Layout(t, k, z, FilesBelow(t, k, {n}), o2, e2)
    ensures Layout(t, k, z, FilesBelow(t, k, ns + {n}), o1 + o2, e1 + e2)
  {
    assert FilesBelow(t, k, ns) !! FilesBelow(t, k, {n});
    LayoutAppend(t, k, z, FilesBelow(t, k, ns), o1, e1, FilesBelow(t, k, {n}), o2, e2);
    assert FilesBelow(t, k, ns) + FilesBelow(t, k, {n}) == FilesBelow(t, k, ns + {n});
  }

  lemma BelowOfChild(t: Tree, k: Key, n: string, ns: set<string>)
    ensures Subtree(t, k + [n]) == Below(t, k, {n})
    ensures Below(t, k, ns) + Below(t, k, {n}) == Below(t, k, ns + {n})
  {
    var c := k + [n];
    forall q | q in Subtree(t, c) ensures q in Below(t, k, {n}) {
      assert q[..|k|] == c[..|k|];
    }
    forall q | q in Below(t, k, {n}) ensures q in Subtree(t, c) {
      assert q[..|c|] == c;
    }
  }

  // ---------------------------------------------------------------------
  // download_file

  datatype Download =
    | FileSent(body: seq<byte>, downloadName: string, asAttachment: bool)
    | ArchiveSent(entries: seq<Entry>, downloadName: string, asAttachment: bool)
    | HttpError(text: string, code: int)

  /** The archive root of a directory is its own name; the root directory
      has the empty name, so its archive entries carry no prefix. */
  lemma ArchiveRootName(k: Key)
    requires ValidKey(k)
    ensures Basename(Render(k)) == (if k == [] then "" else k[|k| - 1])
    ensures '/' !in Basename(Render(k))
  {
    if k == [] {
      assert Render(k) == "/";
      HeadLenUnique("/", 1);
    } else {
      assert k == Parent(k) + [k[|k| - 1]];
      assert ValidName(k[|k| - 1]);
      ChildPath(Parent(k), k[|k| - 1]);
    }
  }

  /** `download_file`: sends a file under its own name, or a directory as
      an archive named after it. */
  method DownloadFile(fs: Server?, path: string, inline: bool) returns (r: Download)
    requires fs != null ==> fs.Valid()
    ensures fs == null ==> r == HttpError("SFTP not connected!", 500)
    ensures fs != null && path == "" ==> r == HttpError("No path provided", 400)
    ensures fs != null && path != "" && fs.Lookup(path).Err? ==> r == HttpError(fs.Lookup(path).msg, 500)
    ensures fs != null && path != "" && fs.Lookup(path).Ok? && fs.tree[fs.Lookup(path).value].File? ==>
      r == FileSent(fs.tree[fs.Lookup(path).value].data, Basename(path), !inline)
    ensures fs != null && path != "" && fs.Lookup(path).Ok? && fs.tree[fs.Lookup(path).value].Dir? ==>
      var k := fs.Lookup(path).value;
      if Subtree(fs.tree, k) !! fs.denied then
        && r.ArchiveSent? && r.downloadName == Basename(path) + ".zip" && r.asAttachment == !inline
        && exists order :: Layout(fs.tree, k, Basename(path), AllFilesBelow(fs.tree, k), order, r.entries)
      else
        r == HttpError(PermissionDenied, 500)
  {
    if fs == null {
      return HttpError("SFTP not connected!", 500);
    }
    if path == "" {
      return HttpError("No path provided", 400);
    }
    var st := fs.Stat(path);
    if st.Err? {
      return HttpError(st.msg, 500);
    }
    ghost var k := fs.Lookup(path).value;
    AttrOfKind("", fs.tree[k]);
    if IsDirMode(st.value.st_mode) {
      ParseRender(k);
      var zipf := new ZipWriter();
      var added, order := AddDirToZip(fs, path, Basename(path), zipf, k);
      if added.Err? {
        return HttpError(added.msg, 500);
      }
      assert zipf.entries[0..] == zipf.entries;
      r := ArchiveSent(zipf.entries, Basename(path) + ".zip", !inline);
    } else {
      var data := fs.ReadFile(path);
      r := FileSent(data.value, Basename(path), !inline);
    }
  }
}
