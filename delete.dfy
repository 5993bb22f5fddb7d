/** The delete route: a file is removed with one call; a directory is
    emptied depth first, child by child in the order the server lists them,
    and then removed. Nothing is rolled back when a call fails part way. */
module Delete {
  import opened Outcomes
  import opened Paths
  import opened ServerPaths
  import opened RemoteFs

  /** The tree without the entries in `gone`. */
  function Erase(t: Tree, gone: set<Key>): Tree
  {
    map q | q in t && q !in gone :: t[q]
  }

  /** The keys the operations of a trace name. */
  function Targets(ops: seq<Op>): set<Key>
  {
    set i | 0 <= i < |ops| :: ops[i].target
  }

  /** Each operation removed an entry of `t` at or below `k` that the
      server does not refuse: a file with `remove`, a directory with
      `rmdir`. */
  ghost predicate Removals(ops: seq<Op>, t: Tree, k: Key, denied: set<Key>)
  {
    forall i :: 0 <= i < |ops| ==>
      && k <= ops[i].target && ops[i].target in t && ops[i].target !in denied
      && (ops[i].Removed? || ops[i].RemovedDir?)
      && (ops[i].Removed? <==> t[ops[i].target].File?)
  }

  /** No entry is removed before something below it. */
  predicate ChildrenFirst(ops: seq<Op>)
  {
    forall i, j :: 0 <= i < j < |ops| ==> !(ops[i].target < ops[j].target)
  }

  // ---------------------------------------------------------------------

  lemma TargetsAppend(ops1: seq<Op>, ops2: seq<Op>)
    ensures Targets(ops1 + ops2) == Targets(ops1) + Targets(ops2)
  {
    var s := ops1 + ops2;
    forall q | q in Targets(s) ensures q in Targets(ops1) + Targets(ops2) {
      var i :| 0 <= i < |s| && s[i].target == q;
      if i >= |ops1| { assert ops2[i - |ops1|] == s[i]; }
    }
    forall q | q in Targets(ops2) ensures q in Targets(s) {
      var i :| 0 <= i < |ops2| && ops2[i].target == q;
      assert s[|ops1| + i] == ops2[i];
    }
    forall q | q in Targets(ops1) ensures q in Targets(s) {
      var i :| 0 <= i < |ops1| && ops1[i].target == q;
      assert s[i] == ops1[i];
    }
  }

  lemma EraseTwice(t: Tree, a: set<Key>, b: set<Key>)
    ensures Erase(Erase(t, a), b) == Erase(t, a + b)
  {
  }

  lemma ChildrenFirstAppend(ops1: seq<Op>, ops2: seq<Op>)
    requires ChildrenFirst(ops1) && ChildrenFirst(ops2)
    requires forall a, b :: a in Targets(ops1) && b in Targets(ops2) ==> !(a < b)
    ensures ChildrenFirst(ops1 + ops2)
  {
    var s := ops1 + ops2;
    forall i, j | 0 <= i < j < |s| ensures !(s[i].target < s[j].target) {
      if j < |ops1| {
        assert s[i] == ops1[i] && s[j] == ops1[j];
      } else if i >= |ops1| {
        assert s[i] == ops2[i - |ops1|] && s[j] == ops2[j - |ops1|];
      } else {
        assert s[i] == ops1[i] && s[j] == ops2[j - |ops1|];
        assert s[i].target in Targets(ops1) && s[j].target in Targets(ops2);
      }
    }
  }

  lemma RemovalsAppend(ops1: seq<Op>, ops2: seq<Op>, t: Tree, k: Key, denied: set<Key>)
    requires Removals(ops1, t, k, denied) && Removals(ops2, t, k, denied)
    ensures Removals(ops1 + ops2, t, k, denied)
  {
    var s := ops1 + ops2;
    forall i | 0 <= i < |s| ensures s[i] == (if i < |ops1| then ops1[i] else ops2[i - |ops1|]) {
    }
  }

  /** Removals from a smaller tree, below a child, are removals from the
      larger tree below the parent. */
  lemma RemovalsWiden(ops: seq<Op>, t: Tree, c: Key, t0: Tree, k: Key, denied: set<Key>)
    requires Removals(ops, t, c, denied) && k <= c
    requires forall q :: q in t ==> q in t0 && t0[q] == t[q]
    ensures Removals(ops, t0, k, denied)
  {
  }

  /** A subtree of a tree whose entries all come from `t0`, taken at a
      child of `k`, is a strict part of the subtree of `k` in `t0`. */
  lemma SubtreeShrinks(t: Tree, t0: Tree, k: Key, c: Key)
    requires forall q :: q in t ==> q in t0
    requires k < c
    ensures Subtree(t, c) < Subtree(t0, k) || k !in t0
  {
    if k in t0 {
      assert k in Subtree(t0, k) && k !in Subtree(t, c);
    }
  }

  lemma TargetsSingle(op: Op)
    ensures Targets([op]) == {op.target}
  {
    assert [op][0] == op;
  }

  /** The state part way through emptying `k`: the children named in
      `names` are gone with everything below them, children first. */
  ghost predicate Progress(t0: Tree, k: Key, denied: set<Key>, ops: seq<Op>, t: Tree, names: set<string>)
  {
    && Removals(ops, t0, k, denied)
    && ChildrenFirst(ops)
    && Targets(ops) == Below(t0, k, names)
    && t == Erase(t0, Targets(ops))
  }

  /** Appending the removals made below the child `k + [n]` to the removals
      already made below the children named in `names`. */
  lemma ExtendTrace(t0: Tree, k: Key, denied: set<Key>, names: set<string>, n: string,
                    ops1: seq<Op>, ops2: seq<Op>, before: Tree, after: Tree)
    requires Progress(t0, k, denied, ops1, before, names) && n !in names
    requires Removals(ops2, before, k + [n], denied) && ChildrenFirst(ops2)
    requires after == Erase(before, Targets(ops2))
    ensures Removals(ops1 + ops2, t0, k, denied) && ChildrenFirst(ops1 + ops2)
    ensures after == Erase(t0, Targets(ops1 + ops2))
    ensures Subtree(before, k + [n]) == Below(t0, k, {n})
    ensures Targets(ops2) == Subtree(before, k + [n]) ==>
      Progress(t0, k, denied, ops1 + ops2, after, names + {n})
  {
    var c := k + [n];
    RemovalsWiden(ops2, before, c, t0, k, denied);
    RemovalsAppend(ops1, ops2, t0, k, denied);
    forall a, b | a in Targets(ops1) && b in Targets(ops2) ensures !(a < b) {
      var j :| 0 <= j < |ops2| && ops2[j].target == b;
      assert c <= b;
      assert b[|k|] == n;
      assert a[|k|] in names;
    }
    ChildrenFirstAppend(ops1, ops2);
    TargetsAppend(ops1, ops2);
    EraseTwice(t0, Targets(ops1), Targets(ops2));
    forall q | q in Subtree(before, c) ensures q in Below(t0, k, {n}) {
      assert q[..|k|] == c[..|k|] == k;
    }
    forall q | q in Below(t0, k, {n}) ensures q in Subtree(before, c) {
      assert q[..|k| + 1] == c;
    }
  }

  lemma RemovedNotDenied(ops: seq<Op>, t: Tree, k: Key, denied: set<Key>)
    requires Removals(ops, t, k, denied)
    ensures Targets(ops) !! denied
  {
  }

  /** Once every child of `k` is gone, `k` has no children left, and
      removing it completes the deletion of its subtree. */
  lemma FinishTrace(t0: Tree, k: Key, denied: set<Key>, ops: seq<Op>, t: Tree)
    requires WellFormed(t0) && k in t0 && t0[k] == Dir && k !in denied
    requires Progress(t0, k, denied, ops, t, Children(t0, k))
    ensures k in t && Children(t, k) == {}
    ensures var all := ops + [RemovedDir(k)];
      && Removals(all, t0, k, denied) && ChildrenFirst(all)
      && Targets(all) == Subtree(t0, k)
      && t - {k} == Erase(t0, Targets(all))
  {
    forall n | n in Children(t, k) ensures false {
      ChildrenAt(t, k, n);
      ChildrenAt(t0, k, n);
    }
    SubtreeByChildren(t0, k);
    ChildrenFirstAppend(ops, [RemovedDir(k)]);
    TargetsAppend(ops, [RemovedDir(k)]);
    TargetsSingle(RemovedDir(k));
    RemovalsAppend(ops, [RemovedDir(k)], t0, k, denied);
  }

  // ---------------------------------------------------------------------

  /** Deletes one listed entry of a directory: a directory through
      `delete_dir`, anything else through `remove`. */
  method DeleteEntry(fs: Server, sp: string, isDir: bool, ghost c: Key) returns (r: Result<()>)
    requires fs.Valid() && Parse(sp) == Some(c) && c in fs.tree && isDir == fs.tree[c].Dir?
    modifies fs
    decreases Subtree(fs.tree, c), 2
    ensures fs.Valid()
    ensures |fs.log| >= |old(fs.log)| && fs.log[..|old(fs.log)|] == old(fs.log)
    ensures var ops := fs.log[|old(fs.log)|..];
      && Removals(ops, old(fs.tree), c, fs.denied)
      && ChildrenFirst(ops)
      && fs.tree == Erase(old(fs.tree), Targets(ops))
    ensures r.Ok? <==> c != [] && Subtree(old(fs.tree), c) !! fs.denied
    ensures r.Err? ==> r.msg == PermissionDenied || r.msg == Failure
    ensures r.Ok? ==> Targets(fs.log[|old(fs.log)|..]) == Subtree(old(fs.tree), c)
  {
    if isDir {
      r := DeleteDir(fs, sp, c);
    } else {
      RenderParse(sp, c);
      ghost var t0, log0 := fs.tree, fs.log;
      r := fs.Remove(sp);
      assert fs.log[|log0|..] == if r.Ok? then [Removed(c)] else [];
      FileTrace(t0, c, fs.denied, fs.log[|log0|..], fs.tree);
    }
  }

  /** Removing a file, or failing to, is a trace of the file's subtree. */
  lemma FileTrace(t0: Tree, c: Key, denied: set<Key>, ops: seq<Op>, t: Tree)
    requires WellFormed(t0) && c in t0 && t0[c].File?
    requires || (ops == [Removed(c)] && t == t0 - {c} && c !in denied)
             || (ops == [] && t == t0 && c in denied)
    ensures Removals(ops, t0, c, denied) && ChildrenFirst(ops) && t == Erase(t0, Targets(ops))
    ensures ops != [] <==> c != [] && Subtree(t0, c) !! denied
    ensures ops != [] ==> Targets(ops) == Subtree(t0, c)
  {
    FileHasNoChildren(t0, c);
    NoChildrenNoSubtree(t0, c);
    if ops == [] {
      assert c in Subtree(t0, c);
    } else {
      TargetsSingle(Removed(c));
    }
  }

  /** `delete_dir(p)`: removes everything below the directory `p`, then the
      directory itself. The trace of removals is appended to the server's
      log; the tree loses exactly the entries the trace names. */
  method DeleteDir(fs: Server, p: string, ghost k: Key) returns (r: Result<()>)
    requires fs.Valid() && Parse(p) == Some(k)
    requires k in fs.tree && fs.tree[k] == Dir
    modifies fs
    decreases Subtree(fs.tree, k), 1
    ensures fs.Valid()
    ensures |fs.log| >= |old(fs.log)| && fs.log[..|old(fs.log)|] == old(fs.log)
    ensures var ops := fs.log[|old(fs.log)|..];
      && Removals(ops, old(fs.tree), k, fs.denied)
      && ChildrenFirst(ops)
      && fs.tree == Erase(old(fs.tree), Targets(ops))
    ensures r.Ok? <==> k != [] && Subtree(old(fs.tree), k) !! fs.denied
    ensures r.Err? ==> r.msg == PermissionDenied || r.msg == Failure
    ensures r.Ok? ==> Targets(fs.log[|old(fs.log)|..]) == Subtree(old(fs.tree), k)
  {
    RenderParse(p, k);
    ghost var t0, log0 := fs.tree, fs.log;
    SubtreeByChildren(t0, k);
    var listed := fs.ListdirAttr(p);
    if listed.Err? {
      assert fs.log[|log0|..] == [];
      Untouched(t0, k, fs.denied);
      return Err(listed.msg);
    }
    r := DeleteChildren(fs, p, listed.value, k);
    if r.Err? {
      Overlaps(Below(t0, k, Children(t0, k)), Subtree(t0, k), fs.denied);
      return;
    }
    ghost var ops, t1 := fs.log[|log0|..], fs.tree;
    FinishTrace(t0, k, fs.denied, ops, t1);
    assert fs.Lookup(p) == Ok(k);
    r := fs.Rmdir(p);
    PrefixSplit(log0, log0 + ops, fs.log);
    RmdirTrace(t0, k, fs.denied, ops, t1, r.Ok?, fs.log[|log0|..], fs.tree);
  }

  /** A directory the server refuses to list is left as it was. */
  lemma Untouched(t0: Tree, k: Key, denied: set<Key>)
    requires k in t0 && k in denied
    ensures Removals([], t0, k, denied) && ChildrenFirst([]) && t0 == Erase(t0, Targets([]))
    ensures !(Subtree(t0, k) !! denied)
  {
    assert k in Subtree(t0, k);
    assert Targets([]) == {};
  }

  lemma Overlaps(a: set<Key>, b: set<Key>, denied: set<Key>)
    requires a <= b && !(a !! denied)
    ensures !(b !! denied)
  {
    var x :| x in a && x in denied;
    assert x in b;
  }

  /** The last step of `delete_dir`: once the children are gone, `rmdir`
      succeeds unless the directory is the root, and then the trace covers
      the whole subtree. */
  lemma RmdirTrace(t0: Tree, k: Key, denied: set<Key>, ops: seq<Op>, t1: Tree,
                   ok: bool, all: seq<Op>, t2: Tree)
    requires WellFormed(t0) && k in t0 && t0[k] == Dir && k !in denied
    requires Progress(t0, k, denied, ops, t1, Children(t0, k))
    requires ok ==> all == ops + [RemovedDir(k)] && t2 == t1 - {k} && k != []
    requires !ok ==> all == ops && t2 == t1 && k == []
    ensures Removals(all, t0, k, denied) && ChildrenFirst(all) && t2 == Erase(t0, Targets(all))
    ensures ok <==> k != [] && Subtree(t0, k) !! denied
    ensures ok ==> Targets(all) == Subtree(t0, k)
  {
    FinishTrace(t0, k, denied, ops, t1);
    if ok {
      RemovedNotDenied(all, t0, k, denied);
    }
  }

  /** The loop of `delete_dir`: deletes the listed entries of `p` one by
      one, stopping at the first failure. */
  method DeleteChildren(fs: Server, p: string, attrs: seq<Attr>, ghost k: Key) returns (r: Result<()>)
    requires fs.Valid() && Parse(p) == Some(k)
    requires k in fs.tree && fs.tree[k] == Dir && k !in fs.denied
    requires Listing(fs.tree, k, attrs)
    modifies fs
    decreases Subtree(fs.tree, k), 0
    ensures fs.Valid()
    ensures |fs.log| >= |old(fs.log)| && fs.log[..|old(fs.log)|] == old(fs.log)
    ensures var ops := fs.log[|old(fs.log)|..];
      && Removals(ops, old(fs.tree), k, fs.denied)
      && ChildrenFirst(ops)
      && fs.tree == Erase(old(fs.tree), Targets(ops))
    ensures r.Ok? <==> Below(old(fs.tree), k, Children(old(fs.tree), k)) !! fs.denied
    ensures r.Err? ==> r.msg == PermissionDenied || r.msg == Failure
    ensures r.Ok? ==>
      Progress(old(fs.tree), k, fs.denied, fs.log[|old(fs.log)|..], fs.tree, Children(old(fs.tree), k))
  {
    RenderParse(p, k);
    ghost var t0, log0 := fs.tree, fs.log;
    var i := 0;
    assert fs.log[|log0|..] == [] && attrs[..0] == [];
    while i < |attrs|
      invariant 0 <= i <= |attrs|
      invariant fs.Valid()
      invariant |fs.log| >= |log0| && fs.log[..|log0|] == log0
      invariant Progress(t0, k, fs.denied, fs.log[|log0|..], fs.tree, Names(attrs[..i]))
    {
      ghost var before, logBefore := fs.tree, fs.log;
      ghost var ops1 := fs.log[|log0|..];
      var a := attrs[i];
      var sp := Sanitize(Join(p, a.filename));
      ghost var c := k + [a.filename];
      ChildPath(k, a.filename);
      ParseRender(c);
      NamesPrefixStep(attrs, i);
      assert c in before;
      SubtreeShrinks(before, t0, k, c);
      AttrOfKind(a.filename, t0[c]);
      r := DeleteEntry(fs, sp, IsDirMode(a.st_mode), c);
      PrefixSplit(log0, logBefore, fs.log);
      ExtendTrace(t0, k, fs.denied, Names(attrs[..i]), a.filename, ops1, fs.log[|logBefore|..], before, fs.tree);
      if r.Err? {
        assert a.filename in Children(t0, k);
        BelowGrows(t0, k, {a.filename}, Children(t0, k));
        return;
      }
      i := i + 1;
    }
    assert attrs[..i] == attrs;
    RemovedNotDenied(fs.log[|log0|..], t0, k, fs.denied);
    r := Ok(());
  }

  lemma EraseSubtree(t: Tree, k: Key)
    ensures Erase(t, Subtree(t, k)) == Without(t, k)
  {
  }

  /** `ajax_delete`: deletes the file or the directory tree at `path`. */
  method AjaxDelete(fs: Server?, path: string) returns (r: Reply)
    requires fs != null ==> fs.Valid()
    modifies fs
    ensures fs == null ==> r == StatusError("SFTP client not connected!")
    ensures fs != null ==> fs.Valid()
    ensures fs != null && path == "" ==>
      r == StatusError("No path provided") && fs.tree == old(fs.tree) && fs.log == old(fs.log)
    ensures fs != null && path != "" && old(fs.Lookup(path)).Err? ==>
      r == StatusError(old(fs.Lookup(path)).msg) && fs.tree == old(fs.tree) && fs.log == old(fs.log)
    ensures fs != null && path != "" && old(fs.Lookup(path)).Ok? ==>
      var k := old(fs.Lookup(path)).value;
      old(fs.tree)[k].File? ==>
        r == StatusOk("Deleted") && fs.tree == old(fs.tree) - {k} && fs.log == old(fs.log) + [Removed(k)]
    ensures fs != null && path != "" && old(fs.Lookup(path)).Ok? ==>
      var k := old(fs.Lookup(path)).value;
      old(fs.tree)[k].Dir? ==>
        && |fs.log| >= |old(fs.log)| && fs.log[..|old(fs.log)|] == old(fs.log)
        && Removals(fs.log[|old(fs.log)|..], old(fs.tree), k, fs.denied)
        && ChildrenFirst(fs.log[|old(fs.log)|..])
        && fs.tree == Erase(old(fs.tree), Targets(fs.log[|old(fs.log)|..]))
        && (r.StatusOk? <==> k != [] && Subtree(old(fs.tree), k) !! fs.denied)
        && (r.StatusOk? ==> r.message == "Deleted" && fs.tree == Without(old(fs.tree), k))
        && (r.StatusError? ==> r.message == PermissionDenied || r.message == Failure)
  {
    if fs == null {
      return StatusError("SFTP client not connected!");
    }
    if path == "" {
      return StatusError("No path provided");
    }
    var st := fs.Stat(path);
    if st.Err? {
      return StatusError(st.msg);
    }
    ghost var k := fs.Lookup(path).value;
    AttrOfKind("", fs.tree[k]);
    var done: Result<()>;
    if IsDirMode(st.value.st_mode) {
      ParseRender(k);
      EraseSubtree(fs.tree, k);
      done := DeleteDir(fs, path, k);
    } else {
      done := fs.Remove(path);
    }
    if done.Err? {
      return StatusError(done.msg);
    }
    r := StatusOk("Deleted");
  }
}
