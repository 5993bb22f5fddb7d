/** The remote SFTP server, as the bridge sees it: an in-memory tree of
    files and directories that answers the calls the routes make (stat,
    listdir_attr, open/read, open/write, remove, rmdir, mkdir, rename) and
    raises on the same conditions a POSIX server does. Paths the server
    refuses (`denied`) stand for permission errors; `log` records every
    mutation the server performed, oldest first. */
module RemoteFs {
  import opened Outcomes
  import opened ServerPaths

  newtype byte = x: int | 0 <= x < 256

  datatype Node = File(data: seq<byte>) | Dir

  type Tree = map<Key, Node>

  /** The root is a directory, every key is valid, and the parent of every
      other entry is a stored directory. */
  ghost predicate WellFormed(t: Tree)
  {
    && [] in t && t[[]] == Dir
    && (forall k :: k in t ==> ValidKey(k))
    && (forall k :: k in t && k != [] ==> Parent(k) in t && t[Parent(k)] == Dir)
  }

  /** The names stored directly below `k`. */
  function Children(t: Tree, k: Key): set<string>
  {
    set q | q in t && |q| == |k| + 1 && q[..|k|] == k :: q[|k|]
  }

  /** The entries at or below `k`. */
  function Subtree(t: Tree, k: Key): set<Key>
  {
    set q | q in t && k <= q
  }

  /** The tree without `k` and everything below it. */
  function Without(t: Tree, k: Key): Tree
  {
    map q | q in t && !(k <= q) :: t[q]
  }

  /** The entries strictly below `k` whose first name below `k` is in `ns`. */
  function Below(t: Tree, k: Key, ns: set<string>): set<Key>
  {
    set q | q in t && |q| > |k| && q[..|k|] == k && q[|k|] in ns
  }

  lemma BelowGrows(t: Tree, k: Key, a: set<string>, b: set<string>)
    requires a <= b
    ensures Below(t, k, a) <= Below(t, k, b)
  {
  }

  /** Extending a sequence twice extends it by both parts in turn. */
  lemma PrefixSplit<T>(s0: seq<T>, s1: seq<T>, s2: seq<T>)
    requires |s0| <= |s1| <= |s2| && s1[..|s0|] == s0 && s2[..|s1|] == s1
    ensures s2[..|s0|] == s0
    ensures s2[|s0|..] == s1[|s0|..] + s2[|s1|..]
  {
    assert s2[..|s0|] == s2[..|s1|][..|s0|];
  }

  // ---------------------------------------------------------------------
  // Attributes, as listdir_attr and stat report them

  datatype Attr = Attr(filename: string, st_mode: nat, st_size: int)

  const S_IFDIR: nat := 0x4000
  const S_IFREG: nat := 0x8000
  /** Mode bits the server reports: rwxr-xr-x directories, rw-r--r-- files. */
  const DirMode: nat := S_IFDIR + 0x1ED
  const FileMode: nat := S_IFREG + 0x1A4
  const DirSize: int := 4096

  /** `stat.S_ISDIR`: the file-type bits (mask 0o170000) equal S_IFDIR. */
  predicate IsDirMode(mode: nat)
  {
    (mode / 0x1000) % 0x10 == S_IFDIR / 0x1000
  }

  function AttrOf(name: string, n: Node): Attr
  {
    match n
    case Dir => Attr(name, DirMode, DirSize)
    case File(data) => Attr(name, FileMode, |data|)
  }

  /** `S_ISDIR` tells the two kinds of entry apart by the modes reported. */
  lemma AttrOfKind(name: string, n: Node)
    ensures IsDirMode(AttrOf(name, n).st_mode) == n.Dir?
  {
    assert DirMode / 0x1000 == 4;
    assert FileMode / 0x1000 == 8;
  }

  /** The names of a listing. */
  function Names(attrs: seq<Attr>): set<string>
  {
    set i | 0 <= i < |attrs| :: attrs[i].filename
  }

  lemma NamesAppend(attrs: seq<Attr>, a: Attr)
    ensures Names(attrs + [a]) == Names(attrs) + {a.filename}
  {
    var s := attrs + [a];
    assert s[|attrs|] == a;
    forall x | x in Names(attrs) ensures x in Names(s) {
      var i :| 0 <= i < |attrs| && attrs[i].filename == x;
      assert s[i] == attrs[i];
    }
  }

  lemma NamesPrefixStep(attrs: seq<Attr>, i: nat)
    requires i < |attrs| && DistinctNames(attrs)
    ensures attrs[i].filename !in Names(attrs[..i])
    ensures Names(attrs[..i + 1]) == Names(attrs[..i]) + {attrs[i].filename}
  {
    forall j | 0 <= j < i ensures attrs[..i][j].filename != attrs[i].filename {
      assert attrs[..i][j] == attrs[j];
    }
    assert attrs[..i + 1] == attrs[..i] + [attrs[i]];
    NamesAppend(attrs[..i], attrs[i]);
  }

  predicate DistinctNames(attrs: seq<Attr>)
  {
    forall i, j :: 0 <= i < j < |attrs| ==> attrs[i].filename != attrs[j].filename
  }

  /** `attrs` lists the children of `k` in `t`, each once, in some order. */
  ghost predicate Listing(t: Tree, k: Key, attrs: seq<Attr>)
  {
    && DistinctNames(attrs)
    && Names(attrs) == Children(t, k)
    && (forall i :: 0 <= i < |attrs| ==>
          k + [attrs[i].filename] in t &&
          attrs[i] == AttrOf(attrs[i].filename, t[k + [attrs[i].filename]]))
  }

  /** `attrs` lists some of the children of `k`; `rest` holds the others. */
  ghost predicate ListedSoFar(t: Tree, k: Key, attrs: seq<Attr>, rest: set<string>)
  {
    && DistinctNames(attrs)
    && Names(attrs) !! rest
    && Names(attrs) + rest == Children(t, k)
    && (forall i :: 0 <= i < |attrs| ==>
          k + [attrs[i].filename] in t &&
          attrs[i] == AttrOf(attrs[i].filename, t[k + [attrs[i].filename]]))
  }

  /** Listing one more child keeps the split between listed and left. */
  lemma ListingStep(t: Tree, k: Key, attrs: seq<Attr>, rest: set<string>, n: string)
    requires ListedSoFar(t, k, attrs, rest) && n in rest
    ensures k + [n] in t
    ensures ListedSoFar(t, k, attrs + [AttrOf(n, t[k + [n]])], rest - {n})
  {
    ChildrenAt(t, k, n);
    var a := AttrOf(n, t[k + [n]]);
    var s := attrs + [a];
    NamesAppend(attrs, a);
    assert n !in Names(attrs);
    forall i | 0 <= i < |attrs| ensures s[i] == attrs[i] && attrs[i].filename in Names(attrs) {
    }
    assert s[|attrs|] == a;
  }

  // ---------------------------------------------------------------------
  // Mutations and their trace

  datatype Op =
    | Removed(target: Key)
    | RemovedDir(target: Key)
    | MadeDir(target: Key)
    | Wrote(target: Key, data: seq<byte>)
    | Renamed(source: Key, target: Key)

  const NoSuchFile := "No such file"
  const PermissionDenied := "Permission denied"
  const Failure := "Failure"

  /** Where a rename sends a key: the part below `a` is re-rooted at `b`. */
  function MoveKey(q: Key, a: Key, b: Key): Key
  {
    if a <= q then b + q[|a|..] else q
  }

  lemma MoveKeyInjective(t: Tree, a: Key, b: Key)
    requires forall q :: q in t ==> !(b <= q)
    ensures forall q1, q2 :: q1 in t && q2 in t && MoveKey(q1, a, b) == MoveKey(q2, a, b) ==> q1 == q2
  {
    forall q1, q2 | q1 in t && q2 in t && MoveKey(q1, a, b) == MoveKey(q2, a, b)
      ensures q1 == q2
    {
      if a <= q1 && a <= q2 {
        assert q1[|a|..] == MoveKey(q1, a, b)[|b|..];
        assert q1 == a + q1[|a|..];
        assert q2 == a + q2[|a|..];
      }
    }
  }

  /** The tree after moving the entry `a`, with everything below it, to `b`. */
  function MovedTree(t: Tree, a: Key, b: Key): Tree
    requires forall q :: q in t ==> !(b <= q)
  {
    MoveKeyInjective(t, a, b);
    map q | q in t :: MoveKey(q, a, b) := t[q]
  }

  // ---------------------------------------------------------------------
  // Facts about well-formed trees

  lemma ChildrenAt(t: Tree, k: Key, n: string)
    ensures n in Children(t, k) <==> k + [n] in t
  {
    if k + [n] in t {
      var q := k + [n];
      assert q[..|k|] == k && q[|k|] == n;
    }
    if n in Children(t, k) {
      var q :| q in t && |q| == |k| + 1 && q[..|k|] == k && q[|k|] == n;
      assert q == k + [n];
    }
  }

  /** Every ancestor of a stored entry is a stored directory. */
  lemma {:induction false} AncestorStored(t: Tree, q: Key, p: Key)
    requires WellFormed(t) && q in t && p <= q
    ensures p in t && (p != q ==> t[p] == Dir)
    decreases |q|
  {
    if p != q {
      assert p <= Parent(q);
      AncestorStored(t, Parent(q), p);
    }
  }

  /** In a well-formed tree a key that is not stored has nothing below it. */
  lemma AbsentHasNoSubtree(t: Tree, b: Key)
    requires WellFormed(t) && b !in t
    ensures forall q :: q in t ==> !(b <= q)
  {
    forall q | q in t ensures !(b <= q) {
      if b <= q {
        AncestorStored(t, q, b);
      }
    }
  }

  /** A directory without children has nothing below it but itself. */
  lemma NoChildrenNoSubtree(t: Tree, k: Key)
    requires WellFormed(t) && k in t && Children(t, k) == {}
    ensures Subtree(t, k) == {k}
  {
    SubtreeByChildren(t, k);
    assert Below(t, k, {}) == {};
  }

  /** The whole subtree of a directory is the directory itself and the
      entries below each of its children. */
  lemma SubtreeByChildren(t: Tree, k: Key)
    requires WellFormed(t) && k in t
    ensures Subtree(t, k) == {k} + Below(t, k, Children(t, k))
  {
    var ns := Children(t, k);
    forall q | q in Subtree(t, k) && q != k ensures q in Below(t, k, ns) {
      assert |q| > |k| && q[..|k|] == k;
      var c := q[..|k| + 1];
      assert c <= q;
      AncestorStored(t, q, c);
      assert c == k + [q[|k|]];
      ChildrenAt(t, k, q[|k|]);
    }
    forall q | q in Below(t, k, ns) ensures q in Subtree(t, k) {
      assert q[..|k|] == k;
    }
    assert k in Subtree(t, k) by { assert k <= k; }
    assert Subtree(t, k) <= {k} + Below(t, k, ns);
    assert {k} + Below(t, k, ns) <= Subtree(t, k);
  }

  /** Removing an entry that has no children keeps the tree well formed. */
  lemma RemoveLeafWellFormed(t: Tree, k: Key)
    requires WellFormed(t) && k in t && k != [] && Children(t, k) == {}
    ensures WellFormed(t - {k})
  {
    forall q | q in t - {k} && q != [] ensures Parent(q) != k {
      if Parent(q) == k {
        assert q == k + [q[|k|]];
        ChildrenAt(t, k, q[|k|]);
      }
    }
  }

  /** A file has no children. */
  lemma FileHasNoChildren(t: Tree, k: Key)
    requires WellFormed(t) && k in t && t[k].File?
    ensures Children(t, k) == {}
  {
    forall n | n in Children(t, k) ensures false {
      ChildrenAt(t, k, n);
    }
  }

  /** Adding an entry below a stored directory keeps the tree well formed. */
  lemma AddWellFormed(t: Tree, k: Key, n: Node)
    requires WellFormed(t) && ValidKey(k) && k != []
    requires Parent(k) in t && t[Parent(k)] == Dir
    requires k in t ==> t[k].File? && n.File?
    ensures WellFormed(t[k := n])
  {
  }

  lemma MovedKeysValid(t: Tree, a: Key, b: Key)
    requires WellFormed(t) && ValidKey(b)
    requires forall q :: q in t ==> !(b <= q)
    ensures forall x :: x in MovedTree(t, a, b) ==> ValidKey(x)
  {
    forall x | x in MovedTree(t, a, b) ensures ValidKey(x) {
      var q :| q in t && MoveKey(q, a, b) == x;
      if a <= q {
        assert ValidKey(q);
        forall i | 0 <= i < |x| ensures ValidName(x[i]) {
          if i < |b| { assert x[i] == b[i]; } else { assert x[i] == q[|a| + i - |b|]; }
        }
      }
    }
  }

  lemma MovedAt(t: Tree, a: Key, b: Key, q: Key)
    requires forall q :: q in t ==> !(b <= q)
    requires q in t
    ensures MoveKey(q, a, b) in MovedTree(t, a, b)
    ensures MovedTree(t, a, b)[MoveKey(q, a, b)] == t[q]
  {
    MoveKeyInjective(t, a, b);
  }

  /** The stored parent of the pre-image of a moved key. */
  lemma MovedParent(t: Tree, a: Key, b: Key, q: Key) returns (pq: Key)
    requires WellFormed(t) && a in t && a != []
    requires b != [] && !(a <= b) && Parent(b) in t && t[Parent(b)] == Dir
    requires q in t && MoveKey(q, a, b) != []
    ensures pq in t && t[pq] == Dir && MoveKey(pq, a, b) == Parent(MoveKey(q, a, b))
  {
    if !(a <= q) {
      pq := Parent(q);
      assert !(a <= pq);
    } else if q == a {
      pq := Parent(b);
      assert pq <= b;
      assert !(a <= pq);
    } else {
      pq := Parent(q);
      assert a <= pq;
      assert MoveKey(pq, a, b) == b + pq[|a|..];
      assert Parent(MoveKey(q, a, b)) == b + q[|a|..|q| - 1];
    }
  }

  lemma MovedParentsStored(t: Tree, a: Key, b: Key)
    requires WellFormed(t) && a in t && a != []
    requires b != [] && !(a <= b) && Parent(b) in t && t[Parent(b)] == Dir
    requires forall q :: q in t ==> !(b <= q)
    ensures var m := MovedTree(t, a, b);
      forall x :: x in m && x != [] ==> Parent(x) in m && m[Parent(x)] == Dir
  {
    var m := MovedTree(t, a, b);
    forall x | x in m && x != [] ensures Parent(x) in m && m[Parent(x)] == Dir {
      var q :| q in t && MoveKey(q, a, b) == x;
      var pq := MovedParent(t, a, b, q);
      MovedAt(t, a, b, pq);
    }
  }

  /** Moving an entry to a free place below a stored directory, outside its
      own subtree, keeps the tree well formed. */
  lemma MovedWellFormed(t: Tree, a: Key, b: Key)
    requires WellFormed(t) && a in t && a != []
    requires ValidKey(b) && b != [] && b !in t && !(a <= b)
    requires Parent(b) in t && t[Parent(b)] == Dir
    ensures (AbsentHasNoSubtree(t, b); WellFormed(MovedTree(t, a, b)))
  {
    AbsentHasNoSubtree(t, b);
    assert MoveKey([], a, b) == [];
    MovedKeysValid(t, a, b);
    MovedParentsStored(t, a, b);
  }

  // ---------------------------------------------------------------------

  class Server {
    var tree: Tree
    const denied: set<Key>
    var log: seq<Op>

    ghost predicate Valid()
      reads this
    {
      WellFormed(tree)
    }

    constructor (t: Tree, d: set<Key>)
      requires WellFormed(t)
      ensures Valid() && tree == t && denied == d && log == []
    {
      tree, denied, log := t, d, [];
    }

    /** The stored entry a path names, or the error the server raises. */
    function Lookup(path: string): (r: Result<Key>)
      reads this
      ensures r.Ok? ==> r.value in tree && r.value !in denied && Render(r.value) == path
    {
      match Parse(path)
      case None => Err(NoSuchFile)
      case Some(k) =>
        RenderParse(path, k);
        if k !in tree then Err(NoSuchFile)
        else if k in denied then Err(PermissionDenied)
        else Ok(k)
    }

    /** The key a new entry at `path` would take: a canonical path below a
        stored directory that the server does not refuse. */
    function PlaceFor(path: string): (r: Result<Key>)
      reads this
      ensures r.Ok? ==> ValidKey(r.value) && r.value != [] && r.value !in denied
      ensures r.Ok? ==> Parent(r.value) in tree && tree[Parent(r.value)] == Dir
      ensures r.Ok? ==> Render(r.value) == path
    {
      match Parse(path)
      case None => Err(NoSuchFile)
      case Some(k) =>
        RenderParse(path, k);
        if k == [] then Err(Failure)
        else if Parent(k) !in tree || tree[Parent(k)] != Dir then Err(NoSuchFile)
        else if k in denied then Err(PermissionDenied)
        else Ok(k)
    }

    /** `stat`: the attributes of the entry a path names. */
    function Stat(path: string): (r: Result<Attr>)
      reads this
    {
      match Lookup(path)
      case Err(m) => Err(m)
      case Ok(k) => Ok(AttrOf("", tree[k]))
    }

    /** `open(path, "r").read()`: the bytes of a file. */
    function ReadFile(path: string): (r: Result<seq<byte>>)
      reads this
    {
      match Lookup(path)
      case Err(m) => Err(m)
      case Ok(k) => if tree[k].Dir? then Err(Failure) else Ok(tree[k].data)
    }

    /** `listdir_attr`: the children of a directory, in an order the
        server chooses. */
    method ListdirAttr(path: string) returns (r: Result<seq<Attr>>)
      requires Valid()
      ensures Lookup(path).Err? ==> r == Err(Lookup(path).msg)
      ensures Lookup(path).Ok? && tree[Lookup(path).value].File? ==> r == Err(NoSuchFile)
      ensures Lookup(path).Ok? && tree[Lookup(path).value].Dir? ==>
        r.Ok? && Listing(tree, Lookup(path).value, r.value)
    {
      var l := Lookup(path);
      if l.Err? {
        return Err(l.msg);
      }
      var k := l.value;
      if tree[k].File? {
        return Err(NoSuchFile);
      }
      var rest := Children(tree, k);
      var attrs: seq<Attr> := [];
      assert Names([]) == {};
      while rest != {}
        invariant ListedSoFar(tree, k, attrs, rest)
        decreases rest
      {
        var n :| n in rest;
        ListingStep(tree, k, attrs, rest, n);
        attrs := attrs + [AttrOf(n, tree[k + [n]])];
        rest := rest - {n};
      }
      return Ok(attrs);
    }

    /** `remove`: deletes a file. */
    method Remove(path: string) returns (r: Result<()>)
      requires Valid()
      modifies this
      ensures Valid()
      ensures var l := old(Lookup(path));
        if l.Ok? && old(tree)[l.value].File? then
          r == Ok(()) && tree == old(tree) - {l.value} && log == old(log) + [Removed(l.value)]
        else
          r == Err(if l.Err? then l.msg else Failure) && tree == old(tree) && log == old(log)
    {
      var l := Lookup(path);
      if l.Err? {
        return Err(l.msg);
      }
      var k := l.value;
      if tree[k].Dir? {
        return Err(Failure);
      }
      FileHasNoChildren(tree, k);
      RemoveLeafWellFormed(tree, k);
      tree := tree - {k};
      log := log + [Removed(k)];
      r := Ok(());
    }

    /** `rmdir`: deletes an empty directory other than the root. */
    method Rmdir(path: string) returns (r: Result<()>)
      requires Valid()
      modifies this
      ensures Valid()
      ensures var l := old(Lookup(path));
        if l.Ok? && old(tree)[l.value].Dir? && l.value != [] && Children(old(tree), l.value) == {} then
          r == Ok(()) && tree == old(tree) - {l.value} && log == old(log) + [RemovedDir(l.value)]
        else
          r == Err(if l.Err? then l.msg else Failure) && tree == old(tree) && log == old(log)
    {
      var l := Lookup(path);
      if l.Err? {
        return Err(l.msg);
      }
      var k := l.value;
      if tree[k].File? || k == [] || Children(tree, k) != {} {
        return Err(Failure);
      }
      RemoveLeafWellFormed(tree, k);
      tree := tree - {k};
      log := log + [RemovedDir(k)];
      r := Ok(());
    }

    /** `mkdir`: creates an empty directory at a free place. */
    method Mkdir(path: string) returns (r: Result<()>)
      requires Valid()
      modifies this
      ensures Valid()
      ensures var p := old(PlaceFor(path));
        if p.Ok? && p.value !in old(tree) then
          r == Ok(()) && tree == old(tree)[p.value := Dir] && log == old(log) + [MadeDir(p.value)]
        else
          r == Err(if p.Err? then p.msg else Failure) && tree == old(tree) && log == old(log)
    {
      var p := PlaceFor(path);
      if p.Err? {
        return Err(p.msg);
      }
      var k := p.value;
      if k in tree {
        return Err(Failure);
      }
      AddWellFormed(tree, k, Dir);
      tree := tree[k := Dir];
      log := log + [MadeDir(k)];
      r := Ok(());
    }

    /** `open(path, "w")` followed by one `write`: creates or truncates a
        file and stores `data` in it. */
    method WriteFile(path: string, data: seq<byte>) returns (r: Result<()>)
      requires Valid()
      modifies this
      ensures Valid()
      ensures var p := old(PlaceFor(path));
        if p.Ok? && (p.value !in old(tree) || old(tree)[p.value].File?) then
          r == Ok(()) && tree == old(tree)[p.value := File(data)]
          && log == old(log) + [Wrote(p.value, data)]
        else
          r == Err(if p.Err? then p.msg else Failure) && tree == old(tree) && log == old(log)
    {
      var p := PlaceFor(path);
      if p.Err? {
        return Err(p.msg);
      }
      var k := p.value;
      if k in tree && tree[k].Dir? {
        return Err(Failure);
      }
      AddWellFormed(tree, k, File(data));
      tree := tree[k := File(data)];
      log := log + [Wrote(k, data)];
      r := Ok(());
    }

    /** `rename`: moves an entry, with everything below it, to a free place
        outside its own subtree. */
    method Rename(source: string, target: string) returns (r: Result<()>)
      requires Valid()
      modifies this
      ensures Valid()
      ensures var l, p := old(Lookup(source)), old(PlaceFor(target));
        if l.Ok? && l.value != [] && p.Ok? && p.value !in old(tree) && !(l.value <= p.value) then
          (AbsentHasNoSubtree(old(tree), p.value);
           r == Ok(()) && tree == MovedTree(old(tree), l.value, p.value)
           && log == old(log) + [Renamed(l.value, p.value)])
        else
          r == Err(if l.Err? then l.msg else if l.value == [] then Failure
                   else if p.Err? then p.msg else Failure)
          && tree == old(tree) && log == old(log)
    {
      var l := Lookup(source);
      if l.Err? {
        return Err(l.msg);
      }
      var a := l.value;
      if a == [] {
        return Err(Failure);
      }
      var p := PlaceFor(target);
      if p.Err? {
        return Err(p.msg);
      }
      var b := p.value;
      if b in tree || a <= b {
        return Err(Failure);
      }
      AbsentHasNoSubtree(tree, b);
      MovedWellFormed(tree, a, b);
      tree := MovedTree(tree, a, b);
      log := log + [Renamed(a, b)];
      r := Ok(());
    }
  }
}
