/** The directory listing route: the entries of a directory split into
    directories and files, each shown as a name, a sanitised full path and a
    size, and each group sorted by lower-cased name with a stable sort. */
module Listing {
  import opened Outcomes
  import opened Paths
  import opened ServerPaths
  import opened RemoteFs

  datatype Item = Item(name: string, path: string, size: int)

  datatype ListReply =
    | Listed(directories: seq<Item>, files: seq<Item>)
    | ListError(message: string)

  /** Sizes are reported as they are, negative ones as zero. */
  function FormatSize(sz: int): (r: int)
    ensures r >= 0
    ensures sz >= 0 ==> r == sz
    ensures sz < 0 ==> r == 0
  {
    if sz >= 0 then sz else 0
  }

  function MakeItem(path: string, a: Attr): Item
  {
    Item(a.filename, Sanitize(Join(path, a.filename)), FormatSize(a.st_size))
  }

  /** The items for the entries of one kind (directories when `dirs`), in
      listing order. */
  function Items(path: string, attrs: seq<Attr>, dirs: bool): seq<Item>
  {
    if attrs == [] then []
    else
      var last := attrs[|attrs| - 1];
      Items(path, attrs[..|attrs| - 1], dirs)
        + (if IsDirMode(last.st_mode) == dirs then [MakeItem(path, last)] else [])
  }

  // ---------------------------------------------------------------------
  // Sort key: the name lower-cased, compared code point by code point

  function LowerChar(c: char): char
  {
    if 'A' <= c <= 'Z' then (c as int + 32) as char else c
  }

  function Lower(s: string): string
  {
    if s == [] then [] else [LowerChar(s[0])] + Lower(s[1..])
  }

  function Key(x: Item): string
  {
    Lower(x.name)
  }

  /** Lexicographic order on strings, as the host language compares them. */
  predicate LexLe(a: string, b: string)
  {
    if a == [] then true
    else if b == [] then false
    else if a[0] != b[0] then a[0] < b[0]
    else LexLe(a[1..], b[1..])
  }

  lemma {:induction false} LexLeReflexive(a: string)
    ensures LexLe(a, a)
  {
    if a != [] { LexLeReflexive(a[1..]); }
  }

  lemma {:induction false} LexLeTotal(a: string, b: string)
    ensures LexLe(a, b) || LexLe(b, a)
  {
    if a != [] && b != [] && a[0] == b[0] { LexLeTotal(a[1..], b[1..]); }
  }

  lemma {:induction false} LexLeTransitive(a: string, b: string, c: string)
    requires LexLe(a, b) && LexLe(b, c)
    ensures LexLe(a, c)
  {
    if a != [] && b != [] && c != [] && a[0] == b[0] && b[0] == c[0] {
      LexLeTransitive(a[1..], b[1..], c[1..]);
    }
  }

  lemma {:induction false} LexLeAntisymmetric(a: string, b: string)
    requires LexLe(a, b) && LexLe(b, a)
    ensures a == b
  {
    if a != [] && b != [] {
      LexLeAntisymmetric(a[1..], b[1..]);
      assert a == [a[0]] + a[1..] && b == [b[0]] + b[1..];
    }
  }

  predicate Sorted(s: seq<Item>)
  {
    forall i, j :: 0 <= i < j < |s| ==> LexLe(Key(s[i]), Key(s[j]))
  }

  /** The items whose key is `k`, in order. */
  function WithKey(s: seq<Item>, k: string): seq<Item>
  {
    if s == [] then []
    else (if Key(s[0]) == k then [s[0]] else []) + WithKey(s[1..], k)
  }

  // ---------------------------------------------------------------------
  // The host language's stable sort, as an insertion sort

  /** Inserts `x` before the first item whose key is not below its own. */
  function Insert(x: Item, s: seq<Item>): seq<Item>
  {
    if s == [] then [x]
    else if LexLe(Key(x), Key(s[0])) then [x] + s
    else [s[0]] + Insert(x, s[1..])
  }

  function SortByName(s: seq<Item>): seq<Item>
  {
    if s == [] then [] else Insert(s[0], SortByName(s[1..]))
  }

  lemma {:induction false} InsertSorted(x: Item, s: seq<Item>)
    requires Sorted(s)
    ensures Sorted(Insert(x, s))
    ensures multiset(Insert(x, s)) == multiset(s) + multiset{x}
  {
    InsertPermutes(x, s);
    if s != [] {
      if LexLe(Key(x), Key(s[0])) {
        forall j | 0 <= j < |s| ensures LexLe(Key(x), Key(s[j])) {
          if j > 0 {
            LexLeTransitive(Key(x), Key(s[0]), Key(s[j]));
          }
        }
        SortedCons(x, s);
      } else {
        LexLeTotal(Key(x), Key(s[0]));
        InsertSorted(x, s[1..]);
        var r := Insert(x, s[1..]);
        InsertPermutes(x, s[1..]);
        forall j | 0 <= j < |r| ensures LexLe(Key(s[0]), Key(r[j])) {
          assert r[j] in multiset(r);
          if r[j] != x {
            assert r[j] in multiset(s[1..]);
            var m :| 0 <= m < |s[1..]| && s[1..][m] == r[j];
            assert s[m + 1] == r[j];
          }
        }
        SortedCons(s[0], r);
      }
    }
  }

  /** Inserting adds exactly the one item. */
  lemma {:induction false} InsertPermutes(x: Item, s: seq<Item>)
    ensures multiset(Insert(x, s)) == multiset(s) + multiset{x}
  {
    if s != [] {
      assert s == [s[0]] + s[1..];
      if !LexLe(Key(x), Key(s[0])) {
        InsertPermutes(x, s[1..]);
      }
    }
  }

  /** An item no greater than any of a sorted sequence can go in front. */
  lemma SortedCons(a: Item, r: seq<Item>)
    requires Sorted(r)
    requires forall j :: 0 <= j < |r| ==> LexLe(Key(a), Key(r[j]))
    ensures Sorted([a] + r)
  {
    var t := [a] + r;
    forall i, j | 0 <= i < j < |t| ensures LexLe(Key(t[i]), Key(t[j])) {
      assert t[j] == r[j - 1];
      if i > 0 {
        assert t[i] == r[i - 1];
      }
    }
  }

  /** The sorted items, a permutation of the input, are ordered by key. */
  lemma {:induction false} SortByNameSorted(s: seq<Item>)
    ensures Sorted(SortByName(s))
    ensures multiset(SortByName(s)) == multiset(s)
  {
    if s != [] {
      SortByNameSorted(s[1..]);
      InsertSorted(s[0], SortByName(s[1..]));
      assert s == [s[0]] + s[1..];
    }
  }

  lemma {:induction false} WithKeyInsert(x: Item, s: seq<Item>, k: string)
    ensures WithKey(Insert(x, s), k) == (if Key(x) == k then [x] else []) + WithKey(s, k)
  {
    if s != [] && !LexLe(Key(x), Key(s[0])) {
      WithKeyInsert(x, s[1..], k);
      LexLeReflexive(Key(x));
      assert ([s[0]] + Insert(x, s[1..]))[1..] == Insert(x, s[1..]);
    } else if s != [] {
      assert ([x] + s)[1..] == s;
    }
  }

  /** The sort is stable: the items sharing a key keep their order. */
  lemma {:induction false} SortByNameStable(s: seq<Item>, k: string)
    ensures WithKey(SortByName(s), k) == WithKey(s, k)
  {
    if s != [] {
      SortByNameStable(s[1..], k);
      WithKeyInsert(s[0], SortByName(s[1..]), k);
    }
  }

  // ---------------------------------------------------------------------
  // What the two groups hold

  /** The items for every entry, in listing order. */
  function AllItems(path: string, attrs: seq<Attr>): seq<Item>
  {
    if attrs == [] then []
    else AllItems(path, attrs[..|attrs| - 1]) + [MakeItem(path, attrs[|attrs| - 1])]
  }

  /** Directories and files partition the entries: together they hold
      every entry's item exactly as often as the listing does. */
  lemma {:induction false} ItemsPartition(path: string, attrs: seq<Attr>)
    ensures multiset(Items(path, attrs, true)) + multiset(Items(path, attrs, false))
         == multiset(AllItems(path, attrs))
  {
    if attrs != [] {
      ItemsPartition(path, attrs[..|attrs| - 1]);
    }
  }

  /** Each group holds only items of its own kind, each built from one
      entry: name, sanitised joined path and reported size. */
  lemma {:induction false} ItemsOfKind(path: string, attrs: seq<Attr>, dirs: bool, x: Item)
    requires x in Items(path, attrs, dirs)
    ensures exists i :: (0 <= i < |attrs| && IsDirMode(attrs[i].st_mode) == dirs
      && x == Item(attrs[i].filename, Sanitize(Join(path, attrs[i].filename)), FormatSize(attrs[i].st_size)))
  {
    var init := attrs[..|attrs| - 1];
    if x in Items(path, init, dirs) {
      ItemsOfKind(path, init, dirs, x);
      var i :| 0 <= i < |init| && IsDirMode(init[i].st_mode) == dirs
        && x == Item(init[i].filename, Sanitize(Join(path, init[i].filename)), FormatSize(init[i].st_size));
      assert attrs[i] == init[i];
    } else {
      assert x == MakeItem(path, attrs[|attrs| - 1]);
    }
  }

  /** Every entry of a kind appears in that kind's group. */
  lemma {:induction false} ItemsComplete(path: string, attrs: seq<Attr>, i: nat)
    requires i < |attrs|
    ensures MakeItem(path, attrs[i]) in Items(path, attrs, IsDirMode(attrs[i].st_mode))
  {
    var init := attrs[..|attrs| - 1];
    if i < |attrs| - 1 {
      ItemsComplete(path, init, i);
      assert init[i] == attrs[i];
    }
  }

  /** For a directory of the server listed by its canonical path, a group
      holds one item per child of its kind, named as the child, with the
      child's canonical path and its size. */
  lemma ListedChildren(t: Tree, k: Key, attrs: seq<Attr>, dirs: bool)
    requires WellFormed(t) && k in t && Listing(t, k, attrs)
    ensures forall x :: x in Items(Render(k), attrs, dirs) ==>
      k + [x.name] in t && t[k + [x.name]].Dir? == dirs
      && x.path == Render(k + [x.name]) && x.size == AttrOf(x.name, t[k + [x.name]]).st_size
    ensures forall n :: k + [n] in t && t[k + [n]].Dir? == dirs ==>
      exists x :: x in Items(Render(k), attrs, dirs) && x.name == n
  {
    var path := Render(k);
    forall x | x in Items(path, attrs, dirs)
      ensures k + [x.name] in t && t[k + [x.name]].Dir? == dirs
      ensures x.path == Render(k + [x.name]) && x.size == AttrOf(x.name, t[k + [x.name]]).st_size
    {
      ItemsOfKind(path, attrs, dirs, x);
      var i :| 0 <= i < |attrs| && IsDirMode(attrs[i].st_mode) == dirs
        && x == Item(attrs[i].filename, Sanitize(Join(path, attrs[i].filename)), FormatSize(attrs[i].st_size));
      assert attrs[i] == AttrOf(x.name, t[k + [x.name]]);
      AttrOfKind(x.name, t[k + [x.name]]);
      assert ValidKey(k + [x.name]);
      assert ValidName(x.name) by { assert (k + [x.name])[|k|] == x.name; }
      ChildPath(k, x.name);
    }
    forall n | k + [n] in t && t[k + [n]].Dir? == dirs
      ensures exists x :: x in Items(path, attrs, dirs) && x.name == n
    {
      ChildrenAt(t, k, n);
      assert n in Names(attrs);
      var i :| 0 <= i < |attrs| && attrs[i].filename == n;
      AttrOfKind(n, t[k + [n]]);
      ItemsComplete(path, attrs, i);
    }
  }

  // ---------------------------------------------------------------------
  // Does the server's order matter?

  /** Two sorted permutations of items with pairwise distinct keys start
      with the same item. */
  lemma SortedHeads(a: seq<Item>, b: seq<Item>)
    requires Sorted(a) && Sorted(b) && multiset(a) == multiset(b) && a != []
    requires forall i, j :: 0 <= i < j < |a| ==> Key(a[i]) != Key(a[j])
    ensures b != [] && a[0] == b[0]
  {
    assert a[0] in multiset(b);
    var m :| 0 <= m < |b| && b[m] == a[0];
    assert b[0] in multiset(a);
    var m' :| 0 <= m' < |a| && a[m'] == b[0];
    if m > 0 {
      assert LexLe(Key(b[0]), Key(b[m]));
    } else {
      LexLeReflexive(Key(b[0]));
    }
    if m' > 0 {
      assert LexLe(Key(a[0]), Key(a[m']));
    } else {
      LexLeReflexive(Key(a[0]));
    }
    LexLeAntisymmetric(Key(a[0]), Key(b[0]));
  }

  lemma TailsSameMultiset<T>(a: seq<T>, b: seq<T>)
    requires a != [] && b != [] && a[0] == b[0] && multiset(a) == multiset(b)
    ensures multiset(a[1..]) == multiset(b[1..])
  {
    assert a == [a[0]] + a[1..] && b == [b[0]] + b[1..];
    forall x ensures multiset(a[1..])[x] == multiset(b[1..])[x] {
      assert multiset(a)[x] == multiset(b)[x];
    }
  }

  /** Two sorted permutations of items whose keys are pairwise distinct
      are equal. */
  lemma {:induction false} SortedUnique(a: seq<Item>, b: seq<Item>)
    requires Sorted(a) && Sorted(b) && multiset(a) == multiset(b)
    requires forall i, j :: 0 <= i < j < |a| ==> Key(a[i]) != Key(a[j])
    ensures a == b
  {
    if a == [] {
      assert |b| == |multiset(b)| == 0;
    } else {
      SortedHeads(a, b);
      TailsSameMultiset(a, b);
      SortedUnique(a[1..], b[1..]);
      assert a == [a[0]] + a[1..] && b == [b[0]] + b[1..];
    }
  }

  predicate UniqueNames(s: seq<Item>)
  {
    forall i, j :: 0 <= i < j < |s| ==> s[i].name != s[j].name
  }

  /** Within one kind, different names give different items. */
  lemma {:induction false} ItemsDistinct(path: string, attrs: seq<Attr>, dirs: bool)
    requires DistinctNames(attrs)
    ensures UniqueNames(Items(path, attrs, dirs))
  {
    if attrs != [] {
      var init := attrs[..|attrs| - 1];
      ItemsDistinct(path, init, dirs);
      var s := Items(path, attrs, dirs);
      var last := attrs[|attrs| - 1];
      forall i | 0 <= i < |Items(path, init, dirs)|
        ensures Items(path, init, dirs)[i].name != last.filename
      {
        var x := Items(path, init, dirs)[i];
        ItemsOfKind(path, init, dirs, x);
      }
    }
  }

  /** A sequence of pairwise distinct names holds each of its items once. */
  lemma {:induction false} DistinctMultiset(s: seq<Item>, x: Item)
    requires UniqueNames(s)
    requires x in s
    ensures multiset(s)[x] == 1
  {
    if s[0] == x {
      assert s == [x] + s[1..];
      forall i | 0 <= i < |s[1..]| ensures s[1..][i] != x {
        assert s[1..][i] == s[i + 1];
      }
      assert x !in s[1..];
    } else {
      assert s == [s[0]] + s[1..];
      DistinctMultiset(s[1..], x);
    }
  }

  /** An item of one listing's group is an item of any other listing of
      the same directory. */
  lemma ListedInBoth(t: Tree, k: Key, attrs1: seq<Attr>, attrs2: seq<Attr>, path: string, dirs: bool, x: Item)
    requires Listing(t, k, attrs1) && Listing(t, k, attrs2)
    requires x in Items(path, attrs1, dirs)
    ensures x in Items(path, attrs2, dirs)
  {
    ItemsOfKind(path, attrs1, dirs, x);
    var i :| 0 <= i < |attrs1| && IsDirMode(attrs1[i].st_mode) == dirs && x == MakeItem(path, attrs1[i]);
    assert attrs1[i].filename in Names(attrs2);
    var j :| 0 <= j < |attrs2| && attrs2[j].filename == attrs1[i].filename;
    ItemsComplete(path, attrs2, j);
  }

  /** Two listings of one directory, in any two orders, give the same items
      of each kind, each once. */
  lemma ListingsSameItems(t: Tree, k: Key, attrs1: seq<Attr>, attrs2: seq<Attr>, path: string, dirs: bool)
    requires Listing(t, k, attrs1) && Listing(t, k, attrs2)
    ensures multiset(Items(path, attrs1, dirs)) == multiset(Items(path, attrs2, dirs))
  {
    var s1, s2 := Items(path, attrs1, dirs), Items(path, attrs2, dirs);
    ItemsDistinct(path, attrs1, dirs);
    ItemsDistinct(path, attrs2, dirs);
    forall x ensures multiset(s1)[x] == multiset(s2)[x] {
      if x in s1 {
        ListedInBoth(t, k, attrs1, attrs2, path, dirs, x);
        DistinctMultiset(s1, x);
        DistinctMultiset(s2, x);
      } else if x in s2 {
        ListedInBoth(t, k, attrs2, attrs1, path, dirs, x);
      }
    }
  }

  lemma SameNameSameItem(s: seq<Item>, x: Item, y: Item)
    requires UniqueNames(s) && x in s && y in s
    ensures x.name == y.name ==> x == y
  {
    var a :| 0 <= a < |s| && s[a] == x;
    var b :| 0 <= b < |s| && s[b] == y;
  }

  lemma CountTwo(r: seq<Item>, i: nat, j: nat)
    requires i < j < |r|
    ensures r[i] == r[j] ==> multiset(r)[r[i]] >= 2
  {
    assert r == r[..j] + [r[j]] + r[j + 1..];
    assert r[i] in r[..j];
  }

  /** A permutation of items with unique names, where equal keys mean equal
      names, has pairwise distinct keys. */
  lemma PermutationKeysDistinct(s: seq<Item>, r: seq<Item>)
    requires UniqueNames(s) && multiset(r) == multiset(s)
    requires forall x, y :: x in s && y in s && Key(x) == Key(y) ==> x.name == y.name
    ensures forall i, j :: 0 <= i < j < |r| ==> Key(r[i]) != Key(r[j])
  {
    forall i, j | 0 <= i < j < |r| ensures Key(r[i]) != Key(r[j]) {
      assert r[i] in multiset(s) && r[j] in multiset(s);
      SameNameSameItem(s, r[i], r[j]);
      DistinctMultiset(s, r[i]);
      CountTwo(r, i, j);
    }
  }

  /** When no two names of a directory differ only in letter case, the
      listing does not depend on the order in which the server sends the
      entries. */
  lemma ListingOrderIndependent(t: Tree, k: Key, attrs1: seq<Attr>, attrs2: seq<Attr>, path: string, dirs: bool)
    requires Listing(t, k, attrs1) && Listing(t, k, attrs2)
    requires forall n1, n2 :: n1 in Children(t, k) && n2 in Children(t, k) && Lower(n1) == Lower(n2) ==> n1 == n2
    ensures SortByName(Items(path, attrs1, dirs)) == SortByName(Items(path, attrs2, dirs))
  {
    var s1, s2 := Items(path, attrs1, dirs), Items(path, attrs2, dirs);
    ListingsSameItems(t, k, attrs1, attrs2, path, dirs);
    SortByNameSorted(s1);
    SortByNameSorted(s2);
    ItemsDistinct(path, attrs1, dirs);
    forall x | x in s1 ensures x.name in Children(t, k) {
      ItemsOfKind(path, attrs1, dirs, x);
    }
    PermutationKeysDistinct(s1, SortByName(s1));
    SortedUnique(SortByName(s1), SortByName(s2));
  }

  /** Two names differing only in case come out in the server's order, so
      the listing can differ between two orders of the same entries. */
  lemma CaseTiesFollowServerOrder()
    ensures var upper, lower := Item("A", "/A", 0), Item("a", "/a", 0);
      SortByName([upper, lower]) == [upper, lower]
      && SortByName([lower, upper]) == [lower, upper]
  {
    var upper, lower := Item("A", "/A", 0), Item("a", "/a", 0);
    assert Lower("A") == [LowerChar('A')] + Lower([]);
    assert LowerChar('A') == 'a';
    assert Lower("a") == [LowerChar('a')] + Lower([]);
    assert Key(upper) == "a" && Key(lower) == "a";
    LexLeReflexive("a");
    assert SortByName([lower]) == [lower] && SortByName([upper]) == [upper];
    assert [upper, lower][1..] == [lower] && [lower, upper][1..] == [upper];
  }

  // ---------------------------------------------------------------------

  /** Splits the listing into directories and files, then sorts each group
      by lower-cased name. */
  method ListEntries(path: string, attrs: seq<Attr>) returns (dirs: seq<Item>, files: seq<Item>)
    ensures dirs == SortByName(Items(path, attrs, true))
    ensures files == SortByName(Items(path, attrs, false))
  {
    dirs, files := [], [];
    var i := 0;
    while i < |attrs|
      invariant 0 <= i <= |attrs|
      invariant dirs == Items(path, attrs[..i], true)
      invariant files == Items(path, attrs[..i], false)
    {
      var a := attrs[i];
      var item := Item(a.filename, Sanitize(Join(path, a.filename)), FormatSize(a.st_size));
      if IsDirMode(a.st_mode) {
        dirs := dirs + [item];
      } else {
        files := files + [item];
      }
      assert attrs[..i + 1][..i] == attrs[..i];
      i := i + 1;
    }
    assert attrs[..i] == attrs;
    dirs := SortByName(dirs);
    files := SortByName(files);
  }

  /** `ajax_list`: lists the directory `path` of the connected server. */
  method AjaxList(fs: Server?, path: string) returns (r: ListReply)
    requires fs != null ==> fs.Valid()
    ensures fs == null ==> r == ListError("SFTP client not connected!")
    ensures fs != null && fs.Lookup(path).Err? ==> r == ListError(fs.Lookup(path).msg)
    ensures fs != null && fs.Lookup(path).Ok? && fs.tree[fs.Lookup(path).value].File? ==>
      r == ListError(NoSuchFile)
    ensures fs != null && fs.Lookup(path).Ok? && fs.tree[fs.Lookup(path).value].Dir? ==>
      exists attrs :: Listing(fs.tree, fs.Lookup(path).value, attrs) &&
        r == Listed(SortByName(Items(path, attrs, true)), SortByName(Items(path, attrs, false)))
  {
    if fs == null {
      return ListError("SFTP client not connected!");
    }
    var listed := fs.ListdirAttr(path);
    if listed.Err? {
      return ListError(listed.msg);
    }
    var dirs, files := ListEntries(path, listed.value);
    r := Listed(dirs, files);
  }
}
