/** The routes that read, save and rename a single remote entry. Text is
    decoded from and encoded to bytes by functions the model takes as
    parameters (UTF-8 with replacement, and UTF-8). */
module Files {
  import opened Outcomes
  import opened Paths
  import opened ServerPaths
  import opened RemoteFs

  datatype FileReply = FileContent(content: string) | FileError(message: string)

  /** `ajax_file`: the text of the file `path`. */
  method AjaxFile(fs: Server?, path: string, decode: seq<byte> -> string) returns (r: FileReply)
    requires fs != null ==> fs.Valid()
    ensures fs == null ==> r == FileError("SFTP client not connected!")
    ensures fs != null && path == "" ==> r == FileError("No path provided")
    ensures fs != null && path != "" ==>
      r == match fs.ReadFile(path)
           case Ok(data) => FileContent(decode(data))
           case Err(m) => FileError(m)
  {
    if fs == null {
      return FileError("SFTP client not connected!");
    }
    if path == "" {
      return FileError("No path provided");
    }
    var data := fs.ReadFile(path);
    if data.Err? {
      return FileError(data.msg);
    }
    r := FileContent(decode(data.value));
  }

  /** `ajax_save`: replaces the content of the file `path` by the encoded
      text, creating the file when it is missing. */
  method AjaxSave(fs: Server?, path: string, content: string, encode: string -> seq<byte>)
    returns (r: Reply)
    requires fs != null ==> fs.Valid()
    modifies fs
    ensures fs == null ==> r == StatusError("SFTP client not connected!")
    ensures fs != null ==> fs.Valid()
    ensures fs != null && path == "" ==>
      r == StatusError("No path provided") && fs.tree == old(fs.tree) && fs.log == old(fs.log)
    ensures fs != null && path != "" ==>
      var p := old(fs.PlaceFor(path));
      if p.Ok? && (p.value !in old(fs.tree) || old(fs.tree)[p.value].File?) then
        r == StatusOk("File saved") && fs.tree == old(fs.tree)[p.value := File(encode(content))]
        && fs.log == old(fs.log) + [Wrote(p.value, encode(content))]
      else
        r == StatusError(if p.Err? then p.msg else Failure)
        && fs.tree == old(fs.tree) && fs.log == old(fs.log)
  {
    if fs == null {
      return StatusError("SFTP client not connected!");
    }
    if path == "" {
      return StatusError("No path provided");
    }
    var done := fs.WriteFile(path, encode(content));
    if done.Err? {
      return StatusError(done.msg);
    }
    r := StatusOk("File saved");
  }

  /** Saving and then opening the same path gives back the saved text, when
      decoding undoes encoding. */
  method SaveThenOpen(fs: Server, path: string, content: string,
                      encode: string -> seq<byte>, decode: seq<byte> -> string)
    returns (saved: Reply, read: FileReply)
    requires fs.Valid()
    requires forall s :: decode(encode(s)) == s
    modifies fs
    ensures saved == StatusOk("File saved") ==> read == FileContent(content)
  {
    saved := AjaxSave(fs, path, content, encode);
    read := AjaxFile(fs, path, decode);
  }

  // ---------------------------------------------------------------------
  // ajax_rename

  /** The path an entry is renamed to: `new_name` joined to the dirname of
      the old path, then sanitised. */
  function RenameTarget(oldPath: string, newName: string): string
  {
    Sanitize(Join(Dirname(oldPath), newName))
  }

  /** A plain new name keeps the entry in the same directory under the new
      name. */
  lemma RenameStaysInDirectory(oldPath: string, newName: string)
    requires '\\' !in oldPath
    requires newName != [] && '/' !in newName && '\\' !in newName
    ensures Dirname(RenameTarget(oldPath, newName)) == Dirname(oldPath)
    ensures Basename(RenameTarget(oldPath, newName)) == newName
  {
    var d := Dirname(oldPath);
    DirnamePrefix(oldPath);
    assert '\\' !in d by {
      forall i | 0 <= i < |d| ensures d[i] != '\\' {
        assert d[i] == oldPath[i];
      }
    }
    assert newName[0] in newName;
    assert '\\' !in Join(d, newName);
    SanitizeFixesClean(Join(d, newName));
    DirnameShape(oldPath);
    SplitJoin(d, newName);
  }

  /** On the server's canonical paths, renaming targets the sibling of that
      name. */
  lemma RenameTargetSibling(k: Key, newName: string)
    requires ValidKey(k) && k != [] && ValidName(newName)
    ensures RenameTarget(Render(k), newName) == Render(Parent(k) + [newName])
  {
    assert k == Parent(k) + [k[|k| - 1]];
    assert ValidName(k[|k| - 1]);
    ChildPath(Parent(k), k[|k| - 1]);
    ChildPath(Parent(k), newName);
  }

  /** An absolute new name moves the entry there, whatever its old place. */
  lemma RenameToAbsolute(oldPath: string, newName: string)
    requires |newName| > 0 && newName[0] == '/'
    ensures RenameTarget(oldPath, newName) == Sanitize(newName)
  {
  }

  lemma RenameExample()
    ensures RenameTarget("/a/b.txt", "c.txt") == "/a/c.txt"
  {
    var p := "/a/b.txt";
    assert p == "/a" + "/" + "b.txt";
    HeadLenAfterSlash("/a", "b.txt");
    assert p[..HeadLen(p)] == "/a/";
    assert !AllSlashes("/a/") by { assert "/a/"[1] == 'a'; }
    assert RStripSlashes("/a/") == "/a" by { assert "/a/"[..2] == "/a"; }
    assert Dirname(p) == "/a";
    assert Join("/a", "c.txt") == "/a/c.txt";
    SanitizeFixesClean("/a/c.txt");
  }

  /** `ajax_rename`: gives the entry `oldPath` the name `newName` in its
      directory. */
  method AjaxRename(fs: Server?, oldPath: string, newName: string) returns (r: Reply)
    requires fs != null ==> fs.Valid()
    modifies fs
    ensures fs == null ==> r == StatusError("SFTP not connected!")
    ensures fs != null ==> fs.Valid()
    ensures fs != null && (oldPath == "" || newName == "") ==>
      r == StatusError("Missing parameters") && fs.tree == old(fs.tree) && fs.log == old(fs.log)
    ensures fs != null && oldPath != "" && newName != "" ==>
      var l, p := old(fs.Lookup(oldPath)), old(fs.PlaceFor(RenameTarget(oldPath, newName)));
      if l.Ok? && l.value != [] && p.Ok? && p.value !in old(fs.tree) && !(l.value <= p.value) then
        (AbsentHasNoSubtree(old(fs.tree), p.value);
         r == StatusOk("Renamed successfully") && fs.tree == MovedTree(old(fs.tree), l.value, p.value)
         && fs.log == old(fs.log) + [Renamed(l.value, p.value)])
      else
        r == StatusError(if l.Err? then l.msg else if l.value == [] then Failure
                         else if p.Err? then p.msg else Failure)
        && fs.tree == old(fs.tree) && fs.log == old(fs.log)
  {
    if fs == null {
      return StatusError("SFTP not connected!");
    }
    if oldPath == "" || newName == "" {
      return StatusError("Missing parameters");
    }
    var newPath := Sanitize(Join(Dirname(oldPath), newName));
    var done := fs.Rename(oldPath, newPath);
    if done.Err? {
      return StatusError(done.msg);
    }
    r := StatusOk("Renamed successfully");
  }
}
