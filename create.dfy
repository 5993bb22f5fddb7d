/** The two routes that create an entry below a parent the client names:
    `ajax_new_item` (an empty file or a directory) and `ajax_upload` (the
    first uploaded file, staged in a temporary local file). Both first
    resolve the parent: a parent that is a file stands for its directory. */
module Create {
  import opened Outcomes
  import opened Paths
  import opened ServerPaths
  import opened RemoteFs
  import opened Listing

  /** The parent the routes create in: the parent itself when it is a
      directory or when `stat` fails, its dirname when it is a file. */
  function ResolveParent(fs: Server, parent: string): string
    reads fs
  {
    match fs.Stat(parent)
    case Err(_) => parent
    case Ok(st) => if IsDirMode(st.st_mode) then parent else Dirname(parent)
  }

  /** The path of the entry to create. */
  function TargetPath(fs: Server, parent: string, name: string): string
    reads fs
  {
    Sanitize(Join(ResolveParent(fs, parent), name))
  }

  /** Creating below a stored directory targets its child of that name. */
  lemma TargetInDirectory(fs: Server, parent: string, name: string)
    requires fs.Valid() && ValidName(name)
    requires fs.Lookup(parent).Ok? && fs.tree[fs.Lookup(parent).value].Dir?
    ensures TargetPath(fs, parent, name) == Render(fs.Lookup(parent).value + [name])
  {
    var k := fs.Lookup(parent).value;
    AttrOfKind("", fs.tree[k]);
    ChildPath(k, name);
  }

  /** Creating "below" a stored file targets its sibling of that name. */
  lemma TargetBesideFile(fs: Server, parent: string, name: string)
    requires fs.Valid() && ValidName(name)
    requires fs.Lookup(parent).Ok? && fs.tree[fs.Lookup(parent).value].File?
    ensures var k := fs.Lookup(parent).value;
      k != [] && TargetPath(fs, parent, name) == Render(Parent(k) + [name])
  {
    var k := fs.Lookup(parent).value;
    AttrOfKind("", fs.tree[k]);
    assert k != [];
    assert k == Parent(k) + [k[|k| - 1]];
    assert ValidName(k[|k| - 1]) && ValidKey(Parent(k));
    ChildPath(Parent(k), k[|k| - 1]);
    ChildPath(Parent(k), name);
  }

  /** A parent the server cannot `stat` is used as given. */
  lemma TargetUnresolved(fs: Server, parent: string, name: string)
    requires fs.Lookup(parent).Err?
    ensures TargetPath(fs, parent, name) == Sanitize(Join(parent, name))
  {
  }

  /** An absolute name ignores the parent altogether. */
  lemma TargetAbsoluteName(fs: Server, parent: string, name: string)
    requires |name| > 0 && name[0] == '/'
    ensures TargetPath(fs, parent, name) == Sanitize(name)
  {
  }

  // ---------------------------------------------------------------------
  // ajax_new_item

  function UpperChar(c: char): char
  {
    if 'a' <= c <= 'z' then (c as int - 32) as char else c
  }

  /** `str.capitalize`: the first character upper-cased, the rest
      lower-cased. */
  function Capitalize(s: string): string
  {
    if s == [] then [] else [UpperChar(s[0])] + Lower(s[1..])
  }

  /** The success message names the kind the client asked for. */
  lemma CreatedMessages()
    ensures Capitalize("folder") + " created" == "Folder created"
    ensures Capitalize("file") + " created" == "File created"
  {
    CapitalizedKinds();
  }

  lemma CapitalizedKinds()
    ensures Capitalize("folder") == "Folder" && Capitalize("file") == "File"
  {
    LowerOfKinds();
  }

  lemma LowerOfKinds()
    ensures Lower("older") == "older" && Lower("ile") == "ile"
  {
  }

  /** `ajax_new_item`: creates the directory (`type` "folder") or the empty
      file (any other type) named `name` below the resolved parent. */
  method AjaxNewItem(fs: Server?, parent: string, name: string, itemType: string) returns (r: Reply)
    requires fs != null ==> fs.Valid()
    modifies fs
    ensures fs == null ==> r == StatusError("SFTP not connected!")
    ensures fs != null ==> fs.Valid()
    ensures fs != null && (parent == "" || name == "") ==>
      r == StatusError("Missing parameters") && fs.tree == old(fs.tree) && fs.log == old(fs.log)
    ensures fs != null && parent != "" && name != "" && itemType == "folder" ==>
      var p := old(fs.PlaceFor(TargetPath(fs, parent, name)));
      if p.Ok? && p.value !in old(fs.tree) then
        r == StatusOk(Capitalize(itemType) + " created")
        && fs.tree == old(fs.tree)[p.value := Dir] && fs.log == old(fs.log) + [MadeDir(p.value)]
      else
        r == StatusError(if p.Err? then p.msg else Failure)
        && fs.tree == old(fs.tree) && fs.log == old(fs.log)
    ensures fs != null && parent != "" && name != "" && itemType != "folder" ==>
      var p := old(fs.PlaceFor(TargetPath(fs, parent, name)));
      if p.Ok? && (p.value !in old(fs.tree) || old(fs.tree)[p.value].File?) then
        r == StatusOk(Capitalize(itemType) + " created")
        && fs.tree == old(fs.tree)[p.value := File([])] && fs.log == old(fs.log) + [Wrote(p.value, [])]
      else
        r == StatusError(if p.Err? then p.msg else Failure)
        && fs.tree == old(fs.tree) && fs.log == old(fs.log)
  {
    if fs == null {
      return StatusError("SFTP not connected!");
    }
    if parent == "" || name == "" {
      return StatusError("Missing parameters");
    }
    var resolved := parent;
    var st := fs.Stat(parent);
    if st.Ok? && !IsDirMode(st.value.st_mode) {
      resolved := Dirname(parent);
    }
    var fullPath := Sanitize(Join(resolved, name));
    var done: Result<()>;
    if itemType == "folder" {
      done := fs.Mkdir(fullPath);
    } else {
      done := fs.WriteFile(fullPath, []);
    }
    if done.Err? {
      return StatusError(done.msg);
    }
    r := StatusOk(Capitalize(itemType) + " created");
  }

  // ---------------------------------------------------------------------
  // ajax_upload

  /** One file part of the upload request; a part without a file name is
      falsy and skipped. */
  datatype Upload = Upload(filename: string, data: seq<byte>)

  /** The part the route stores: the first one with a file name. */
  function FirstUpload(parts: seq<Upload>): (r: Option<nat>)
    ensures r.Some? ==>
      && r.value < |parts| && parts[r.value].filename != ""
      && forall j :: 0 <= j < r.value ==> parts[j].filename == ""
    ensures r.None? ==> forall j :: 0 <= j < |parts| ==> parts[j].filename == ""
  {
    if parts == [] then None
    else if parts[0].filename != "" then Some(0)
    else match FirstUpload(parts[1..])
      case None => None
      case Some(i) => Some(i + 1)
  }

  /** The local disk of the bridge, where uploads are staged. */
  class LocalDisk {
    var files: map<string, seq<byte>>

    constructor (files0: map<string, seq<byte>>)
      ensures files == files0
    {
      files := files0;
    }

    /** `FileStorage.save`: writes the part's bytes to a local file. */
    method Save(path: string, data: seq<byte>)
      modifies this
      ensures files == old(files)[path := data]
    {
      files := files[path := data];
    }

    /** `os.path.exists` followed by `os.remove`. */
    method RemoveIfExists(path: string)
      modifies this
      ensures files == old(files) - {path}
    {
      if path in files {
        files := files - {path};
      }
    }
  }

  /** `put`: copies a local file to the server. */
  method Put(fs: Server, disk: LocalDisk, local: string, remote: string) returns (r: Result<()>)
    requires fs.Valid() && local in disk.files
    modifies fs
    ensures fs.Valid()
    ensures var p := old(fs.PlaceFor(remote)); var data := disk.files[local];
      if p.Ok? && (p.value !in old(fs.tree) || old(fs.tree)[p.value].File?) then
        r == Ok(()) && fs.tree == old(fs.tree)[p.value := File(data)]
        && fs.log == old(fs.log) + [Wrote(p.value, data)]
      else
        r == Err(if p.Err? then p.msg else Failure) && fs.tree == old(fs.tree) && fs.log == old(fs.log)
  {
    r := fs.WriteFile(remote, disk.files[local]);
  }

  /** The body of the upload loop for the part it stores: stage the bytes
      in `temp`, `put` them to the server, and remove `temp` in any case. */
  method StorePart(fs: Server, disk: LocalDisk, resolved: string, f: Upload, temp: string)
    returns (r: Reply)
    requires fs.Valid() && temp !in disk.files
    modifies fs, disk
    ensures fs.Valid() && disk.files == old(disk.files)
    ensures var p := old(fs.PlaceFor(Sanitize(Join(resolved, f.filename))));
      if p.Ok? && (p.value !in old(fs.tree) || old(fs.tree)[p.value].File?) then
        r == StatusOk("File uploaded")
        && fs.tree == old(fs.tree)[p.value := File(f.data)] && fs.log == old(fs.log) + [Wrote(p.value, f.data)]
      else
        r == StatusError(if p.Err? then p.msg else Failure)
        && fs.tree == old(fs.tree) && fs.log == old(fs.log)
  {
    disk.Save(temp, f.data);
    var remotePath := Sanitize(Join(resolved, f.filename));
    var put := Put(fs, disk, temp, remotePath);
    disk.RemoveIfExists(temp);
    if put.Err? {
      return StatusError(put.msg);
    }
    return StatusOk("File uploaded");
  }

  /** `ajax_upload`: stores the first named part below the resolved parent,
      staging it in the fresh local file `temp`, which is removed whatever
      the outcome. Later parts are ignored. */
  method AjaxUpload(fs: Server?, disk: LocalDisk, parent: string, parts: seq<Upload>, temp: string)
    returns (r: Reply)
    requires fs != null ==> fs.Valid()
    requires temp !in disk.files
    modifies fs, disk
    ensures disk.files == old(disk.files)
    ensures fs == null ==> r == StatusError("SFTP not connected!")
    ensures fs != null ==> fs.Valid()
    ensures fs != null && (parent == "" || FirstUpload(parts).None?) ==>
      fs.tree == old(fs.tree) && fs.log == old(fs.log)
      && r == (if parent == "" then StatusError("No parent path provided") else StatusOk("File uploaded"))
    ensures fs != null && parent != "" && FirstUpload(parts).Some? ==>
      var u := parts[FirstUpload(parts).value];
      var p := old(fs.PlaceFor(TargetPath(fs, parent, u.filename)));
      if p.Ok? && (p.value !in old(fs.tree) || old(fs.tree)[p.value].File?) then
        r == StatusOk("File uploaded")
        && fs.tree == old(fs.tree)[p.value := File(u.data)] && fs.log == old(fs.log) + [Wrote(p.value, u.data)]
      else
        r == StatusError(if p.Err? then p.msg else Failure)
        && fs.tree == old(fs.tree) && fs.log == old(fs.log)
  {
    if fs == null {
      return StatusError("SFTP not connected!");
    }
    if parent == "" {
      return StatusError("No parent path provided");
    }
    var resolved := parent;
    var st := fs.Stat(parent);
    if st.Ok? && !IsDirMode(st.value.st_mode) {
      resolved := Dirname(parent);
    }
    var i := 0;
    while i < |parts|
      invariant 0 <= i <= |parts|
      invariant forall j :: 0 <= j < i ==> parts[j].filename == ""
      invariant resolved == ResolveParent(fs, parent)
      invariant fs.tree == old(fs.tree) && fs.log == old(fs.log) && disk.files == old(disk.files)
    {
      var f := parts[i];
      if f.filename != "" {
        assert FirstUpload(parts) == Some(i);
        r := StorePart(fs, disk, resolved, f, temp);
        return;
      }
      i := i + 1;
    }
    r := StatusOk("File uploaded");
  }
}
