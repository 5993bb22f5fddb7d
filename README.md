# LinuxVpsManager session bridge — a Dafny model

LinuxVpsManager is a small web console for one remote Linux host. It holds
one SSH connection and one SFTP session to the host, and a Flask app
exposes them to a browser page:

- a file explorer: list, read, save, create, upload, rename, delete and
  download (a directory comes down as a ZIP archive);
- a terminal that either runs a command to the end or streams its output
  while it runs.

This project models the logic under those routes in `app.py`. The remote
SFTP filesystem is an in-memory tree of files and directories. The SSH
channel is a scripted source of events. Both are parameters of the model.

## Layout

| file | module | what it holds |
|---|---|---|
| `outcomes.dfy` | `Outcomes` | `Option`, `Result` (an exception is `Err` with its text) and the JSON `status`/`message` reply |
| `paths.dfy` | `Paths` | `sanitize_path` and the POSIX `join`, `dirname` and `basename` the routes rely on |
| `server_paths.dfy` | `ServerPaths` | how the server names an entry: a key (the names from the root) and its canonical path `"/a/b"` |
| `remote_fs.dfy` | `RemoteFs` | the remote filesystem: the tree, the `listdir_attr` attributes, and a `Server` class whose methods are the SFTP calls the routes make |
| `listing.dfy` | `Listing` | `format_size`, the items of `ajax_list`, the case-insensitive stable sort, and the route |
| `delete.dfy` | `Delete` | `ajax_delete` and its recursive `delete_dir` |
| `create.dfy` | `Create` | parent resolution shared by `ajax_new_item` and `ajax_upload`; both routes; the local disk holding the upload's temporary file |
| `files.dfy` | `Files` | `ajax_file`, `ajax_save` and `ajax_rename` |
| `archive.dfy` | `Archive` | `download_file` and its `add_dir_to_zip`; the archive is its sequence of entries |
| `terminal.dfy` | `Terminal` | `terminal_execute`; `terminal_stream` and its polling `generate` over a scripted channel |
| `client_paths.dfy` | `ClientPaths` | the browser's `parentDir` and `isDirPath` |

## The remote filesystem

A stored entry is named by its key: the sequence of names from the root.
A name is non-empty, holds neither `/` nor `\`, and is neither `.` nor `..`.
The tree maps keys to `File(bytes)` or `Dir`, and every entry's parent is
a stored directory.

The server accepts only canonical absolute paths (`"/"`, `"/a/b"`). Any
other string names nothing and gets the server's "No such file" error.
A set of denied keys makes any call that names one of them fail with
"Permission denied". This is how failures partway through a recursive
operation are modelled.

The `Server` class models the SFTP host, not code in `app.py`. It is what
the routes act on. It keeps a log of the changes it makes, so the order of
a recursive delete can be stated. `listdir_attr` returns the entries in an
order the server chooses. Every property about listings holds for every
such order.

## The stream does not drain

The polling loop at `app.py:1245-1246` stops as soon as the exit status
is ready. Bytes still buffered after that pass's single `recv(1024)` are
never sent. `Terminal.ExitLeavesBytesWaiting` shows the loss: 2000 bytes
arriving together with the exit give one block of 1024.

## Model

| member | source | states |
|---|---|---|
| Paths.Sanitize | app.py:1032-1033 | `sanitize_path`: every backslash replaced by `/`; its properties are the lemmas below |
| Paths.Join | app.py:1049 | two-argument POSIX `join`: an absolute name replaces the directory part, otherwise one `/` is inserted unless the directory part is empty or ends in one |
| Paths.Dirname | app.py:1293 | POSIX `dirname`: everything up to the last `/`, without trailing slashes unless it is all slashes |
| Paths.Basename | app.py:1192 | POSIX `basename`: everything after the last `/` |
| Paths.SanitizeAt | app.py:1032-1033 | the sanitised path has the same length; each `\` becomes `/` and every other character is unchanged |
| Paths.SanitizeHasNoBackslash | app.py:1032-1033 | a sanitised path holds no `\` |
| Paths.SanitizeIdempotent | app.py:1032-1033 | sanitising twice is sanitising once |
| Paths.SanitizeFixesClean | app.py:1032-1033 | a path without `\` is left as it is |
| Paths.JoinAbsolute | app.py:1126 | joining with an absolute name discards the directory part |
| Paths.BasenameOfTrailingSlash | app.py:1192-1193 | a path ending in `/` has the empty basename |
| Paths.SplitJoin | app.py:1293 | `dirname` and `basename` of `join(d, n)` give back `d` and the plain name `n`, for any `d` that `dirname` can return |
| Paths.JoinDirnameBasename | app.py:1293 | re-joining `dirname(p)` and `basename(p)` gives `p` when `p` has no doubled separator |
| Paths.DirnameShape | app.py:1293 | a dirname is empty, all slashes, or ends in a name |
| Paths.DirnamePrefix | app.py:1293 | a dirname is a prefix of its path |
| ServerPaths.ChildPath | app.py:1049 | the path built from a directory's path and a child's name is the child's canonical path, already sanitised, whose dirname and basename are the directory's path and the name |
| Listing.FormatSize | app.py:1035-1036 | a reported size is never negative, and a non-negative size is reported as it is |
| Listing.MakeItem | app.py:1049-1051 | the item of one entry: its name, `sanitize(join(path, filename))` and `format_size(st_size)` |
| Listing.Items | app.py:1047-1052 | the items of the entries of one kind, in listing order; characterised by `ItemsOfKind`, `ItemsComplete` and `ItemsPartition` |
| Listing.Lower | app.py:1053-1054 | the sort key `name.lower()`, on ASCII letters |
| Listing.SortByName | app.py:1053-1054 | the stable sort by lower-cased name, as an insertion sort; characterised by `SortByNameSorted` and `SortByNameStable` |
| Listing.ListEntries | app.py:1047-1054 | the loop gives the directory items and the file items in listing order, each group then sorted by lower-cased name |
| Listing.ItemsPartition | app.py:1047-1052 | the two groups together hold each listed entry's item exactly once (as multisets) |
| Listing.ItemsOfKind | app.py:1047-1052 | every item of a group comes from a listed entry of that kind, with path `sanitize(join(path, filename))` and size `format_size(st_size)` |
| Listing.ItemsComplete | app.py:1047-1052 | every listed entry's item is in the group of its kind |
| Listing.ListedChildren | app.py:1047-1052 | for a listed directory of the tree, each group holds exactly the children of its kind, each with its canonical path and the size the server reports |
| Listing.SortByNameSorted | app.py:1053-1054 | the sorted group is ordered by lower-cased name and is a permutation of the group |
| Listing.SortByNameStable | app.py:1053-1054 | items with the same lower-cased name keep their relative order |
| Listing.ListingOrderIndependent | app.py:1053-1054 | when no two names in the directory differ only in case, the answer is the same whatever order the server lists the entries in |
| Listing.CaseTiesFollowServerOrder | app.py:1053-1054 | `A` and `a` come out in the order the server sent them, so with case ties the answer depends on that order |
| Listing.AjaxList | app.py:1038-1055 | not connected, the server's error, or both groups of a listing of the directory, built and sorted as above |
| Delete.DeleteEntry | app.py:1098-1102 | one listed child is deleted: a directory recursively, a file by `remove`; afterwards the removals lie inside the child's subtree, children come before their parents, and it succeeds exactly when nothing there is denied |
| Delete.DeleteChildren | app.py:1097-1102 | the loop deletes the listed children; the removals lie strictly below the directory, children before parents, and the tree is the old one minus exactly those; it succeeds exactly when nothing below is denied, and then every entry strictly below the directory is removed |
| Delete.DeleteDir | app.py:1096-1103 | every removal lies inside the subtree and is logged after all its children's; the tree is the old one minus exactly the removed keys, even after a failure (no rollback); it succeeds exactly when nothing in the subtree is denied and it is not the root, and then the whole subtree is gone |
| Delete.EraseSubtree | app.py:1096-1104 | removing every key of a subtree leaves the tree without that subtree and with everything else unchanged |
| Delete.AjaxDelete | app.py:1086-1109 | error texts and no change for a missing connection, an empty path or a failed `stat`; a file is the one key removed; a directory is deleted as `DeleteDir` states, answering "Deleted" on success |
| Create.ResolveParent | app.py:1120-1125 | the parent as given when `stat` fails or it is a directory, its `dirname` when it is a file (the same code at app.py:1144-1149) |
| Create.TargetPath | app.py:1126 | `sanitize(join(resolved parent, name))`, the path both routes create at (app.py:1156 for uploads); characterised by the four lemmas below |
| Create.TargetInDirectory | app.py:1120-1126 | when the parent is a directory, the new entry is its child of that name |
| Create.TargetBesideFile | app.py:1120-1126 | when the parent is a file, the new entry is its sibling of that name |
| Create.TargetUnresolved | app.py:1120-1126 | when `stat` of the parent fails, the parent is used as given |
| Create.TargetAbsoluteName | app.py:1126 | an absolute name ignores the parent altogether |
| Create.Capitalize | app.py:1133 | `str.capitalize` on ASCII: the first character upper-cased, the rest lower-cased |
| Create.CreatedMessages | app.py:1133 | the success messages are "Folder created" and "File created" |
| Create.AjaxNewItem | app.py:1111-1135 | "SFTP not connected!", "Missing parameters", or at the resolved target: a new directory for "folder", otherwise an empty file (replacing an existing file's content); on any server error, the message and no change |
| Create.FirstUpload | app.py:1151-1153 | picks the first uploaded part with a file name, if any |
| Create.LocalDisk.Save | app.py:1155 | stores the bytes under the temporary path |
| Create.LocalDisk.RemoveIfExists | app.py:1161-1163 | the temporary path is gone afterwards and nothing else changes |
| Create.Put | app.py:1158 | the local file's bytes become the remote file, or the server's error with no change |
| Create.StorePart | app.py:1154-1163 | one part is stored at the resolved target and the local disk is left as it was, on success and on failure |
| Create.AjaxUpload | app.py:1137-1165 | "No parent path provided"; only the first named part is stored, at `sanitize(join(resolved parent, filename))`; "File uploaded" even when no part has a name; the temporary file never survives |
| Files.AjaxFile | app.py:1057-1069 | the connection and empty-path errors, the server's error, or the decoded content of the file |
| Files.AjaxSave | app.py:1071-1084 | the connection and empty-path errors; otherwise the file holds the encoded text (created if missing) and the answer is "File saved", or the server's error and no change |
| Files.SaveThenOpen | app.py:1057-1084 | with a decoder that inverts the encoder, opening a file right after a successful save gives back the saved text |
| Files.RenameTarget | app.py:1293 | `sanitize(join(dirname(old_path), new_name))`; characterised by the four lemmas below |
| Files.RenameStaysInDirectory | app.py:1293 | for a plain new name, the target is in the same directory as the old path and has the new name |
| Files.RenameTargetSibling | app.py:1293 | for a stored entry, the target is its sibling with the new name |
| Files.RenameToAbsolute | app.py:1293 | an absolute new name moves the entry to that path, wherever it was |
| Files.RenameExample | app.py:1293 | renaming `/a/b.txt` to `c.txt` targets `/a/c.txt` |
| Files.AjaxRename | app.py:1285-1298 | "Missing parameters" and no change; otherwise the entry and everything below it move to the target and nothing else changes, or the server's error and no change |
| Archive.ZipWriter.WriteStr | app.py:1190 | appends exactly one entry with that name and data |
| Archive.ZipName | app.py:1184 | the entry name of a file below the archived directory: its relative names joined one by one onto the archive root, as the recursion builds `zip_item` |
| Archive.ZipNameShape | app.py:1184 | an entry name is the archive root joined with the entry's path relative to the directory |
| Archive.ZipNameInjective | app.py:1184 | two different relative paths give two different entry names |
| Archive.AddEntry | app.py:1183-1190 | one listed child is archived: a directory recursively, a file as one entry with its bytes |
| Archive.AddEntries | app.py:1182-1190 | the loop archives the listed children; on success one entry per file below the directory has been appended and nothing before it changed |
| Archive.AddDirToZip | app.py:1181-1190 | succeeds exactly when nothing in the subtree is denied; then the new entries are one per file below the directory (none for directories), in some order, each holding that file's bytes |
| Archive.ArchiveContents | app.py:1181-1193 | the archive has as many entries as there are files below the directory, each named `join(root, relative path)`, no two names alike |
| Archive.ArchiveRootName | app.py:1192 | the archive root is the directory's own name, and the empty name for `/` |
| Archive.DownloadFile | app.py:1167-1200 | errors 500 and 400 with their texts; a file is sent under its basename; a directory is sent as the archive above under `basename + ".zip"`; attachment unless `inline` |
| Terminal.TerminalExecute | app.py:1203-1219 | "SSH not connected!", "No command provided", the exception text or a decoding error, or the converted text of stdout followed by stderr |
| Terminal.ExecuteOutputOrder | app.py:1213 | with a converter that returns its input unchanged, the output is the whole of stdout followed by the whole of stderr |
| Terminal.Channel.ExitStatusReady | app.py:1245 | whether the command has exited, as of the last tick applied |
| Terminal.Channel.RecvReady | app.py:1237 | applies the next scripted tick: bytes arrive and the command may exit, or the channel raises; ready means bytes are waiting |
| Terminal.Channel.Recv | app.py:1238 | takes the oldest waiting bytes, at most the requested number |
| Terminal.Pieces | app.py:1236-1247 | the stream specification: per tick, the arrived bytes join the buffer, at most 1024 of them are yielded, and the loop ends on an exit or an exception; `Generate` is proved against it |
| Terminal.Poll | app.py:1237-1247 | one pass of the loop yields the pieces the stream specification puts first, and leaves the channel in the state the rest follows from |
| Terminal.Generate | app.py:1231-1250 | the chunks are the stream specification `Pieces` shown through the decoder and converter |
| Terminal.TerminalStream | app.py:1222-1251 | the two error replies, or the stream of a fresh channel |
| Terminal.BlockSizes | app.py:1238 | every block holds between 1 and 1024 bytes |
| Terminal.OneBlockPerPoll | app.py:1237-1247 | there are no more pieces than polls |
| Terminal.ErrorIsLast | app.py:1249-1250 | an error chunk appears at most once, as the last chunk |
| Terminal.BytesInOrder | app.py:1237-1247 | the bytes yielded are a prefix of what was waiting followed by what arrived: nothing reordered, repeated or invented |
| Terminal.SmallArrivalsAllYielded | app.py:1237-1247 | when nothing was waiting and no poll brings more than 1024 bytes, every byte that arrives is yielded |
| Terminal.ExitLeavesBytesWaiting | app.py:1245-1246 | bytes still waiting when the command exits are not drained |
| ClientPaths.ParentDir | app.py:825-828 | the parent is a prefix of the path |
| ClientPaths.ParentOfName | app.py:827 | cutting `/name` (with at most one trailing separator) gives back the part before it |
| ClientPaths.ParentDirOfEntry | app.py:825-828 | for a stored entry's path, the parent is its directory's path, except that an entry directly under the root gets the empty string; a trailing `/` changes nothing |
| ClientPaths.RootsAreTheirOwnParents | app.py:826 | `/`, `\`, `C:` and `c:\` are returned unchanged |
| ClientPaths.ParentDirOfSlashPaths | app.py:827 | `/a` gives the empty string and `/a/b` gives `/a` |
| ClientPaths.ParentDirOfDrivePaths | app.py:825-828 | backslashes separate like slashes: `C:\x\y.txt` gives `C:\x`, and `C:\x` gives `C:` |
| ClientPaths.ParentDirWithoutName | app.py:827 | for every path: with no separator before its last character, or ending in two separators (no last name), the path is returned unchanged |
| ClientPaths.ParentDirWithoutNameExamples | app.py:827 | `a` and `/a//` are returned unchanged |
| ClientPaths.IsDirPath | app.py:829-831 | `isDirPath`: the path ends with `/` or `\` |
| ClientPaths.OnlyRootLooksLikeDirectory | app.py:829-831 | of the paths the server lists, only `/` ends in a separator, so the client takes every other listed directory for a file |

## Left out

- Flask routing and the HTTP layer (`request`, `jsonify`, `send_file`, `Response`): each route takes its form fields as parameters and returns its reply as a value. Request defaults are not modelled (the listing's path defaults to `/`, the item type to `"file"`).
- The HTML, CSS and JavaScript of the page, apart from `parentDir` and `isDirPath`. This includes the JavaScript `formatSize`, which uses floating point.
- Opening the SSH and SFTP connection, the PyQt dialogs, the server thread, stop and restart, and the curses interface: sockets, threads and interactive I/O. A missing connection is a null server or a `connected` flag.
- `ajax_sqlite`: a thin wrapper over the `sqlite3` library.
- The ANSI-to-HTML converter and the UTF-8 codecs are function parameters. The converter is stateless in the model, although the stream route's converter instance keeps state between chunks. Decoding each chunk on its own can split a multi-byte character; this is not modelled.
- ZIP encoding and compression, temporary file naming, `time.sleep(0.1)` and its timing.
- Locking and concurrency: the routes share one connection and take no lock; the model runs each route on its own.
- How the server normalises a path it is given is not modelled: only canonical paths name entries (`/a/b/` and `/a//b` name nothing).
- Names holding `\` cannot be stored: such names would be changed by `sanitize_path`.
- The server's own error texts are three fixed strings ("No such file", "Permission denied", "Failure"). Which text a real SFTP server sends for each case is not modelled.
- Listing.AjaxList: listing a file fails with "No such file"; real servers may report another error text.
- Listing.Lower: only ASCII letters are lower-cased; the Unicode case mapping of `str.lower` is not modelled.
- Create.Capitalize: only ASCII letters change case; the Unicode case mappings of `str.capitalize` are not modelled. This only matters for item types other than the two the page sends.
- Create.AjaxUpload: an uploaded part counts as present when it has a file name, which is the truth value of the framework's file object. The size check paramiko makes after `put` is not modelled.
- Create.AjaxNewItem: the "file" type truncates an existing file to empty, as the code does; this is modelled, not prevented.
- Terminal.Generate: the loop's exit on an empty read is not modelled. `recv_ready` is true only while bytes are waiting, so a read made after it is never empty; `Terminal.BlockSizes` states this.
- Terminal.TerminalStream: a failure while opening the session or starting the command is a script whose first tick raises. Exceptions are raised only when the loop polls `recv_ready`, not inside `recv` or `exit_status_ready`. Streams that never end are not modelled: the script must reach an exit or an exception.
- Terminal.TerminalExecute: `stdout.read()` waits for the command to finish; the model takes the finished output as given.
