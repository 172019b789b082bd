# bcc-fuse in Dafny

This models bcc-fuse, a FUSE filesystem that exposes BPF programs as a synthetic tree of directories and files. Under the root there is one directory per program. Writing C text to a program's `source` file and flushing it compiles the program. Compiling adds `functions` (one directory per function, with a `type` file that loads it into the kernel) and `maps` (one directory per table, listing its keys as files). The project has four parts.

- **The filesystem of `src/fs`**
  - Modules `Tree`, `Inodes`, `Subtrees`, `Refresh`, `FileOps`, `LinkOps`, `SocketOps`, `Filesystem`, `Mounts`.
  - The C++ objects (`Dir`, `RootDir`, `ProgramDir`, `FunctionDir`, `MapDir`, the `File` classes, `Link`, `Socket`, `FunctionSocket`) live in one arena: a map from ids to inodes.
    - Ids are handed out in allocation order, so a directory's children always have larger ids than it does.
    - `Tree.WellFormed` is the invariant every operation keeps. Children exist and point back to their directory, no node is held twice, and `n_files_`/`n_dirs_` count the `file_e` children and the other children.
  - `Filesystem.InodeTable` is the class whose methods are the C++ member functions. Each method states its new arena in terms of the old one.
  - `Mounts.Mount` holds the FUSE callbacks. Each one resolves its path with the `Path` cursor and `Dir::leaf`, maps failures to errno values, and hands the call to the node.
- **`src/string_util.h`** (module `StringUtil`)
  - `split`, with a reference definition ("the non-empty pieces between delimiters") and a round trip back to the string.
  - The `_s` literal.
  - The `Path` cursor over `strtok_r`, as a class.
- **`src/fuser.cc`** (module `Fuser`): the static hello-world filesystem.
- **The first version of the tree, `src/dir.cc` and `src/file.cc`** (module `Legacy`)
  - Its own arena.
  - Counters kept by hand as size_t values, with explicit 2^64 wrap-around (`Posix.Size`, `Inc`, `Dec`).
  - `std::to_string` with a proved parse-back.

The BPF library and the kernel are one `Bpf.Kernel` record of uninterpreted functions, passed as a parameter:
- compiling;
- function and table names;
- `bpf_prog_load`;
- table fds;
- the keys a table yields;
- lookup, update and delete;
- key and leaf printing and parsing.

The monotonic clock is a parameter `now` in nanoseconds. A file handle (`fi->fh`) is an `Option<Id>`, and a read returns the bytes copied rather than writing into a caller's buffer.

## Model

| member | source | states |
|---|---|---|
| Posix.Inc | src/dir.cc:67-74 | `++` on a size_t counter: one more, and the largest value wraps to 0 |
| Posix.Dec | src/dir.cc:112-122 | `--` on a size_t counter: one less, and 0 wraps to 2^64-1 |
| Posix.IncMod | src/dir.cc:124-131 | counting i items one `++n_files_` at a time from 0 gives i modulo 2^64 |
| Posix.CStr | src/fs/link.cc:41-46 | the C string a `c_str()` denotes: the longest NUL-free prefix, stopped by a NUL when shorter |
| Bpf.ProgTypeOf | src/fs/dir.cc:178-189 | exactly the four strings "filter", "kprobe", "sched_cls" and "sched_act" select a program type; anything else (a trailing newline included) is refused |
| Bpf.KeywordRoundTrip | src/fs/dir.cc:178-189 | each keyword selects its own type, and a string that selects a type is that type's keyword |
| Inodes.Inode.SetType | src/fs/mount.h:150-151 | `set_type` then `type()` reads back the type; parent, mode and subclass fields are unchanged |
| Inodes.Inode.SetParent | src/fs/mount.h:152-153 | `set_parent` then `parent()` reads back the parent; type, mode and subclass fields are unchanged |
| Inodes.NewInode | src/fs/inode.cc:24-27 | a new inode has no parent and the type and mode it was given |
| Inodes.NewDir | src/fs/dir.cc:35-37 | a new directory has no children and both counters at 0 |
| Inodes.NewFile | src/fs/mount.h:268 | every file is built as `file_e` with the default mode 0644 |
| Inodes.NewLink | src/fs/link.cc:30-32 | a link is a `link_e` keeping the mode and target it was given |
| Inodes.NewSocket | src/fs/socket.cc:32-34 | a socket is a `socket_e` with mode 0644, whatever mode it was given |
| Inodes.NewFdSocket | src/fs/socket.cc:51-52 | a FunctionSocket starts not ready, with mode 0644 |
| Inodes.SocketIgnoresMode | src/fs/socket.cc:32-34 | sockets built with different modes are the same node, and it is owner-writable (so `unlink` may remove it) |
| Tree.Detach | src/fs/dir.cc:95-105 | `remove_child`: an absent name changes nothing; a present one leaves the map, its counter (files for `file_e`, dirs otherwise) goes down by one, the child's parent is cleared, and every other node is unchanged |
| Tree.DetachKeepsWellFormed | src/fs/dir.cc:95-105 | `remove_child` keeps the counters equal to the children and every parent link exact |
| Tree.DetachIdempotent | src/fs/dir.cc:95-105 | a second `remove_child` of the same name changes nothing |
| Tree.Attach | src/fs/dir.cc:89-92 | once the name is free, the node enters the map, counts as a file for `file_e` and as a dir for every other type, and gets this directory as its parent |
| Tree.AttachKeepsWellFormed | src/fs/dir.cc:89-92 | taking in an unowned node under a free name keeps the tree well formed |
| Tree.AddChild | src/fs/dir.cc:85-93 | `add_child` replaces any child of that name; the directory then maps the name to the new node, whose parent is the directory, and the tree stays well formed |
| Tree.AddChildFrame | src/fs/dir.cc:85-93 | `add_child` changes the directory's map only; the new child gains its parent, a replaced child loses it, and no other node changes |
| Tree.CountersAgree | src/fs/dir.cc:85-105 | in any reachable state `n_files_` is the number of `file_e` children and `n_dirs_` the number of the others |
| Tree.Restrict | src/fs/dir.cc:238-242 | the directory keeps only the named children, with its counters recounted from them, and no other node changes |
| Tree.RestrictKeepsWellFormed | src/fs/dir.cc:238-242 | keeping some children with recounted counters leaves the tree well formed (the corrected reset of `MapDir::refresh`) |
| Tree.Walk | src/fs/dir.cc:39-46 | `leaf` consumes components while they name children of a directory; it stops at the first missing one or at a non-directory, which ends the walk |
| Tree.WalkPrefix | src/fs/dir.cc:39-46 | walking only the components `leaf` consumed reaches the same node and consumes them all |
| Tree.NameIn | src/fs/dir.cc:107-114 | the name a directory holds a node under, or none exactly when it does not hold it |
| Tree.PathOf | src/fs/inode.cc:29-33 | a node without a parent has the mount path as its path |
| Tree.ChildPath | src/fs/dir.cc:107-114 | a child's path is its directory's path, "/" and its name |
| Tree.DetachedPath | src/fs/dir.cc:95-105 | a node taken out with `remove_child` has no parent, so its path is the mount path again |
| Tree.StalePath | src/fs/dir.cc:107-114 | a node whose parent does not hold it has the path "?" |
| StringUtil.Lit | src/string_util.h:28-29 | `_s` keeps exactly n characters of the literal |
| StringUtil.LitKeepsNul | src/string_util.h:28-29 | a literal with an embedded NUL is longer than its C string |
| StringUtil.Split | src/string_util.h:31-40 | the `getline` loop returns exactly the non-empty pieces between delimiters, in order |
| StringUtil.JoinPieces | src/string_util.h:31-40 | the pieces, glued back with the delimiter, give the string |
| StringUtil.PiecesHaveNoDelim | src/string_util.h:31-40 | no piece contains the delimiter |
| StringUtil.TokensWellFormed | src/string_util.h:31-40 | every token of `split` is non-empty and holds no delimiter |
| StringUtil.StrtokTokens | src/string_util.h:54-58 | one `strtok_r` call yields the first token of `split` and leaves the rest, or yields null exactly when there is none |
| StringUtil.PathCursor.constructor | src/string_util.h:50-53 | a new `Path` has `cur()` "." and its components to come are `split(path, '/')` |
| StringUtil.PathCursor.Consume | src/string_util.h:54-58 | `consume` moves `next` into `cur` and drops one component; the full path never changes |
| StringUtil.FirstComponent | src/string_util.h:50-53 | a new cursor's `next` is the first component, or null when the path has none ("/", "") |
| StringUtil.SlashesProduceNothing | src/string_util.h:50-58 | doubled, leading and trailing slashes produce no components |
| KeyOrder.SortedKeys | src/fs/dir.cc:54-61 | a `std::map` walk lists every key exactly once, in strictly increasing string order |
| KeyOrder.SortedUnique | src/fs/dir.cc:54-61 | the listing is determined by the key set |
| FileOps.ReadHelper | src/fs/file.cc:50-60 | past the end nothing is copied; otherwise min(size, len - offset) bytes from the offset |
| FileOps.ReadSplit | src/fs/file.cc:50-60 | two adjacent reads return what one read of the combined size returns |
| FileOps.ReadWhole | src/fs/file.cc:62-71 | a read from 0 of at least the length returns the whole data |
| FileOps.StringWrite | src/fs/file.cc:73-78 | the offset is clamped to the length; the result is the data before it, the buffer, then what lies past the buffer |
| FileOps.WriteThenRead | src/fs/file.cc:73-78 | reading back the written range returns the buffer |
| FileOps.WriteAtEnd | src/fs/file.cc:73-78 | a write at or past the end appends |
| FileOps.Resize | src/fs/file.cc:85-91 | `resize` gives length n, keeps the common prefix and pads with NULs |
| FileOps.FileSize | src/fs/file.cc:136-145 | string-backed files report their length; MapDumpFile reports 4096 whatever the map holds |
| FileOps.FileStat | src/fs/file.cc:38-43 | every file reports S_IFREG\|0444, one link, and its size() |
| FileOps.SetData | src/fs/mount.h:310 | `set_data` replaces the data wholesale, and reading it back returns it |
| FileOps.FileWrite | src/fs/file.cc:73-83 | StatFile and MapDumpFile refuse with -EACCES; the string-backed files overwrite and return the length; SourceFile and MapEntry become dirty |
| FileOps.DumpLine | src/fs/file.cc:147-163 | a key whose lookup fails adds nothing; otherwise a newline-terminated line, or nothing at all when printing fails |
| FileOps.DumpTextAppend | src/fs/file.cc:147-163 | the dump of two key runs is the concatenation of their dumps |
| FileOps.DumpSkipsMissing | src/fs/file.cc:147-163 | a key whose lookup fails leaves the dump as it is |
| FileOps.DumpRead | src/fs/file.cc:147-163 | the key loop computes the dump of all the keys the table yields, or none once a print fails |
| FileOps.EntryRefresh | src/fs/file.cc:219-232 | -EBADF outside a MapDir; a failed lookup returns 0 and keeps the data; every failure keeps the data; new data is the printed leaf and a newline |
| FileOps.EntryTruncate | src/fs/file.cc:181-186 | truncate resizes and becomes dirty only when the length changes |
| FileOps.EntryFlush | src/fs/file.cc:188-203 | -EBADF outside a MapDir before anything else; 0 when clean or blank; success means the leaf parsed and the update was accepted; otherwise -EIO |
| FileOps.EntryUnlink | src/fs/file.cc:205-212 | 0 exactly when the entry is in a MapDir and the kernel delete succeeds; -EBADF or -ENOENT otherwise |
| LinkOps.LinkStat | src/fs/link.cc:34-39 | S_IFLNK\|0777, one link, the target's length |
| LinkOps.Readlink | src/fs/link.cc:41-46 | `strncpy` fills exactly `size` bytes: the target up to its first NUL, then NUL padding |
| LinkOps.ReadlinkTerminated | src/fs/link.cc:41-46 | with room to spare the buffer holds the target as a terminated C string |
| LinkOps.ReadlinkUnterminated | src/fs/link.cc:41-46 | without room the buffer is the first `size` bytes of the target with no terminator |
| SocketOps.FdSocketGetattr | src/fs/socket.cc:86-90 | -ENOENT with a zeroed stat until ready; then S_IFSOCK\|0777 and one link |
| SocketOps.FdSocketMknod | src/fs/socket.cc:92-97 | `mknod` leaves the socket ready; it succeeds exactly when it was not, else -EEXIST |
| SocketOps.OnlyFirstMknodSucceeds | src/fs/socket.cc:92-97 | of n mknods on a new socket only the first succeeds |
| SocketOps.AlreadyReady | src/fs/socket.cc:92-97 | on a ready socket every mknod is -EEXIST |
| SocketOps.MknodMakesVisible | src/fs/socket.cc:86-97 | getattr fails before the first mknod and succeeds after it |
| Fuser.Getattr | src/fuser.cc:40-55 | "/" is a 0755 directory with 2 links, "/hello" a 0444 file of 14 bytes, anything else -ENOENT with a zeroed stat |
| Fuser.Readdir | src/fuser.cc:56-64 | only "/" lists, giving ".", ".." and "hello" |
| Fuser.Open | src/fuser.cc:65-71 | only "/hello" opens, and only read-only; -ENOENT and -EACCES otherwise |
| Fuser.AsSize | src/fuser.cc:72-86 | `(size_t)offset` keeps a non-negative offset and makes a negative one huge |
| Fuser.Read | src/fuser.cc:72-86 | "/hello" serves at most `size` bytes of "Hello, World!\n" from the offset and returns their count; past the end or for a negative offset nothing |
| Fuser.ReadIsReadHelper | src/fuser.cc:72-86 | for offsets in range the read is the filesystem's `read_helper` on the same text |
| Fuser.GetattrSizeMatchesContent | src/fuser.cc:40-86 | a read from 0 of the size getattr reports returns the whole file, and readdir's entry is the file getattr knows |
| Refresh.ResetAsWritten | src/fs/dir.cc:238-242 | the reset as written: only "fd" and "dump" kept, counters set to 2 files and 0 dirs |
| Refresh.ResetMiscounts | src/fs/dir.cc:238-242 | on a MapDir as its constructor left it, the reset as written breaks the counter invariant, while a recount finds 1 file and 1 dir |
| Refresh.RemoveChildAsWritten | src/fs/dir.cc:95-105 | `remove_child` trusting the size_t counters: the name leaves the map, the counter of its kind goes down by one (wrapping at 0), the child's parent is cleared |
| Refresh.RemoveChildAgrees | src/fs/dir.cc:95-105 | on a well-formed tree that decrement never wraps, and `remove_child` as written is `Tree.Detach` |
| Refresh.ResetThenUnlinkFd | src/fs/dir.cc:238-242 | after that reset, `remove_child` of the socket "fd" (the path `Dir::unlink` takes for it) leaves only "dump", still counted as two files, wraps `n_dirs_` to 2^64-1 and getattr's 2 + n_dirs_ to 1 |
| Refresh.Reusable | src/fs/dir.cc:252-258 | the old children a key may take over are all but "fd" and "dump" |
| Refresh.RebuildStart | src/fs/dir.cc:238-240 | right after "fd" and "dump" are taken back the listing of no keys is complete |
| Refresh.RebuildReuse | src/fs/dir.cc:257-258 | a key printed as the name of an unclaimed old node takes that very node |
| Refresh.RebuildNew | src/fs/dir.cc:255-256 | any other key gets a new, empty, clean MapEntry under its name |
| Refresh.PrintedCount | src/fs/dir.cc:249-251 | the keys a refresh gets through: all print, and the next one, if any, does not |
| Refresh.KeyNames | src/fs/dir.cc:249-251 | the names of the keys in iteration order, present exactly when every key prints |
| Refresh.PrintedNames | src/fs/dir.cc:249-251 | the keys a refresh gets through print as the names it lists, and all get through exactly when none fails |
| Filesystem.DirStat | src/fs/dir.cc:48-52 | S_IFDIR with the directory's mode and 2 + n_dirs_ links |
| Filesystem.NodeStat | src/fs/mount.h:159 | the getattr of each node class: directories, files, links, sockets, and FunctionSockets by readiness |
| Filesystem.MapParent | src/fs/file.cc:219-223 | a MapEntry's table is known exactly when its parent is a MapDir |
| Filesystem.ValidFile | src/fs/dir.cc:134-136 | the "valid" child, present exactly when it is a StatFile |
| Filesystem.Unloaded | src/fs/dir.cc:163-171 | `unload`: "valid" reads "0\n" if it is a StatFile, "functions" and "maps" are removed, the module is null, and the tree stays well formed |
| Filesystem.UnloadedShape | src/fs/dir.cc:163-171 | after `unload` the directory holds its old children but "functions" and "maps", and no module |
| Filesystem.UnloadedValid | src/fs/dir.cc:163-171 | after `unload` the "valid" StatFile is still there and reads "0\n" |
| Filesystem.UnloadedBodies | src/fs/dir.cc:163-171 | `unload` changes no node's contents but the directory's and its "valid" file's |
| Filesystem.UnloadIdempotent | src/fs/dir.cc:130-131 | a second `unload` (the destructor runs one) changes nothing |
| Filesystem.LoadKeeps | src/fs/dir.cc:134-161 | `load` changes no old node's contents but the directory's and its "valid" file's |
| Filesystem.LoadedOf | src/fs/dir.cc:142-160 | the steps after a successful compile add up to the loaded state |
| Filesystem.UnloadAfterLoad | src/fs/dir.cc:134-171 | unloading after a successful load leaves the children unloading before it leaves, with "valid" at "0\n" again |
| Filesystem.FunctionUnloaded | src/fs/dir.cc:202-205 | `FunctionDir::unload` removes "fd" and "error" and keeps the tree well formed |
| Filesystem.FunctionReload | src/fs/dir.cc:178-205 | the child `FunctionDir::load` adds is removed by the next unload |
| Filesystem.ProgramParent | src/fs/file.cc:85-91 | the parent as a ProgramDir, if it is one |
| Filesystem.FunctionParent | src/fs/file.cc:111-116 | the parent as a FunctionDir, if it is one |
| Filesystem.UnloadProgramOf | src/fs/file.cc:85-91 | the unload a SourceFile triggers in its ProgramDir |
| Filesystem.UnloadFunctionOf | src/fs/file.cc:111-116 | the unload a FunctionTypeFile triggers in its FunctionDir |
| Filesystem.InodeTable.constructor | src/fs/mount.cc:32-37 | the mount starts with a RootDir of mode 0755 and nothing else |
| Filesystem.InodeTable.RemoveChild | src/fs/dir.cc:95-105 | the arena becomes `Detach` of the old one |
| Filesystem.InodeTable.AddChild | src/fs/dir.cc:85-93 | the arena becomes `AddChild` of the old one |
| Filesystem.InodeTable.NewProgramDir | src/fs/dir.cc:124-128 | a new unloaded ProgramDir holding an empty clean "source" and a "valid" at "0\n", out of new ids only |
| Filesystem.InodeTable.NewFunctionDir | src/fs/dir.cc:173-176 | a new FunctionDir for function j holding one empty "type" file |
| Filesystem.InodeTable.NewMapDir | src/fs/dir.cc:207-211 | a new MapDir for table j, never refreshed, holding the socket "fd" and the file "dump" on the table's fd |
| Filesystem.InodeTable.DirMknod | src/fs/dir.cc:63-69 | -EPERM for anything but a socket; otherwise a new socket replaces any child of that name |
| Filesystem.InodeTable.RootMkdir | src/fs/dir.cc:116-122 | -EEXIST with no change for a taken name; otherwise a new ProgramDir under it |
| Filesystem.InodeTable.DirMkdir | src/fs/mount.h:212 | only the RootDir makes directories; any other directory refuses with -EACCES |
| Filesystem.InodeTable.MapCreate | src/fs/dir.cc:269-280 | -EIO with no change when the name does not parse as a key; otherwise a new clean MapEntry for that key takes the name and is the handle |
| Filesystem.InodeTable.RefreshStart | src/fs/dir.cc:237-242 | the time is recorded and only "fd" and "dump" are kept, with recounted counters |
| Filesystem.InodeTable.RefreshAdd | src/fs/dir.cc:252-258 | one key goes into the listing, reusing its old node or a new MapEntry |
| Filesystem.InodeTable.RefreshKeys | src/fs/dir.cc:249-259 | the loop lists the keys that print, stops with -EIO at the first that does not |
| Filesystem.InodeTable.MapRefresh | src/fs/dir.cc:224-261 | within a second of the last refresh nothing changes; otherwise the listing is rebuilt from the table's keys |
| Filesystem.InodeTable.DirCreate | src/fs/mount.h:214 | only a MapDir creates files; any other directory refuses with -ENOTSUP |
| Filesystem.InodeTable.DirUnlink | src/fs/dir.cc:71-83 | -ENOENT for a missing name; -EPERM with no change without S_IWUSR; otherwise the child is removed whatever its own unlink returned, and that code is returned |
| Filesystem.InodeTable.ProgramUnload | src/fs/dir.cc:163-171 | the arena becomes `Unloaded` of the old one |
| Filesystem.InodeTable.FunctionLoad | src/fs/dir.cc:178-200 | -1 with no change for a non-keyword; -1 and an "error" file holding the log when the kernel refuses; 0 and a socket "fd" otherwise |
| Filesystem.InodeTable.FunctionUnload | src/fs/dir.cc:202-205 | the arena becomes `FunctionUnloaded` of the old one |
| Filesystem.InodeTable.FileRead | src/fs/file.cc:62-71 | each file class serves its data through `read_helper`; MapDumpFile serves its table's dump or -EIO; nothing changes |
| Filesystem.InodeTable.FileWriteAt | src/fs/file.cc:73-83 | the node's file part becomes what `FileWrite` gives |
| Filesystem.InodeTable.SourceTruncate | src/fs/file.cc:85-91 | dirty, the parent ProgramDir unloaded, then the text resized |
| Filesystem.InodeTable.TypeTruncate | src/fs/file.cc:111-116 | the parent FunctionDir unloaded, then the text resized |
| Filesystem.InodeTable.FileTruncate | src/fs/mount.h:273 | StatFile and MapDumpFile refuse with -EACCES; the others truncate in their own way and return 0 |
| Filesystem.InodeTable.SourceFlush | src/fs/file.cc:93-105 | nothing on a clean file; otherwise clean, and unless blank the parent is unloaded and loaded from the text, -EIO on failure |
| Filesystem.InodeTable.TypeFlush | src/fs/file.cc:118-127 | nothing for blank text; otherwise the parent FunctionDir is unloaded and loaded with the text, -EIO on failure |
| Filesystem.InodeTable.FileFlush | src/fs/mount.h:274 | StatFile and MapDumpFile flush to 0; the others flush in their own way |
| Filesystem.InodeTable.EntryRefreshAt | src/fs/file.cc:219-232 | a MapEntry's data becomes what `EntryRefresh` reads |
| Filesystem.InodeTable.FileOpen | src/fs/file.cc:45-48 | the node becomes the handle; a MapEntry refreshes first and fails with the refresh's code |
| Filesystem.InodeTable.BuildListing | src/fs/dir.cc:145-150 | a new Dir holding, under each name, the FunctionDir (or MapDir) of the last entry of that name |
| Filesystem.InodeTable.AttachListing | src/fs/dir.cc:145-151 | that Dir is added under its name and no old node changes its contents |
| Filesystem.InodeTable.ProgramLoad | src/fs/dir.cc:134-161 | 1 and no change without a StatFile "valid"; 1 and "valid" at "0\n" when the text does not compile; otherwise 0, the module kept, "valid" at "1\n", and the "functions" and "maps" listings added |
| Filesystem.InodeTable.LoadModule | src/fs/dir.cc:142-160 | the part of `load` after a successful compile produces the loaded state |
| Filesystem.InodeTable.Leaf | src/fs/dir.cc:39-46 | the node `Walk` reaches, with the cursor advanced by the components it consumed |
| Filesystem.InodeTable.ListDir | src/fs/dir.cc:54-61 | ".", "..", then every child name once in key order |
| Filesystem.InodeTable.NodeGetattr | src/fs/dir.cc:217-221 | MapDirs and MapEntries refresh first and report a zeroed stat when that fails; every class then reports its own stat |
| Filesystem.InodeTable.NodeReaddir | src/fs/dir.cc:263-267 | a MapDir refreshes first and fails with the refresh's code; then the listing |
| Filesystem.InodeTable.SocketMknod | src/fs/socket.cc:92-97 | the first mknod makes the FunctionSocket ready, later ones are -EEXIST with no change |
| Mounts.Mount.constructor | src/fs/mount.cc:32-37 | the root is a RootDir with mode 0755 |
| Mounts.Mount.Resolve | src/fs/mount.cc:64-65 | the node `leaf` reaches from the root, and the cursor left after it |
| Mounts.Mount.Getattr | src/fs/mount.cc:61-69 | -ENOENT with a zeroed stat when a component is left; otherwise the node's getattr |
| Mounts.Mount.Readdir | src/fs/mount.cc:71-81 | -ENOENT when a component is left, -EBADF for a non-directory, otherwise the directory's readdir |
| Mounts.Mount.Mkdir | src/fs/mount.cc:83-95 | -EEXIST when the path resolves, -ENOENT when two or more components are missing, -ENOTDIR for a non-directory, otherwise the directory's mkdir with the last component |
| Mounts.Mount.Mknod | src/fs/mount.cc:97-112 | a FunctionSocket reached by the walk takes the call before any other check; otherwise as mkdir, with the directory's mknod |
| Mounts.Mount.Create | src/fs/mount.cc:114-126 | as mkdir, with the directory's create; the handle is the created entry |
| Mounts.Mount.Unlink | src/fs/mount.cc:128-137 | -ENOENT when a component is left; -EPERM unless the node's parent is a MapDir; otherwise that MapDir's unlink of the name |
| Mounts.Mount.Open | src/fs/mount.cc:139-148 | -ENOENT when a component is left, -EISDIR for a non-file, otherwise the file's open |
| Mounts.Mount.Read | src/fs/mount.cc:150-159 | on the handle open recorded: -ENOENT for none, -EISDIR for a non-file, otherwise the file's read |
| Mounts.Mount.Write | src/fs/mount.cc:161-170 | on the handle: -ENOENT for none, -EISDIR for a non-file, otherwise the file's write |
| Mounts.Mount.Truncate | src/fs/mount.cc:172-181 | -ENOENT when a component is left, -EISDIR for a non-file, otherwise the file's truncate |
| Mounts.Mount.Flush | src/fs/mount.cc:183-191 | on the handle: -ENOENT for none, -EISDIR for a non-file, otherwise the file's flush |
| Mounts.Mount.Readlink | src/fs/mount.cc:193-202 | -ENOENT when a component is left, -EINVAL for a non-link, otherwise the link's readlink |
| Mounts.Mount.Ioctl | src/fs/mount.cc:205-209 | 0 and no change |
| Legacy.NatDecimal | src/dir.cc:133-139 | `to_string` of a non-negative value: digits only, at least one, no leading zero |
| Legacy.Decimal | src/dir.cc:133-139 | `to_string(int)`: a decimal string beginning with '-' exactly for a negative value |
| Legacy.NatDecimalRoundTrip | src/file.cc:91-93 | the digits parse back to the value |
| Legacy.DecimalRoundTrip | src/file.cc:91-93 | the text `to_string` produced parses back to the number, so distinct fds get distinct texts |
| Legacy.MinusOnes | src/dir.cc:95-99 | every function name of the module, each mapped to -1 |
| Legacy.FunctionFds | src/dir.cc:95-99 | the loop builds exactly that map |
| Legacy.Unload | src/dir.cc:112-122 | 1 and no change without a StatFile "valid"; otherwise 0, "valid" at "0\n", "functions" erased, module null, and `n_dirs_` one less (wrapping) whether or not "functions" was there |
| Legacy.UnloadTwiceWraps | src/dir.cc:112-122 | a program that never compiled, unloaded twice, has `n_dirs_` 2^64-1 and getattr reports one link |
| Legacy.UnloadTwice | src/dir.cc:112-122 | a second unload erases nothing more but decrements again |
| Legacy.DirGetattr | src/dir.cc:43-47 | S_IFDIR with the mode and 2 + n_dirs_ links, wrapping at 2^64 |
| Legacy.FileGetattr | src/file.cc:34-39 | a read-only regular file with one link and the class's size() |
| Legacy.ReadHelper | src/file.cc:46-54 | the bytes copied are those of the later `read_helper`; the count returned is theirs before the end and the requested size past it |
| Legacy.ReadPastEnd | src/file.cc:46-54 | past the end the count is the size asked for, not the bytes copied: "ab" at offset 2 for 4096 returns 4096 |
| Legacy.Served | src/file.cc:56-63 | what each class serves: a FunctionFile its fd in decimal and a newline, the others their text |
| Legacy.FunctionFileRoundTrip | src/file.cc:91-93 | the fd can be read back from what a FunctionFile serves |
| Legacy.Walk | src/dir.cc:34-41 | `leaf` follows components naming children and stops at the first missing one or at a file |
| Legacy.InodeTable.constructor | src/dir.cc:30-32 | the root directory starts with no children and both counters 0 |
| Legacy.InodeTable.AddChild | src/dir.cc:59-61 | the name now maps to the node, whatever it mapped to; counters and parents untouched |
| Legacy.InodeTable.RemoveChild | src/dir.cc:63-65 | the name is gone, an absent name changes nothing, the counters stay |
| Legacy.InodeTable.NewProgramDir | src/dir.cc:76-83 | "maps" (empty), "source" (empty) and "valid" ("0\n"), with `n_dirs_` 1 and `n_files_` 2 and no module |
| Legacy.InodeTable.RootMkdir | src/dir.cc:67-74 | -EEXIST with no change for a taken name; otherwise a new program under it and `n_dirs_` one more |
| Legacy.InodeTable.FunctionFiles | src/dir.cc:127-130 | one FunctionFile per entry of the map, each over its fd, and a count of the entries |
| Legacy.InodeTable.AddFunctionFile | src/dir.cc:128-129 | one more FunctionFile and one more count |
| Legacy.InodeTable.NewFunctionDir | src/dir.cc:124-131 | a FunctionDir with a FunctionFile per entry, `n_files_` their number, `n_dirs_` 0 |
| Legacy.InodeTable.NewMapDir | src/dir.cc:133-139 | "fd" reads the fd in decimal and a newline, "link" points to "/tmp/bcc-fd-" and the fd; one file and one dir counted |
| Legacy.InodeTable.LoadMaps | src/dir.cc:103-108 | every table name names a new MapDir over the fd of its last occurrence; other entries and the counters of "maps" stay |
| Legacy.InodeTable.AddFunctions | src/dir.cc:93-101 | module set, "valid" at "1\n", and a new "functions" with every function of the module at fd -1 under one more directory; nothing else changes |
| Legacy.InodeTable.LoadModule | src/dir.cc:93-109 | module kept, "valid" at "1\n", a new "functions" with every function at -1, `n_dirs_` one more, and the tables under "maps" |
| Legacy.InodeTable.LoadProgram | src/dir.cc:85-110 | 1 and no change without a StatFile "valid"; 1 and "valid" at "0\n" when the text does not compile; otherwise 0 and the loaded state |
| Legacy.InodeTable.UnloadProgram | src/dir.cc:112-122 | the arena and return code become `Unload` of the old arena |
| Legacy.InodeTable.Leaf | src/dir.cc:34-41 | the node `Walk` reaches, with the cursor advanced by the components consumed |
| Legacy.InodeTable.ListDir | src/dir.cc:49-57 | ".", "..", then every child name once in key order |
| Legacy.InodeTable.SourceWrite | src/file.cc:65-70 | the offset clamped, the buffer written there, the length returned |
| Legacy.InodeTable.SourceTruncate | src/file.cc:81-85 | the program is unloaded, then the text resized, and 0 returned |
| Legacy.InodeTable.SourceFlush | src/file.cc:72-79 | blank text changes nothing; otherwise unload, then load of the text up to its first NUL, 0 or -EIO |

## Left out

- The FUSE registration (the static trampolines, the operation tables, `fuse_get_context`), `run`/`fuse_main` and the logging to /tmp/bcc-fuse.log are process plumbing with no effect on the tree.
- The BPF library and the kernel are oracles (`Bpf.Kernel`). The model states what the filesystem does with each answer, not what the compiler or the kernel decide. `bpf_module_destroy` is left to the library.
- The FunctionSocket's descriptor-passing thread, its destructor, `bcc_send_fd` and src/client.c are socket I/O and concurrency. The model keeps only the readiness flag that getattr and mknod use.
- `clock_gettime` becomes the parameter `now`. `REFRESH_TIME_NSEC` is the whole number 1,000,000,000; rounding through the double is not modelled.
- `fi->fh` is an `Option<Id>`, and reads return the bytes copied instead of a `memcpy` into the caller's buffer. Destroyed nodes stay in the arena, so a stale handle still names its node; use after free is not modelled. A node `remove_child` drops has no parent. The children a due `MapDir::refresh` drops (`Tree.Restrict`, and keys no longer in the table) are destroyed with `old_children` in the source; in the model they stay in the arena with their parent still set to the MapDir, which no longer holds them.
- Offsets and sizes are whole numbers. Negative `off_t` offsets and truncate sizes are not modelled in the filesystems, except for `Fuser.AsSize`. A read count that does not fit the `int` return value is not modelled either.
- Filesystem.DirStat: nlink is 2 + n_dirs_ without the 2^64 wrap-around. The counters of `src/fs` are exact by the tree invariant and never wrap.
- Filesystem.InodeTable.RefreshStart: the counters are recounted from "fd" and "dump" instead of being set to 2 and 0 as written. That reset is Finding 1, modelled in `Refresh.ResetAsWritten`.
- Filesystem.InodeTable.MapRefresh: a missing "fd" or "dump" is absent after the refresh, where `children_["fd"] = move(old_children["fd"])` would insert a null child. The partial listing an -EIO leaves behind is modelled.
- Filesystem.InodeTable.RefreshAdd: `old_children` keeps the entries that were moved out of it, now null. A key that prints as "fd" or "dump", or as a name whose old node an earlier key already took, finds that null entry, and `add_child` dereferences it (src/fs/dir.cc:85-93, 238-240, 252-258). The model instead gives such a key a new, empty MapEntry, which for "fd" replaces the table's socket. It does not capture the crash.
- Filesystem.InodeTable.RefreshKeys: inherits that divergence from `RefreshAdd` for keys that print as "fd", "dump" or an already reused name, where the source dereferences null.
- Filesystem.InodeTable.MapRefresh: the same divergence, through `RefreshKeys`. When the table yields each printed name at most once, and never "fd" or "dump", the model is exact.
- Refresh.RebuildNew: "any other key" includes "fd", "dump" and a name already reused, where the source dereferences null rather than making a MapEntry.
- `children_["valid"]` inserts a null child when "valid" is missing (src/fs/dir.cc:135 and 164, src/dir.cc:86 and 113). The model looks the name up without inserting.
- Legacy.InodeTable.LoadModule: when the program has no "maps" Dir, `src/dir.cc:103-106` dereferences a null `Dir` as soon as the module has a table. The model (`Legacy.LoadedModule`) skips the table loop in that case and returns 0, so it does not capture that crash.
- Legacy.InodeTable.FunctionFiles builds the FunctionFiles in set order instead of key order. Only the ids of the new nodes differ.
- Legacy: the header of the older tree is not part of this model. The counters are taken to be size_t, `File::size()` is a parameter of `Legacy.FileGetattr`, and `Link::leaf` is taken to return the link itself. The older tree's `Link` and `Mount` classes are not modelled beyond the MapDir's "link" child.
- MapEntry's constructor refreshing through a null parent, and `MapEntry::read`'s duplicate of `read_helper`, are not separate operations here. `FileOps.EntryRefresh` covers the no-MapDir case.
- A `flush` or `write` that fails leaves `fi->fh` as open set it. The model does not track handles beyond the `Option<Id>` that open returns.

## Findings

| source | as written | input that shows it | evidently intended | confidence | as-written member | corrected member |
|---|---|---|---|---|---|---|
| src/fs/dir.cc:241-242 | a due refresh sets `n_dirs_ = 0` and `n_files_ = 2`, but "fd" is a socket that `add_child` counted in `n_dirs_` | a MapDir after any refresh (a readdir), then `unlink` of its "fd" and a getattr within a second: `n_dirs_` wraps to 2^64-1 and nlink comes out as 1 | recount the two kept children: one file, one dir | high; not executed | Refresh.ResetMiscounts | Tree.RestrictKeepsWellFormed |
| src/file.cc:46-54 | `read_helper` (and `SourceFile::read`) returns `size` when the offset is at or past the end | "ab" read at offset 2 with size 4096 returns 4096 with nothing copied, so a reader never sees end of file | return 0 past the end, as the later `src/fs/file.cc:50-60` does | high; not executed | Legacy.ReadPastEnd | FileOps.ReadHelper |
| src/dir.cc:112-122 | `unload_program` runs `--n_dirs_` even when there is no "functions" child | `mkdir /p`, then two truncates of /p/source (each unloads): `n_dirs_` goes 1, 0, 2^64-1, and getattr of /p reports one link | decrement only when "functions" was removed, as `remove_child` does in `src/fs` | high; not executed | Legacy.UnloadTwiceWraps | Filesystem.UnloadIdempotent |
