/**
 * The Mount: the FUSE callbacks of the filesystem.  Each one resolves its
 * path from the root (or takes the handle open recorded), maps a failed
 * resolution or a node of the wrong class to an errno, and otherwise hands
 * the call to the node, as the `InodeTable` methods model them.
 */
module Mounts {
  import opened Wrappers
  import opened Posix
  import opened Bpf
  import opened Inodes
  import opened Tree
  import opened FileOps
  import opened StringUtil
  import opened Filesystem
  import LinkOps

  /** A cursor's `next` is the first of the components it has left. */
  lemma CursorNext(p: PathCursor)
    requires p.Valid()
    ensures p.next.None? <==> p.Remaining() == []
    ensures p.next.Some? ==> p.Remaining()[0] == p.next.value
  {
    if p.next.None? {
      StrtokTokens(p.save, '/');
    }
  }

  /** The name `cur()` holds once the walk has consumed `n` of the components. */
  function CurName(toks: seq<string>, n: nat): (r: string)
    requires n <= |toks|
    ensures n > 0 ==> r == toks[n - 1]
  {
    if n == 0 then "." else toks[n - 1]
  }

  class Mount {
    /** root_: the RootDir and everything it owns. */
    const fs: InodeTable

    ghost predicate Valid()
      reads this, fs
    {
      fs.Valid()
    }

    /** Mount::Mount: the root is a RootDir with mode 0755. */
    constructor ()
      ensures Valid() && fresh(fs) && fs.nodes == map[Root := NewDir(RootDir, Mode0755)]
    {
      fs := new InodeTable();
    }

    /** `Path p(path); root_->leaf(&p)`. */
    method Resolve(path: CString) returns (leaf: Id, p: PathCursor)
      requires Valid()
      ensures fresh(p) && p.Valid() && p.full == path
      ensures var toks := Tokens(path, '/');
        var w := Walk(fs.nodes, Root, toks);
        && leaf == w.0 && p.consumed == w.1 && p.Remaining() == toks[w.1..]
        && (p.next.None? <==> w.1 == |toks|)
        && (p.next.Some? ==> p.next.value == toks[w.1])
    {
      p := new PathCursor(path);
      assert Root in fs.nodes;
      leaf := fs.Leaf(Root, p);
      CursorNext(p);
    }

    /** Mount::getattr: the stat starts zeroed; an unresolved path is -ENOENT. */
    method Getattr(path: CString, k: Kernel, now: nat) returns (rc: int, st: Stat)
      requires Valid()
      modifies fs
      ensures Valid()
      ensures var toks := Tokens(path, '/');
        var w := Walk(old(fs.nodes), Root, toks);
        && (w.1 < |toks| ==> rc == -ENOENT && st == ZeroStat && fs.nodes == old(fs.nodes) && fs.next == old(fs.next))
        && (w.1 == |toks| ==> Stated(old(fs.nodes), fs.nodes, old(fs.next), fs.next, w.0, k, now, rc, st))
    {
      var leaf, p := Resolve(path);
      if p.next.Some? {
        return -ENOENT, ZeroStat;
      }
      rc, st := fs.NodeGetattr(leaf, k, now);
    }

    /** Mount::readdir: -ENOENT for an unresolved path, -EBADF for a node that is not a Dir. */
    method Readdir(path: CString, k: Kernel, now: nat) returns (rc: int, names: seq<string>)
      requires Valid()
      modifies fs
      ensures Valid()
      ensures var toks := Tokens(path, '/');
        var w := Walk(old(fs.nodes), Root, toks);
        && (w.1 < |toks| ==> rc == -ENOENT && names == [] && fs.nodes == old(fs.nodes) && fs.next == old(fs.next))
        && (w.1 == |toks| && !IsDir(old(fs.nodes), w.0) ==>
             rc == -EBADF && names == [] && fs.nodes == old(fs.nodes) && fs.next == old(fs.next))
        && (w.1 == |toks| && IsDir(old(fs.nodes), w.0) ==>
             Listed(old(fs.nodes), fs.nodes, old(fs.next), fs.next, w.0, k, now, rc, names))
    {
      var leaf, p := Resolve(path);
      if p.next.Some? {
        return -ENOENT, [];
      }
      if !IsDir(fs.nodes, leaf) {
        return -EBADF, [];
      }
      rc, names := fs.NodeReaddir(leaf, k, now);
    }

    /**
     * Mount::mkdir: the path must stop exactly one component short; that
     * component names the new directory in the node reached.
     */
    method Mkdir(path: CString, mode: Mode) returns (rc: int)
      requires Valid()
      modifies fs
      ensures Valid()
      ensures var toks := Tokens(path, '/');
        var w := Walk(old(fs.nodes), Root, toks);
        && (w.1 == |toks| ==> rc == -EEXIST && fs.nodes == old(fs.nodes) && fs.next == old(fs.next))
        && (w.1 + 1 < |toks| ==> rc == -ENOENT && fs.nodes == old(fs.nodes) && fs.next == old(fs.next))
        && (w.1 + 1 == |toks| && !IsDir(old(fs.nodes), w.0) ==>
             rc == -ENOTDIR && fs.nodes == old(fs.nodes) && fs.next == old(fs.next))
        && (w.1 + 1 == |toks| && IsDir(old(fs.nodes), w.0) ==>
             MadeDir(old(fs.nodes), fs.nodes, old(fs.next), fs.next, w.0, toks[w.1], mode, rc))
    {
      var leaf, p := Resolve(path);
      p.Consume();
      CursorNext(p);
      if p.cur.None? {
        return -EEXIST;
      }
      if p.next.Some? {
        return -ENOENT;
      }
      if IsDir(fs.nodes, leaf) {
        rc := fs.DirMkdir(leaf, p.cur.value, mode);
      } else {
        rc := -ENOTDIR;
      }
    }

    /**
     * Mount::mknod: a FunctionSocket reached by the walk takes the call
     * itself, whatever is left of the path; otherwise as Mkdir, with a socket.
     */
    method Mknod(path: CString, mode: Mode, rdev: int) returns (rc: int)
      requires Valid()
      modifies fs
      ensures Valid()
      ensures var toks := Tokens(path, '/');
        var a := old(fs.nodes);
        var w := Walk(a, Root, toks);
        var same := fs.nodes == a && fs.next == old(fs.next);
        && (a[w.0].body.FdSocketBody? ==>
             var r := SocketOps.FdSocketMknod(a[w.0].body.ready);
             && rc == r.0 && fs.next == old(fs.next)
             && fs.nodes == a[w.0 := a[w.0].(body := FdSocketBody(a[w.0].body.fdRdev, a[w.0].body.fd, r.1))])
        && (!a[w.0].body.FdSocketBody? ==>
             && (w.1 == |toks| ==> rc == -EEXIST && same)
             && (w.1 + 1 < |toks| ==> rc == -ENOENT && same)
             && (w.1 + 1 == |toks| && !IsDir(a, w.0) ==> rc == -ENOTDIR && same)
             && (w.1 + 1 == |toks| && IsDir(a, w.0) ==>
                  MadeNode(a, fs.nodes, old(fs.next), fs.next, w.0, toks[w.1], mode, rdev, rc)))
    {
      var leaf, p := Resolve(path);
      if fs.nodes[leaf].body.FdSocketBody? {
        rc := fs.SocketMknod(leaf);
        return;
      }
      p.Consume();
      CursorNext(p);
      if p.cur.None? {
        return -EEXIST;
      }
      if p.next.Some? {
        return -ENOENT;
      }
      if IsDir(fs.nodes, leaf) {
        rc := fs.DirMknod(leaf, p.cur.value, mode, rdev);
      } else {
        rc := -ENOTDIR;
      }
    }

    /** Mount::create: as Mkdir, with the directory's create; `fh` is the handle it records. */
    method Create(path: CString, k: Kernel) returns (rc: int, fh: Option<Id>)
      requires Valid()
      modifies fs
      ensures Valid()
      ensures var toks := Tokens(path, '/');
        var a := old(fs.nodes);
        var w := Walk(a, Root, toks);
        var same := fs.nodes == a && fs.next == old(fs.next) && fh == None;
        && (w.1 == |toks| ==> rc == -EEXIST && same)
        && (w.1 + 1 < |toks| ==> rc == -ENOENT && same)
        && (w.1 + 1 == |toks| && !IsDir(a, w.0) ==> rc == -ENOTDIR && same)
        && (w.1 + 1 == |toks| && IsDir(a, w.0) ==>
             Created(a, fs.nodes, old(fs.next), fs.next, w.0, CStr(toks[w.1]), k, rc, fh))
    {
      var leaf, p := Resolve(path);
      p.Consume();
      CursorNext(p);
      if p.cur.None? {
        return -EEXIST, None;
      }
      if p.next.Some? {
        return -ENOENT, None;
      }
      if IsDir(fs.nodes, leaf) {
        rc, fh := fs.DirCreate(leaf, CStr(p.cur.value), k);
      } else {
        rc, fh := -ENOTDIR, None;
      }
    }

    /**
     * Mount::unlink: only a node whose parent is a MapDir can be unlinked,
     * through that MapDir's unlink of the last component's name.
     */
    method Unlink(path: CString, k: Kernel) returns (rc: int)
      requires Valid()
      modifies fs
      ensures Valid() && fs.next == old(fs.next)
      ensures var toks := Tokens(path, '/');
        var a := old(fs.nodes);
        var w := Walk(a, Root, toks);
        var par := a[w.0].parent;
        var mapParent := par.Some? && IsDir(a, par.value) && a[par.value].body.role.MapDir?;
        && (w.1 < |toks| ==> rc == -ENOENT && fs.nodes == a)
        && (w.1 == |toks| && !mapParent ==> rc == -EPERM && fs.nodes == a)
        && (w.1 == |toks| && mapParent ==> Unlinked(a, fs.nodes, par.value, CurName(toks, w.1), k, rc))
    {
      var leaf, p := Resolve(path);
      if p.next.Some? {
        return -ENOENT;
      }
      var par := fs.nodes[leaf].parent;
      if par.Some? && IsDir(fs.nodes, par.value) && fs.nodes[par.value].body.role.MapDir? {
        rc := fs.DirUnlink(par.value, p.cur.value, k);
      } else {
        rc := -EPERM;
      }
    }

    /** Mount::open: -ENOENT for an unresolved path, -EISDIR for a node that is not a File. */
    method Open(path: CString, k: Kernel) returns (rc: int, fh: Option<Id>)
      requires Valid()
      modifies fs
      ensures Valid() && fs.next == old(fs.next)
      ensures var toks := Tokens(path, '/');
        var a := old(fs.nodes);
        var w := Walk(a, Root, toks);
        && (w.1 < |toks| ==> rc == -ENOENT && fh == None && fs.nodes == a)
        && (w.1 == |toks| && !a[w.0].body.FileBody? ==> rc == -EISDIR && fh == None && fs.nodes == a)
        && (w.1 == |toks| && a[w.0].body.FileBody? ==> Opened(a, fs.nodes, w.0, k, rc, fh))
    {
      var leaf, p := Resolve(path);
      if p.next.Some? {
        return -ENOENT, None;
      }
      if !fs.nodes[leaf].body.FileBody? {
        return -EISDIR, None;
      }
      rc, fh := fs.FileOpen(leaf, k);
    }

    /** Mount::read on the handle open recorded: -ENOENT for none, -EISDIR for a node that is not a File. */
    method Read(fh: Option<Id>, size: nat, offset: nat, k: Kernel) returns (rc: int, bytes: string)
      requires Valid() && (fh.Some? ==> fh.value in fs.nodes)
      ensures fh.None? ==> rc == -ENOENT && bytes == []
      ensures fh.Some? && !fs.nodes[fh.value].body.FileBody? ==> rc == -EISDIR && bytes == []
      ensures fh.Some? && fs.nodes[fh.value].body.FileBody? ==>
        ReadOf(fs.nodes[fh.value].body.file, k, size, offset, rc, bytes)
    {
      if fh.None? {
        return -ENOENT, [];
      }
      if !fs.nodes[fh.value].body.FileBody? {
        return -EISDIR, [];
      }
      rc, bytes := fs.FileRead(fh.value, size, offset, k);
    }

    /** Mount::write on the handle open recorded. */
    method Write(fh: Option<Id>, buf: string, offset: nat) returns (rc: int)
      requires Valid() && (fh.Some? ==> fh.value in fs.nodes)
      modifies fs
      ensures Valid() && fs.next == old(fs.next)
      ensures fh.None? ==> rc == -ENOENT && fs.nodes == old(fs.nodes)
      ensures fh.Some? && !old(fs.nodes[fh.value]).body.FileBody? ==> rc == -EISDIR && fs.nodes == old(fs.nodes)
      ensures fh.Some? && old(fs.nodes[fh.value]).body.FileBody? ==>
        var r := FileWrite(old(fs.nodes[fh.value]).body.file, buf, offset);
        rc == r.0 && fs.nodes == SetFile(old(fs.nodes), fh.value, r.1)
    {
      if fh.None? {
        return -ENOENT;
      }
      if !fs.nodes[fh.value].body.FileBody? {
        return -EISDIR;
      }
      rc := fs.FileWriteAt(fh.value, buf, offset);
    }

    /** Mount::truncate: -ENOENT for an unresolved path, -EISDIR for a node that is not a File. */
    method Truncate(path: CString, n: nat) returns (rc: int)
      requires Valid()
      modifies fs
      ensures Valid() && fs.next == old(fs.next)
      ensures var toks := Tokens(path, '/');
        var a := old(fs.nodes);
        var w := Walk(a, Root, toks);
        && (w.1 < |toks| ==> rc == -ENOENT && fs.nodes == a)
        && (w.1 == |toks| && !a[w.0].body.FileBody? ==> rc == -EISDIR && fs.nodes == a)
        && (w.1 == |toks| && a[w.0].body.FileBody? ==> Truncated(a, fs.nodes, w.0, n, rc))
    {
      var leaf, p := Resolve(path);
      if p.next.Some? {
        return -ENOENT;
      }
      if !fs.nodes[leaf].body.FileBody? {
        return -EISDIR;
      }
      rc := fs.FileTruncate(leaf, n);
    }

    /** Mount::flush on the handle open recorded. */
    method Flush(fh: Option<Id>, k: Kernel) returns (rc: int)
      requires Valid() && (fh.Some? ==> fh.value in fs.nodes)
      modifies fs
      ensures Valid()
      ensures fh.None? ==> rc == -ENOENT && fs.nodes == old(fs.nodes) && fs.next == old(fs.next)
      ensures fh.Some? && !old(fs.nodes[fh.value]).body.FileBody? ==>
        rc == -EISDIR && fs.nodes == old(fs.nodes) && fs.next == old(fs.next)
      ensures fh.Some? && old(fs.nodes[fh.value]).body.FileBody? ==>
        Flushed(old(fs.nodes), fs.nodes, old(fs.next), fs.next, fh.value, k, rc)
    {
      if fh.None? {
        return -ENOENT;
      }
      if !fs.nodes[fh.value].body.FileBody? {
        return -EISDIR;
      }
      rc := fs.FileFlush(fh.value, k);
    }

    /** Mount::readlink: -ENOENT for an unresolved path, -EINVAL for a node that is not a Link. */
    method Readlink(path: CString, size: nat) returns (rc: int, buf: string)
      requires Valid()
      ensures var toks := Tokens(path, '/');
        var w := Walk(fs.nodes, Root, toks);
        && (w.1 < |toks| ==> rc == -ENOENT && buf == [])
        && (w.1 == |toks| && !fs.nodes[w.0].body.LinkBody? ==> rc == -EINVAL && buf == [])
        && (w.1 == |toks| && fs.nodes[w.0].body.LinkBody? ==>
             rc == 0 && buf == LinkOps.Readlink(fs.nodes[w.0].body.dst, size))
    {
      var leaf, p := Resolve(path);
      if p.next.Some? {
        return -ENOENT, [];
      }
      if !fs.nodes[leaf].body.LinkBody? {
        return -EINVAL, [];
      }
      rc, buf := 0, LinkOps.Readlink(fs.nodes[leaf].body.dst, size);
    }

    /** Mount::ioctl: accepted and ignored. */
    method Ioctl(path: CString, cmd: int) returns (rc: int)
      requires Valid()
      ensures rc == 0
    {
      rc := 0;
    }
  }
}
