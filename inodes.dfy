/**
 * The inode class hierarchy of the filesystem as values.  A C++ object of
 * class Dir, File, Link, Socket or FDSocket is an `Inode`; which subclass it
 * is, and the subclass' own fields, live in its `Body`.  Objects refer to
 * each other through `Id`s into the arena of the `Tree` module.
 */
module Inodes {
  import opened Wrappers
  import opened Posix
  import Bpf

  type Id = nat

  /** Inode::InodeType. */
  datatype InodeType = DirType | FileType | LinkType | SocketType

  /** The Dir subclasses and their own fields. */
  datatype DirRole =
    | PlainDir
    | RootDir
    | ProgramDir(program: Option<Bpf.Module>)
    | FunctionDir(fnModule: Bpf.Module, fnId: nat)
    | MapDir(mapModule: Bpf.Module, mapId: nat, lastTs: nat)

  /** The File subclasses and their own fields. */
  datatype FileRole =
    | SourceFile(data: string, dirty: bool)
    | StatFile(data: string)
    | FunctionTypeFile(data: string)
    | MapDumpFile(dumpModule: Bpf.Module, dumpId: nat, dumpFd: int)
    | MapEntry(key: Bpf.Bytes, data: string, dirty: bool)

  datatype Body =
    | DirBody(role: DirRole, children: map<string, Id>, nFiles: nat, nDirs: nat)
    | FileBody(file: FileRole)
    | LinkBody(dst: string)
    | SocketBody(rdev: int)
    | FdSocketBody(fdRdev: int, fd: int, ready: bool)

  /** The fields of the Inode base class, plus the subclass part. */
  datatype Inode = Inode(parent: Option<Id>, itype: InodeType, mode: Mode, body: Body)
  {
    /** Inode::set_type. */
    function SetType(t: InodeType): (r: Inode)
      ensures r.itype == t
      ensures r.parent == parent && r.mode == mode && r.body == body
    {
      this.(itype := t)
    }

    /** Inode::set_parent. */
    function SetParent(p: Option<Id>): (r: Inode)
      ensures r.parent == p
      ensures r.itype == itype && r.mode == mode && r.body == body
    {
      this.(parent := p)
    }
  }

  /** Strings kept by StringFile and its subclasses, and by StatFile. */
  predicate HasData(f: FileRole) {
    f.SourceFile? || f.StatFile? || f.FunctionTypeFile? || f.MapEntry?
  }

  /** The Inode constructor: no parent, the given type and mode. */
  function NewInode(t: InodeType, mode: Mode, body: Body): (r: Inode)
    ensures r.parent == None && r.itype == t && r.mode == mode && r.body == body
  {
    Inode(None, t, mode, body)
  }

  /** Dir(mode): an empty directory with both counters at zero. */
  function NewDir(role: DirRole, mode: Mode): (r: Inode)
    ensures r.parent == None && r.itype == DirType && r.mode == mode
    ensures r.body.DirBody? && r.body.role == role
    ensures r.body.children == map[] && r.body.nFiles == 0 && r.body.nDirs == 0
  {
    NewInode(DirType, mode, DirBody(role, map[], 0, 0))
  }

  /** File(): every file is constructed as file_e with the default mode 0644. */
  function NewFile(role: FileRole): (r: Inode)
    ensures r.parent == None && r.itype == FileType && r.mode == Mode0644
    ensures r.body == FileBody(role)
  {
    NewInode(FileType, Mode0644, FileBody(role))
  }

  /** SourceFile(): empty and clean. */
  const NewSourceFile: FileRole := SourceFile("", false)

  /** Link(mode, dst): keeps the mode it is given. */
  function NewLink(mode: Mode, dst: string): (r: Inode)
    ensures r.parent == None && r.itype == LinkType && r.mode == mode
    ensures r.body == LinkBody(dst)
  {
    NewInode(LinkType, mode, LinkBody(dst))
  }

  /**
   * Socket(mode, rdev): the mode argument is not passed on to Inode, so
   * every socket has the default mode 0644.
   */
  function NewSocket(mode: Mode, rdev: int): (r: Inode)
    ensures r.parent == None && r.itype == SocketType && r.mode == Mode0644
    ensures r.body == SocketBody(rdev)
  {
    NewInode(SocketType, Mode0644, SocketBody(rdev))
  }

  /** FunctionSocket(mode, rdev, fd): a socket that is not ready yet. */
  function NewFdSocket(mode: Mode, rdev: int, fd: int): (r: Inode)
    ensures r.parent == None && r.itype == SocketType && r.mode == Mode0644
    ensures r.body == FdSocketBody(rdev, fd, false)
  {
    NewInode(SocketType, Mode0644, FdSocketBody(rdev, fd, false))
  }

  /** Whatever mode a socket is created with, the node carries 0644. */
  lemma SocketIgnoresMode(m1: Mode, m2: Mode, rdev: int, fd: int)
    ensures NewSocket(m1, rdev) == NewSocket(m2, rdev)
    ensures NewFdSocket(m1, rdev, fd) == NewFdSocket(m2, rdev, fd)
    ensures NewSocket(m1, rdev).mode & S_IWUSR != 0
  {
  }
}
