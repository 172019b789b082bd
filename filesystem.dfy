/**
 * The objects of the bcc filesystem (src/fs) and their methods, over one
 * arena of inodes.  Each method is the C++ member function of the object
 * whose id it takes; its contract states the new arena in terms of the old
 * one, using the specification functions of the `Tree` module.
 */
module Filesystem {
  import opened Wrappers
  import opened Posix
  import opened Bpf
  import opened Inodes
  import opened Tree
  import opened FileOps
  import opened StringUtil
  import opened KeyOrder
  import opened Subtrees
  import opened Refresh
  import LinkOps
  import SocketOps

  /** REFRESH_TIME_NSEC, taken as a whole number of nanoseconds. */
  const RefreshNs: nat := 1_000_000_000

  /** The stat of a directory: S_IFDIR with its own mode, and 2 + n_dirs_ links. */
  function DirStat(n: Inode): (r: Stat)
    requires n.body.DirBody?
    ensures r.mode == S_IFDIR | n.mode && r.nlink == 2 + n.body.nDirs && r.size == 0
  {
    Stat(S_IFDIR | n.mode, 2 + n.body.nDirs, 0)
  }

  /**
   * The getattr of each node class once any refresh is done: Dir, File,
   * Link, Socket and FunctionSocket.
   */
  function NodeStat(n: Inode): (r: (int, Stat))
    ensures n.body.DirBody? ==> r == (0, DirStat(n))
    ensures n.body.FileBody? ==> r == (0, FileStat(n.body.file))
    ensures n.body.LinkBody? ==> r == (0, LinkOps.LinkStat(n.body.dst))
    ensures n.body.SocketBody? ==> r == (0, SocketOps.SocketStat)
    ensures n.body.FdSocketBody? ==> r == SocketOps.FdSocketGetattr(n.body.ready)
    ensures r.0 == 0 || r.0 == -ENOENT
  {
    match n.body
    case DirBody(_, _, _, _) => (0, DirStat(n))
    case FileBody(f) => (0, FileStat(f))
    case LinkBody(dst) => (0, LinkOps.LinkStat(dst))
    case SocketBody(_) => (0, SocketOps.SocketStat)
    case FdSocketBody(_, _, ready) => SocketOps.FdSocketGetattr(ready)
  }

  /** The MapDir a MapEntry's parent pointer leads to, if it leads to one. */
  function MapParent(nodes: Nodes, i: Id): (r: Option<MapRef>)
    requires i in nodes
    ensures r.Some? ==> var p := nodes[i].parent;
      p.Some? && IsDir(nodes, p.value) && nodes[p.value].body.role.MapDir?
  {
    var p := nodes[i].parent;
    if p.Some? && IsDir(nodes, p.value) && nodes[p.value].body.role.MapDir? then
      var role := nodes[p.value].body.role;
      Some(MapRef(role.mapModule, role.mapId))
    else None
  }

  /** A MapEntry as MapDir::refresh and MapDir::create make it: empty and clean. */
  predicate IsNewEntry(n: Inode) {
    n.body.FileBody? && n.body.file.MapEntry? && n.body.file.data == "" && !n.body.file.dirty
  }

  /** `dynamic_cast<StatFile *>(&*children_["valid"])`: the "valid" child when it is a StatFile. */
  function ValidFile(nodes: Nodes, d: Id): (r: Option<Id>)
    requires IsDir(nodes, d)
    ensures r.Some? ==> r.value in nodes && nodes[r.value].body.FileBody? && nodes[r.value].body.file.StatFile?
    ensures r.Some? ==> "valid" in Children(nodes, d) && Children(nodes, d)["valid"] == r.value
  {
    var ch := Children(nodes, d);
    if "valid" in ch && ch["valid"] in nodes && nodes[ch["valid"]].body.FileBody? && nodes[ch["valid"]].body.file.StatFile?
    then Some(ch["valid"]) else None
  }

  /** StatFile::set_data on node `v`. */
  function SetStat(nodes: Nodes, v: Id, text: string): (r: Nodes)
    requires v in nodes && nodes[v].body.FileBody? && nodes[v].body.file.StatFile?
    ensures r.Keys == nodes.Keys && SameShape(nodes[v], r[v]) && r[v].body == FileBody(StatFile(text))
    ensures forall i :: i in nodes && i != v ==> r[i] == nodes[i]
  {
    nodes[v := nodes[v].(body := FileBody(SetData(nodes[v].body.file, text)))]
  }

  /** The bpf_module_ field of a ProgramDir. */
  function SetProgram(nodes: Nodes, d: Id, m: Option<Module>): (r: Nodes)
    requires IsDir(nodes, d)
    ensures r.Keys == nodes.Keys && SameShape(nodes[d], r[d]) && IsDir(r, d) && r[d].body.role == ProgramDir(m)
    ensures r[d].mode == nodes[d].mode && Children(r, d) == Children(nodes, d)
    ensures forall i :: i in nodes && i != d ==> r[i] == nodes[i]
  {
    nodes[d := nodes[d].(body := nodes[d].body.(role := ProgramDir(m)))]
  }

  /**
   * ProgramDir::unload: "valid" reads "0\n" again, "functions" and "maps"
   * are removed and the module is dropped.
   */
  ghost function Unloaded(nodes: Nodes, d: Id): (r: Nodes)
    requires WellFormed(nodes) && IsDir(nodes, d)
    ensures WellFormed(r)
  {
    var v := ValidFile(nodes, d);
    var n1 := if v.Some? then SetStat(nodes, v.value, "0\n") else nodes;
    assert WellFormed(n1) by {
      if v.Some? {
        ReplaceKeepsWellFormed(nodes, v.value, n1[v.value]);
        assert n1 == nodes[v.value := n1[v.value]];
      }
    }
    DetachKeepsWellFormed(n1, d, "functions");
    var n2 := Detach(n1, d, "functions");
    DetachKeepsWellFormed(n2, d, "maps");
    var n3 := Detach(n2, d, "maps");
    ReplaceKeepsWellFormed(n3, d, SetProgram(n3, d, None)[d]);
    assert SetProgram(n3, d, None) == n3[d := SetProgram(n3, d, None)[d]];
    SetProgram(n3, d, None)
  }

  /** What unload leaves: the same ids, an unloaded program without "functions" and "maps". */
  lemma UnloadedShape(nodes: Nodes, d: Id)
    requires WellFormed(nodes) && IsDir(nodes, d)
    ensures var r := Unloaded(nodes, d);
      && r.Keys == nodes.Keys && IsDir(r, d) && r[d].body.role == ProgramDir(None)
      && r[d].parent == nodes[d].parent && r[d].mode == nodes[d].mode
      && Children(r, d) == Children(nodes, d) - {"functions", "maps"}
  {
    var v := ValidFile(nodes, d);
    var n1 := if v.Some? then SetStat(nodes, v.value, "0\n") else nodes;
    assert WellFormed(n1) by {
      if v.Some? {
        ReplaceKeepsWellFormed(nodes, v.value, n1[v.value]);
        assert n1 == nodes[v.value := n1[v.value]];
      }
    }
    DetachKeepsWellFormed(n1, d, "functions");
    var n2 := Detach(n1, d, "functions");
    var n3 := Detach(n2, d, "maps");
    assert Children(n3, d) == Children(nodes, d) - {"functions", "maps"};
  }

  /** After unload the "valid" StatFile, if there is one, is still there and reads "0\n". */
  lemma UnloadedValid(nodes: Nodes, d: Id)
    requires WellFormed(nodes) && IsDir(nodes, d)
    ensures var r := Unloaded(nodes, d);
      && IsDir(r, d) && ValidFile(r, d) == ValidFile(nodes, d)
      && (ValidFile(nodes, d).Some? ==> r[ValidFile(nodes, d).value].body == FileBody(StatFile("0\n")))
  {
    var v := ValidFile(nodes, d);
    var n1 := if v.Some? then SetStat(nodes, v.value, "0\n") else nodes;
    assert WellFormed(n1) by {
      if v.Some? {
        ReplaceKeepsWellFormed(nodes, v.value, n1[v.value]);
        assert n1 == nodes[v.value := n1[v.value]];
      }
    }
    DetachKeepsWellFormed(n1, d, "functions");
    var n2 := Detach(n1, d, "functions");
    var n3 := Detach(n2, d, "maps");
    if v.Some? {
      assert v.value != d;
      assert n3[v.value].body == n1[v.value].body;
      assert Children(n3, d)["valid"] == v.value;
    }
  }

  /**
   * The arena after a successful ProgramDir::load of module `m` on `a`:
   * the program is kept, "valid" (node `v`) reads "1\n", "functions" and
   * "maps" are new listings built from ids in [lo, hi), and any node they
   * replaced is released.
   */
  ghost predicate Loaded(a: Nodes, b: Nodes, d: Id, v: Id, m: Module, k: Kernel, lo: Id, hi: Id)
    requires IsDir(a, d)
  {
    && IsDir(b, d) && b[d].parent == a[d].parent && b[d].mode == a[d].mode
    && b[d].body.role == ProgramDir(Some(m))
    && "functions" in Children(b, d) && "maps" in Children(b, d)
    && Children(b, d) == Children(a, d)["functions" := Children(b, d)["functions"]]["maps" := Children(b, d)["maps"]]
    && Listing(b, Children(b, d)["functions"], m.functions, a[d].mode, m, k, false, lo, hi)
    && Listing(b, Children(b, d)["maps"], m.tables, a[d].mode, m, k, true, lo, hi)
    && v in b && b[v].body == FileBody(StatFile("1\n"))
    && Released(a, b, d, v)
  }

  /** Unload changes the body of no node but the directory and its "valid" file. */
  lemma UnloadedBodies(nodes: Nodes, d: Id)
    requires WellFormed(nodes) && IsDir(nodes, d)
    ensures var r := Unloaded(nodes, d);
      forall i :: i in nodes && i != d && ValidFile(nodes, d) != Some(i) ==>
        i in r && r[i].body == nodes[i].body && r[i].mode == nodes[i].mode
  {
    var v := ValidFile(nodes, d);
    var n1 := if v.Some? then SetStat(nodes, v.value, "0\n") else nodes;
    assert WellFormed(n1) by {
      if v.Some? {
        ReplaceKeepsWellFormed(nodes, v.value, n1[v.value]);
        assert n1 == nodes[v.value := n1[v.value]];
      }
    }
    DetachKeepsWellFormed(n1, d, "functions");
    var n2 := Detach(n1, d, "functions");
    var n3 := Detach(n2, d, "maps");
    forall i | i in nodes && i != d && v != Some(i)
      ensures n3[i].body == nodes[i].body && n3[i].mode == nodes[i].mode
    {
      assert n1[i] == nodes[i];
    }
  }

  /**
   * What ProgramDir::load returns and leaves, from arena `a` to arena `b`
   * with the allocation counter going from `lo` to `hi`.
   */
  ghost predicate LoadResult(a: Nodes, b: Nodes, d: Id, text: CString, k: Kernel, lo: Id, hi: Id, rc: int)
    requires IsDir(a, d)
  {
    && (rc == 0 || rc == 1)
    && (rc == 0 <==> ValidFile(a, d).Some? && k.compileC(text).Some?)
    && (ValidFile(a, d).None? ==> b == a && hi == lo)
    && (ValidFile(a, d).Some? && k.compileC(text).None? ==> b == SetStat(a, ValidFile(a, d).value, "0\n") && hi == lo)
    && (rc == 0 ==> Loaded(a, b, d, ValidFile(a, d).value, k.compileC(text).value, k, lo, hi))
  }

  /** Load changes the body of no node but the directory and its "valid" file. */
  lemma LoadKeeps(a: Nodes, b: Nodes, d: Id, text: CString, k: Kernel, lo: Id, hi: Id, rc: int)
    requires IsDir(a, d) && LoadResult(a, b, d, text, k, lo, hi, rc)
    ensures forall i :: i in a && i != d && ValidFile(a, d) != Some(i) ==>
      i in b && b[i].body == a[i].body && b[i].mode == a[i].mode
  {
  }

  /**
   * `b` is `a` after `d` took under `name` the new directory `dd`, a listing
   * of `names` built from ids in [lo, hi).
   */
  ghost predicate Attached(a: Nodes, b: Nodes, d: Id, name: string, dd: Id, names: seq<string>,
                           m: Module, k: Kernel, isMap: bool, lo: Id, hi: Id)
    requires IsDir(a, d)
  {
    && IsDir(b, d) && dd !in a && Children(b, d) == Children(a, d)[name := dd]
    && b[d].parent == a[d].parent && b[d].mode == a[d].mode && b[d].body.role == a[d].body.role
    && Released(a, b, d, d)
    && Listing(b, dd, names, a[d].mode, m, k, isMap, lo, hi)
  }

  /** The steps of ProgramDir::load after compiling add up to `Loaded`. */
  lemma LoadedOf(a: Nodes, n1: Nodes, n2: Nodes, b: Nodes, d: Id, v: Id, m: Module, k: Kernel,
                 lo: Id, h1: Id, hi: Id, f: Id, p: Id)
    requires IsDir(a, d) && IsDir(n1, d) && v != d && d < lo && v < lo && lo <= h1 <= hi
    requires n1.Keys == a.Keys && Children(n1, d) == Children(a, d) && Released(a, n1, d, v)
    requires n1[d].parent == a[d].parent && n1[d].mode == a[d].mode && n1[d].body.role == ProgramDir(Some(m))
    requires v in n1 && n1[v].body == FileBody(StatFile("1\n"))
    requires Attached(n1, n2, d, "functions", f, m.functions, m, k, false, lo, h1)
    requires Attached(n2, b, d, "maps", p, m.tables, m, k, true, h1, hi)
    ensures Loaded(a, b, d, v, m, k, lo, hi)
  {
    ReleasedTrans(a, n1, n2, d, v);
    ReleasedTrans(a, n2, b, d, v);
    ReleasedKeeps(n2, b, d, d, lo, h1);
    ListingKept(n2, b, f, m.functions, a[d].mode, m, k, false, lo, h1, hi);
    assert Children(b, d)["functions"] == f && Children(b, d)["maps"] == p;
  }

  /** Unloading twice is unloading once: ProgramDir's destructor may run unload again. */
  lemma UnloadIdempotent(nodes: Nodes, d: Id)
    requires WellFormed(nodes) && IsDir(nodes, d)
    ensures Unloaded(Unloaded(nodes, d), d) == Unloaded(nodes, d)
  {
    var r := Unloaded(nodes, d);
    UnloadedShape(nodes, d);
    UnloadedValid(nodes, d);
    var v := ValidFile(r, d);
    if v.Some? {
      assert SetStat(r, v.value, "0\n") == r;
    }
    assert SetProgram(r, d, None) == r;
  }

  /**
   * Unloading after a successful load leaves the same children as unloading
   * before it, and "valid" reads "0\n" again: a reload cycle adds nothing.
   */
  lemma UnloadAfterLoad(a: Nodes, b: Nodes, d: Id, v: Id, m: Module, k: Kernel, lo: Id, hi: Id)
    requires WellFormed(a) && WellFormed(b) && IsDir(a, d) && ValidFile(a, d) == Some(v)
    requires Loaded(a, b, d, v, m, k, lo, hi)
    ensures ValidFile(b, d) == Some(v)
    ensures Children(Unloaded(b, d), d) == Children(Unloaded(a, d), d)
    ensures Unloaded(b, d)[d].body.role == ProgramDir(None)
    ensures ValidFile(Unloaded(b, d), d) == Some(v) && Unloaded(b, d)[v].body == FileBody(StatFile("0\n"))
  {
    var ch := Children(b, d);
    assert ch == Children(a, d)["functions" := ch["functions"]]["maps" := ch["maps"]];
    assert ch["valid"] == v;
    assert ch - {"functions", "maps"} == Children(a, d) - {"functions", "maps"};
    UnloadedShape(a, d);
    UnloadedShape(b, d);
    UnloadedValid(b, d);
  }

  /**
   * What FunctionDir::load returns and leaves: -1 with no change for a
   * type that is not an exact keyword; otherwise one new node `lo` under
   * "error" (the kernel refused; the file holds its log) or under "fd".
   */
  ghost predicate FunctionLoadResult(a: Nodes, b: Nodes, d: Id, typ: string, k: Kernel, lo: Id, hi: Id, rc: int)
    requires IsDir(a, d) && a[d].body.role.FunctionDir?
  {
    && (rc == 0 || rc == -1)
    && (ProgTypeOf(typ).None? ==> rc == -1 && b == a && hi == lo)
    && (ProgTypeOf(typ).Some? ==>
         var role := a[d].body.role;
         var t := ProgTypeOf(typ).value;
         var fd := k.progLoad(role.fnModule, role.fnId, t);
         && b.Keys == a.Keys + {lo} && hi == lo + 1 && lo !in a
         && (fd < 0 ==>
              && rc == -1 && Bound(a, b, d, "error", lo)
              && b[lo] == NewFile(StatFile(CStr(k.progLog(role.fnModule, role.fnId, t)))).SetParent(Some(d)))
         && (fd >= 0 ==>
              && rc == 0 && Bound(a, b, d, "fd", lo)
              && b[lo] == NewFdSocket(a[d].mode, 0, fd).SetParent(Some(d))))
  }

  /** FunctionDir::unload: "fd" and "error" are removed. */
  ghost function FunctionUnloaded(nodes: Nodes, d: Id): (r: Nodes)
    requires WellFormed(nodes) && IsDir(nodes, d)
    ensures WellFormed(r) && r.Keys == nodes.Keys && IsDir(r, d)
    ensures Children(r, d) == Children(nodes, d) - {"fd", "error"}
    ensures r[d].parent == nodes[d].parent && r[d].mode == nodes[d].mode && r[d].body.role == nodes[d].body.role
  {
    DetachKeepsWellFormed(nodes, d, "fd");
    var n1 := Detach(nodes, d, "fd");
    DetachKeepsWellFormed(n1, d, "error");
    Detach(n1, d, "error")
  }

  /**
   * A FunctionDir::load that added "fd" or "error" is undone, as far as the
   * directory's children go, by the unload the next flush of "type" runs.
   */
  lemma FunctionReload(a: Nodes, b: Nodes, d: Id, typ: string, k: Kernel, lo: Id, hi: Id, rc: int)
    requires WellFormed(a) && WellFormed(b) && IsDir(a, d) && a[d].body.role.FunctionDir?
    requires FunctionLoadResult(a, b, d, typ, k, lo, hi, rc)
    ensures Children(FunctionUnloaded(b, d), d) == Children(FunctionUnloaded(a, d), d)
  {
    assert Children(b, d) - {"fd", "error"} == Children(a, d) - {"fd", "error"};
  }

  // ---------------------------------------------------------------------
  // Files and their parents

  /** A file node with its File part replaced (data_, dirty_). */
  ghost function SetFile(nodes: Nodes, c: Id, f: FileRole): (r: Nodes)
    requires WellFormed(nodes) && c in nodes && nodes[c].body.FileBody?
    ensures WellFormed(r) && r == nodes[c := nodes[c].(body := FileBody(f))]
  {
    ReplaceKeepsWellFormed(nodes, c, nodes[c].(body := FileBody(f)));
    nodes[c := nodes[c].(body := FileBody(f))]
  }

  /** `dynamic_cast<ProgramDir *>(parent_)`. */
  function ProgramParent(nodes: Nodes, c: Id): (r: Option<Id>)
    requires c in nodes
    ensures r.Some? <==> nodes[c].parent.Some? && IsDir(nodes, nodes[c].parent.value) &&
                         nodes[nodes[c].parent.value].body.role.ProgramDir?
    ensures r.Some? ==> r.value == nodes[c].parent.value
  {
    var p := nodes[c].parent;
    if p.Some? && IsDir(nodes, p.value) && nodes[p.value].body.role.ProgramDir? then p else None
  }

  /** `dynamic_cast<FunctionDir *>(parent_)`. */
  function FunctionParent(nodes: Nodes, c: Id): (r: Option<Id>)
    requires c in nodes
    ensures r.Some? <==> nodes[c].parent.Some? && IsDir(nodes, nodes[c].parent.value) &&
                         nodes[nodes[c].parent.value].body.role.FunctionDir?
    ensures r.Some? ==> r.value == nodes[c].parent.value
  {
    var p := nodes[c].parent;
    if p.Some? && IsDir(nodes, p.value) && nodes[p.value].body.role.FunctionDir? then p else None
  }

  /** The unload a SourceFile triggers in its ProgramDir, if it has one. */
  ghost function UnloadProgramOf(nodes: Nodes, c: Id): (r: Nodes)
    requires WellFormed(nodes) && c in nodes && nodes[c].body.FileBody? && !nodes[c].body.file.StatFile?
    ensures WellFormed(r) && c in r && r[c].body == nodes[c].body
    ensures ProgramParent(nodes, c).None? ==> r == nodes
  {
    var p := ProgramParent(nodes, c);
    if p.Some? then
      UnloadedBodies(nodes, p.value);
      Unloaded(nodes, p.value)
    else nodes
  }

  /** The unload a FunctionTypeFile triggers in its FunctionDir, if it has one. */
  ghost function UnloadFunctionOf(nodes: Nodes, c: Id): (r: Nodes)
    requires WellFormed(nodes) && c in nodes && nodes[c].body.FileBody?
    ensures WellFormed(r) && c in r && r[c].body == nodes[c].body
    ensures FunctionParent(nodes, c).None? ==> r == nodes
  {
    var p := FunctionParent(nodes, c);
    if p.Some? then
      assert c != p.value;
      FunctionUnloaded(nodes, p.value)
    else nodes
  }

  // -------------------------------------------------------------------
  // What each callback the Mount dispatches to does, as a relation between
  // the arena before (`a`, next id `lo`) and after (`b`, next id `hi`).

  /** Dir::mkdir, dispatched: only the RootDir makes directories, each under a name not yet taken. */
  ghost predicate MadeDir(a: Nodes, b: Nodes, lo: Id, hi: Id, d: Id, name: string, mode: Mode, rc: int)
    requires IsDir(a, d)
  {
    && IsDir(b, d)
    && (!a[d].body.role.RootDir? ==> rc == -EACCES)
    && (a[d].body.role.RootDir? ==> (rc == 0 <==> name !in Children(a, d)) && (rc != 0 ==> rc == -EEXIST))
    && (rc != 0 ==> b == a && hi == lo)
    && (rc == 0 ==>
         && name in Children(b, d)
         && var pd := Children(b, d)[name];
            Added(a, b, d, name, pd) && ProgramShape(b, pd, mode))
  }

  /** Dir::mknod: a new socket under `name`, or -EPERM for any other kind of node. */
  ghost predicate MadeNode(a: Nodes, b: Nodes, lo: Id, hi: Id, d: Id, name: string, mode: Mode, rdev: int, rc: int)
    requires IsDir(a, d)
  {
    && IsDir(b, d) && (rc == 0 <==> IsSock(mode))
    && (!IsSock(mode) ==> rc == -EPERM && b == a && hi == lo)
    && (IsSock(mode) ==>
         && b.Keys == a.Keys + {lo} && Bound(a, b, d, name, lo)
         && b[lo] == NewSocket(mode, rdev).SetParent(Some(d)))
  }

  /**
   * Dir::create, dispatched: only a MapDir creates files; the name must
   * parse as a key of its table, and a new, empty MapEntry for that key
   * takes the name and becomes the handle.
   */
  ghost predicate Created(a: Nodes, b: Nodes, lo: Id, hi: Id, d: Id, name: CString, k: Kernel, rc: int, fh: Option<Id>)
    requires IsDir(a, d)
  {
    var role := a[d].body.role;
    && IsDir(b, d) && (rc == 0 <==> fh.Some?)
    && (!role.MapDir? ==> rc == -ENOTSUP)
    && (role.MapDir? ==>
         (rc == 0 <==> k.keyScan(role.mapModule, role.mapId, name).Some?) && (rc != 0 ==> rc == -EIO))
    && (rc != 0 ==> b == a && hi == lo)
    && (rc == 0 ==>
         && role.MapDir?
         && var key := k.keyScan(role.mapModule, role.mapId, name).value;
         && fh == Some(lo) && b.Keys == a.Keys + {lo} && Bound(a, b, d, name, lo)
         && b[lo] == NewFile(MapEntry(key, "", false)).SetParent(Some(d)))
  }

  /**
   * Dir::unlink: a missing name is -ENOENT and a child without S_IWUSR is
   * -EPERM; otherwise the child is removed, and the code is its own
   * unlink's (only a MapEntry's deletes anything and can fail).
   */
  ghost predicate Unlinked(a: Nodes, b: Nodes, d: Id, name: string, k: Kernel, rc: int)
    requires WellFormed(a) && IsDir(a, d)
  {
    && IsDir(b, d)
    && (name !in Children(a, d) ==> rc == -ENOENT && b == a)
    && (name in Children(a, d) ==>
         var c := Children(a, d)[name];
         && c in a
         && (a[c].mode & S_IWUSR == 0 ==> rc == -EPERM && b == a)
         && (a[c].mode & S_IWUSR != 0 ==>
              && b == Detach(a, d, name)
              && (a[c].body.FileBody? && a[c].body.file.MapEntry? ==>
                   && rc == EntryUnlink(k, MapParent(a, c), a[c].body.file.key)
                   && (rc == 0 <==> (a[d].body.role.MapDir? &&
                      k.delete(k.tableFd(a[d].body.role.mapModule, a[d].body.role.mapId), a[c].body.file.key))))
              && (!(a[c].body.FileBody? && a[c].body.file.MapEntry?) ==> rc == 0)))
  }

  /**
   * File::open records the node as the handle; MapEntry::open refreshes
   * first and fails with the refresh's code.
   */
  ghost predicate Opened(a: Nodes, b: Nodes, c: Id, k: Kernel, rc: int, fh: Option<Id>)
    requires WellFormed(a) && c in a && a[c].body.FileBody?
  {
    var f := a[c].body.file;
    && (rc == 0 <==> fh == Some(c)) && (rc != 0 ==> fh == None)
    && (!f.MapEntry? ==> rc == 0 && b == a)
    && (f.MapEntry? ==>
         var r := EntryRefresh(k, MapParent(a, c), f.key, f.data);
         rc == r.0 && b == SetFile(a, c, MapEntry(f.key, r.1, f.dirty)))
  }

  /**
   * The truncate callback of each file class: StatFile and MapDumpFile
   * refuse with -EACCES; SourceFile becomes dirty and unloads its program
   * first, FunctionTypeFile unloads its function first, and a MapEntry
   * becomes dirty when its length changes.
   */
  ghost predicate Truncated(a: Nodes, b: Nodes, c: Id, n: nat, rc: int)
    requires WellFormed(a) && c in a && a[c].body.FileBody?
  {
    var f := a[c].body.file;
    && (rc == 0 <==> HasData(f) && !f.StatFile?)
    && (f.StatFile? || f.MapDumpFile? ==> rc == -EACCES && b == a)
    && (f.SourceFile? ==>
         b == SetFile(UnloadProgramOf(SetFile(a, c, SourceFile(f.data, true)), c), c, SourceFile(Resize(f.data, n), true)))
    && (f.FunctionTypeFile? ==> b == SetFile(UnloadFunctionOf(a, c), c, FunctionTypeFile(Resize(f.data, n))))
    && (f.MapEntry? ==>
         var t := EntryTruncate(f.data, f.dirty, n);
         b == SetFile(a, c, MapEntry(f.key, t.0, t.1)))
  }

  /**
   * SourceFile::flush: nothing on a clean file; otherwise it becomes clean
   * and, unless the text is blank, the parent ProgramDir is unloaded and
   * loaded from the text, -EIO when the load fails.
   */
  ghost predicate SourceFlushed(a: Nodes, b: Nodes, lo: Id, hi: Id, c: Id, k: Kernel, rc: int)
    requires WellFormed(a) && c in a && a[c].body.FileBody? && a[c].body.file.SourceFile?
  {
    var data := a[c].body.file.data;
    && (!a[c].body.file.dirty ==> rc == 0 && b == a && hi == lo)
    && (a[c].body.file.dirty ==>
         && c in b && b[c].body == FileBody(SourceFile(data, false))
         && var n1 := SetFile(a, c, SourceFile(data, false));
         && (IsBlank(data) || ProgramParent(a, c).None? ==> rc == 0 && b == n1 && hi == lo)
         && (!IsBlank(data) && ProgramParent(a, c).Some? ==>
              var p := ProgramParent(a, c).value;
              && (rc == 0 || rc == -EIO)
              && LoadResult(Unloaded(n1, p), b, p, CStr(data), k, lo, hi, if rc == 0 then 0 else 1)))
  }

  /** The reload a flush of a dirty, non-blank source file does under a ProgramDir. */
  lemma SourceReloaded(a: Nodes, b: Nodes, lo: Id, hi: Id, c: Id, k: Kernel, r: int, rc: int)
    requires WellFormed(a) && c in a && a[c].body.FileBody? && a[c].body.file.SourceFile? && a[c].body.file.dirty
    requires !IsBlank(a[c].body.file.data) && ProgramParent(a, c).Some?
    requires var n1 := SetFile(a, c, SourceFile(a[c].body.file.data, false));
      var p := ProgramParent(a, c).value;
      && IsDir(n1, p) && IsDir(Unloaded(n1, p), p)
      && LoadResult(Unloaded(n1, p), b, p, CStr(a[c].body.file.data), k, lo, hi, r)
    requires rc == if r != 0 then -EIO else 0
    ensures SourceFlushed(a, b, lo, hi, c, k, rc)
  {
    var data := a[c].body.file.data;
    var n1 := SetFile(a, c, SourceFile(data, false));
    var p := ProgramParent(a, c).value;
    UnloadedBodies(n1, p);
    var n2 := Unloaded(n1, p);
    LoadKeeps(n2, b, p, CStr(data), k, lo, hi, r);
    assert ValidFile(n2, p) != Some(c);
  }

  /**
   * FunctionTypeFile::flush (no dirty flag): nothing for blank text;
   * otherwise the parent FunctionDir is unloaded and loaded with the text
   * as the program type, -EIO when that fails.
   */
  ghost predicate TypeFlushed(a: Nodes, b: Nodes, lo: Id, hi: Id, c: Id, k: Kernel, rc: int)
    requires WellFormed(a) && c in a && a[c].body.FileBody? && a[c].body.file.FunctionTypeFile?
  {
    var data := a[c].body.file.data;
    && (IsBlank(data) || FunctionParent(a, c).None? ==> rc == 0 && b == a && hi == lo)
    && (!IsBlank(data) && FunctionParent(a, c).Some? ==>
         var p := FunctionParent(a, c).value;
         && (rc == 0 || rc == -EIO)
         && FunctionLoadResult(FunctionUnloaded(a, p), b, p, data, k, lo, hi, if rc == 0 then 0 else -1))
  }

  /**
   * The flush callback of each file class: File::flush returns 0 for
   * StatFile and MapDumpFile; MapEntry::flush writes its leaf to the map
   * and changes nothing here.
   */
  ghost predicate Flushed(a: Nodes, b: Nodes, lo: Id, hi: Id, c: Id, k: Kernel, rc: int)
    requires WellFormed(a) && c in a && a[c].body.FileBody?
  {
    var f := a[c].body.file;
    && (f.SourceFile? ==> SourceFlushed(a, b, lo, hi, c, k, rc))
    && (f.FunctionTypeFile? ==> TypeFlushed(a, b, lo, hi, c, k, rc))
    && (f.StatFile? || f.MapDumpFile? ==> rc == 0 && b == a && hi == lo)
    && (f.MapEntry? ==> rc == EntryFlush(k, MapParent(a, c), f.key, f.data, f.dirty) && b == a && hi == lo)
  }

  /**
   * MapDir::refresh at monotonic time `now`: within a second of the last
   * refresh nothing happens; otherwise the time is recorded and the listing
   * is rebuilt from the keys the table yields, stopping with -EIO at the
   * first key that does not print.
   */
  ghost predicate Refreshed(a: Nodes, b: Nodes, lo: Id, hi: Id, md: Id, k: Kernel, now: nat, rc: int)
    requires IsDir(a, md) && a[md].body.role.MapDir?
  {
    var role := a[md].body.role;
    var keys := k.keys(k.tableFd(role.mapModule, role.mapId));
    var j := PrintedCount(k, role.mapModule, role.mapId, keys);
    var names := KeyNames(k, role.mapModule, role.mapId, keys[..j]);
    && IsDir(b, md) && hi >= lo && b[md].parent == a[md].parent && b[md].mode == a[md].mode
    && (now < role.lastTs + RefreshNs ==> rc == 0 && b == a && hi == lo)
    && (now >= role.lastTs + RefreshNs ==>
         && b[md].body.role == MapDir(role.mapModule, role.mapId, now)
         && (rc == 0 <==> j == |keys|) && (rc != 0 ==> rc == -EIO)
         && names.Some? && Rebuilt(a, b, md, names.value, keys[..j]))
  }

  /**
   * The read callback of each file class: the string-backed files and
   * StatFile serve their data through read_helper; MapDumpFile serves the
   * dump of its table, or -EIO when printing a key or leaf fails.
   */
  predicate ReadOf(f: FileRole, k: Kernel, size: nat, offset: nat, rc: int, bytes: string) {
    && (HasData(f) ==> rc == |bytes| && bytes == ReadHelper(f.data, size, offset))
    && (f.MapDumpFile? ==>
         var t := DumpText(k, f.dumpModule, f.dumpId, f.dumpFd, k.keys(f.dumpFd));
         && (t.None? ==> rc == -EIO && bytes == [])
         && (t.Some? ==> rc == |bytes| && bytes == ReadHelper(t.value, size, offset)))
  }

  /** Dir::readdir's listing: ".", "..", then the names of the children in key order. */
  ghost predicate DirListing(nodes: Nodes, d: Id, names: seq<string>)
    requires IsDir(nodes, d)
  {
    && |names| == 2 + |Children(nodes, d)| && names[..2] == [".", ".."]
    && Sorted(names[2..])
    && (forall n :: n in names[2..] <==> n in Children(nodes, d))
  }

  /**
   * The getattr callback of each node class: a MapDir and a MapEntry
   * refresh first and report a zeroed stat when that fails.
   */
  ghost predicate Stated(a: Nodes, b: Nodes, lo: Id, hi: Id, c: Id, k: Kernel, now: nat, rc: int, st: Stat)
    requires WellFormed(a) && c in a
  {
    var n := a[c];
    && (n.body.DirBody? && n.body.role.MapDir? ==>
         && Refreshed(a, b, lo, hi, c, k, now, rc)
         && st == if rc == 0 then DirStat(b[c]) else ZeroStat)
    && (n.body.FileBody? && n.body.file.MapEntry? ==>
         var f := n.body.file;
         var r := EntryRefresh(k, MapParent(a, c), f.key, f.data);
         && rc == r.0 && b == SetFile(a, c, MapEntry(f.key, r.1, f.dirty)) && hi == lo
         && st == if rc == 0 then FileStat(MapEntry(f.key, r.1, f.dirty)) else ZeroStat)
    && (!(n.body.DirBody? && n.body.role.MapDir?) && !(n.body.FileBody? && n.body.file.MapEntry?) ==>
         (rc, st) == NodeStat(n) && b == a && hi == lo)
  }

  /** The readdir callback of a directory: a MapDir refreshes first and fails with the refresh's code. */
  ghost predicate Listed(a: Nodes, b: Nodes, lo: Id, hi: Id, d: Id, k: Kernel, now: nat, rc: int, names: seq<string>)
    requires IsDir(a, d)
  {
    && (a[d].body.role.MapDir? ==>
         && Refreshed(a, b, lo, hi, d, k, now, rc)
         && (rc != 0 ==> names == [])
         && (rc == 0 ==> DirListing(b, d, names)))
    && (!a[d].body.role.MapDir? ==> rc == 0 && b == a && hi == lo && DirListing(a, d, names))
  }

  class InodeTable {
    var nodes: Nodes
    /** The id the next allocation takes. */
    var next: Id

    ghost predicate Valid()
      reads this
    {
      WellFormed(nodes) && forall i :: i in nodes ==> i < next
    }

    /** The root directory the Mount creates: a RootDir with mode 0755. */
    constructor ()
      ensures Valid() && next == 1
      ensures nodes == map[Root := NewDir(RootDir, Mode0755)]
    {
      nodes := map[Root := NewDir(RootDir, Mode0755)];
      next := 1;
    }

    /** `make_unique`: a new node, owned by nobody yet. */
    method Alloc(n: Inode) returns (id: Id)
      requires Valid() && Fresh(n)
      modifies this
      ensures Valid() && id == old(next) && next == old(next) + 1
      ensures id !in old(nodes) && nodes == old(nodes)[id := n]
      ensures Unowned(nodes, id)
    {
      id := next;
      AllocKeepsWellFormed(nodes, id, n);
      nodes := nodes[id := n];
      next := next + 1;
    }

    /** An in-place update of a node's own fields (set_data, dirty_, ready_, bpf_module_, ...). */
    method Update(i: Id, n: Inode)
      requires Valid() && i in nodes && SameShape(nodes[i], n)
      modifies this
      ensures Valid() && next == old(next) && nodes == old(nodes)[i := n]
    {
      ReplaceKeepsWellFormed(nodes, i, n);
      nodes := nodes[i := n];
    }

    /** Dir::remove_child. */
    method RemoveChild(d: Id, name: string)
      requires Valid() && IsDir(nodes, d)
      modifies this
      ensures Valid() && next == old(next)
      ensures nodes == Detach(old(nodes), d, name)
    {
      DetachKeepsWellFormed(nodes, d, name);
      nodes := Detach(nodes, d, name);
    }

    /** Dir::add_child: drop any child of that name, then take the node in. */
    method AddChild(d: Id, name: string, c: Id)
      requires Valid() && IsDir(nodes, d) && c in nodes && d < c && Unowned(nodes, c)
      modifies this
      ensures Valid() && next == old(next)
      ensures nodes == Tree.AddChild(old(nodes), d, name, c)
      ensures AddFrame(old(nodes), nodes, d, name, c) && Bound(old(nodes), nodes, d, name, c)
    {
      AddChildFrame(nodes, d, name, c);
      BoundOfAdd(nodes, Tree.AddChild(nodes, d, name, c), d, name, c);
      nodes := Tree.AddChild(nodes, d, name, c);
    }

    /** `add_child(name, make_unique<...>(...))`: a new node under `d`. */
    method AddNew(d: Id, name: string, n: Inode) returns (c: Id)
      requires Valid() && IsDir(nodes, d) && Fresh(n)
      modifies this
      ensures Valid() && c == old(next) && next == old(next) + 1
      ensures nodes.Keys == old(nodes).Keys + {c} && nodes[c] == n.SetParent(Some(d))
      ensures Bound(old(nodes), nodes, d, name, c)
    {
      assert d < next;
      AllocBound(nodes, d, name, next, n);
      c := Alloc(n);
      AddChild(d, name, c);
    }

    /** The ProgramDir constructor. */
    method NewProgramDir(mode: Mode) returns (pd: Id)
      requires Valid()
      modifies this
      ensures Valid() && Grown(old(nodes), nodes, old(next)) && next > old(next)
      ensures pd !in old(nodes) && pd in nodes && Unowned(nodes, pd) && ProgramShape(nodes, pd, mode)
      ensures nodes[pd].body.nFiles == 2 && nodes[pd].body.nDirs == 0
    {
      var dn := NewDir(ProgramDir(None), mode);
      pd := Alloc(dn);
      ghost var n1 := nodes;
      var src := AddNew(pd, "source", NewFile(NewSourceFile));
      ghost var n2 := nodes;
      var valid := AddNew(pd, "valid", NewFile(StatFile("0\n")));
      TwoChildren(old(nodes), n1, n2, nodes, old(next), pd, dn,
                  "source", src, NewFile(NewSourceFile), "valid", valid, NewFile(StatFile("0\n")));
      TwoFiles(nodes, pd, "source", src, "valid", valid);
    }

    /** The FunctionDir constructor. */
    method NewFunctionDir(mode: Mode, m: Module, j: nat) returns (f: Id)
      requires Valid()
      modifies this
      ensures Valid() && Grown(old(nodes), nodes, old(next)) && next > old(next)
      ensures f !in old(nodes) && f in nodes && Unowned(nodes, f) && FunctionShape(nodes, f, mode, m, j)
      ensures f == old(next) && forall n :: n in Children(nodes, f) ==> old(next) <= Children(nodes, f)[n] < next
    {
      var dn := NewDir(FunctionDir(m, j), mode);
      f := Alloc(dn);
      ghost var n1 := nodes;
      var t := AddNew(f, "type", NewFile(FunctionTypeFile("")));
      OneChild(old(nodes), n1, nodes, old(next), f, dn, "type", t, NewFile(FunctionTypeFile("")));
    }

    /** The MapDir constructor: both children are built on the table's fd. */
    method NewMapDir(mode: Mode, m: Module, j: nat, k: Kernel) returns (md: Id)
      requires Valid()
      modifies this
      ensures Valid() && Grown(old(nodes), nodes, old(next)) && next > old(next)
      ensures md !in old(nodes) && md in nodes && Unowned(nodes, md) && MapShape(nodes, md, mode, m, j, k.tableFd(m, j))
      ensures md == old(next) && forall n :: n in Children(nodes, md) ==> old(next) <= Children(nodes, md)[n] < next
    {
      var dn := NewDir(MapDir(m, j, 0), mode);
      md := Alloc(dn);
      var fd := k.tableFd(m, j);
      ghost var n1 := nodes;
      var sock := AddNew(md, "fd", NewFdSocket(mode, 0, fd));
      ghost var n2 := nodes;
      var dump := AddNew(md, "dump", NewFile(MapDumpFile(m, j, fd)));
      TwoChildren(old(nodes), n1, n2, nodes, old(next), md, dn,
                  "fd", sock, NewFdSocket(mode, 0, fd), "dump", dump, NewFile(MapDumpFile(m, j, fd)));
    }

    /** Dir::mknod: only a socket can be made, and it replaces any child of that name. */
    method DirMknod(d: Id, name: string, mode: Mode, rdev: int) returns (rc: int)
      requires Valid() && IsDir(nodes, d)
      modifies this
      ensures Valid() && MadeNode(old(nodes), nodes, old(next), next, d, name, mode, rdev, rc)
    {
      if IsSock(mode) {
        var sock := AddNew(d, name, NewSocket(mode, rdev));
        rc := 0;
      } else {
        rc := -EPERM;
      }
    }

    /** RootDir::mkdir: a new, unloaded ProgramDir under a name not yet taken. */
    method RootMkdir(d: Id, name: string, mode: Mode) returns (rc: int)
      requires Valid() && IsDir(nodes, d) && nodes[d].body.role.RootDir?
      modifies this
      ensures Valid() && IsDir(nodes, d) && (rc == 0 <==> name !in old(Children(nodes, d)))
      ensures rc != 0 ==> rc == -EEXIST && nodes == old(nodes) && next == old(next)
      ensures rc == 0 ==> (name in Children(nodes, d) &&
        var pd := Children(nodes, d)[name];
        Added(old(nodes), nodes, d, name, pd) && ProgramShape(nodes, pd, mode))
    {
      if name in nodes[d].body.children {
        return -EEXIST;
      }
      ghost var n0 := nodes;
      ghost var lo := next;
      var pd := NewProgramDir(mode);
      ghost var m := nodes;
      ChildrenAbove(nodes, pd);
      AddChild(d, name, pd);
      Adopt(n0, m, nodes, lo, d, name, pd);
      KeptShapes(m, nodes, pd, mode, Module(0, [], []), 0, 0);
      rc := 0;
    }

    /** Dir::mkdir, dispatched: only the RootDir makes directories. */
    method DirMkdir(d: Id, name: string, mode: Mode) returns (rc: int)
      requires Valid() && IsDir(nodes, d)
      modifies this
      ensures Valid() && MadeDir(old(nodes), nodes, old(next), next, d, name, mode, rc)
    {
      if nodes[d].body.role.RootDir? {
        rc := RootMkdir(d, name, mode);
      } else {
        rc := -EACCES;
      }
    }

    /**
     * MapDir::create: the name is parsed as a key of the table; a new, clean
     * MapEntry for it takes the name and becomes the open handle.
     */
    method MapCreate(d: Id, name: CString, k: Kernel) returns (rc: int, fh: Option<Id>)
      requires Valid() && IsDir(nodes, d) && nodes[d].body.role.MapDir?
      modifies this
      ensures Valid() && IsDir(nodes, d)
      ensures var role := old(nodes[d].body.role);
        rc == 0 <==> k.keyScan(role.mapModule, role.mapId, name).Some?
      ensures rc != 0 ==> rc == -EIO && fh == None && nodes == old(nodes) && next == old(next)
      ensures rc == 0 ==>
        var key := k.keyScan(old(nodes[d].body.role).mapModule, old(nodes[d].body.role).mapId, name).value;
        && fh == Some(old(next)) && nodes.Keys == old(nodes).Keys + {old(next)}
        && Bound(old(nodes), nodes, d, name, old(next))
        && nodes[old(next)] == NewFile(MapEntry(key, "", false)).SetParent(Some(d))
    {
      var role := nodes[d].body.role;
      var key := k.keyScan(role.mapModule, role.mapId, name);
      if key.None? {
        return -EIO, None;
      }
      var ent := AddNew(d, name, NewFile(MapEntry(key.value, "", false)));
      rc, fh := 0, Some(ent);
    }

    /** The directory `d` keeps only its children under `keep`, with its counters recounted. */
    method Retain(d: Id, keep: set<string>)
      requires Valid() && IsDir(nodes, d)
      modifies this
      ensures Valid() && next == old(next) && nodes == Restrict(old(nodes), d, keep)
    {
      RestrictKeepsWellFormed(nodes, d, keep);
      nodes := Restrict(nodes, d, keep);
    }

    /**
     * The start of a due MapDir::refresh: `last_ts_` takes the time, and
     * only "fd" and "dump" are moved back into the new `children_`.
     */
    method RefreshStart(md: Id, now: nat)
      requires Valid() && IsDir(nodes, md) && nodes[md].body.role.MapDir?
      modifies this
      ensures Valid() && next == old(next) && IsDir(nodes, md)
      ensures nodes[md].parent == old(nodes[md].parent) && nodes[md].mode == old(nodes[md].mode)
      ensures var role := old(nodes[md].body.role);
        nodes[md].body.role == MapDir(role.mapModule, role.mapId, now)
      ensures Rebuilt(old(nodes), nodes, md, [], [])
    {
      var n := nodes[md];
      var role := n.body.role;
      assert DirOk(nodes, md);
      Update(md, Inode(n.parent, n.itype, n.mode, DirBody(MapDir(role.mapModule, role.mapId, now), n.body.children, n.body.nFiles, n.body.nDirs)));
      Retain(md, Fixed);
      RebuildStart(old(nodes), nodes, md);
    }

    /**
     * One turn of the loop of MapDir::refresh: the key printed as `x` takes
     * the unclaimed old node of that name from `pool`, or a new MapEntry.
     */
    method RefreshAdd(ghost a: Nodes, md: Id, ghost names: seq<string>, ghost keys: seq<Bytes>,
                      x: string, key: Bytes, pool: map<string, Id>) returns (pool': map<string, Id>)
      requires Valid() && WellFormed(a) && IsDir(a, md) && IsDir(nodes, md) && |names| == |keys|
      requires Rebuilt(a, nodes, md, names, keys) && pool == Leftover(Reusable(Children(a, md)), names)
      modifies this
      ensures Valid() && next >= old(next) && IsDir(nodes, md)
      ensures nodes[md].parent == old(nodes[md].parent) && nodes[md].mode == old(nodes[md].mode)
      ensures nodes[md].body.role == old(nodes[md].body.role)
      ensures Rebuilt(a, nodes, md, names + [x], keys + [key])
      ensures pool' == Leftover(Reusable(Children(a, md)), names + [x])
    {
      LeftoverAppend(Reusable(Children(a, md)), names, x);
      if x in pool {
        var c := pool[x];
        PoolUnowned(a, nodes, md, names, keys, x);
        AddChild(md, x, c);
        RebuildReuse(a, old(nodes), nodes, md, names, keys, x, key);
        pool' := pool - {x};
      } else {
        assert next !in nodes;
        var c := AddNew(md, x, NewFile(MapEntry(key, "", false)));
        RebuildNew(a, old(nodes), nodes, md, names, keys, x, key, c);
        pool' := pool;
      }
    }

    /**
     * The loop of MapDir::refresh: each key of the table, printed, goes into
     * the listing of `md` until one fails to print.
     */
    method RefreshKeys(ghost a: Nodes, md: Id, k: Kernel, m: Module, id: nat, keys: seq<Bytes>,
                       pool: map<string, Id>) returns (rc: int)
      requires Valid() && WellFormed(a) && IsDir(a, md) && IsDir(nodes, md)
      requires Rebuilt(a, nodes, md, [], []) && pool == Reusable(Children(a, md))
      modifies this
      ensures Valid() && next >= old(next) && IsDir(nodes, md)
      ensures nodes[md].parent == old(nodes[md].parent) && nodes[md].mode == old(nodes[md].mode)
      ensures nodes[md].body.role == old(nodes[md].body.role)
      ensures var j := PrintedCount(k, m, id, keys);
        var names := KeyNames(k, m, id, keys[..j]);
        && (rc == 0 <==> j == |keys|) && (rc != 0 ==> rc == -EIO)
        && names.Some? && Rebuilt(a, nodes, md, names.value, keys[..j])
    {
      var pool := pool;
      assert pool == Leftover(Reusable(Children(a, md)), []);
      ghost var nms: seq<string> := [];
      var i := 0;
      while i < |keys|
        invariant 0 <= i <= |keys| && |nms| == i
        invariant Valid() && IsDir(nodes, md) && next >= old(next)
        invariant nodes[md].parent == old(nodes[md].parent) && nodes[md].mode == old(nodes[md].mode)
        invariant nodes[md].body.role == old(nodes[md].body.role)
        invariant KeyNames(k, m, id, keys[..i]) == Some(nms)
        invariant pool == Leftover(Reusable(Children(a, md)), nms)
        invariant Rebuilt(a, nodes, md, nms, keys[..i])
      {
        var s := k.keyPrint(m, id, keys[i]);
        if s.None? {
          PrintStops(k, m, id, keys, i);
          return -EIO;
        }
        KeyNamesPrefix(k, m, id, keys, i);
        var x := CStr(s.value);
        pool := RefreshAdd(a, md, nms, keys[..i], x, keys[i], pool);
        nms := nms + [x];
        i := i + 1;
      }
      PrintAll(k, m, id, keys, i);
      rc := 0;
    }

    /**
     * MapDir::refresh at monotonic time `now`, in nanoseconds.  Within a
     * second of the last refresh nothing happens; otherwise the listing is
     * rebuilt from the keys of the table, in the order the kernel yields
     * them, and a key that does not print stops the rebuild with -EIO.
     */
    method MapRefresh(md: Id, k: Kernel, now: nat) returns (rc: int)
      requires Valid() && IsDir(nodes, md) && nodes[md].body.role.MapDir?
      modifies this
      ensures Valid() && Refreshed(old(nodes), nodes, old(next), next, md, k, now, rc)
    {
      var role := nodes[md].body.role;
      if now < role.lastTs + RefreshNs {
        return 0;
      }
      var oldChildren := nodes[md].body.children;
      RefreshStart(md, now);
      var keys := k.keys(k.tableFd(role.mapModule, role.mapId));
      rc := RefreshKeys(old(nodes), md, k, role.mapModule, role.mapId, keys, Reusable(oldChildren));
    }

    /** Dir::create, dispatched: only a MapDir creates files. */
    method DirCreate(d: Id, name: CString, k: Kernel) returns (rc: int, fh: Option<Id>)
      requires Valid() && IsDir(nodes, d)
      modifies this
      ensures Valid() && Created(old(nodes), nodes, old(next), next, d, name, k, rc, fh)
    {
      if nodes[d].body.role.MapDir? {
        rc, fh := MapCreate(d, name, k);
      } else {
        rc, fh := -ENOTSUP, None;
      }
    }

    /**
     * Dir::unlink: a missing name is ENOENT and a child without S_IWUSR is
     * EPERM; otherwise the child's own unlink runs (only a MapEntry's does
     * anything) and the child is removed whatever it returned.
     */
    method DirUnlink(d: Id, name: string, k: Kernel) returns (rc: int)
      requires Valid() && IsDir(nodes, d)
      modifies this
      ensures Valid() && next == old(next) && Unlinked(old(nodes), nodes, d, name, k, rc)
    {
      if name !in nodes[d].body.children {
        return -ENOENT;
      }
      var c := nodes[d].body.children[name];
      assert DirOk(nodes, d);
      if nodes[c].mode & S_IWUSR == 0 {
        return -EPERM;
      }
      var n := nodes[c];
      if n.body.FileBody? && n.body.file.MapEntry? {
        rc := EntryUnlink(k, MapParent(nodes, c), n.body.file.key);
      } else {
        rc := 0;
      }
      RemoveChild(d, name);
    }

    /** ProgramDir::unload. */
    method ProgramUnload(d: Id)
      requires Valid() && IsDir(nodes, d) && nodes[d].body.role.ProgramDir?
      modifies this
      ensures Valid() && next == old(next)
      ensures nodes == Unloaded(old(nodes), d)
    {
      var v := ValidFile(nodes, d);
      if v.Some? {
        Update(v.value, SetStat(nodes, v.value, "0\n")[v.value]);
      }
      RemoveChild(d, "functions");
      RemoveChild(d, "maps");
      Update(d, SetProgram(nodes, d, None)[d]);
    }

    /**
     * FunctionDir::load: only an exact keyword is accepted (-1 otherwise,
     * with no kernel call); a failed bpf_prog_load adds an "error" file
     * holding the log and returns -1, a successful one adds "fd".
     */
    method FunctionLoad(d: Id, typ: string, k: Kernel) returns (rc: int)
      requires Valid() && IsDir(nodes, d) && nodes[d].body.role.FunctionDir?
      modifies this
      ensures Valid() && IsDir(nodes, d)
      ensures FunctionLoadResult(old(nodes), nodes, d, typ, k, old(next), next, rc)
    {
      var t := ProgTypeOf(typ);
      if t.None? {
        return -1;
      }
      var role := nodes[d].body.role;
      var fd := k.progLoad(role.fnModule, role.fnId, t.value);
      if fd < 0 {
        var e := AddNew(d, "error", NewFile(StatFile(CStr(k.progLog(role.fnModule, role.fnId, t.value)))));
        return -1;
      }
      var sock := AddNew(d, "fd", NewFdSocket(nodes[d].mode, 0, fd));
      rc := 0;
    }

    /** FunctionDir::unload. */
    method FunctionUnload(d: Id)
      requires Valid() && IsDir(nodes, d)
      modifies this
      ensures Valid() && next == old(next)
      ensures nodes == FunctionUnloaded(old(nodes), d)
    {
      RemoveChild(d, "fd");
      RemoveChild(d, "error");
    }

    // -------------------------------------------------------------------
    // The File classes' callbacks on node `c`

    /**
     * The read callback of each file class.  The string-backed files and
     * StatFile serve their data through read_helper; MapDumpFile serves the
     * dump of its table, or -EIO when printing a key or leaf fails.
     */
    method FileRead(c: Id, size: nat, offset: nat, k: Kernel) returns (rc: int, bytes: string)
      requires Valid() && c in nodes && nodes[c].body.FileBody?
      ensures ReadOf(nodes[c].body.file, k, size, offset, rc, bytes)
    {
      var f := nodes[c].body.file;
      if f.MapDumpFile? {
        var t := DumpRead(k, f.dumpModule, f.dumpId, f.dumpFd);
        if t.None? {
          return -EIO, [];
        }
        bytes := ReadHelper(t.value, size, offset);
      } else {
        bytes := ReadHelper(f.data, size, offset);
      }
      rc := |bytes|;
    }

    /** The write callback of each file class. */
    method FileWriteAt(c: Id, buf: string, offset: nat) returns (rc: int)
      requires Valid() && c in nodes && nodes[c].body.FileBody?
      modifies this
      ensures Valid() && next == old(next)
      ensures rc == FileWrite(old(nodes[c].body.file), buf, offset).0
      ensures nodes == SetFile(old(nodes), c, FileWrite(old(nodes[c].body.file), buf, offset).1)
    {
      var r := FileWrite(nodes[c].body.file, buf, offset);
      Update(c, nodes[c].(body := FileBody(r.1)));
      rc := r.0;
    }

    /**
     * SourceFile::truncate: dirty, then the parent ProgramDir (if any) is
     * unloaded, then the data is resized.
     */
    method SourceTruncate(c: Id, n: nat)
      requires Valid() && c in nodes && nodes[c].body.FileBody? && nodes[c].body.file.SourceFile?
      modifies this
      ensures Valid() && next == old(next)
      ensures var data := old(nodes[c].body.file.data);
        var n1 := UnloadProgramOf(SetFile(old(nodes), c, SourceFile(data, true)), c);
        nodes == SetFile(n1, c, SourceFile(Resize(data, n), true))
    {
      var data := nodes[c].body.file.data;
      Update(c, nodes[c].(body := FileBody(SourceFile(data, true))));
      ghost var n0 := nodes;
      var p := ProgramParent(nodes, c);
      if p.Some? {
        UnloadedBodies(nodes, p.value);
        ProgramUnload(p.value);
      }
      assert nodes == UnloadProgramOf(n0, c);
      Update(c, nodes[c].(body := FileBody(SourceFile(Resize(data, n), true))));
    }

    /** FunctionTypeFile::truncate: the parent FunctionDir (if any) is unloaded, then the data is resized. */
    method TypeTruncate(c: Id, n: nat)
      requires Valid() && c in nodes && nodes[c].body.FileBody? && nodes[c].body.file.FunctionTypeFile?
      modifies this
      ensures Valid() && next == old(next)
      ensures var data := old(nodes[c].body.file.data);
        nodes == SetFile(UnloadFunctionOf(old(nodes), c), c, FunctionTypeFile(Resize(data, n)))
    {
      var data := nodes[c].body.file.data;
      var p := FunctionParent(nodes, c);
      if p.Some? {
        FunctionUnload(p.value);
      }
      Update(c, nodes[c].(body := FileBody(FunctionTypeFile(Resize(data, n)))));
    }

    /**
     * The truncate callback of each file class: StatFile and MapDumpFile
     * refuse with -EACCES (File::truncate); the others return 0.
     */
    method FileTruncate(c: Id, n: nat) returns (rc: int)
      requires Valid() && c in nodes && nodes[c].body.FileBody?
      modifies this
      ensures Valid() && next == old(next) && Truncated(old(nodes), nodes, c, n, rc)
    {
      var f := nodes[c].body.file;
      match f
      case SourceFile(_, _) =>
        SourceTruncate(c, n);
        rc := 0;
      case FunctionTypeFile(_) =>
        TypeTruncate(c, n);
        rc := 0;
      case MapEntry(key, data, dirty) =>
        var t := EntryTruncate(data, dirty, n);
        Update(c, nodes[c].(body := FileBody(MapEntry(key, t.0, t.1))));
        rc := 0;
      case StatFile(_) =>
        rc := -EACCES;
      case MapDumpFile(_, _, _) =>
        rc := -EACCES;
    }

    /**
     * SourceFile::flush: nothing on a clean file; otherwise it becomes clean
     * and, unless the text is blank, the parent ProgramDir is unloaded and
     * loaded from the text, -EIO when the load fails.
     */
    method SourceFlush(c: Id, k: Kernel) returns (rc: int)
      requires Valid() && c in nodes && nodes[c].body.FileBody? && nodes[c].body.file.SourceFile?
      modifies this
      ensures Valid() && SourceFlushed(old(nodes), nodes, old(next), next, c, k, rc)
    {
      var f := nodes[c].body.file;
      if !f.dirty {
        return 0;
      }
      Update(c, nodes[c].(body := FileBody(SourceFile(f.data, false))));
      if IsBlank(f.data) {
        return 0;
      }
      var p := ProgramParent(nodes, c);
      if p.Some? {
        ProgramUnload(p.value);
        var r := ProgramLoad(p.value, CStr(f.data), k);
        rc := if r != 0 then -EIO else 0;
        SourceReloaded(old(nodes), nodes, old(next), next, c, k, r, rc);
        return;
      }
      rc := 0;
    }

    /**
     * FunctionTypeFile::flush (no dirty flag): nothing for blank text;
     * otherwise the parent FunctionDir is unloaded and loaded with the text
     * as the program type, -EIO when that fails.
     */
    method TypeFlush(c: Id, k: Kernel) returns (rc: int)
      requires Valid() && c in nodes && nodes[c].body.FileBody? && nodes[c].body.file.FunctionTypeFile?
      modifies this
      ensures Valid() && TypeFlushed(old(nodes), nodes, old(next), next, c, k, rc)
    {
      var data := nodes[c].body.file.data;
      if IsBlank(data) {
        return 0;
      }
      var p := FunctionParent(nodes, c);
      if p.Some? {
        FunctionUnload(p.value);
        var r := FunctionLoad(p.value, data, k);
        if r != 0 {
          return -EIO;
        }
      }
      rc := 0;
    }

    /**
     * The flush callback of each file class: File::flush returns 0 for
     * StatFile and MapDumpFile; MapEntry::flush writes its leaf to the map.
     */
    method FileFlush(c: Id, k: Kernel) returns (rc: int)
      requires Valid() && c in nodes && nodes[c].body.FileBody?
      modifies this
      ensures Valid() && Flushed(old(nodes), nodes, old(next), next, c, k, rc)
    {
      var f := nodes[c].body.file;
      match f
      case SourceFile(_, _) =>
        rc := SourceFlush(c, k);
      case FunctionTypeFile(_) =>
        rc := TypeFlush(c, k);
      case MapEntry(key, data, dirty) =>
        rc := EntryFlush(k, MapParent(nodes, c), key, data, dirty);
      case StatFile(_) =>
        rc := 0;
      case MapDumpFile(_, _, _) =>
        rc := 0;
    }

    /** MapEntry::refresh, applied: the data it reads from the map, if that works. */
    method EntryRefreshAt(c: Id, k: Kernel) returns (rc: int)
      requires Valid() && c in nodes && nodes[c].body.FileBody? && nodes[c].body.file.MapEntry?
      modifies this
      ensures Valid() && next == old(next)
      ensures var f := old(nodes[c].body.file);
        var r := EntryRefresh(k, MapParent(old(nodes), c), f.key, f.data);
        rc == r.0 && nodes == SetFile(old(nodes), c, MapEntry(f.key, r.1, f.dirty))
    {
      var f := nodes[c].body.file;
      var r := EntryRefresh(k, MapParent(nodes, c), f.key, f.data);
      Update(c, nodes[c].(body := FileBody(MapEntry(f.key, r.1, f.dirty))));
      rc := r.0;
    }

    /**
     * File::open records the node as the handle; MapEntry::open refreshes
     * first and fails with the refresh's code.
     */
    method FileOpen(c: Id, k: Kernel) returns (rc: int, fh: Option<Id>)
      requires Valid() && c in nodes && nodes[c].body.FileBody?
      modifies this
      ensures Valid() && next == old(next) && Opened(old(nodes), nodes, c, k, rc, fh)
    {
      if nodes[c].body.file.MapEntry? {
        rc := EntryRefreshAt(c, k);
        if rc != 0 {
          return rc, None;
        }
      } else {
        rc := 0;
      }
      fh := Some(c);
    }

    /**
     * One turn of either loop of ProgramDir::load: a FunctionDir (or MapDir)
     * for entry `i` goes into the listing under `names[i]`.
     */
    method AddBuilt(dd: Id, names: seq<string>, i: nat, mode: Mode, m: Module, k: Kernel, isMap: bool,
                    ghost o: Nodes, ghost lo: Id)
      requires Valid() && i < |names| && (forall x :: x in o ==> x < lo)
      requires Grown(o, nodes, lo) && dd !in o && dd in nodes && nodes[dd].parent.None?
      requires Listing(nodes, dd, names[..i], mode, m, k, isMap, lo, next)
      modifies this
      ensures Valid() && next > old(next)
      ensures Grown(o, nodes, lo) && dd in nodes && nodes[dd].parent.None?
      ensures Listing(nodes, dd, names[..i + 1], mode, m, k, isMap, lo, next)
    {
      ghost var a := nodes;
      ghost var h1 := next;
      var x;
      if isMap {
        x := NewMapDir(mode, m, i, k);
      } else {
        x := NewFunctionDir(mode, m, i);
      }
      ghost var m1 := nodes;
      GrownTrans(o, a, m1, lo, h1);
      ListedAbove(a, dd, names[..i], mode, m, k, isMap, lo, h1);
      AddChild(dd, names[i], x);
      ListingStep(a, m1, nodes, dd, names, i, x, mode, m, k, isMap, lo, h1, next);
      assert nodes.Keys == m1.Keys;
      assert x !in o;
      assert Children(m1, dd) == Children(a, dd);
      assert names[i] in Children(a, dd) ==> lo <= Children(a, dd)[names[i]];
      GrownLink(o, m1, nodes, lo, dd, names[i], x);
    }

    /**
     * The loops of ProgramDir::load: a new Dir holding a FunctionDir per
     * function name (or a MapDir per table name, when `isMap`).
     */
    method BuildListing(mode: Mode, m: Module, k: Kernel, isMap: bool) returns (dd: Id)
      requires Valid()
      modifies this
      ensures Valid() && Grown(old(nodes), nodes, old(next)) && next > old(next)
      ensures dd !in old(nodes) && dd in nodes && nodes[dd].parent.None?
      ensures Listing(nodes, dd, if isMap then m.tables else m.functions, mode, m, k, isMap, old(next), next)
    {
      var names := if isMap then m.tables else m.functions;
      dd := Alloc(NewDir(PlainDir, mode));
      var i := 0;
      while i < |names|
        invariant Valid() && i <= |names| && next > old(next)
        invariant Grown(old(nodes), nodes, old(next)) && dd !in old(nodes) && dd in nodes && nodes[dd].parent.None?
        invariant Listing(nodes, dd, names[..i], mode, m, k, isMap, old(next), next)
      {
        AddBuilt(dd, names, i, mode, m, k, isMap, old(nodes), old(next));
        i := i + 1;
      }
      assert names[..i] == names;
    }

    /**
     * `auto dd = make_unique<Dir>(mode_)`, the loop filling it, and
     * `add_child(name, move(dd))`, in ProgramDir::load.
     */
    method AttachListing(d: Id, name: string, m: Module, k: Kernel, isMap: bool) returns (dd: Id)
      requires Valid() && IsDir(nodes, d)
      modifies this
      ensures Valid() && IsDir(nodes, d) && next > old(next)
      ensures Attached(old(nodes), nodes, d, name, dd, if isMap then m.tables else m.functions, m, k, isMap, old(next), next)
    {
      ghost var a := nodes;
      dd := BuildListing(nodes[d].mode, m, k, isMap);
      ghost var n2 := nodes;
      ReleasedGrown(a, a, n2, old(next), d, d);
      assert Children(n2, d) == Children(a, d);
      AddChild(d, name, dd);
      ReleasedBound(a, n2, nodes, d, d, name, dd);
      BoundBodies(n2, nodes, d, name, dd);
      ListingKept(n2, nodes, dd, if isMap then m.tables else m.functions, a[d].mode, m, k, isMap, old(next), next, next);
    }

    /**
     * ProgramDir::load: 1 when there is no StatFile "valid" or the text does
     * not compile (then "valid" reads "0\n"); otherwise the module is kept,
     * "valid" reads "1\n" and the "functions" and "maps" listings are added.
     */
    method ProgramLoad(d: Id, text: CString, k: Kernel) returns (rc: int)
      requires Valid() && IsDir(nodes, d) && nodes[d].body.role.ProgramDir?
      modifies this
      ensures Valid() && IsDir(nodes, d)
      ensures LoadResult(old(nodes), nodes, d, text, k, old(next), next, rc)
    {
      var v := ValidFile(nodes, d);
      if v.None? {
        return 1;
      }
      var mo := k.compileC(text);
      if mo.None? {
        Update(v.value, SetStat(nodes, v.value, "0\n")[v.value]);
        return 1;
      }
      LoadModule(d, v.value, mo.value, k);
      rc := 0;
    }

    /** The part of ProgramDir::load after the module compiled. */
    method LoadModule(d: Id, v: Id, m: Module, k: Kernel)
      requires Valid() && IsDir(nodes, d) && ValidFile(nodes, d) == Some(v)
      modifies this
      ensures Valid() && IsDir(nodes, d) && next > old(next)
      ensures Loaded(old(nodes), nodes, d, v, m, k, old(next), next)
    {
      ghost var a := nodes;
      Update(d, SetProgram(nodes, d, Some(m))[d]);
      Update(v, SetStat(nodes, v, "1\n")[v]);
      ghost var n1 := nodes;
      assert Children(n1, d) == Children(a, d) && Released(a, n1, d, v);
      var functions := AttachListing(d, "functions", m, k, false);
      ghost var n2 := nodes;
      ghost var h1 := next;
      var maps := AttachListing(d, "maps", m, k, true);
      LoadedOf(a, n1, n2, nodes, d, v, m, k, old(next), h1, next, functions, maps);
    }

    /**
     * Dir::leaf and Inode::leaf: follow `next` through existing children,
     * consuming each component taken.
     */
    method Leaf(at: Id, p: PathCursor) returns (r: Id)
      requires Valid() && at in nodes && p.Valid()
      modifies p
      ensures p.Valid()
      ensures r == Walk(nodes, at, old(p.Remaining())).0
      ensures p.consumed == old(p.consumed) + Walk(nodes, at, old(p.Remaining())).1
      ensures p.Remaining() == old(p.Remaining())[Walk(nodes, at, old(p.Remaining())).1..]
      decreases |p.Remaining()|
    {
      ghost var rem := p.Remaining();
      if p.next.None? {
        assert rem == [];
        return at;
      }
      assert rem[0] == p.next.value;
      var n := nodes[at];
      if !n.body.DirBody? || p.next.value !in n.body.children {
        return at;
      }
      var c := n.body.children[p.next.value];
      assert DirOk(nodes, at);
      ghost var w := Walk(nodes, c, rem[1..]);
      assert Walk(nodes, at, rem) == (w.0, w.1 + 1);
      p.Consume();
      r := Leaf(c, p);
      DropAfterHead(rem, w.1);
    }

    /** Dir::readdir: ".", "..", then the names of the children in key order. */
    method ListDir(d: Id) returns (names: seq<string>)
      requires Valid() && IsDir(nodes, d)
      ensures DirListing(nodes, d, names)
    {
      var keys := SortedKeys(nodes[d].body.children.Keys);
      names := [".", ".."] + keys;
      assert names[2..] == keys;
    }

    /** The getattr callback of node `c`, dispatched on its class. */
    method NodeGetattr(c: Id, k: Kernel, now: nat) returns (rc: int, st: Stat)
      requires Valid() && c in nodes
      modifies this
      ensures Valid() && Stated(old(nodes), nodes, old(next), next, c, k, now, rc, st)
    {
      var n := nodes[c];
      if n.body.DirBody? && n.body.role.MapDir? {
        rc := MapRefresh(c, k, now);
        st := if rc == 0 then DirStat(nodes[c]) else ZeroStat;
      } else if n.body.FileBody? && n.body.file.MapEntry? {
        rc := EntryRefreshAt(c, k);
        st := if rc == 0 then FileStat(nodes[c].body.file) else ZeroStat;
      } else {
        rc, st := NodeStat(n).0, NodeStat(n).1;
      }
    }

    /** The readdir callback of directory `d`: MapDir::readdir refreshes first. */
    method NodeReaddir(d: Id, k: Kernel, now: nat) returns (rc: int, names: seq<string>)
      requires Valid() && IsDir(nodes, d)
      modifies this
      ensures Valid() && Listed(old(nodes), nodes, old(next), next, d, k, now, rc, names)
    {
      if nodes[d].body.role.MapDir? {
        rc := MapRefresh(d, k, now);
        if rc != 0 {
          return rc, [];
        }
      }
      names := ListDir(d);
      rc := 0;
    }

    /** FunctionSocket::mknod on node `c`: the first one makes it ready, later ones are -EEXIST. */
    method SocketMknod(c: Id) returns (rc: int)
      requires Valid() && c in nodes && nodes[c].body.FdSocketBody?
      modifies this
      ensures Valid() && next == old(next)
      ensures var b := old(nodes[c].body);
        var r := SocketOps.FdSocketMknod(b.ready);
        rc == r.0 && nodes == old(nodes)[c := old(nodes[c]).(body := FdSocketBody(b.fdRdev, b.fd, r.1))]
    {
      var n := nodes[c];
      var r := SocketOps.FdSocketMknod(n.body.ready);
      Update(c, n.(body := FdSocketBody(n.body.fdRdev, n.body.fd, r.1)));
      rc := r.0;
    }
  }
}
