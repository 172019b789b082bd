/**
 * The first version of the filesystem (src/dir.cc, src/file.cc): a root
 * directory whose sub-directories are programs, each holding `maps`,
 * `source` and `valid`, with `functions` and one directory per table added
 * when the source compiles. The objects form a tree of owned pointers; here
 * they live in an arena keyed by allocation order, as in module Inodes, and
 * a directory's children are allocated after it.
 *
 * Unlike the later tree, a directory keeps its `n_files_`/`n_dirs_`
 * counters by hand in each constructor and operation, as size_t (64-bit
 * unsigned) values, and `getattr` reports `2 + n_dirs_` links.
 */
module Legacy {
  import opened Wrappers
  import opened Posix
  import opened Bpf
  import opened StringUtil
  import opened KeyOrder
  import FileOps
  import Subtrees
  import Refresh

  // ---------------------------------------------------------------------
  // std::to_string

  predicate IsDigits(s: string) {
    forall i :: 0 <= i < |s| ==> '0' <= s[i] <= '9'
  }

  /** What std::to_string of an int can produce: digits, after a '-' for a negative value. */
  predicate IsDecimal(s: string) {
    && |s| >= 1
    && (s[0] == '-' ==> |s| >= 2 && IsDigits(s[1..]))
    && (s[0] != '-' ==> IsDigits(s))
  }

  function Digit(d: nat): (c: char)
    requires d < 10
    ensures '0' <= c <= '9' && c as int - '0' as int == d
  {
    ('0' as int + d) as char
  }

  /** The decimal digits of n, most significant first, with no leading zero. */
  function NatDecimal(n: nat): (s: string)
    ensures |s| >= 1 && IsDigits(s)
    ensures n > 0 ==> s[0] != '0'
    decreases n
  {
    if n < 10 then [Digit(n)] else NatDecimal(n / 10) + [Digit(n % 10)]
  }

  /** std::to_string(int). */
  function Decimal(n: int): (s: string)
    ensures IsDecimal(s)
    ensures s[0] == '-' <==> n < 0
  {
    if n < 0 then "-" + NatDecimal(-n) else NatDecimal(n)
  }

  /** The value of a digit string, read left to right. */
  function ParseNat(s: string): nat
    requires IsDigits(s)
    decreases |s|
  {
    if s == [] then 0 else ParseNat(s[..|s| - 1]) * 10 + (s[|s| - 1] as int - '0' as int)
  }

  function ParseDecimal(s: string): int
    requires IsDecimal(s)
  {
    if s[0] == '-' then 0 - ParseNat(s[1..]) else ParseNat(s)
  }

  lemma {:induction false} NatDecimalRoundTrip(n: nat)
    ensures ParseNat(NatDecimal(n)) == n
    decreases n
  {
    if n >= 10 {
      var s := NatDecimal(n);
      assert s[..|s| - 1] == NatDecimal(n / 10);
      NatDecimalRoundTrip(n / 10);
    }
  }

  /** Reading back the text std::to_string produced gives the number: distinct fds get distinct names. */
  lemma DecimalRoundTrip(n: int)
    ensures ParseDecimal(Decimal(n)) == n
  {
    if n < 0 {
      NatDecimalRoundTrip(-n);
      assert Decimal(n)[1..] == NatDecimal(-n);
    } else {
      NatDecimalRoundTrip(n);
    }
  }

  // ---------------------------------------------------------------------
  // The objects

  type Id = nat

  /** The root directory's id. */
  const Root: Id := 0

  /** What a directory is beyond a `Dir`. */
  datatype DirRole =
    | PlainDir                          // a bare `Dir`, such as "maps"
    | RootDir
    | ProgramDir(prog: Option<Module>)  // bpf_module_, None for null
    | FunctionDir(fds: map<string, int>)
    | MapDir(fd: int)

  datatype FileRole =
    | SourceFile(text: string, parent: Id)
    | StatFile(data: string)
    | FunctionFile(fd: int)

  datatype Node =
    | Dir(role: DirRole, mode: Mode, children: map<string, Id>, nFiles: Size, nDirs: Size)
    | File(file: FileRole)
    | Link(linkMode: Mode, dst: string)

  type Nodes = map<Id, Node>

  predicate IsDir(nodes: Nodes, d: Id) {
    d in nodes && nodes[d].Dir?
  }

  predicate IsProgram(nodes: Nodes, d: Id) {
    IsDir(nodes, d) && nodes[d].role.ProgramDir?
  }

  /** A directory's children exist and were allocated after it. */
  ghost predicate DirOk(nodes: Nodes, d: Id)
    requires d in nodes
  {
    nodes[d].Dir? ==>
      forall n :: n in nodes[d].children ==> d < nodes[d].children[n] && nodes[d].children[n] in nodes
  }

  /** A source file's `parent_` is a program directory. */
  ghost predicate SourceOk(nodes: Nodes, i: Id)
    requires i in nodes
  {
    nodes[i].File? && nodes[i].file.SourceFile? ==> IsProgram(nodes, nodes[i].file.parent)
  }

  ghost predicate Closed(nodes: Nodes) {
    && IsDir(nodes, Root) && nodes[Root].role.RootDir?
    && (forall i {:trigger DirOk(nodes, i)} :: i in nodes ==> DirOk(nodes, i))
    && (forall i {:trigger SourceOk(nodes, i)} :: i in nodes ==> SourceOk(nodes, i))
  }

  /** b keeps every node of a, and differs from a only at the ids in `changed`. */
  ghost predicate Grows(a: Nodes, b: Nodes, changed: set<Id>) {
    a.Keys <= b.Keys && forall i :: i in a && i !in changed ==> b[i] == a[i]
  }

  /** A replacement for node d that keeps d's kind: a program stays a program, the root the root. */
  predicate KindKept(n: Node, m: Node) {
    && (n.Dir? && n.role.ProgramDir? ==> m.Dir? && m.role.ProgramDir?)
    && (n.Dir? && n.role.RootDir? ==> m.Dir? && m.role.RootDir?)
  }

  // ---------------------------------------------------------------------
  // What the constructors build

  /** The `valid` file of program d, if it is there and is a StatFile. */
  predicate HasValid(nodes: Nodes, d: Id)
    requires IsDir(nodes, d)
  {
    "valid" in nodes[d].children && nodes[d].children["valid"] in nodes
    && nodes[nodes[d].children["valid"]].File? && nodes[nodes[d].children["valid"]].file.StatFile?
  }

  /** Program d has a `maps` directory. */
  predicate HasMaps(nodes: Nodes, d: Id)
    requires IsDir(nodes, d)
  {
    "maps" in nodes[d].children && IsDir(nodes, nodes[d].children["maps"])
  }

  /** A new ProgramDir at pd (src/dir.cc:76-83), built out of ids from lo on. */
  ghost predicate NewProgram(nodes: Nodes, pd: Id, mode: Mode, lo: Id) {
    && pd in nodes && lo <= pd && nodes[pd].Dir?
    && var n := nodes[pd];
    && n.role == ProgramDir(None) && n.mode == mode && n.nFiles == 2 && n.nDirs == 1
    && n.children.Keys == {"maps", "source", "valid"}
    && (forall c :: c in n.children ==> pd < n.children[c] && n.children[c] in nodes)
    && nodes[n.children["maps"]] == Dir(PlainDir, mode, map[], 0, 0)
    && nodes[n.children["source"]] == File(SourceFile("", pd))
    && nodes[n.children["valid"]] == File(StatFile("0\n"))
  }

  /** The four nodes ProgramDir's constructor allocates, one after another from pd, make a NewProgram. */
  lemma ProgramBuilt(a: Nodes, b: Nodes, pd: Id, mode: Mode)
    requires forall i :: i in a ==> i < pd
    requires b.Keys == a.Keys + {pd, pd + 1, pd + 2, pd + 3} && forall i :: i in a ==> b[i] == a[i]
    requires b[pd] == Dir(ProgramDir(None), mode, map["maps" := pd + 1]["source" := pd + 2]["valid" := pd + 3], 2, 1)
    requires b[pd + 1] == Dir(PlainDir, mode, map[], 0, 0)
    requires b[pd + 2] == File(SourceFile("", pd)) && b[pd + 3] == File(StatFile("0\n"))
    ensures NewProgram(b, pd, mode, pd) && Grows(a, b, {})
  {
  }

  /** A new FunctionDir at f (src/dir.cc:124-131): one FunctionFile per entry, counted in n_files_. */
  ghost predicate FunctionDirShape(nodes: Nodes, f: Id, mode: Mode, fds: map<string, int>, lo: Id) {
    && f in nodes && lo <= f && nodes[f].Dir?
    && var n := nodes[f];
    && n.role == FunctionDir(fds) && n.mode == mode && n.nFiles == Count(|fds|) && n.nDirs == 0
    && n.children.Keys == fds.Keys
    && forall c :: c in n.children ==>
         f < n.children[c] && n.children[c] in nodes && nodes[n.children[c]] == File(FunctionFile(fds[c]))
  }

  /** A new MapDir at md (src/dir.cc:133-139): its fd as text, and a link named after it. */
  ghost predicate MapDirShape(nodes: Nodes, md: Id, mode: Mode, fd: int, lo: Id) {
    && md in nodes && lo <= md && nodes[md].Dir?
    && var n := nodes[md];
    && n.role == MapDir(fd) && n.mode == mode && n.nFiles == 1 && n.nDirs == 1
    && n.children.Keys == {"fd", "link"}
    && md < n.children["fd"] && n.children["fd"] in nodes
    && nodes[n.children["fd"]] == File(StatFile(Decimal(fd) + "\n"))
    && md < n.children["link"] && n.children["link"] in nodes
    && nodes[n.children["link"]] == Link(mode, "/tmp/bcc-fd-" + Decimal(fd))
  }

  /** Each name in `children` names a FunctionFile over its fd in `fds`, allocated after f. */
  ghost predicate FunctionFilesOk(nodes: Nodes, f: Id, fds: map<string, int>, children: map<string, Id>) {
    forall n :: n in children ==>
      n in fds && f < children[n] && children[n] in nodes && nodes[children[n]] == File(FunctionFile(fds[n]))
  }

  /** The name of every function of the module, mapped to fd -1. */
  ghost function MinusOnes(names: seq<string>): (r: map<string, int>)
    ensures forall n :: n in r <==> n in names
    ensures forall n :: n in r ==> r[n] == -1
  {
    map n | n in names :: -1
  }

  lemma FunctionDirKept(a: Nodes, b: Nodes, f: Id, mode: Mode, fds: map<string, int>, lo: Id, changed: set<Id>)
    requires FunctionDirShape(a, f, mode, fds, lo) && Grows(a, b, changed)
    requires forall x :: x in changed ==> x < lo
    ensures FunctionDirShape(b, f, mode, fds, lo)
  {
  }

  lemma MapDirKept(a: Nodes, b: Nodes, md: Id, mode: Mode, fd: int, lo: Id, changed: set<Id>)
    requires MapDirShape(a, md, mode, fd, lo) && Grows(a, b, changed)
    requires forall x :: x in changed ==> x < lo
    ensures MapDirShape(b, md, mode, fd, lo)
  {
  }

  /**
   * The `maps` directory md after load_program's loop: every table name
   * now names a new MapDir over the fd of its last occurrence, the other
   * entries and both counters are as before.
   */
  ghost predicate MapsFilled(a: Nodes, b: Nodes, md: Id, mode: Mode, m: Module, k: Kernel, lo: Id)
    requires IsDir(a, md)
  {
    && IsDir(b, md)
    && b[md] == a[md].(children := b[md].children)
    && (forall n :: n in b[md].children <==> n in a[md].children || n in m.tables)
    && (forall n :: n in a[md].children && n !in m.tables ==> b[md].children[n] == a[md].children[n])
    && forall n :: n in m.tables ==>
         n in b[md].children && MapDirShape(b, b[md].children[n], mode, k.tableFd(m, Subtrees.LastIndex(m.tables, n)), lo)
  }

  // ---------------------------------------------------------------------
  // Program loading

  /**
   * The part of load_program after a successful compile (src/dir.cc:93-109)
   * on program pd, from a to b with new ids from lo on.
   */
  ghost predicate LoadedModule(a: Nodes, b: Nodes, lo: Id, pd: Id, m: Module, k: Kernel)
    requires IsProgram(a, pd) && HasValid(a, pd)
  {
    var p := a[pd];
    var v := p.children["valid"];
    && Grows(a, b, {pd, v} + (if HasMaps(a, pd) then {p.children["maps"]} else {}))
    && b[v] == File(StatFile("1\n"))
    && IsDir(b, pd) && "functions" in b[pd].children
    && var f := b[pd].children["functions"];
    && b[pd] == Dir(ProgramDir(Some(m)), p.mode, p.children["functions" := f], p.nFiles, Inc(p.nDirs))
    && FunctionDirShape(b, f, p.mode, MinusOnes(m.functions), lo)
    && (HasMaps(a, pd) ==> MapsFilled(a, b, p.children["maps"], p.mode, m, k, lo))
  }

  /** The first half of LoadedModule: the module is set, `valid` reads "1\n" and `functions` is in. */
  ghost predicate FunctionsAdded(a: Nodes, b: Nodes, lo: Id, pd: Id, m: Module)
    requires IsProgram(a, pd) && HasValid(a, pd)
  {
    var p := a[pd];
    var v := p.children["valid"];
    && Grows(a, b, {pd, v})
    && b[v] == File(StatFile("1\n"))
    && IsDir(b, pd) && "functions" in b[pd].children
    && var f := b[pd].children["functions"];
    && b[pd] == Dir(ProgramDir(Some(m)), p.mode, p.children["functions" := f], p.nFiles, Inc(p.nDirs))
    && FunctionDirShape(b, f, p.mode, MinusOnes(m.functions), lo)
  }

  /** Without a `maps` directory, adding the functions is the whole load. */
  lemma LoadedNoMaps(a: Nodes, b: Nodes, lo: Id, pd: Id, m: Module, k: Kernel)
    requires IsProgram(a, pd) && HasValid(a, pd) && !HasMaps(a, pd)
    requires FunctionsAdded(a, b, lo, pd, m)
    ensures LoadedModule(a, b, lo, pd, m, k)
  {
    var v := a[pd].children["valid"];
    assert {pd, v} + {} == {pd, v};
  }

  /** With one, the table loop on `maps` after the functions completes the load. */
  lemma LoadedWithMaps(a: Nodes, s: Nodes, b: Nodes, lo: Id, lo1: Id, pd: Id, m: Module, k: Kernel)
    requires Closed(a) && (forall i :: i in a ==> i < lo) && lo <= lo1
    requires IsProgram(a, pd) && HasValid(a, pd) && HasMaps(a, pd)
    requires FunctionsAdded(a, s, lo, pd, m)
    requires var maps := a[pd].children["maps"];
      IsDir(s, maps) && Grows(s, b, {maps}) && MapsFilled(s, b, maps, a[pd].mode, m, k, lo1)
    ensures LoadedModule(a, b, lo, pd, m, k)
  {
    var p := a[pd];
    var v, maps := p.children["valid"], p.children["maps"];
    assert DirOk(a, pd);
    assert maps != pd && maps != v && maps < lo;
    var f := s[pd].children["functions"];
    FunctionDirKept(s, b, f, p.mode, MinusOnes(m.functions), lo, {maps});
    GrowsTrans(a, s, b, {pd, v}, {maps});
    MapsFilledFrom(a, s, b, maps, p.mode, m, k, lo, lo1);
  }

  /**
   * ProgramDir::load_program (src/dir.cc:85-110) on program pd, from a to
   * b with new ids from lo on; rc is its return value.
   */
  ghost predicate Loaded(a: Nodes, b: Nodes, lo: Id, pd: Id, text: string, k: Kernel, flags: bv32, rc: int)
    requires IsProgram(a, pd)
  {
    if !HasValid(a, pd) then rc == 1 && b == a
    else
      match k.compileB(text, flags)
      case None => rc == 1 && b == a[a[pd].children["valid"] := File(StatFile("0\n"))]
      case Some(m) => rc == 0 && LoadedModule(a, b, lo, pd, m, k)
  }

  lemma GrowsTrans(a: Nodes, b: Nodes, c: Nodes, x: set<Id>, y: set<Id>)
    requires Grows(a, b, x) && Grows(b, c, y)
    ensures Grows(a, c, x + y)
  {
  }

  /** What the table loop built from one state also holds from an earlier one where `maps` was the same. */
  lemma MapsFilledFrom(a: Nodes, a1: Nodes, b: Nodes, md: Id, mode: Mode, m: Module, k: Kernel, lo: Id, lo1: Id)
    requires IsDir(a, md) && IsDir(a1, md) && a1[md] == a[md] && lo <= lo1
    requires MapsFilled(a1, b, md, mode, m, k, lo1)
    ensures MapsFilled(a, b, md, mode, m, k, lo)
  {
    forall n | n in m.tables
      ensures n in b[md].children && MapDirShape(b, b[md].children[n], mode, k.tableFd(m, Subtrees.LastIndex(m.tables, n)), lo)
    {
      assert MapDirShape(b, b[md].children[n], mode, k.tableFd(m, Subtrees.LastIndex(m.tables, n)), lo1);
    }
  }

  /** The `maps` directory md after the first i rounds of load_program's table loop. */
  ghost predicate MapsUpTo(a: Nodes, b: Nodes, md: Id, mode: Mode, m: Module, k: Kernel, lo: Id, i: nat)
    requires IsDir(a, md) && i <= |m.tables|
  {
    var done := m.tables[..i];
    && IsDir(b, md) && b[md] == a[md].(children := b[md].children)
    && (forall n :: n in b[md].children <==> n in a[md].children || n in done)
    && (forall n :: n in a[md].children && n !in done ==> b[md].children[n] == a[md].children[n])
    && (forall n :: n in done ==> MapDirShape(b, b[md].children[n], mode, k.tableFd(m, Subtrees.LastIndex(done, n)), lo))
  }

  /** Before the first round nothing has changed. */
  lemma MapsStart(a: Nodes, md: Id, mode: Mode, m: Module, k: Kernel, lo: Id)
    requires IsDir(a, md)
    ensures MapsUpTo(a, a, md, mode, m, k, lo, 0)
  {
  }

  /** After the last round every table is in. */
  lemma MapsDone(a: Nodes, b: Nodes, md: Id, mode: Mode, m: Module, k: Kernel, lo: Id)
    requires IsDir(a, md) && MapsUpTo(a, b, md, mode, m, k, lo, |m.tables|)
    ensures MapsFilled(a, b, md, mode, m, k, lo)
  {
    assert m.tables[..|m.tables|] == m.tables;
  }

  /**
   * One round: a new MapDir `dir` over table i's fd, built from b to mid,
   * then bound under the table's name in md, giving c.
   */
  lemma MapsStep(a: Nodes, b: Nodes, mid: Nodes, c: Nodes, md: Id, mode: Mode, m: Module, k: Kernel,
                 lo: Id, i: nat, dir: Id)
    requires IsDir(a, md) && i < |m.tables| && md < lo && MapsUpTo(a, b, md, mode, m, k, lo, i)
    requires Grows(b, mid, {}) && MapDirShape(mid, dir, mode, k.tableFd(m, i), lo)
    requires c == mid[md := mid[md].(children := mid[md].children[m.tables[i] := dir])]
    ensures MapsUpTo(a, c, md, mode, m, k, lo, i + 1) && Grows(b, c, {md})
  {
    var name := m.tables[i];
    var done, done' := m.tables[..i], m.tables[..i + 1];
    assert done' == done + [name];
    assert Grows(mid, c, {md});
    forall n | n in done'
      ensures MapDirShape(c, c[md].children[n], mode, k.tableFd(m, Subtrees.LastIndex(done', n)), lo)
    {
      if n == name {
        assert Subtrees.LastIndex(done', n) == i;
        MapDirKept(mid, c, dir, mode, k.tableFd(m, i), lo, {md});
      } else {
        Subtrees.LastIndexAppend(done, name, n);
        MapDirKept(b, mid, b[md].children[n], mode, k.tableFd(m, Subtrees.LastIndex(done, n)), lo, {});
        MapDirKept(mid, c, b[md].children[n], mode, k.tableFd(m, Subtrees.LastIndex(done, n)), lo, {md});
      }
    }
  }

  /**
   * ProgramDir::unload_program (src/dir.cc:112-122): without a `valid`
   * StatFile it returns 1 and changes nothing; otherwise `valid` reads
   * "0\n", `functions` is gone, the module is null and n_dirs_ is one
   * less, whether or not `functions` was there.
   */
  ghost function Unload(a: Nodes, pd: Id): (r: (Nodes, int))
    requires Closed(a) && IsProgram(a, pd)
    ensures Closed(r.0) && r.0.Keys == a.Keys
    ensures r.1 == (if HasValid(a, pd) then 0 else 1)
    ensures !HasValid(a, pd) ==> r.0 == a
    ensures HasValid(a, pd) ==>
      && var p := a[pd];
      && Grows(a, r.0, {pd, p.children["valid"]})
      && r.0[p.children["valid"]] == File(StatFile("0\n"))
      && r.0[pd] == Dir(ProgramDir(None), p.mode, p.children - {"functions"}, p.nFiles, Dec(p.nDirs))
  {
    if !HasValid(a, pd) then (a, 1)
    else
      var p := a[pd];
      var v := p.children["valid"];
      var a1 := a[v := File(StatFile("0\n"))];
      var b := a1[pd := Dir(ProgramDir(None), p.mode, p.children - {"functions"}, p.nFiles, Dec(p.nDirs))];
      assert DirOk(a, pd);
      assert forall i :: i in b ==> DirOk(b, i) && SourceOk(b, i) by {
        forall i | i in b ensures DirOk(b, i) && SourceOk(b, i) {
          assert DirOk(a, i) && SourceOk(a, i);
        }
      }
      (b, 0)
  }

  /**
   * The counter goes down on every unload: a program that never compiled,
   * unloaded twice (`truncate` on its source unloads each time), ends with
   * n_dirs_ wrapped to 2^64-1, and getattr reports one link for a
   * directory that holds `maps`.
   */
  lemma UnloadTwiceWraps(a: Nodes, pd: Id)
    requires Closed(a) && IsDir(a, pd) && NewProgram(a, pd, a[pd].mode, pd)
    ensures var b := Unload(Unload(a, pd).0, pd).0;
      && b[pd].nDirs == SizeMod - 1
      && HasMaps(b, pd)
      && DirGetattr(b[pd]).nlink == 1
  {
    var a1 := Unload(a, pd).0;
    assert a1[pd].children == a[pd].children - {"functions"};
    assert HasValid(a1, pd);
  }

  /** Unloading again erases nothing more, but counts one more directory gone. */
  lemma UnloadTwice(a: Nodes, pd: Id)
    requires Closed(a) && IsProgram(a, pd) && HasValid(a, pd)
    ensures var b := Unload(a, pd).0;
      && IsProgram(b, pd) && HasValid(b, pd)
      && var c := Unload(b, pd).0;
      && c[pd].children == b[pd].children
      && c[pd].nDirs == Dec(Dec(a[pd].nDirs))
      && c[pd].nDirs != b[pd].nDirs
  {
  }

  // ---------------------------------------------------------------------
  // Read-only callbacks

  /** Dir::getattr (src/dir.cc:43-47): S_IFDIR with the mode, and 2 + n_dirs_ links in size_t arithmetic. */
  function DirGetattr(n: Node): (st: Stat)
    requires n.Dir?
    ensures st.mode == S_IFDIR | n.mode
    ensures n.nDirs < SizeMod - 2 ==> st.nlink == n.nDirs + 2
    ensures n.nDirs >= SizeMod - 2 ==> st.nlink == n.nDirs + 2 - SizeMod
  {
    Stat(S_IFDIR | n.mode, (2 + n.nDirs) % SizeMod, 0)
  }

  /** File::getattr (src/file.cc:34-39): a read-only regular file of the class's size(). */
  function FileGetattr(size: nat): (st: Stat)
    ensures st.mode & S_IFMT == S_IFREG && st.mode & S_IWUSR == 0
    ensures st.nlink == 1 && st.size == size
  {
    Stat(S_IFREG | Mode0444, 1, size)
  }

  /**
   * File::read_helper and SourceFile::read as written (src/file.cc:46-63):
   * the bytes copied are those of the later read_helper, but past the end
   * the count returned is the size asked for, not 0.
   */
  function ReadHelper(data: string, size: nat, offset: nat): (r: (int, string))
    ensures r.1 == FileOps.ReadHelper(data, size, offset)
    ensures offset < |data| ==> r.0 == |r.1|
    ensures offset >= |data| ==> r.0 == size
  {
    if offset < |data| then
      var n := Min(size, |data| - offset);
      (n, data[offset..offset + n])
    else (size, [])
  }

  /**
   * At the end of the data a read reports the full count with nothing
   * copied: "ab" read at offset 2 for 4096 bytes returns 4096, so a reader
   * that stops at a 0 return never stops.
   */
  lemma ReadPastEnd(data: string, size: nat, offset: nat)
    requires offset >= |data| && size > 0
    ensures ReadHelper(data, size, offset).0 == size
    ensures ReadHelper(data, size, offset).0 != |ReadHelper(data, size, offset).1|
    ensures ReadHelper("ab", 4096, 2) == (4096, [])
  {
  }

  /** The text each file class serves to read: its data, or FunctionFile's fd (src/file.cc:56-63, 87-93). */
  function Served(f: FileRole): (s: string)
    ensures f.FunctionFile? ==> |s| >= 2 && s[..|s| - 1] == Decimal(f.fd) && s[|s| - 1] == '\n'
    ensures !f.FunctionFile? ==> s == (if f.SourceFile? then f.text else f.data)
  {
    match f
    case SourceFile(text, _) => text
    case StatFile(data) => data
    case FunctionFile(fd) => Decimal(fd) + "\n"
  }

  /** A FunctionFile's fd can be read back from what it serves. */
  lemma FunctionFileRoundTrip(fd: int, size: nat)
    requires size >= |Decimal(fd)| + 1
    ensures var s := ReadHelper(Served(FunctionFile(fd)), size, 0).1;
      s == Decimal(fd) + "\n" && ParseDecimal(s[..|s| - 1]) == fd
  {
    FileOps.ReadWhole(Served(FunctionFile(fd)), size);
    DecimalRoundTrip(fd);
  }

  /** map<string, int> function_fds of load_program: each name of the module mapped to -1. */
  method FunctionFds(names: seq<string>) returns (fds: map<string, int>)
    ensures fds == MinusOnes(names)
  {
    fds := map[];
    var i := 0;
    while i < |names|
      invariant i <= |names|
      invariant forall n :: n in fds <==> n in names[..i]
      invariant forall n :: n in fds ==> fds[n] == -1
    {
      fds := fds[names[i] := -1];
      i := i + 1;
    }
    assert names[..i] == names;
  }

  /** A new node that is neither a directory with children nor a source file keeps the arena closed. */
  lemma ClosedAlloc(n: Nodes, id: Id, x: Node)
    requires Closed(n) && id !in n && !x.Dir? && !(x.File? && x.file.SourceFile?)
    ensures Closed(n[id := x])
  {
    var r := n[id := x];
    forall i | i in r ensures DirOk(r, i) && SourceOk(r, i) {
      if i != id {
        assert DirOk(n, i) && SourceOk(n, i);
      }
    }
  }

  /** The arena of the older tree. */
  class InodeTable {
    var nodes: Nodes
    var next: Id

    ghost predicate Valid()
      reads this
    {
      Closed(nodes) && forall i :: i in nodes ==> i < next
    }

    /** The root directory: a `Dir` with no children and both counters 0 (src/dir.cc:30-32). */
    constructor (mode: Mode)
      ensures Valid() && nodes == map[Root := Dir(RootDir, mode, map[], 0, 0)] && next == 1
    {
      nodes := map[Root := Dir(RootDir, mode, map[], 0, 0)];
      next := 1;
    }

    /** make_unique: a node under the next free id; a directory starts empty. */
    method Alloc(n: Node) returns (id: Id)
      requires Valid()
      requires n.Dir? ==> n.children == map[]
      requires n.File? && n.file.SourceFile? ==> IsProgram(nodes, n.file.parent)
      modifies this
      ensures Valid() && id == old(next) && next == id + 1
      ensures id !in old(nodes) && nodes == old(nodes)[id := n]
    {
      id := next;
      nodes := nodes[id := n];
      next := next + 1;
      forall i | i in nodes ensures DirOk(nodes, i) && SourceOk(nodes, i) {
        if i != id {
          assert DirOk(old(nodes), i) && SourceOk(old(nodes), i);
        }
      }
    }

    /** An update of node d in place that keeps the structure closed. */
    method Put(d: Id, n: Node)
      requires Valid() && d in nodes && KindKept(nodes[d], n)
      requires DirOk(nodes[d := n], d) && SourceOk(nodes[d := n], d)
      modifies this
      ensures Valid() && next == old(next) && nodes == old(nodes)[d := n]
    {
      nodes := nodes[d := n];
      forall i | i in nodes ensures DirOk(nodes, i) && SourceOk(nodes, i) {
        if i != d {
          assert DirOk(old(nodes), i) && SourceOk(old(nodes), i);
        }
      }
    }

    /** Dir::add_child (src/dir.cc:59-61): the name now maps to c, whatever it mapped to; the counters stay. */
    method AddChild(d: Id, name: string, c: Id)
      requires Valid() && IsDir(nodes, d) && c in nodes && d < c
      modifies this
      ensures Valid() && next == old(next)
      ensures nodes == old(nodes)[d := old(nodes)[d].(children := old(nodes)[d].children[name := c])]
    {
      assert DirOk(nodes, d);
      Put(d, nodes[d].(children := nodes[d].children[name := c]));
    }

    /** Dir::remove_child (src/dir.cc:63-65): the name is gone; an absent name changes nothing; the counters stay. */
    method RemoveChild(d: Id, name: string)
      requires Valid() && IsDir(nodes, d)
      modifies this
      ensures Valid() && next == old(next)
      ensures nodes == old(nodes)[d := old(nodes)[d].(children := old(nodes)[d].children - {name})]
      ensures name !in old(nodes)[d].children ==> nodes == old(nodes)
    {
      assert DirOk(nodes, d);
      Put(d, nodes[d].(children := nodes[d].children - {name}));
      if name !in old(nodes)[d].children {
        assert old(nodes)[d].children - {name} == old(nodes)[d].children;
      }
    }

    /** ProgramDir's constructor (src/dir.cc:76-83). */
    method NewProgramDir(mode: Mode) returns (pd: Id)
      requires Valid()
      modifies this
      ensures Valid() && pd == old(next) && Grows(old(nodes), nodes, {})
      ensures NewProgram(nodes, pd, mode, old(next))
    {
      ghost var a := nodes;
      pd := Alloc(Dir(ProgramDir(None), mode, map[], 0, 0));
      var maps := Alloc(Dir(PlainDir, mode, map[], 0, 0));
      Put(pd, nodes[pd].(children := map["maps" := maps], nDirs := 1));
      var src := Alloc(File(SourceFile("", pd)));
      var valid := Alloc(File(StatFile("0\n")));
      Put(pd, nodes[pd].(children := nodes[pd].children["source" := src]["valid" := valid], nFiles := 2));
      ProgramBuilt(a, nodes, pd, mode);
    }

    /** RootDir::mkdir (src/dir.cc:67-74): -EEXIST for a taken name; else a new program, counted in n_dirs_. */
    method RootMkdir(name: string, mode: Mode) returns (rc: int)
      requires Valid()
      modifies this
      ensures Valid()
      ensures name in old(nodes)[Root].children ==> rc == -EEXIST && nodes == old(nodes) && next == old(next)
      ensures name !in old(nodes)[Root].children ==>
        && rc == 0
        && Grows(old(nodes), nodes, {Root})
        && var r := old(nodes)[Root];
        && nodes[Root] == r.(children := r.children[name := old(next)], nDirs := Inc(r.nDirs))
        && NewProgram(nodes, old(next), mode, old(next))
    {
      if name in nodes[Root].children {
        return -EEXIST;
      }
      var pd := NewProgramDir(mode);
      ghost var mid := nodes;
      assert DirOk(nodes, Root);
      Put(Root, nodes[Root].(children := nodes[Root].children[name := pd], nDirs := Inc(nodes[Root].nDirs)));
      rc := 0;
    }

    /**
     * The state of the loop of FunctionDir's constructor: the names done so
     * far each have their FunctionFile and are counted, `rest` holds the
     * others, and no node of `start` has changed.
     */
    ghost predicate FilesBuilt(start: Nodes, n: Nodes, nx: Id, f: Id, fds: map<string, int>,
                               children: map<string, Id>, count: Size, rest: set<string>)
    {
      && Closed(n) && (forall i :: i in n ==> i < nx) && f in n && Grows(start, n, {})
      && count == Count(|children|) && children.Keys <= fds.Keys && rest == fds.Keys - children.Keys
      && FunctionFilesOk(n, f, fds, children)
    }

    /** One more FunctionFile, allocated at `nx`, keeps the loop's state. */
    lemma FilesBuiltStep(start: Nodes, n: Nodes, nx: Id, f: Id, fds: map<string, int>,
                         children: map<string, Id>, count: Size, rest: set<string>, name: string)
      requires FilesBuilt(start, n, nx, f, fds, children, count, rest) && name in rest
      ensures var c := children[name := nx];
        FilesBuilt(start, n[nx := File(FunctionFile(fds[name]))], nx + 1, f, fds, c, Inc(count), rest - {name})
    {
      var x := File(FunctionFile(fds[name]));
      assert nx !in n;
      ClosedAlloc(n, nx, x);
      FilesCountStep(children, count, name, nx);
      FilesOkStep(n, nx, f, fds, children, name);
    }

    /** Adding a name not yet present counts one more child. */
    lemma FilesCountStep(children: map<string, Id>, count: Size, name: string, nx: Id)
      requires count == Count(|children|) && name !in children
      ensures Inc(count) == Count(|children[name := nx]|)
    {
      var c := children[name := nx];
      assert c.Keys == children.Keys + {name};
      assert |c| == |children| + 1;
      IncMod(|children|);
    }

    /** A fresh FunctionFile at `nx` for `name` extends the FunctionFilesOk relation. */
    lemma FilesOkStep(n: Nodes, nx: Id, f: Id, fds: map<string, int>, children: map<string, Id>, name: string)
      requires FunctionFilesOk(n, f, fds, children) && nx !in n && f < nx && name in fds
      ensures FunctionFilesOk(n[nx := File(FunctionFile(fds[name]))], f, fds, children[name := nx])
    {
    }

    /** The loop of FunctionDir's constructor: one FunctionFile per entry of the map, each counted. */
    method FunctionFiles(f: Id, fds: map<string, int>) returns (children: map<string, Id>, count: Size)
      requires Valid() && f in nodes
      modifies this
      ensures Valid() && Grows(old(nodes), nodes, {})
      ensures children.Keys == fds.Keys && count == Count(|fds|)
      ensures FunctionFilesOk(nodes, f, fds, children)
    {
      ghost var start := nodes;
      var rest := fds.Keys;
      children, count := map[], 0;
      FilesStart(start, next, f, fds);
      while rest != {}
        invariant FilesBuilt(start, nodes, next, f, fds, children, count, rest)
        decreases |rest|
      {
        var name :| name in rest;
        children, count, rest := AddFunctionFile(start, f, fds, name, children, count, rest);
      }
      FilesDone(start, nodes, next, f, fds, children, count);
    }

    /** Before the first round nothing is built and every name is left. */
    lemma FilesStart(n: Nodes, nx: Id, f: Id, fds: map<string, int>)
      requires Closed(n) && (forall i :: i in n ==> i < nx) && f in n
      ensures FilesBuilt(n, n, nx, f, fds, map[], 0, fds.Keys)
    {
      assert Count(0) == 0;
    }

    /** After the last round every name has its FunctionFile and the count is the number of entries. */
    lemma FilesDone(start: Nodes, n: Nodes, nx: Id, f: Id, fds: map<string, int>, children: map<string, Id>, count: Size)
      requires FilesBuilt(start, n, nx, f, fds, children, count, {})
      ensures Closed(n) && (forall i :: i in n ==> i < nx) && Grows(start, n, {})
      ensures children.Keys == fds.Keys && count == Count(|fds|)
      ensures FunctionFilesOk(n, f, fds, children)
    {
      forall k | k in fds ensures k in children {
        assert k !in fds.Keys - children.Keys;
      }
      assert children.Keys == fds.Keys;
    }

    /** One round of that loop: `children_[name] = make_unique<FunctionFile>(...)` and `++n_files_`. */
    method AddFunctionFile(ghost start: Nodes, f: Id, fds: map<string, int>, name: string,
                           children: map<string, Id>, count: Size, rest: set<string>)
      returns (children': map<string, Id>, count': Size, rest': set<string>)
      requires FilesBuilt(start, nodes, next, f, fds, children, count, rest) && name in rest
      modifies this
      ensures FilesBuilt(start, nodes, next, f, fds, children', count', rest')
      ensures children' == children[name := old(next)] && rest' == rest - {name} && |rest'| < |rest|
    {
      FilesBuiltStep(start, nodes, next, f, fds, children, count, rest, name);
      var c := next;
      nodes := nodes[c := File(FunctionFile(fds[name]))];
      next := next + 1;
      children' := children[name := c];
      count' := Inc(count);
      rest' := rest - {name};
    }

    /** FunctionDir's constructor (src/dir.cc:124-131), walking the map in key order. */
    method NewFunctionDir(mode: Mode, fds: map<string, int>) returns (f: Id)
      requires Valid()
      modifies this
      ensures Valid() && f == old(next) && Grows(old(nodes), nodes, {})
      ensures FunctionDirShape(nodes, f, mode, fds, old(next))
    {
      f := Alloc(Dir(FunctionDir(fds), mode, map[], 0, 0));
      var children, count := FunctionFiles(f, fds);
      assert DirOk(nodes, f);
      Put(f, Dir(FunctionDir(fds), mode, children, count, 0));
    }

    /** MapDir's constructor (src/dir.cc:133-139); the link counts as a directory. */
    method NewMapDir(mode: Mode, fd: int) returns (md: Id)
      requires Valid()
      modifies this
      ensures Valid() && md == old(next) && Grows(old(nodes), nodes, {})
      ensures MapDirShape(nodes, md, mode, fd, old(next))
    {
      md := Alloc(Dir(MapDir(fd), mode, map[], 0, 0));
      var s := Alloc(File(StatFile(Decimal(fd) + "\n")));
      Put(md, nodes[md].(children := map["fd" := s], nFiles := 1));
      var l := Alloc(Link(mode, "/tmp/bcc-fd-" + Decimal(fd)));
      Put(md, nodes[md].(children := nodes[md].children["link" := l], nDirs := Inc(nodes[md].nDirs)));
    }

    /** The loop of load_program over the tables: one new MapDir per table under `maps`. */
    method LoadMaps(maps: Id, m: Module, k: Kernel, mode: Mode)
      requires Valid() && IsDir(nodes, maps)
      modifies this
      ensures Valid() && old(next) <= next && Grows(old(nodes), nodes, {maps})
      ensures MapsFilled(old(nodes), nodes, maps, mode, m, k, old(next))
    {
      ghost var a := nodes;
      ghost var lo := next;
      MapsStart(a, maps, mode, m, k, lo);
      var i := 0;
      while i < |m.tables|
        invariant Valid() && i <= |m.tables| && lo <= next && Grows(a, nodes, {maps})
        invariant MapsUpTo(a, nodes, maps, mode, m, k, lo, i)
      {
        ghost var b := nodes;
        var md := NewMapDir(mode, k.tableFd(m, i));
        ghost var mid := nodes;
        AddChild(maps, m.tables[i], md);
        MapsStep(a, b, mid, nodes, maps, mode, m, k, lo, i, md);
        GrowsTrans(a, b, nodes, {maps}, {maps});
        i := i + 1;
      }
      MapsDone(a, nodes, maps, mode, m, k, lo);
    }

    /** load_program once the source compiled (src/dir.cc:93-109). */
    method LoadModule(pd: Id, m: Module, k: Kernel)
      requires Valid() && IsProgram(nodes, pd) && HasValid(nodes, pd)
      modifies this
      ensures Valid() && old(next) <= next && IsProgram(nodes, pd)
      ensures LoadedModule(old(nodes), nodes, old(next), pd, m, k)
    {
      ghost var a := nodes;
      var p := nodes[pd];
      var hasMaps := HasMaps(nodes, pd);
      AddFunctions(pd, m);
      if hasMaps {
        var maps := p.children["maps"];
        assert DirOk(a, pd) && maps != pd;
        ghost var s := nodes;
        ghost var lo1 := next;
        LoadMaps(maps, m, k, p.mode);
        LoadedWithMaps(a, s, nodes, old(next), lo1, pd, m, k);
      } else {
        LoadedNoMaps(a, nodes, old(next), pd, m, k);
      }
    }

    /** The first steps of load_program after the compile: module, `valid`, and the new `functions`. */
    method AddFunctions(pd: Id, m: Module)
      requires Valid() && IsProgram(nodes, pd) && HasValid(nodes, pd)
      modifies this
      ensures Valid() && old(next) <= next && IsProgram(nodes, pd)
      ensures FunctionsAdded(old(nodes), nodes, old(next), pd, m)
    {
      ghost var a := nodes;
      var p := nodes[pd];
      var v := p.children["valid"];
      assert DirOk(nodes, pd);
      Put(pd, p.(role := ProgramDir(Some(m))));
      Put(v, File(StatFile("1\n")));
      ghost var s2 := nodes;
      var fds := FunctionFds(m.functions);
      var f := NewFunctionDir(p.mode, fds);
      ghost var s3 := nodes;
      GrowsTrans(a, s2, s3, {pd, v}, {});
      assert DirOk(nodes, pd);
      Put(pd, nodes[pd].(children := nodes[pd].children["functions" := f], nDirs := Inc(nodes[pd].nDirs)));
      FunctionDirKept(s3, nodes, f, p.mode, fds, old(next), {pd});
      GrowsTrans(a, s3, nodes, {pd, v}, {pd});
    }

    /** ProgramDir::load_program (src/dir.cc:85-110); `flags` is the mount's flags(). */
    method LoadProgram(pd: Id, text: string, k: Kernel, flags: bv32) returns (rc: int)
      requires Valid() && IsProgram(nodes, pd)
      modifies this
      ensures Valid() && old(next) <= next && IsProgram(nodes, pd)
      ensures Loaded(old(nodes), nodes, old(next), pd, text, k, flags, rc)
    {
      if !HasValid(nodes, pd) {
        return 1;
      }
      var v := nodes[pd].children["valid"];
      var r := k.compileB(text, flags);
      if r.None? {
        Put(v, File(StatFile("0\n")));
        return 1;
      }
      LoadModule(pd, r.value, k);
      rc := 0;
    }

    /** ProgramDir::unload_program (src/dir.cc:112-122); destroying the module is left to the library. */
    method UnloadProgram(pd: Id) returns (rc: int)
      requires Valid() && IsProgram(nodes, pd)
      modifies this
      ensures Valid() && next == old(next) && (nodes, rc) == Unload(old(nodes), pd)
    {
      if !HasValid(nodes, pd) {
        return 1;
      }
      var p := nodes[pd];
      var v := p.children["valid"];
      Put(v, File(StatFile("0\n")));
      assert DirOk(nodes, pd);
      Put(pd, Dir(ProgramDir(None), p.mode, p.children - {"functions"}, p.nFiles, Dec(p.nDirs)));
      rc := 0;
    }

    /** Dir::leaf and File::leaf (src/dir.cc:34-41, src/file.cc:30-32); see Walk. */
    method Leaf(at: Id, p: PathCursor) returns (r: Id)
      requires Valid() && at in nodes && p.Valid()
      modifies p
      ensures p.Valid()
      ensures r == Walk(nodes, at, old(p.Remaining())).0
      ensures p.Remaining() == old(p.Remaining())[Walk(nodes, at, old(p.Remaining())).1..]
      decreases |p.Remaining()|
    {
      ghost var rem := p.Remaining();
      if p.next.None? {
        assert rem == [];
        return at;
      }
      assert rem[0] == p.next.value;
      var n := nodes[at];
      if !n.Dir? || p.next.value !in n.children {
        return at;
      }
      var c := n.children[p.next.value];
      assert DirOk(nodes, at);
      ghost var w := Walk(nodes, c, rem[1..]);
      assert Walk(nodes, at, rem) == (w.0, w.1 + 1);
      p.Consume();
      r := Leaf(c, p);
      DropAfterHead(rem, w.1);
    }

    /** Dir::readdir (src/dir.cc:49-57): ".", "..", then the children's names in key order. */
    method ListDir(d: Id) returns (names: seq<string>)
      requires Valid() && IsDir(nodes, d)
      ensures |names| == 2 + |nodes[d].children| && names[..2] == [".", ".."]
      ensures Sorted(names[2..]) && forall n :: n in names[2..] <==> n in nodes[d].children
    {
      var keys := SortedKeys(nodes[d].children.Keys);
      names := [".", ".."] + keys;
      assert names[2..] == keys;
    }

    /** SourceFile::write (src/file.cc:65-70): the write of the later tree, without a dirty flag. */
    method SourceWrite(c: Id, buf: string, offset: nat) returns (rc: int)
      requires Valid() && c in nodes && nodes[c].File? && nodes[c].file.SourceFile?
      modifies this
      ensures Valid() && next == old(next) && rc == |buf|
      ensures var f := old(nodes)[c].file;
        nodes == old(nodes)[c := File(SourceFile(FileOps.StringWrite(f.text, buf, offset), f.parent))]
    {
      var f := nodes[c].file;
      assert SourceOk(nodes, c);
      Put(c, File(SourceFile(FileOps.StringWrite(f.text, buf, offset), f.parent)));
      rc := |buf|;
    }

    /** SourceFile::truncate (src/file.cc:81-85): the program is unloaded, then the text resized. */
    method SourceTruncate(c: Id, n: nat) returns (rc: int)
      requires Valid() && c in nodes && nodes[c].File? && nodes[c].file.SourceFile?
      modifies this
      ensures Valid() && next == old(next) && rc == 0
      ensures var f := old(nodes)[c].file;
        && IsProgram(old(nodes), f.parent)
        && nodes == Unload(old(nodes), f.parent).0[c := File(SourceFile(FileOps.Resize(f.text, n), f.parent))]
    {
      var f := nodes[c].file;
      assert SourceOk(nodes, c);
      var _ := UnloadProgram(f.parent);
      assert SourceOk(nodes, c);
      Put(c, File(SourceFile(FileOps.Resize(f.text, n), f.parent)));
      rc := 0;
    }

    /**
     * SourceFile::flush (src/file.cc:72-79): a blank text is left alone;
     * otherwise the program is unloaded and loaded again from the text up
     * to its first NUL, and a failed load is -EIO.
     */
    method SourceFlush(c: Id, k: Kernel, flags: bv32) returns (rc: int)
      requires Valid() && c in nodes && nodes[c].File? && nodes[c].file.SourceFile?
      modifies this
      ensures Valid() && old(next) <= next
      ensures var f := old(nodes)[c].file;
        && IsProgram(old(nodes), f.parent)
        && (FileOps.IsBlank(f.text) ==> rc == 0 && nodes == old(nodes))
        && (!FileOps.IsBlank(f.text) ==>
             && (rc == 0 || rc == -EIO)
             && var u := Unload(old(nodes), f.parent).0;
             && IsProgram(u, f.parent)
             && Loaded(u, nodes, old(next), f.parent, CStr(f.text), k, flags, if rc == 0 then 0 else 1))
    {
      var f := nodes[c].file;
      assert SourceOk(nodes, c);
      if FileOps.IsBlank(f.text) {
        return 0;
      }
      var _ := UnloadProgram(f.parent);
      var r := LoadProgram(f.parent, CStr(f.text), k, flags);
      rc := if r != 0 then -EIO else 0;
    }
  }

  /**
   * The node Leaf ends at and the number of components it consumed: a
   * directory follows the next component when it names a child, and stops
   * otherwise; any other node ends the walk.
   */
  ghost function Walk(nodes: Nodes, at: Id, toks: seq<string>): (r: (Id, nat))
    requires Closed(nodes) && at in nodes
    ensures r.0 in nodes && r.1 <= |toks|
    ensures r.1 < |toks| ==> !nodes[r.0].Dir? || toks[r.1] !in nodes[r.0].children
    decreases |toks|
  {
    if nodes[at].Dir? && toks != [] && toks[0] in nodes[at].children then
      assert DirOk(nodes, at);
      var w := Walk(nodes, nodes[at].children[toks[0]], toks[1..]);
      (w.0, w.1 + 1)
    else (at, 0)
  }
}
