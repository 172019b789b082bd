/**
 * What the File classes compute from their own fields: offset reads,
 * clamped overwrites, resizing, the stat of a file, the map dump text and
 * the MapEntry refresh/flush/unlink steps.  Steps that reach into a parent
 * directory (SourceFile and FunctionTypeFile flush/truncate) are methods of
 * `Filesystem.InodeTable`.
 */
module FileOps {
  import opened Wrappers
  import opened Posix
  import opened Bpf
  import opened Inodes

  /**
   * File::read_helper, and StringFile::read which repeats it: the bytes
   * copied into the caller's buffer; the callback returns their count.
   */
  function ReadHelper(data: string, size: nat, offset: nat): (r: string)
    ensures offset < |data| ==> |r| == Min(size, |data| - offset)
    ensures offset < |data| ==> r == data[offset..offset + |r|]
    ensures offset >= |data| ==> r == []
  {
    if offset < |data| then
      if offset + size > |data| then data[offset..] else data[offset..offset + size]
    else []
  }

  /** Two adjacent reads return what one read of their combined size returns. */
  lemma ReadSplit(data: string, a: nat, b: nat, offset: nat)
    ensures ReadHelper(data, a, offset) + ReadHelper(data, b, offset + a) == ReadHelper(data, a + b, offset)
  {
    if offset + a < |data| {
      assert data[offset..offset + Min(a + b, |data| - offset)]
          == data[offset..offset + a] + data[offset + a..offset + a + Min(b, |data| - offset - a)];
    }
  }

  /** Reading from 0 with a size of at least the length returns the whole data. */
  lemma ReadWhole(data: string, size: nat)
    requires size >= |data|
    ensures ReadHelper(data, size, 0) == data
  {
  }

  /**
   * StringFile::write: the offset is clamped to the current length and
   * `buf` replaces the bytes from there on; the callback returns |buf|.
   */
  function StringWrite(data: string, buf: string, offset: nat): (r: string)
    ensures var o := Min(offset, |data|);
      && |r| == Max(|data|, o + |buf|)
      && r[..o] == data[..o]
      && r[o..o + |buf|] == buf
      && r[o + |buf|..] == (if o + |buf| < |data| then data[o + |buf|..] else [])
  {
    var o := Min(offset, |data|);
    var e := Min(o + |buf|, |data|);
    data[..o] + buf + data[e..]
  }

  /** A write followed by a read of the same range returns what was written. */
  lemma WriteThenRead(data: string, buf: string, offset: nat)
    ensures ReadHelper(StringWrite(data, buf, offset), |buf|, Min(offset, |data|)) == buf
  {
  }

  /** Writing at or past the end appends. */
  lemma WriteAtEnd(data: string, buf: string, offset: nat)
    requires offset >= |data|
    ensures StringWrite(data, buf, offset) == data + buf
  {
    var r := StringWrite(data, buf, offset);
    assert r[..|data|] == data && r[|data|..] == buf;
    assert r == r[..|data|] + r[|data|..];
  }

  /** std::string::resize: cut to n characters, or pad with NULs. */
  function Resize(data: string, n: nat): (r: string)
    ensures |r| == n
    ensures r[..Min(n, |data|)] == data[..Min(n, |data|)]
    ensures forall i :: |data| <= i < n ==> r[i] == '\0'
  {
    if n <= |data| then data[..n] else data + seq(n - |data|, _ => '\0')
  }

  /** The content flush treats as "nothing to load". */
  predicate IsBlank(data: string) {
    data == "" || data == "\n"
  }

  /**
   * The size() of each file class: the length of the string for the
   * string-backed ones, and a constant 4096 for MapDumpFile, whatever the
   * map holds.
   */
  function FileSize(f: FileRole): (r: nat)
    ensures HasData(f) ==> r == |f.data|
    ensures f.MapDumpFile? ==> r == 4096
  {
    if f.MapDumpFile? then 4096 else |f.data|
  }

  /** File::getattr: S_IFREG|0444 and one link, whatever the inode's own mode. */
  function FileStat(f: FileRole): (r: Stat)
    ensures r.mode == S_IFREG | Mode0444 && r.nlink == 1 && r.size == FileSize(f)
  {
    Stat(S_IFREG | Mode0444, 1, FileSize(f))
  }

  /** StatFile::set_data replaces the data wholesale. */
  function SetData(f: FileRole, s: string): (r: FileRole)
    requires f.StatFile?
    ensures r.StatFile? && r.data == s
    ensures ReadHelper(r.data, |s|, 0) == s
  {
    StatFile(s)
  }

  /**
   * The write callback of each file class: StatFile and MapDumpFile refuse
   * with -EACCES; the string-backed ones overwrite and return |buf|, and
   * SourceFile and MapEntry become dirty.
   */
  function FileWrite(f: FileRole, buf: string, offset: nat): (r: (int, FileRole))
    ensures (f.StatFile? || f.MapDumpFile?) ==> r == (-EACCES, f)
    ensures !(f.StatFile? || f.MapDumpFile?) ==>
      && r.0 == |buf|
      && HasData(r.1) && r.1.data == StringWrite(f.data, buf, offset)
      && (f.SourceFile? ==> r.1.SourceFile? && r.1.dirty)
      && (f.MapEntry? ==> r.1.MapEntry? && r.1.key == f.key && r.1.dirty)
      && (f.FunctionTypeFile? ==> r.1.FunctionTypeFile?)
  {
    match f
    case StatFile(_) => (-EACCES, f)
    case MapDumpFile(_, _, _) => (-EACCES, f)
    case SourceFile(data, _) => (|buf|, SourceFile(StringWrite(data, buf, offset), true))
    case FunctionTypeFile(data) => (|buf|, FunctionTypeFile(StringWrite(data, buf, offset)))
    case MapEntry(key, data, _) => (|buf|, MapEntry(key, StringWrite(data, buf, offset), true))
  }

  // ---------------------------------------------------------------------
  // MapDumpFile

  /** Some(a + b) when both parts are there. */
  function Cat(a: Option<string>, b: Option<string>): (r: Option<string>)
    ensures r.Some? <==> a.Some? && b.Some?
  {
    if a.Some? && b.Some? then Some(a.value + b.value) else None
  }

  lemma CatUnit(a: Option<string>)
    ensures Cat(Some(""), a) == a && Cat(a, Some("")) == a
  {
    if a.Some? {
      assert "" + a.value == a.value && a.value + "" == a.value;
    }
  }

  lemma CatAssoc(a: Option<string>, b: Option<string>, c: Option<string>)
    ensures Cat(a, Cat(b, c)) == Cat(Cat(a, b), c)
  {
    if a.Some? && b.Some? && c.Some? {
      assert a.value + (b.value + c.value) == (a.value + b.value) + c.value;
    }
  }

  /** One line of the dump: "<key> <leaf>\n"; nothing for a key whose lookup fails. */
  function DumpLine(k: Kernel, m: Module, id: nat, fd: int, key: Bytes): (r: Option<string>)
    ensures k.lookup(fd, key).None? ==> r == Some("")
    ensures r.Some? && r.value != "" ==> r.value[|r.value| - 1] == '\n'
  {
    match k.lookup(fd, key)
    case None => Some("")
    case Some(leaf) =>
      match (k.keyPrint(m, id, key), k.leafPrint(m, id, leaf))
      case (Some(ks), Some(ls)) => Some(CStr(ks) + " " + CStr(ls) + "\n")
      case _ => None
  }

  /** The dump of a key sequence: its lines in order, or None once a print fails. */
  function DumpText(k: Kernel, m: Module, id: nat, fd: int, keys: seq<Bytes>): Option<string>
    decreases |keys|
  {
    if keys == [] then Some("")
    else Cat(DumpLine(k, m, id, fd, keys[0]), DumpText(k, m, id, fd, keys[1..]))
  }

  /** The dump of a concatenation is the concatenation of the dumps. */
  lemma {:induction false} DumpTextAppend(k: Kernel, m: Module, id: nat, fd: int, a: seq<Bytes>, b: seq<Bytes>)
    ensures DumpText(k, m, id, fd, a + b) == Cat(DumpText(k, m, id, fd, a), DumpText(k, m, id, fd, b))
    decreases |a|
  {
    if a == [] {
      assert a + b == b;
      CatUnit(DumpText(k, m, id, fd, b));
    } else {
      assert (a + b)[0] == a[0];
      assert (a + b)[1..] == a[1..] + b;
      DumpTextAppend(k, m, id, fd, a[1..], b);
      CatAssoc(DumpLine(k, m, id, fd, a[0]), DumpText(k, m, id, fd, a[1..]), DumpText(k, m, id, fd, b));
    }
  }

  /** Keys whose lookup fails leave the dump as it is. */
  lemma DumpSkipsMissing(k: Kernel, m: Module, id: nat, fd: int, a: seq<Bytes>, key: Bytes)
    requires k.lookup(fd, key).None?
    ensures DumpText(k, m, id, fd, a + [key]) == DumpText(k, m, id, fd, a)
  {
    DumpTextAppend(k, m, id, fd, a, [key]);
    assert [key][1..] == [];
    CatUnit(Some(""));
    assert DumpText(k, m, id, fd, [key]) == Some("");
    CatUnit(DumpText(k, m, id, fd, a));
  }

  /**
   * The loop of MapDumpFile::read: walk the keys, skip those whose lookup
   * fails, give up on the first print failure.
   */
  method DumpRead(k: Kernel, m: Module, id: nat, fd: int) returns (text: Option<string>)
    ensures text == DumpText(k, m, id, fd, k.keys(fd))
  {
    var keys := k.keys(fd);
    var ss := "";
    var i := 0;
    CatUnit(DumpText(k, m, id, fd, keys));
    while i < |keys|
      invariant 0 <= i <= |keys|
      invariant DumpText(k, m, id, fd, keys) == Cat(Some(ss), DumpText(k, m, id, fd, keys[i..]))
    {
      assert keys[i..] == [keys[i]] + keys[i + 1..];
      DumpTextAppend(k, m, id, fd, [keys[i]], keys[i + 1..]);
      assert DumpText(k, m, id, fd, [keys[i]]) == DumpLine(k, m, id, fd, keys[i]) by {
        assert [keys[i]][1..] == [];
        CatUnit(DumpLine(k, m, id, fd, keys[i]));
      }
      CatAssoc(Some(ss), DumpLine(k, m, id, fd, keys[i]), DumpText(k, m, id, fd, keys[i + 1..]));
      ghost var prevSs := ss;
      var leaf := k.lookup(fd, keys[i]);
      if leaf.Some? {
        var ks := k.keyPrint(m, id, keys[i]);
        if ks.None? {
          return None;
        }
        var ls := k.leafPrint(m, id, leaf.value);
        if ls.None? {
          return None;
        }
        ghost var line := CStr(ks.value) + " " + CStr(ls.value) + "\n";
        assert DumpLine(k, m, id, fd, keys[i]) == Some(line);
        ss := ss + CStr(ks.value) + " " + CStr(ls.value) + "\n";
        assert ss == prevSs + line;
      } else {
        CatUnit(Some(ss));
      }
      i := i + 1;
    }
    assert keys[i..] == [];
    CatUnit(Some(ss));
    text := Some(ss);
  }

  // ---------------------------------------------------------------------
  // MapEntry

  /** What a MapEntry learns from a parent that is a MapDir: its module and table. */
  datatype MapRef = MapRef(m: Module, id: nat)

  /**
   * MapEntry::refresh: -EBADF outside a MapDir; a failed lookup keeps the
   * data; otherwise the printed leaf followed by a newline.
   */
  function EntryRefresh(k: Kernel, par: Option<MapRef>, key: Bytes, data: string): (r: (int, string))
    ensures par.None? ==> r == (-EBADF, data)
    ensures r.0 != 0 ==> r.1 == data
    ensures par.Some? && k.lookup(k.tableFd(par.value.m, par.value.id), key).None? ==> r == (0, data)
    ensures r.0 == 0 && r.1 != data ==> r.1 != "" && r.1[|r.1| - 1] == '\n'
    ensures par.Some? ==>
      var MapRef(m, id) := par.value;
      var leaf := k.lookup(k.tableFd(m, id), key);
      leaf.Some? ==>
        match k.leafPrint(m, id, leaf.value)
        case Some(s) => r == (0, CStr(s) + "\n")
        case None => r == (-EIO, data)
    ensures r.0 in {0, -EBADF, -EIO}
  {
    match par
    case None => (-EBADF, data)
    case Some(MapRef(m, id)) =>
      match k.lookup(k.tableFd(m, id), key)
      case None => (0, data)
      case Some(leaf) =>
        match k.leafPrint(m, id, leaf)
        case None => (-EIO, data)
        case Some(s) => (0, CStr(s) + "\n")
  }

  /** MapEntry::truncate: resizes, and becomes dirty only when the length changes. */
  function EntryTruncate(data: string, dirty: bool, n: nat): (r: (string, bool))
    ensures r.0 == Resize(data, n)
    ensures r.1 <==> dirty || |data| != n
  {
    (Resize(data, n), dirty || |data| != n)
  }

  /**
   * MapEntry::flush: -EBADF outside a MapDir (before anything else), 0 when
   * clean or blank, else the leaf is parsed and written to the map.
   * The dirty flag is never cleared, so there is no new entry state.
   */
  function EntryFlush(k: Kernel, par: Option<MapRef>, key: Bytes, data: string, dirty: bool): (rc: int)
    ensures par.None? ==> rc == -EBADF
    ensures par.Some? && (!dirty || IsBlank(data)) ==> rc == 0
    ensures rc == 0 && par.Some? && dirty && !IsBlank(data) ==>
      var leaf := k.leafScan(par.value.m, par.value.id, CStr(data));
      leaf.Some? && k.update(k.tableFd(par.value.m, par.value.id), key, leaf.value)
    ensures par.Some? && dirty && !IsBlank(data) ==>
      var leaf := k.leafScan(par.value.m, par.value.id, CStr(data));
      && (rc == 0 <==> leaf.Some? && k.update(k.tableFd(par.value.m, par.value.id), key, leaf.value))
      && (rc != 0 ==> rc == -EIO)
    ensures rc in {0, -EBADF, -EIO}
  {
    match par
    case None => -EBADF
    case Some(MapRef(m, id)) =>
      if !dirty || IsBlank(data) then 0
      else
        match k.leafScan(m, id, CStr(data))
        case None => -EIO
        case Some(leaf) => if k.update(k.tableFd(m, id), key, leaf) then 0 else -EIO
  }

  /** MapEntry::unlink: -EBADF outside a MapDir, -ENOENT when the kernel delete fails. */
  function EntryUnlink(k: Kernel, par: Option<MapRef>, key: Bytes): (rc: int)
    ensures rc == 0 <==> par.Some? && k.delete(k.tableFd(par.value.m, par.value.id), key)
    ensures rc in {0, -EBADF, -ENOENT}
  {
    match par
    case None => -EBADF
    case Some(MapRef(m, id)) => if k.delete(k.tableFd(m, id), key) then 0 else -ENOENT
  }
}
