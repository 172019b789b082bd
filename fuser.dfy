/**
 * bcc-fuser: a static filesystem with a root directory and one read-only
 * file, /hello.  Each callback is a case analysis on the path string.
 */
module Fuser {
  import opened Posix
  import FileOps

  const Hello: string := "Hello, World!\n"

  /** getattr: "/" is a 0755 directory, "/hello" a 0444 file of 14 bytes, nothing else exists. */
  function Getattr(path: CString): (r: (int, Stat))
    ensures path == "/" ==> r == (0, Stat(S_IFDIR | Mode0755, 2, 0))
    ensures path == "/hello" ==> r == (0, Stat(S_IFREG | Mode0444, 1, 14))
    ensures path != "/" && path != "/hello" ==> r == (-ENOENT, ZeroStat)
  {
    if path == "/" then (0, Stat(S_IFDIR | Mode0755, 2, 0))
    else if path == "/hello" then (0, Stat(S_IFREG | Mode0444, 1, |Hello|))
    else (-ENOENT, ZeroStat)
  }

  /** readdir: only the root can be listed, and it holds ".", ".." and "hello". */
  function Readdir(path: CString): (r: (int, seq<string>))
    ensures r.0 == 0 <==> path == "/"
    ensures r.0 == 0 ==> r.1 == [".", "..", "hello"]
    ensures r.0 != 0 ==> r == (-ENOENT, [])
  {
    if path != "/" then (-ENOENT, []) else (0, [".", "..", "hello"])
  }

  /** open: only /hello, and only for reading. */
  function Open(path: CString, flags: bv32): (rc: int)
    ensures rc == 0 <==> path == "/hello" && flags & O_ACCMODE == O_RDONLY
    ensures path != "/hello" ==> rc == -ENOENT
    ensures path == "/hello" && flags & O_ACCMODE != O_RDONLY ==> rc == -EACCES
  {
    if path != "/hello" then -ENOENT
    else if flags & O_ACCMODE != O_RDONLY then -EACCES
    else 0
  }

  /** off_t: a signed 64-bit integer. */
  newtype OffT = x: int | -0x8000_0000_0000_0000 <= x < 0x8000_0000_0000_0000

  /** The `(size_t)offset` cast: a negative off_t becomes a huge unsigned value. */
  function AsSize(offset: OffT): (r: nat)
    ensures 0 <= offset ==> r == offset as int
    ensures offset < 0 ==> r == offset as int + 0x1_0000_0000_0000_0000 >= 0x8000_0000_0000_0000
  {
    (offset as int) % 0x1_0000_0000_0000_0000
  }

  /** read: the bytes of "Hello, World!\n" from the offset on, at most `size` of them. */
  function Read(path: CString, size: nat, offset: OffT): (r: (int, string))
    ensures path != "/hello" ==> r == (-ENOENT, [])
    ensures path == "/hello" ==> r.0 == |r.1| && |r.1| <= size && |r.1| <= |Hello|
    ensures path == "/hello" && 0 <= offset as int < |Hello| ==>
      r.1 == Hello[offset..offset as int + Min(size, |Hello| - offset as int)]
    ensures path == "/hello" && (offset < 0 || offset as int >= |Hello|) ==> r == (0, [])
  {
    if path != "/hello" then (-ENOENT, [])
    else
      var off := AsSize(offset);
      if off < |Hello| then
        var n := if off + size > |Hello| then |Hello| - off else size;
        (n, Hello[off..off + n])
      else (0, [])
  }

  /** For valid offsets, read serves the file with the same helper as the bcc filesystem. */
  lemma ReadIsReadHelper(size: nat, offset: OffT)
    requires offset >= 0
    ensures Read("/hello", size, offset).1 == FileOps.ReadHelper(Hello, size, offset as int)
  {
  }

  /**
   * A read from 0 of the size getattr reports returns the whole file, and
   * every entry readdir lists besides "." and ".." is a read-only regular
   * file that getattr knows and open accepts for reading.
   */
  lemma GetattrSizeMatchesContent()
    ensures Read("/hello", Getattr("/hello").1.size, 0).1 == Hello
    ensures forall name :: name in Readdir("/").1 && name != "." && name != ".." ==>
      && Getattr("/" + name) == (0, Stat(S_IFREG | Mode0444, 1, |Hello|))
      && Open("/" + name, O_RDONLY) == 0
  {
    forall name | name in Readdir("/").1 && name != "." && name != ".."
      ensures Getattr("/" + name) == (0, Stat(S_IFREG | Mode0444, 1, |Hello|))
      ensures Open("/" + name, O_RDONLY) == 0
    {
      assert name == "hello";
      assert "/" + name == "/hello";
    }
  }
}
