/** Symbolic links: their stat and readlink's strncpy into the caller's buffer. */
module LinkOps {
  import opened Posix

  /** Link::getattr: S_IFLNK|0777, one link, the size of the target. */
  function LinkStat(dst: string): (r: Stat)
    ensures r.mode == S_IFLNK | Mode0777 && r.nlink == 1 && r.size == |dst|
  {
    Stat(S_IFLNK | Mode0777, 1, |dst|)
  }

  /**
   * Link::readlink: strncpy(buf, dst.c_str(), size) fills exactly `size`
   * bytes of the buffer: the target up to its first NUL, then NUL padding.
   * The callback always returns 0.
   */
  function Readlink(dst: string, size: nat): (buf: string)
    ensures |buf| == size
    ensures var c := CStr(dst); var n := Min(size, |c|);
      buf[..n] == c[..n] && forall i :: n <= i < size ==> buf[i] == '\0'
  {
    var c := CStr(dst);
    if size <= |c| then c[..size] else c + seq(size - |c|, _ => '\0')
  }

  /** With room to spare, the buffer holds the target as a terminated C string. */
  lemma ReadlinkTerminated(dst: string, size: nat)
    requires size > |CStr(dst)|
    ensures CStr(Readlink(dst, size)) == CStr(dst)
  {
    var c := CStr(dst);
    var buf := Readlink(dst, size);
    CStrOfTerminated(c, buf);
  }

  lemma {:induction false} CStrOfTerminated(c: string, buf: string)
    requires '\0' !in c && |c| < |buf| && buf[..|c|] == c && buf[|c|] == '\0'
    ensures CStr(buf) == c
    decreases |c|
  {
    if c != [] {
      assert buf[0] == c[0];
      assert buf[1..][..|c[1..]|] == c[1..];
      CStrOfTerminated(c[1..], buf[1..]);
    }
  }

  /** Without room, strncpy leaves no terminator: the buffer holds no NUL at all. */
  lemma ReadlinkUnterminated(dst: string, size: nat)
    requires size <= |CStr(dst)|
    ensures '\0' !in Readlink(dst, size)
    ensures Readlink(dst, size) == CStr(dst)[..size]
  {
  }
}
