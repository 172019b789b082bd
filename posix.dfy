/**
 * The parts of the POSIX/Linux interface the filesystem speaks: errno values,
 * the mode bits of <sys/stat.h>, and the three fields of `struct stat` the
 * callbacks fill in.
 */
module Posix {
  /** mode_t is a 32-bit unsigned integer on Linux. */
  type Mode = bv32

  // Linux errno values; callbacks return their negation.
  const EPERM: int := 1
  const ENOENT: int := 2
  const EIO: int := 5
  const EBADF: int := 9
  const EACCES: int := 13
  const EEXIST: int := 17
  const ENOTDIR: int := 20
  const EISDIR: int := 21
  const EINVAL: int := 22
  const ENOTSUP: int := 95

  // File type and permission bits (octal 0170000, 0140000, ... written in hex).
  const S_IFMT: Mode := 0xF000
  const S_IFSOCK: Mode := 0xC000
  const S_IFLNK: Mode := 0xA000
  const S_IFREG: Mode := 0x8000
  const S_IFDIR: Mode := 0x4000
  const S_IWUSR: Mode := 0x80

  // Permission sets used by the code: 0644, 0755, 0444, 0777.
  const Mode0644: Mode := 0x1A4
  const Mode0755: Mode := 0x1ED
  const Mode0444: Mode := 0x124
  const Mode0777: Mode := 0x1FF

  // Access-mode part of open(2) flags.
  const O_ACCMODE: bv32 := 3
  const O_RDONLY: bv32 := 0

  predicate IsSock(m: Mode) {
    m & S_IFMT == S_IFSOCK
  }

  /** The fields of `struct stat` this filesystem reads or writes. */
  datatype Stat = Stat(mode: Mode, nlink: nat, size: nat)

  /** A `struct stat` after `memset(st, 0, sizeof(*st))`. */
  const ZeroStat: Stat := Stat(0, 0, 0)

  /** What a `const char *` can hold: no embedded NUL. */
  type CString = s: string | '\0' !in s

  /** The C string a `const char *` into `s` denotes: everything before the first NUL. */
  function CStr(s: string): (r: string)
    ensures |r| <= |s| && r == s[..|r|]
    ensures '\0' !in r
    ensures |r| < |s| ==> s[|r|] == '\0'
  {
    if s == [] || s[0] == '\0' then [] else [s[0]] + CStr(s[1..])
  }

  // size_t, the type of sizes and counts.
  const SizeMod: int := 0x1_0000_0000_0000_0000

  /** A size_t value. */
  type Size = n: int | 0 <= n < SizeMod

  /** `++n` on a size_t: one more, with the largest value wrapping to 0. */
  function Inc(n: Size): (r: Size)
    ensures n < SizeMod - 1 ==> r == n + 1
    ensures n == SizeMod - 1 ==> r == 0
  {
    if n == SizeMod - 1 then 0 else n + 1
  }

  /** `--n` on a size_t: one less, with 0 wrapping to the largest value. */
  function Dec(n: Size): (r: Size)
    ensures n > 0 ==> r == n - 1
    ensures n == 0 ==> r == SizeMod - 1
  {
    if n == 0 then SizeMod - 1 else n - 1
  }

  /** A size_t counter after i increments from 0. */
  function Count(i: nat): Size {
    i % SizeMod
  }

  /** Counting i items one `++` at a time from 0 gives i modulo 2^64. */
  lemma IncMod(i: nat)
    ensures Inc(Count(i)) == Count(i + 1)
  {
    var q := i / SizeMod;
    assert i == q * SizeMod + i % SizeMod;
    if i % SizeMod == SizeMod - 1 {
      assert i + 1 == (q + 1) * SizeMod;
    } else {
      assert i + 1 == q * SizeMod + (i % SizeMod + 1);
    }
  }

  function Min(a: int, b: int): int {
    if a <= b then a else b
  }

  function Max(a: int, b: int): int {
    if a >= b then a else b
  }
}
