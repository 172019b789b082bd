/**
 * Sockets: the plain node made by mknod and the FunctionSocket behind every
 * `fd` entry, whose readiness flag gates getattr and is set by the first
 * mknod on top of it.
 */
module SocketOps {
  import opened Posix

  /** Socket::getattr: S_IFSOCK|0777 and one link; the size stays zero. */
  const SocketStat: Stat := Stat(S_IFSOCK | Mode0777, 1, 0)

  /** FunctionSocket::getattr: -ENOENT (and a zeroed stat) until ready. */
  function FdSocketGetattr(ready: bool): (r: (int, Stat))
    ensures r.0 == 0 <==> ready
    ensures !ready ==> r == (-ENOENT, ZeroStat)
    ensures ready ==> r.1.mode == S_IFSOCK | Mode0777 && r.1.nlink == 1
  {
    if !ready then (-ENOENT, ZeroStat) else (0, SocketStat)
  }

  /** FunctionSocket::mknod: the return code and the new readiness. */
  function FdSocketMknod(ready: bool): (r: (int, bool))
    ensures r.1
    ensures r.0 == 0 <==> !ready
    ensures r.0 != 0 ==> r.0 == -EEXIST
  {
    if ready then (-EEXIST, true) else (0, true)
  }

  /** The return codes of n mknods in a row, starting from readiness `ready`. */
  function MknodRun(ready: bool, n: nat): seq<int>
    decreases n
  {
    if n == 0 then [] else
      var (rc, r) := FdSocketMknod(ready);
      [rc] + MknodRun(r, n - 1)
  }

  /** On a new socket, only the first of any number of mknods succeeds. */
  lemma {:induction false} OnlyFirstMknodSucceeds(n: nat)
    requires n >= 1
    ensures MknodRun(false, n) == [0] + seq(n - 1, _ => -EEXIST)
  {
    AlreadyReady(n - 1);
  }

  lemma {:induction false} AlreadyReady(n: nat)
    ensures MknodRun(true, n) == seq(n, _ => -EEXIST)
    decreases n
  {
    if n > 0 {
      AlreadyReady(n - 1);
      assert seq(n, _ => -EEXIST) == [-EEXIST] + seq(n - 1, _ => -EEXIST);
    }
  }

  /** getattr fails before the first mknod and succeeds after it. */
  lemma MknodMakesVisible()
    ensures FdSocketGetattr(false).0 == -ENOENT
    ensures FdSocketGetattr(FdSocketMknod(false).1).0 == 0
  {
  }
}
