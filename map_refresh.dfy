/**
 * What MapDir::refresh rebuilds: the directory of a table keeps its "fd"
 * and "dump" children and gets one child per key the table yields, reusing
 * the node an earlier listing had under that name (a client may hold it
 * open) and making a new, empty MapEntry otherwise.
 */
module Refresh {
  import opened Wrappers
  import opened Posix
  import opened Bpf
  import opened Inodes
  import opened Tree
  import opened Subtrees

  /** The children a refresh keeps whatever the table holds. */
  const Fixed: set<string> := {"fd", "dump"}

  /**
   * The start of MapDir::refresh as written (src/fs/dir.cc:238-242): "fd"
   * and "dump" are moved back into an empty children map, and the counters
   * are then set to two files and no directories, whatever those two are.
   */
  ghost function ResetAsWritten(nodes: Nodes, md: Id): (r: Nodes)
    requires IsDir(nodes, md)
    ensures r.Keys == nodes.Keys && IsDir(r, md)
    ensures Children(r, md) == Only(Children(nodes, md), Fixed)
    ensures r[md].body.nFiles == 2 && r[md].body.nDirs == 0
    ensures forall i :: i in nodes && i != md ==> r[i] == nodes[i]
  {
    nodes[md := nodes[md].(body := nodes[md].body.(children := Only(Children(nodes, md), Fixed), nFiles := 2, nDirs := 0))]
  }

  /**
   * A MapDir holding the FDSocket "fd" and the MapDumpFile "dump" its
   * constructor added: add_child counted one file and one non-file there,
   * and a recount of the kept children (Restrict, which the model's
   * refresh uses) still finds one of each. The as-written reset says two
   * files and no directory, so the counters no longer agree with the
   * children.
   */
  lemma ResetMiscounts(nodes: Nodes, md: Id)
    requires WellFormed(nodes) && IsDir(nodes, md)
    requires "fd" in Children(nodes, md) && Children(nodes, md)["fd"] in nodes
    requires "dump" in Children(nodes, md) && Children(nodes, md)["dump"] in nodes
    requires nodes[Children(nodes, md)["fd"]].itype == SocketType
    requires nodes[Children(nodes, md)["dump"]].itype == FileType
    ensures !WellFormed(ResetAsWritten(nodes, md))
    ensures Restrict(nodes, md, Fixed)[md].body.nFiles == 1
    ensures Restrict(nodes, md, Fixed)[md].body.nDirs == 1
  {
    var ch := Only(Children(nodes, md), Fixed);
    assert DirOk(nodes, md);
    assert ch.Keys == {"fd", "dump"};
    assert FileNames(nodes, ch) == {"dump"};
    var r := ResetAsWritten(nodes, md);
    assert FileNames(r, ch) == {"dump"} by {
      assert r[ch["fd"]] == nodes[ch["fd"]] && r[ch["dump"]] == nodes[ch["dump"]];
    }
    assert !DirOk(r, md);
  }

  /**
   * Dir::remove_child as written (src/fs/dir.cc:95-105), with the counters
   * as the size_t values they are: it trusts the counters instead of
   * recounting, so it also applies to a directory whose counters have
   * drifted from its children.
   */
  function RemoveChildAsWritten(nodes: Nodes, d: Id, name: string): (r: Nodes)
    requires IsDir(nodes, d) && nodes[d].body.nFiles < SizeMod && nodes[d].body.nDirs < SizeMod
    requires name in Children(nodes, d) ==> Children(nodes, d)[name] in nodes && d < Children(nodes, d)[name]
    ensures r.Keys == nodes.Keys && IsDir(r, d)
    ensures Children(r, d) == Children(nodes, d) - {name}
    ensures name !in Children(nodes, d) ==> r == nodes
    ensures name in Children(nodes, d) ==>
      var c := Children(nodes, d)[name];
      && (nodes[c].itype == FileType ==> r[d].body.nFiles == Dec(nodes[d].body.nFiles) && r[d].body.nDirs == nodes[d].body.nDirs)
      && (nodes[c].itype != FileType ==> r[d].body.nDirs == Dec(nodes[d].body.nDirs) && r[d].body.nFiles == nodes[d].body.nFiles)
      && r[c] == nodes[c].SetParent(None)
  {
    var b := nodes[d].body;
    if name !in b.children then nodes
    else
      var c := b.children[name];
      var b' :=
        if nodes[c].itype == FileType then b.(children := b.children - {name}, nFiles := Dec(b.nFiles))
        else b.(children := b.children - {name}, nDirs := Dec(b.nDirs));
      nodes[d := nodes[d].(body := b')][c := nodes[c].SetParent(None)]
  }

  /**
   * On a well-formed tree the counter of the removed child's kind is at
   * least one, so the size_t decrement never wraps and remove_child as
   * written is the model's Detach.
   */
  lemma RemoveChildAgrees(nodes: Nodes, d: Id, name: string)
    requires WellFormed(nodes) && IsDir(nodes, d)
    requires nodes[d].body.nFiles < SizeMod && nodes[d].body.nDirs < SizeMod
    ensures DirOk(nodes, d) && RemoveChildAsWritten(nodes, d, name) == Detach(nodes, d, name)
  {
    assert DirOk(nodes, d);
    if name in Children(nodes, d) {
      CounterPositive(nodes, d, name);
    }
  }

  /**
   * After the reset as written, Dir::unlink of "fd" (a socket: it is owner
   * writable and its own unlink returns 0, so remove_child runs) decrements
   * n_dirs_, which the reset left at 0: it wraps to 2^64-1, and getattr's
   * 2 + n_dirs_ wraps to 1.  Only "dump" is left, still counted as two files.
   */
  lemma ResetThenUnlinkFd(nodes: Nodes, md: Id)
    requires WellFormed(nodes) && IsDir(nodes, md)
    requires "fd" in Children(nodes, md) && Children(nodes, md)["fd"] in nodes
    requires nodes[Children(nodes, md)["fd"]].itype == SocketType
    ensures DirOk(nodes, md)
    ensures var u := RemoveChildAsWritten(ResetAsWritten(nodes, md), md, "fd");
      && Children(u, md) == Only(Children(nodes, md), {"dump"})
      && u[md].body.nFiles == 2
      && u[md].body.nDirs == SizeMod - 1
      && (2 + u[md].body.nDirs) % SizeMod == 1
  {
    assert DirOk(nodes, md);
    var r := ResetAsWritten(nodes, md);
    assert Children(r, md)["fd"] == Children(nodes, md)["fd"];
    assert Children(r, md) - {"fd"} == Only(Children(nodes, md), {"dump"});
    assert (SizeMod + 1) % SizeMod == 1;
  }

  /** The old children a refresh may hand on to the new listing. */
  function Reusable(ch: map<string, Id>): (r: map<string, Id>)
    ensures forall n :: n in r <==> n in ch && n !in Fixed
    ensures forall n :: n in r ==> r[n] == ch[n]
  {
    map n | n in ch && n !in Fixed :: ch[n]
  }

  /** The reusable nodes no key has claimed yet. */
  function Leftover(pool: map<string, Id>, names: seq<string>): (r: map<string, Id>)
    ensures forall n :: n in r <==> n in pool && n !in names
    ensures forall n :: n in r ==> r[n] == pool[n]
  {
    map n | n in pool && n !in names :: pool[n]
  }

  /** Claiming one more name removes exactly that name from the unclaimed nodes. */
  lemma LeftoverAppend(pool: map<string, Id>, names: seq<string>, x: string)
    ensures Leftover(pool, names + [x]) == Leftover(pool, names) - {x}
  {
    assert forall n :: n in names + [x] <==> n in names || n == x;
  }

  /** `n` occurs exactly once in `names`. */
  predicate Once(names: seq<string>, n: string)
    requires n in names
  {
    forall j :: 0 <= j < |names| && names[j] == n ==> j == LastIndex(names, n)
  }

  /**
   * The child under `n` in the new listing: the old node of that name, or a
   * new, empty MapEntry for the last key printed as `n`; when `n` is printed
   * once and had a node, that node.
   */
  ghost predicate Fills(a: Nodes, b: Nodes, md: Id, names: seq<string>, keys: seq<Bytes>, n: string)
    requires IsDir(a, md) && IsDir(b, md) && n in Children(b, md) && n in names && |names| == |keys|
  {
    var c := Children(b, md)[n];
    var reuse := Reusable(Children(a, md));
    && ((n in reuse && c == reuse[n]) ||
        (c !in a && c in b && b[c].body == FileBody(MapEntry(keys[LastIndex(names, n)], "", false))))
    && (n in reuse && Once(names, n) ==> c == reuse[n])
  }

  /**
   * `b` is `a` after the directory `md` was rebuilt for the keys `keys`,
   * printed as `names`: it holds its old "fd" and "dump" (unless a key took
   * the name) and a child per name; the old nodes no key claimed are no
   * longer held; no node other than `md` changes its body or mode.
   */
  ghost predicate Rebuilt(a: Nodes, b: Nodes, md: Id, names: seq<string>, keys: seq<Bytes>)
    requires IsDir(a, md) && |names| == |keys|
  {
    var ch := Children(a, md);
    var base := Only(ch, Fixed);
    var pool := Leftover(Reusable(ch), names);
    && IsDir(b, md) && a.Keys <= b.Keys
    && (forall n :: n in Children(b, md) <==> n in base || n in names)
    && (forall n :: n in Children(b, md) ==> Children(b, md)[n] in b)
    && (forall n :: n in base && n !in names ==> Children(b, md)[n] == base[n])
    && (forall n :: n in Children(b, md) && n in names ==> Fills(a, b, md, names, keys, n))
    && (forall n :: n in pool ==> pool[n] in a && pool[n] in b && b[pool[n]] == a[pool[n]] && pool[n] !in Children(b, md).Values)
    && (forall x :: x in a && x != md ==> x in b && b[x].body == a[x].body && b[x].mode == a[x].mode)
  }

  lemma OnceAppend(s: seq<string>, x: string, n: string)
    requires n in s && n != x
    ensures n in s + [x] && (Once(s + [x], n) <==> Once(s, n))
  {
    LastIndexAppend(s, x, n);
    forall j | 0 <= j < |s| ensures (s + [x])[j] == s[j] {}
  }

  /** Right after "fd" and "dump" are taken back, nothing else is listed. */
  lemma RebuildStart(a: Nodes, b: Nodes, md: Id)
    requires IsDir(a, md) && DirOk(a, md) && IsDir(b, md) && b.Keys == a.Keys
    requires Children(b, md) == Only(Children(a, md), Fixed)
    requires forall x :: x in a && x != md ==> b[x] == a[x]
    ensures Rebuilt(a, b, md, [], [])
  {
    var ch := Children(a, md);
    var pool := Leftover(Reusable(ch), []);
    forall n | n in pool ensures pool[n] !in Children(b, md).Values {
      forall f | f in Children(b, md) ensures Children(b, md)[f] != pool[n] {
        assert f in Fixed && n !in Fixed;
      }
    }
  }

  /** A key printed as a name whose old node is still unclaimed takes that node. */
  lemma RebuildReuse(a: Nodes, b0: Nodes, b1: Nodes, md: Id, names: seq<string>, keys: seq<Bytes>, x: string, key: Bytes)
    requires IsDir(a, md) && DirOk(a, md) && |names| == |keys| && IsDir(b0, md)
    requires Rebuilt(a, b0, md, names, keys)
    requires x in Leftover(Reusable(Children(a, md)), names)
    requires var c := Reusable(Children(a, md))[x];
      && Bound(b0, b1, md, x, c) && b1.Keys == b0.Keys && b1[c].body == b0[c].body && b1[c].mode == b0[c].mode
    ensures Rebuilt(a, b1, md, names + [x], keys + [key])
  {
    var c := Reusable(Children(a, md))[x];
    assert forall n :: n in names + [x] <==> n in names || n == x;
    assert x !in Children(b0, md) by {
      assert x !in names && x !in Fixed;
    }
    BoundBodies(b0, b1, md, x, c);
    FillsReuse(a, b0, b1, md, names, keys, x, key);
    PoolReuse(a, b0, b1, md, names, keys, x);
  }

  /** After an unclaimed old node is taken back under its name, every listed name keeps its fill. */
  lemma FillsReuse(a: Nodes, b0: Nodes, b1: Nodes, md: Id, names: seq<string>, keys: seq<Bytes>, x: string, key: Bytes)
    requires IsDir(a, md) && DirOk(a, md) && |names| == |keys| && IsDir(b0, md)
    requires Rebuilt(a, b0, md, names, keys)
    requires x in Leftover(Reusable(Children(a, md)), names) && x !in Children(b0, md)
    requires Bound(b0, b1, md, x, Reusable(Children(a, md))[x])
    ensures forall n :: n in Children(b1, md) && n in names + [x] ==> Fills(a, b1, md, names + [x], keys + [key], n)
  {
    var c := Reusable(Children(a, md))[x];
    var names' := names + [x];
    var keys' := keys + [key];
    forall n | n in Children(b1, md) && n in names'
      ensures Fills(a, b1, md, names', keys', n)
    {
      if n != x {
        assert n in names;
        assert Fills(a, b0, md, names, keys, n);
        OnceAppend(names, x, n);
        var c0 := Children(b0, md)[n];
        assert c0 != c by {
          assert c0 in Children(b0, md).Values;
        }
        assert keys'[LastIndex(names, n)] == keys[LastIndex(names, n)];
      } else {
        assert Children(b1, md)[n] == c;
      }
    }
  }

  /** The old nodes still unclaimed after one is taken back are untouched and unheld. */
  lemma PoolReuse(a: Nodes, b0: Nodes, b1: Nodes, md: Id, names: seq<string>, keys: seq<Bytes>, x: string)
    requires IsDir(a, md) && DirOk(a, md) && |names| == |keys| && IsDir(b0, md)
    requires Rebuilt(a, b0, md, names, keys)
    requires x in Leftover(Reusable(Children(a, md)), names) && x !in Children(b0, md)
    requires Bound(b0, b1, md, x, Reusable(Children(a, md))[x])
    ensures var pool := Leftover(Reusable(Children(a, md)), names + [x]);
      forall n :: n in pool ==> pool[n] in a && pool[n] in b1 && b1[pool[n]] == a[pool[n]] && pool[n] !in Children(b1, md).Values
  {
    var ch := Children(a, md);
    var reuse := Reusable(ch);
    var c := reuse[x];
    var pool0 := Leftover(reuse, names);
    var pool1 := Leftover(reuse, names + [x]);
    forall n | n in pool1
      ensures pool1[n] in a && pool1[n] in b1 && b1[pool1[n]] == a[pool1[n]] && pool1[n] !in Children(b1, md).Values
    {
      assert n != x && n in ch && x in ch && n in pool0;
      assert reuse[n] != c;
    }
  }

  /** Binding a new node under a name changes no other node's body or mode. */
  lemma NewBodies(b0: Nodes, b1: Nodes, md: Id, x: string, c: Id)
    requires IsDir(b0, md) && c !in b0 && Bound(b0, b1, md, x, c)
    ensures forall y :: y in b0 && y != md ==> y in b1 && b1[y].body == b0[y].body && b1[y].mode == b0[y].mode
  {
    forall y | y in b0 && y != md ensures y in b1 && b1[y].body == b0[y].body && b1[y].mode == b0[y].mode {
      if x in Children(b0, md) && y == Children(b0, md)[x] {
        assert b1[y] == b0[y].SetParent(None);
      }
    }
  }

  /** A name listed before the step keeps its fill when another name is bound. */
  lemma FillKept(a: Nodes, b0: Nodes, b1: Nodes, md: Id, names: seq<string>, keys: seq<Bytes>,
                 x: string, key: Bytes, c: Id, n: string)
    requires IsDir(a, md) && |names| == |keys| && IsDir(b0, md) && md in a
    requires n in Children(b0, md) && n in names && n != x
    requires Fills(a, b0, md, names, keys, n)
    requires Bound(b0, b1, md, x, c) && Children(b0, md)[n] != c
    requires forall y :: y in b0 && y != md ==> y in b1 && b1[y].body == b0[y].body
    ensures n in Children(b1, md) && n in names + [x] && Fills(a, b1, md, names + [x], keys + [key], n)
  {
    OnceAppend(names, x, n);
    assert (keys + [key])[LastIndex(names, n)] == keys[LastIndex(names, n)];
    assert Children(b1, md)[n] == Children(b0, md)[n];
  }

  /** The name a new node is bound under is filled by it. */
  lemma FillFresh(a: Nodes, b1: Nodes, md: Id, names: seq<string>, keys: seq<Bytes>,
                  x: string, key: Bytes, c: Id)
    requires IsDir(a, md) && |names| == |keys| && IsDir(b1, md)
    requires x !in Leftover(Reusable(Children(a, md)), names)
    requires c !in a && c in b1 && x in Children(b1, md) && Children(b1, md)[x] == c
    requires b1[c].body == FileBody(MapEntry(key, "", false))
    ensures Fills(a, b1, md, names + [x], keys + [key], x)
  {
    var names' := names + [x];
    assert LastIndex(names', x) == |names|;
    if x in Reusable(Children(a, md)) {
      assert x in names;
      var j :| 0 <= j < |names| && names[j] == x;
      assert names'[j] == x && j != LastIndex(names', x);
    }
  }

  /** The names listed before a new node is bound under `x` keep their fill. */
  lemma FillsNew(a: Nodes, b0: Nodes, b1: Nodes, md: Id, names: seq<string>, keys: seq<Bytes>,
                 x: string, key: Bytes, c: Id)
    requires IsDir(a, md) && |names| == |keys| && IsDir(b0, md)
    requires Rebuilt(a, b0, md, names, keys)
    requires x !in Leftover(Reusable(Children(a, md)), names)
    requires c !in b0 && Bound(b0, b1, md, x, c)
    requires b1[c].body == FileBody(MapEntry(key, "", false))
    ensures forall n :: n in Children(b1, md) && n in names + [x] ==> Fills(a, b1, md, names + [x], keys + [key], n)
  {
    var names' := names + [x];
    assert forall n :: n in names' <==> n in names || n == x;
    NewBodies(b0, b1, md, x, c);
    forall n | n in Children(b1, md) && n in names'
      ensures Fills(a, b1, md, names', keys + [key], n)
    {
      if n != x {
        assert Fills(a, b0, md, names, keys, n);
        assert Children(b0, md)[n] in b0;
        FillKept(a, b0, b1, md, names, keys, x, key, c, n);
      } else {
        FillFresh(a, b1, md, names, keys, x, key, c);
      }
    }
  }

  /** Any other key gets a new, empty MapEntry under its name. */
  lemma RebuildNew(a: Nodes, b0: Nodes, b1: Nodes, md: Id, names: seq<string>, keys: seq<Bytes>,
                   x: string, key: Bytes, c: Id)
    requires IsDir(a, md) && |names| == |keys| && IsDir(b0, md)
    requires Rebuilt(a, b0, md, names, keys)
    requires x !in Leftover(Reusable(Children(a, md)), names)
    requires c !in b0 && b1.Keys == b0.Keys + {c} && Bound(b0, b1, md, x, c)
    requires b1[c] == NewFile(MapEntry(key, "", false)).SetParent(Some(md))
    ensures Rebuilt(a, b1, md, names + [x], keys + [key])
  {
    assert forall n :: n in names + [x] <==> n in names || n == x;
    NewBodies(b0, b1, md, x, c);
    FillsNew(a, b0, b1, md, names, keys, x, key, c);
    PoolNew(a, b0, b1, md, names, keys, x, c);
  }

  /** A new node bound under a name leaves the unclaimed old nodes untouched and unheld. */
  lemma PoolNew(a: Nodes, b0: Nodes, b1: Nodes, md: Id, names: seq<string>, keys: seq<Bytes>, x: string, c: Id)
    requires IsDir(a, md) && |names| == |keys| && IsDir(b0, md)
    requires Rebuilt(a, b0, md, names, keys)
    requires x !in Leftover(Reusable(Children(a, md)), names)
    requires c !in b0 && Bound(b0, b1, md, x, c)
    ensures var pool := Leftover(Reusable(Children(a, md)), names + [x]);
      forall n :: n in pool ==> pool[n] in a && pool[n] in b1 && b1[pool[n]] == a[pool[n]] && pool[n] !in Children(b1, md).Values
  {
    var reuse := Reusable(Children(a, md));
    LeftoverAppend(reuse, names, x);
    var pool := Leftover(reuse, names);
    assert Leftover(reuse, names + [x]) == pool;
    forall n | n in pool
      ensures pool[n] in a && pool[n] in b1 && b1[pool[n]] == a[pool[n]] && pool[n] !in Children(b1, md).Values
    {
      assert pool[n] != c;
      assert x in Children(b0, md) ==> Children(b0, md)[x] != pool[n];
    }
  }

  /**
   * How many keys bpf_table_key_snprintf prints before the first one it
   * fails on: the keys a refresh gets through.
   */
  function PrintedCount(k: Kernel, m: Module, id: nat, keys: seq<Bytes>): (j: nat)
    ensures j <= |keys|
    ensures forall i :: 0 <= i < j ==> k.keyPrint(m, id, keys[i]).Some?
    ensures j < |keys| ==> k.keyPrint(m, id, keys[j]).None?
    decreases |keys|
  {
    if keys == [] || k.keyPrint(m, id, keys[0]).None? then 0
    else
      var r := PrintedCount(k, m, id, keys[1..]);
      assert forall i :: 0 < i <= r ==> keys[i] == keys[1..][i - 1];
      1 + r
  }

  /** The names of the keys of a table, in iteration order; None if printing one fails. */
  function KeyNames(k: Kernel, m: Module, id: nat, keys: seq<Bytes>): (r: Option<seq<string>>)
    ensures r.Some? ==> |r.value| == |keys|
    ensures r.Some? <==> forall j :: 0 <= j < |keys| ==> k.keyPrint(m, id, keys[j]).Some?
    ensures r.Some? ==> forall j :: 0 <= j < |keys| ==> r.value[j] == CStr(k.keyPrint(m, id, keys[j]).value)
    decreases |keys|
  {
    if keys == [] then Some([])
    else
      match k.keyPrint(m, id, keys[0])
      case None => None
      case Some(s) =>
        var rest := KeyNames(k, m, id, keys[1..]);
        if rest.None? then
          assert forall j :: 0 <= j < |keys| - 1 ==> keys[1..][j] == keys[j + 1];
          None
        else Some([CStr(s)] + rest.value)
  }

  /** The keys a refresh gets through print as the names it lists; all of them print exactly when none fails. */
  lemma PrintedNames(k: Kernel, m: Module, id: nat, keys: seq<Bytes>)
    ensures var j := PrintedCount(k, m, id, keys);
      && KeyNames(k, m, id, keys[..j]).Some?
      && (j == |keys| <==> KeyNames(k, m, id, keys).Some?)
  {
    var j := PrintedCount(k, m, id, keys);
    assert forall i :: 0 <= i < j ==> keys[..j][i] == keys[i];
  }

  /** The first key that fails to print is where a refresh stops. */
  lemma PrintStops(k: Kernel, m: Module, id: nat, keys: seq<Bytes>, i: nat)
    requires i < |keys| && KeyNames(k, m, id, keys[..i]).Some? && k.keyPrint(m, id, keys[i]).None?
    ensures PrintedCount(k, m, id, keys) == i && i != |keys|
  {
    var p := keys[..i];
    forall l | 0 <= l < i ensures k.keyPrint(m, id, keys[l]).Some? {
      assert p[l] == keys[l];
    }
  }

  /** When every key prints, a refresh gets through all of them. */
  lemma PrintAll(k: Kernel, m: Module, id: nat, keys: seq<Bytes>, i: nat)
    requires i == |keys| && KeyNames(k, m, id, keys[..i]).Some?
    ensures PrintedCount(k, m, id, keys) == |keys| && keys[..PrintedCount(k, m, id, keys)] == keys[..i]
  {
    assert keys[..i] == keys;
  }

  /** Printing one more key extends the names by that key's own. */
  lemma KeyNamesPrefix(k: Kernel, m: Module, id: nat, keys: seq<Bytes>, i: nat)
    requires i < |keys| && KeyNames(k, m, id, keys[..i]).Some? && k.keyPrint(m, id, keys[i]).Some?
    ensures KeyNames(k, m, id, keys[..i + 1]).Some?
    ensures KeyNames(k, m, id, keys[..i + 1]).value
         == KeyNames(k, m, id, keys[..i]).value + [CStr(k.keyPrint(m, id, keys[i]).value)]
    ensures keys[..i + 1] == keys[..i] + [keys[i]]
  {
    var p, q := keys[..i], keys[..i + 1];
    forall j | 0 <= j < |q| ensures k.keyPrint(m, id, q[j]).Some? {
      if j < i { assert q[j] == p[j]; }
    }
    var a, b := KeyNames(k, m, id, p).value, KeyNames(k, m, id, q).value;
    var c := a + [CStr(k.keyPrint(m, id, keys[i]).value)];
    assert |b| == |c| == i + 1;
    forall j | 0 <= j < i + 1 ensures b[j] == c[j] {
      if j < i { assert q[j] == p[j]; }
    }
    assert b == c;
  }

  /** An unclaimed old node is one a directory may take: nobody holds it, and it is younger than `md`. */
  lemma PoolUnowned(a: Nodes, b: Nodes, md: Id, names: seq<string>, keys: seq<Bytes>, x: string)
    requires WellFormed(a) && WellFormed(b) && IsDir(a, md) && |names| == |keys|
    requires Rebuilt(a, b, md, names, keys)
    requires x in Leftover(Reusable(Children(a, md)), names)
    ensures var c := Children(a, md)[x];
      c in b && md < c && Unowned(b, c) && b[c] == a[c]
  {
    assert DirOk(a, md);
    var c := Children(a, md)[x];
    assert Leftover(Reusable(Children(a, md)), names)[x] == c;
    assert b[c].parent == Some(md);
  }
}
