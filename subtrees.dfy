/**
 * Facts about subtrees the filesystem builds out of fresh nodes: which old
 * nodes an add_child leaves alone, and the shapes the ProgramDir,
 * FunctionDir and MapDir constructors and ProgramDir::load produce.
 */
module Subtrees {
  import opened Wrappers
  import opened Posix
  import opened Bpf
  import opened Inodes
  import opened Tree

  /** `b` only adds nodes to `a`, all with ids from `lo` on. */
  ghost predicate Grown(a: Nodes, b: Nodes, lo: Id) {
    && a.Keys <= b.Keys
    && (forall i :: i in a ==> b[i] == a[i])
    && (forall i :: i in b && i !in a ==> lo <= i)
  }

  /**
   * `b` is `a` after `d` took node `c` under `name` with add_child: the
   * directory keeps its own fields, a child it held under that name is
   * released, and every other node of `a` is as it was.
   */
  ghost predicate Bound(a: Nodes, b: Nodes, d: Id, name: string, c: Id)
    requires IsDir(a, d)
  {
    && a.Keys <= b.Keys && IsDir(b, d) && c in b && b[c].parent == Some(d)
    && Children(b, d) == Children(a, d)[name := c]
    && b[d].parent == a[d].parent && b[d].mode == a[d].mode && b[d].body.role == a[d].body.role
    && (forall i :: i in a && i != d && i != c && (name in Children(a, d) ==> i != Children(a, d)[name]) ==> b[i] == a[i])
    && (name in Children(a, d) && Children(a, d)[name] != c && Children(a, d)[name] in a ==>
         b[Children(a, d)[name]] == a[Children(a, d)[name]].SetParent(None))
  }

  lemma BoundOfAdd(a: Nodes, b: Nodes, d: Id, name: string, c: Id)
    requires IsDir(a, d) && c in a && b.Keys == a.Keys && IsDir(b, d)
    requires Children(b, d) == Children(a, d)[name := c] && AddFrame(a, b, d, name, c)
    ensures Bound(a, b, d, name, c)
  {
  }

  /** add_child between nodes that are not old keeps the old nodes as they were. */
  lemma GrownLink(o: Nodes, m1: Nodes, b: Nodes, lo: Id, d: Id, name: string, c: Id)
    requires Grown(o, m1, lo) && IsDir(m1, d) && d !in o && c !in o && Bound(m1, b, d, name, c) && b.Keys == m1.Keys
    requires name in Children(m1, d) ==> Children(m1, d)[name] !in o
    ensures Grown(o, b, lo)
  {
    forall i | i in o
      ensures b[i] == o[i]
    {
      assert i in m1 && i != d && i != c;
      assert !(name in Children(m1, d) && i == Children(m1, d)[name]);
    }
  }

  lemma GrownTrans(a: Nodes, b: Nodes, c: Nodes, lo: Id, mid: Id)
    requires Grown(a, b, lo) && Grown(b, c, mid) && lo <= mid
    ensures Grown(a, c, lo)
  {
  }

  /** The nodes of a listing built from ids in [lo, hi) are not older than `lo`. */
  lemma ListedAbove(a: Nodes, dd: Id, names: seq<string>, mode: Mode, m: Module, k: Kernel, isMap: bool, lo: Id, hi: Id)
    requires Listing(a, dd, names, mode, m, k, isMap, lo, hi)
    ensures forall n :: n in Children(a, dd) ==> lo <= Children(a, dd)[n]
  {
  }

  /**
   * Every node of `a` but `d` and `v` is as it was, or is a child `d` held
   * that add_child released.
   */
  ghost predicate Released(a: Nodes, b: Nodes, d: Id, v: Id)
    requires IsDir(a, d)
  {
    && a.Keys <= b.Keys
    && forall i :: i in a && i != d && i != v ==>
         b[i] == a[i] || (i in Children(a, d).Values && b[i] == a[i].SetParent(None))
  }

  lemma ReleasedGrown(a: Nodes, m1: Nodes, b: Nodes, lo: Id, d: Id, v: Id)
    requires IsDir(a, d) && Released(a, m1, d, v) && Grown(m1, b, lo)
    ensures Released(a, b, d, v)
  {
  }

  lemma ReleasedBound(a: Nodes, m1: Nodes, b: Nodes, d: Id, v: Id, name: string, c: Id)
    requires IsDir(a, d) && IsDir(m1, d) && Released(a, m1, d, v) && Bound(m1, b, d, name, c) && c !in a
    requires forall n :: n in Children(m1, d) ==> Children(m1, d)[n] !in a || Children(m1, d)[n] in Children(a, d).Values
    ensures Released(a, b, d, v)
  {
    forall i | i in a && i != d && i != v
      ensures b[i] == a[i] || (i in Children(a, d).Values && b[i] == a[i].SetParent(None))
    {
      assert i in m1 && i != c;
      if name in Children(m1, d) && i == Children(m1, d)[name] {
        assert i in Children(a, d).Values;
        assert b[i] == m1[i].SetParent(None);
      } else {
        assert b[i] == m1[i];
      }
    }
  }

  /** Two rounds of add_child under `d` release only children `d` held at the start. */
  lemma ReleasedTrans(a: Nodes, b: Nodes, c: Nodes, d: Id, v: Id)
    requires IsDir(a, d) && IsDir(b, d) && Released(a, b, d, v) && Released(b, c, d, d)
    requires forall i :: i in a && i in Children(b, d).Values ==> i in Children(a, d).Values
    ensures Released(a, c, d, v)
  {
    forall i | i in a && i != d && i != v
      ensures c[i] == a[i] || (i in Children(a, d).Values && c[i] == a[i].SetParent(None))
    {
      if c[i] != b[i] {
        assert i in Children(b, d).Values && c[i] == b[i].SetParent(None);
      }
    }
  }

  /** Releasing a child changes no body or mode. */
  lemma ReleasedKeeps(a: Nodes, b: Nodes, d: Id, v: Id, lo: Id, hi: Id)
    requires IsDir(a, d) && Released(a, b, d, v) && !(lo <= d < hi) && !(lo <= v < hi)
    ensures RangeKept(a, b, lo, hi)
  {
  }

  lemma AllocBound(a: Nodes, d: Id, name: string, c: Id, n: Inode)
    requires WellFormed(a) && IsDir(a, d) && c !in a && d < c && Fresh(n)
    ensures WellFormed(a[c := n]) && Unowned(a[c := n], c)
    ensures var b := Tree.AddChild(a[c := n], d, name, c);
      && b.Keys == a.Keys + {c} && b[c] == n.SetParent(Some(d))
      && Bound(a, b, d, name, c)
  {
    AllocKeepsWellFormed(a, c, n);
    AddChildFrame(a[c := n], d, name, c);
    BoundOfFrame(a, a[c := n], Tree.AddChild(a[c := n], d, name, c), d, name, c);
  }

  lemma BoundOfFrame(a: Nodes, m: Nodes, b: Nodes, d: Id, name: string, c: Id)
    requires IsDir(a, d) && c !in a && d != c && c in m && m.Keys == a.Keys + {c}
    requires forall i :: i in a ==> m[i] == a[i]
    requires b.Keys == m.Keys && IsDir(b, d) && Children(b, d) == Children(m, d)[name := c]
    requires AddFrame(m, b, d, name, c)
    ensures Bound(a, b, d, name, c)
  {
    assert Children(m, d) == Children(a, d);
  }

  /** A new directory `d` given one new child: the old nodes are untouched. */
  lemma OneChild(n0: Nodes, n1: Nodes, n2: Nodes, lo: Id, d: Id, dn: Inode, x: string, cx: Id, nx: Inode)
    requires forall i :: i in n0 ==> i < lo
    requires d == lo && n1 == n0[d := dn] && dn.parent.None? && dn.body.DirBody? && dn.body.children == map[]
    requires cx !in n1 && cx > lo && n2.Keys == n1.Keys + {cx} && n2[cx] == nx.SetParent(Some(d)) && Bound(n1, n2, d, x, cx)
    ensures Grown(n0, n2, lo) && IsDir(n2, d) && n2[d].parent.None? && n2[d].mode == dn.mode
    ensures n2[d].body.role == dn.body.role && Children(n2, d) == map[x := cx]
    ensures n2[cx].body == nx.body && n2[cx].itype == nx.itype
  {
  }

  /** A new directory `d` given two new children under different names. */
  lemma TwoChildren(n0: Nodes, n1: Nodes, n2: Nodes, n3: Nodes, lo: Id, d: Id, dn: Inode,
                    x: string, cx: Id, nx: Inode, y: string, cy: Id, ny: Inode)
    requires forall i :: i in n0 ==> i < lo
    requires d == lo && n1 == n0[d := dn] && dn.parent.None? && dn.body.DirBody? && dn.body.children == map[]
    requires cx !in n1 && cx > lo && n2.Keys == n1.Keys + {cx} && n2[cx] == nx.SetParent(Some(d)) && Bound(n1, n2, d, x, cx)
    requires cy !in n2 && cy > lo && n3.Keys == n2.Keys + {cy} && n3[cy] == ny.SetParent(Some(d)) && Bound(n2, n3, d, y, cy)
    requires x != y
    ensures Grown(n0, n3, lo) && IsDir(n3, d) && n3[d].parent.None? && n3[d].mode == dn.mode
    ensures n3[d].body.role == dn.body.role && Children(n3, d) == map[x := cx, y := cy]
    ensures n3[cx].body == nx.body && n3[cx].itype == nx.itype
    ensures n3[cy].body == ny.body && n3[cy].itype == ny.itype
  {
    OneChild(n0, n1, n2, lo, d, dn, x, cx, nx);
    assert n3[cx] == n2[cx];
  }

  /** A directory holding exactly two files counts two files and no directories. */
  lemma TwoFiles(nodes: Nodes, d: Id, x: string, cx: Id, y: string, cy: Id)
    requires WellFormed(nodes) && IsDir(nodes, d) && x != y
    requires Children(nodes, d) == map[x := cx, y := cy] && cx in nodes && cy in nodes
    requires nodes[cx].itype == FileType && nodes[cy].itype == FileType
    ensures nodes[d].body.nFiles == 2 && nodes[d].body.nDirs == 0
  {
    CountersAgree(nodes, d);
    assert FileNames(nodes, Children(nodes, d)) == {x, y};
  }

  /**
   * `b` is `a` after `d` took the new subtree `c` under a free `name`:
   * every node of `a` but `d` is as it was, and `d` only gained the child.
   */
  ghost predicate Added(a: Nodes, b: Nodes, d: Id, name: string, c: Id)
    requires IsDir(a, d)
  {
    && a.Keys <= b.Keys && c !in a && IsDir(b, d) && c in b && b[c].parent == Some(d)
    && Children(b, d) == Children(a, d)[name := c]
    && b[d].parent == a[d].parent && b[d].mode == a[d].mode && b[d].body.role == a[d].body.role
    && (forall i :: i in a && i != d ==> b[i] == a[i])
  }

  /** Node `x` keeps its mode and body, and its children keep their bodies. */
  ghost predicate Kept(a: Nodes, b: Nodes, x: Id) {
    && IsDir(a, x) && x in b && b[x].mode == a[x].mode && b[x].body == a[x].body
    && forall n :: n in Children(a, x) ==>
         Children(a, x)[n] in a && Children(a, x)[n] in b && b[Children(a, x)[n]].body == a[Children(a, x)[n]].body
  }

  lemma KeptShapes(a: Nodes, b: Nodes, x: Id, mode: Mode, m: Module, j: nat, fd: int)
    requires Kept(a, b, x)
    ensures ProgramShape(a, x, mode) ==> ProgramShape(b, x, mode)
    ensures FunctionShape(a, x, mode, m, j) ==> FunctionShape(b, x, mode, m, j)
    ensures MapShape(a, x, mode, m, j, fd) ==> MapShape(b, x, mode, m, j, fd)
  {
  }

  /** Children of a well-formed directory exist and have larger ids. */
  lemma ChildrenAbove(nodes: Nodes, d: Id)
    requires WellFormed(nodes) && IsDir(nodes, d)
    ensures forall n :: n in Children(nodes, d) ==> Children(nodes, d)[n] in nodes && Children(nodes, d)[n] > d
  {
    assert DirOk(nodes, d);
  }

  /** Binding a subtree built from fresh ids under a free name. */
  lemma Adopt(a: Nodes, m: Nodes, b: Nodes, lo: Id, d: Id, name: string, c: Id)
    requires forall i :: i in a ==> i < lo
    requires Grown(a, m, lo) && IsDir(a, d) && name !in Children(a, d)
    requires IsDir(m, c) && c !in a && Bound(m, b, d, name, c) && b[c] == m[c].SetParent(Some(d))
    requires forall n :: n in Children(m, c) ==> Children(m, c)[n] in m && Children(m, c)[n] > c
    ensures Added(a, b, d, name, c) && Kept(m, b, c)
  {
    assert Children(m, d) == Children(a, d);
  }

  predicate HasBody(nodes: Nodes, i: Id, b: Body) {
    i in nodes && nodes[i].body == b
  }

  /** ProgramDir::ProgramDir: unloaded, holding "source" (empty) and "valid" ("0\n"). */
  ghost predicate ProgramShape(nodes: Nodes, pd: Id, mode: Mode) {
    && IsDir(nodes, pd) && nodes[pd].mode == mode && nodes[pd].body.role == ProgramDir(None)
    && Children(nodes, pd).Keys == {"source", "valid"}
    && HasBody(nodes, Children(nodes, pd)["source"], FileBody(NewSourceFile))
    && HasBody(nodes, Children(nodes, pd)["valid"], FileBody(StatFile("0\n")))
  }

  /** FunctionDir::FunctionDir: function `j` of `m`, holding an empty "type" file. */
  ghost predicate FunctionShape(nodes: Nodes, f: Id, mode: Mode, m: Module, j: nat) {
    && IsDir(nodes, f) && nodes[f].mode == mode && nodes[f].body.role == FunctionDir(m, j)
    && Children(nodes, f).Keys == {"type"}
    && HasBody(nodes, Children(nodes, f)["type"], FileBody(FunctionTypeFile("")))
  }

  /** MapDir::MapDir: table `j` of `m`, never refreshed, holding "fd" and "dump" on the table's fd. */
  ghost predicate MapShape(nodes: Nodes, md: Id, mode: Mode, m: Module, j: nat, fd: int) {
    && IsDir(nodes, md) && nodes[md].mode == mode && nodes[md].body.role == MapDir(m, j, 0)
    && Children(nodes, md).Keys == {"fd", "dump"}
    && HasBody(nodes, Children(nodes, md)["fd"], FdSocketBody(0, fd, false))
    && HasBody(nodes, Children(nodes, md)["dump"], FileBody(MapDumpFile(m, j, fd)))
  }

  // ---------------------------------------------------------------------
  // The "functions" and "maps" directories of ProgramDir::load

  /** The last position of `n` in `s`: a loop of add_child keeps the last node given a name. */
  function LastIndex(s: seq<string>, n: string): (j: nat)
    requires n in s
    ensures j < |s| && s[j] == n
    ensures forall i :: j < i < |s| ==> s[i] != n
    decreases |s|
  {
    if s[|s| - 1] == n then |s| - 1
    else
      assert s == s[..|s| - 1] + [s[|s| - 1]];
      LastIndex(s[..|s| - 1], n)
  }

  /** A name other than the one appended keeps its last index. */
  lemma LastIndexAppend(s: seq<string>, x: string, n: string)
    requires n in s && n != x
    ensures n in s + [x] && LastIndex(s + [x], n) == LastIndex(s, n)
  {
    assert (s + [x])[..|s|] == s;
  }

  /** The first i + 1 entries are the first i and entry i. */
  lemma SliceSnoc(s: seq<string>, i: nat)
    requires i < |s|
    ensures s[..i + 1] == s[..i] + [s[i]]
  {
  }

  /** A FunctionDir or MapDir made for entry `j` of the module, out of ids in [lo, hi). */
  ghost predicate Built(nodes: Nodes, x: Id, mode: Mode, m: Module, j: nat, k: Kernel, isMap: bool, lo: Id, hi: Id) {
    && lo <= x < hi
    && (if isMap then MapShape(nodes, x, mode, m, j, k.tableFd(m, j)) else FunctionShape(nodes, x, mode, m, j))
    && forall n :: n in Children(nodes, x) ==> lo <= Children(nodes, x)[n] < hi
  }

  /**
   * A plain directory holding, under each of `names`, the subtree built for
   * the last entry of that name, all out of ids in [lo, hi).
   */
  ghost predicate Listing(nodes: Nodes, dd: Id, names: seq<string>, mode: Mode, m: Module, k: Kernel,
                          isMap: bool, lo: Id, hi: Id) {
    && IsDir(nodes, dd) && lo <= dd < hi && nodes[dd].mode == mode && nodes[dd].body.role == PlainDir
    && (forall n :: n in Children(nodes, dd) <==> n in names)
    && forall n :: n in Children(nodes, dd) ==>
         (n in names && Built(nodes, Children(nodes, dd)[n], mode, m, LastIndex(names, n), k, isMap, lo, hi))
  }

  /** Nodes with ids in [lo, hi) keep their bodies and modes. */
  ghost predicate RangeKept(a: Nodes, b: Nodes, lo: Id, hi: Id) {
    forall i :: i in a && lo <= i < hi ==> i in b && b[i].body == a[i].body && b[i].mode == a[i].mode
  }

  lemma BuiltKept(a: Nodes, b: Nodes, x: Id, mode: Mode, m: Module, j: nat, k: Kernel, isMap: bool, lo: Id, hi: Id, hi': Id)
    requires Built(a, x, mode, m, j, k, isMap, lo, hi) && RangeKept(a, b, lo, hi) && hi <= hi'
    ensures Built(b, x, mode, m, j, k, isMap, lo, hi')
  {
    assert Kept(a, b, x);
    KeptShapes(a, b, x, mode, m, j, k.tableFd(m, j));
  }

  lemma ListingKept(a: Nodes, b: Nodes, dd: Id, names: seq<string>, mode: Mode, m: Module, k: Kernel,
                    isMap: bool, lo: Id, hi: Id, hi': Id)
    requires Listing(a, dd, names, mode, m, k, isMap, lo, hi) && RangeKept(a, b, lo, hi) && hi <= hi'
    ensures Listing(b, dd, names, mode, m, k, isMap, lo, hi')
  {
    forall n | n in Children(b, dd)
      ensures Built(b, Children(b, dd)[n], mode, m, LastIndex(names, n), k, isMap, lo, hi')
    {
      BuiltKept(a, b, Children(a, dd)[n], mode, m, LastIndex(names, n), k, isMap, lo, hi, hi');
    }
  }

  /** add_child changes no body or mode but the directory's own. */
  lemma BoundBodies(m1: Nodes, b: Nodes, dd: Id, name: string, x: Id)
    requires IsDir(m1, dd) && x in m1 && Bound(m1, b, dd, name, x) && b[x].body == m1[x].body && b[x].mode == m1[x].mode
    ensures forall y :: y in m1 && y != dd ==> y in b && b[y].body == m1[y].body && b[y].mode == m1[y].mode
  {
    forall y | y in m1 && y != dd ensures y in b && b[y].body == m1[y].body && b[y].mode == m1[y].mode {
      if name in Children(m1, dd) && y == Children(m1, dd)[name] && y != x {
        assert b[y] == m1[y].SetParent(None);
      }
    }
  }

  /** A built subtree survives a change to a plain directory's body. */
  lemma BuiltSurvives(m1: Nodes, b: Nodes, dd: Id, y: Id, mode: Mode, m: Module, j: nat, k: Kernel,
                      isMap: bool, lo: Id, hi: Id, hi': Id)
    requires IsDir(m1, dd) && m1[dd].body.role == PlainDir && hi <= hi'
    requires Built(m1, y, mode, m, j, k, isMap, lo, hi)
    requires forall z :: z in m1 && z != dd ==> z in b && b[z].body == m1[z].body && b[z].mode == m1[z].mode
    ensures Built(b, y, mode, m, j, k, isMap, lo, hi')
  {
    assert y != dd by {
      assert m1[y].body.role != PlainDir;
    }
    forall n | n in Children(m1, y) ensures Children(m1, y)[n] != dd {
      assert !m1[Children(m1, y)[n]].body.DirBody?;
    }
    assert Kept(m1, b, y);
    KeptShapes(m1, b, y, mode, m, j, k.tableFd(m, j));
  }

  /** One turn of the loop: add_child of the subtree built for entry `i`. */
  lemma ListingStep(a: Nodes, m1: Nodes, b: Nodes, dd: Id, names: seq<string>, i: nat, x: Id,
                    mode: Mode, m: Module, k: Kernel, isMap: bool, lo: Id, h1: Id, h2: Id)
    requires i < |names| && lo <= h1 <= h2
    requires Listing(a, dd, names[..i], mode, m, k, isMap, lo, h1)
    requires Grown(a, m1, h1) && x !in a && Built(m1, x, mode, m, i, k, isMap, h1, h2)
    requires Bound(m1, b, dd, names[i], x) && b[x].body == m1[x].body && b[x].mode == m1[x].mode
    ensures Listing(b, dd, names[..i + 1], mode, m, k, isMap, lo, h2)
  {
    SliceSnoc(names, i);
    assert RangeKept(a, m1, lo, h1);
    ListingKept(a, m1, dd, names[..i], mode, m, k, isMap, lo, h1, h1);
    BoundBodies(m1, b, dd, names[i], x);
    ListingBind(m1, b, dd, names[..i], names[i], x, mode, m, k, isMap, lo, h1, h2);
  }

  /** Binding the subtree built for the next entry extends the listing by its name. */
  lemma ListingBind(m1: Nodes, b: Nodes, dd: Id, done: seq<string>, name: string, x: Id,
                    mode: Mode, m: Module, k: Kernel, isMap: bool, lo: Id, h1: Id, h2: Id)
    requires lo <= h1 <= h2
    requires Listing(m1, dd, done, mode, m, k, isMap, lo, h1) && Built(m1, x, mode, m, |done|, k, isMap, h1, h2)
    requires Bound(m1, b, dd, name, x) && b[x].body == m1[x].body && b[x].mode == m1[x].mode
    requires forall y :: y in m1 && y != dd ==> y in b && b[y].body == m1[y].body && b[y].mode == m1[y].mode
    ensures Listing(b, dd, done + [name], mode, m, k, isMap, lo, h2)
  {
    var q := done + [name];
    assert forall n :: n in q <==> n in done || n == name;
    forall n | n in Children(b, dd)
      ensures n in q && Built(b, Children(b, dd)[n], mode, m, LastIndex(q, n), k, isMap, lo, h2)
    {
      if n == name {
        assert LastIndex(q, n) == |done|;
        BuiltSurvives(m1, b, dd, x, mode, m, |done|, k, isMap, h1, h2, h2);
      } else {
        ListingBindOld(m1, b, dd, done, name, x, mode, m, k, isMap, lo, h1, h2, n);
      }
    }
  }

  /** In that step, an entry listed before keeps its subtree. */
  lemma ListingBindOld(m1: Nodes, b: Nodes, dd: Id, done: seq<string>, name: string, x: Id,
                       mode: Mode, m: Module, k: Kernel, isMap: bool, lo: Id, h1: Id, h2: Id, n: string)
    requires lo <= h1 <= h2
    requires Listing(m1, dd, done, mode, m, k, isMap, lo, h1) && Bound(m1, b, dd, name, x)
    requires forall y :: y in m1 && y != dd ==> y in b && b[y].body == m1[y].body && b[y].mode == m1[y].mode
    requires n in Children(b, dd) && n != name
    ensures n in done + [name] &&
      Built(b, Children(b, dd)[n], mode, m, LastIndex(done + [name], n), k, isMap, lo, h2)
  {
    assert n in Children(m1, dd) && Children(b, dd)[n] == Children(m1, dd)[n];
    LastIndexAppend(done, name, n);
    BuiltSurvives(m1, b, dd, Children(m1, dd)[n], mode, m, LastIndex(done, n), k, isMap, lo, h1, h2);
  }
}
