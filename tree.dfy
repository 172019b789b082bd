/**
 * The object graph of the filesystem as a finite map from ids to inodes.
 * A directory owns its children (`std::unique_ptr`), every child points
 * back to its directory, and ids grow with allocation, so parents always
 * have smaller ids than their children.  The `n_files_`/`n_dirs_` counters
 * of every directory agree with its children.
 */
module Tree {
  import opened Wrappers
  import opened Posix
  import opened Inodes

  type Nodes = map<Id, Inode>

  /** The RootDir the Mount creates first. */
  const Root: Id := 0

  predicate IsDir(nodes: Nodes, i: Id) {
    i in nodes && nodes[i].body.DirBody?
  }

  function Children(nodes: Nodes, d: Id): map<string, Id>
    requires IsDir(nodes, d)
  {
    nodes[d].body.children
  }

  /** The names of a directory whose children have type file_e. */
  function FileNames(nodes: Nodes, ch: map<string, Id>): (r: set<string>)
    ensures r <= ch.Keys
  {
    set n | n in ch && ch[n] in nodes && nodes[ch[n]].itype == FileType
  }

  /** No node is held under two names. */
  predicate Injective(ch: map<string, Id>) {
    forall n1, n2 :: n1 in ch && n2 in ch && ch[n1] == ch[n2] ==> n1 == n2
  }

  /** Children exist, have larger ids and point back; no node is there twice; counters agree. */
  ghost predicate DirOk(nodes: Nodes, d: Id)
    requires IsDir(nodes, d)
  {
    var b := nodes[d].body;
    && (forall n :: n in b.children ==> b.children[n] in nodes && d < b.children[n] && nodes[b.children[n]].parent == Some(d))
    && Injective(b.children)
    && b.nFiles == |FileNames(nodes, b.children)|
    && b.nFiles + b.nDirs == |b.children|
  }

  ghost predicate ParentOk(nodes: Nodes, i: Id)
    requires i in nodes && nodes[i].parent.Some?
  {
    var p := nodes[i].parent.value;
    IsDir(nodes, p) && p < i
  }

  ghost predicate WellFormed(nodes: Nodes) {
    && IsDir(nodes, Root) && nodes[Root].parent.None?
    && (forall i {:trigger ParentOk(nodes, i)} :: i in nodes && nodes[i].parent.Some? ==> ParentOk(nodes, i))
    && (forall d {:trigger DirOk(nodes, d)} :: IsDir(nodes, d) ==> DirOk(nodes, d))
  }

  /** A node no directory holds: what a `unique_ptr` that may be added somewhere is. */
  ghost predicate Unowned(nodes: Nodes, c: Id)
    requires WellFormed(nodes) && c in nodes
  {
    nodes[c].parent.None? || (assert ParentOk(nodes, c); c !in Children(nodes, nodes[c].parent.value).Values)
  }

  lemma UnownedEverywhere(nodes: Nodes, c: Id, d: Id)
    requires WellFormed(nodes) && c in nodes && Unowned(nodes, c) && IsDir(nodes, d)
    ensures c !in Children(nodes, d).Values
  {
    assert DirOk(nodes, d);
    forall n | n in Children(nodes, d) ensures Children(nodes, d)[n] != c {
      assert DirOk(nodes, d);
    }
  }

  lemma {:induction false} SubsetCard<T>(a: set<T>, b: set<T>)
    requires a <= b
    ensures |a| <= |b|
    decreases |b|
  {
    if a != {} {
      var x :| x in a;
      SubsetCard(a - {x}, b - {x});
    }
  }

  /** FileNames only looks at the types of the children. */
  lemma FileNamesFrame(nodes: Nodes, r: Nodes, ch: map<string, Id>)
    requires forall x :: x in ch.Values ==> x in nodes && x in r && r[x].itype == nodes[x].itype
    ensures FileNames(r, ch) == FileNames(nodes, ch)
  {
    forall n | n in ch ensures ch[n] in ch.Values {}
  }

  lemma DirOkFrame(nodes: Nodes, r: Nodes, d: Id)
    requires IsDir(nodes, d) && DirOk(nodes, d) && IsDir(r, d)
    requires r[d].body == nodes[d].body
    requires forall x :: x in Children(nodes, d).Values ==> x in r && r[x].itype == nodes[x].itype && r[x].parent == nodes[x].parent
    ensures DirOk(r, d)
  {
    var ch := Children(nodes, d);
    forall n | n in ch ensures ch[n] in ch.Values {}
    FileNamesFrame(nodes, r, ch);
  }

  // ---------------------------------------------------------------------
  // remove_child

  /** The counter remove_child decrements is positive, so size_t never wraps here. */
  lemma CounterPositive(nodes: Nodes, d: Id, name: string)
    requires WellFormed(nodes) && IsDir(nodes, d) && name in Children(nodes, d)
    ensures Children(nodes, d)[name] in nodes
    ensures nodes[Children(nodes, d)[name]].itype == FileType ==> nodes[d].body.nFiles >= 1
    ensures nodes[Children(nodes, d)[name]].itype != FileType ==> nodes[d].body.nDirs >= 1
  {
    var ch := Children(nodes, d);
    assert DirOk(nodes, d);
    assert name in FileNames(nodes, ch) <==> nodes[ch[name]].itype == FileType;
    if nodes[ch[name]].itype != FileType {
      SubsetCard(FileNames(nodes, ch), ch.Keys - {name});
    }
  }

  /**
   * Dir::remove_child: an absent name changes nothing; a present one leaves
   * the map, its counter goes down and the child's parent is cleared.
   */
  function Detach(nodes: Nodes, d: Id, name: string): (r: Nodes)
    requires WellFormed(nodes) && IsDir(nodes, d)
    ensures r.Keys == nodes.Keys && IsDir(r, d)
    ensures Children(r, d) == Children(nodes, d) - {name}
    ensures r[d].parent == nodes[d].parent && r[d].itype == nodes[d].itype
    ensures r[d].mode == nodes[d].mode && r[d].body.role == nodes[d].body.role
    ensures forall i :: i in nodes ==> r[i].itype == nodes[i].itype
    ensures forall i :: i in nodes && i != d ==> r[i].body == nodes[i].body && r[i].mode == nodes[i].mode
    ensures name !in Children(nodes, d) ==> r == nodes
    ensures name in Children(nodes, d) ==>
      var c := Children(nodes, d)[name];
      && c in nodes && r[c] == nodes[c].SetParent(None)
      && (forall i :: i in nodes && i != d && i != c ==> r[i] == nodes[i])
  {
    var b := nodes[d].body;
    if name !in b.children then nodes
    else
      assert DirOk(nodes, d);
      var c := b.children[name];
      CounterPositive(nodes, d, name);
      var b' :=
        if nodes[c].itype == FileType then b.(children := b.children - {name}, nFiles := b.nFiles - 1)
        else b.(children := b.children - {name}, nDirs := b.nDirs - 1);
      nodes[d := nodes[d].(body := b')][c := nodes[c].SetParent(None)]
  }

  lemma DetachKeepsWellFormed(nodes: Nodes, d: Id, name: string)
    requires WellFormed(nodes) && IsDir(nodes, d)
    ensures WellFormed(Detach(nodes, d, name))
  {
    if name in Children(nodes, d) {
      var r := Detach(nodes, d, name);
      assert DirOk(nodes, d);
      forall i | i in r && r[i].parent.Some? ensures ParentOk(r, i) {
        assert ParentOk(nodes, i);
      }
      forall e | IsDir(r, e) ensures DirOk(r, e) {
        if e == d {
          DetachDirOkSelf(nodes, d, name);
        } else {
          DetachDirOkOther(nodes, d, name, e);
        }
      }
    }
  }

  lemma DetachDirOkSelf(nodes: Nodes, d: Id, name: string)
    requires WellFormed(nodes) && IsDir(nodes, d) && name in Children(nodes, d)
    ensures DirOk(Detach(nodes, d, name), d)
  {
    var r := Detach(nodes, d, name);
    var ch := Children(nodes, d);
    var c := ch[name];
    assert DirOk(nodes, d);
    var ch' := ch - {name};
    forall n | n in ch' ensures ch'[n] != c && ch'[n] != d {}
    FileNamesFrame(nodes, r, ch');
    assert FileNames(nodes, ch') == FileNames(nodes, ch) - {name};
    assert ch'.Keys == ch.Keys - {name};
  }

  lemma DetachDirOkOther(nodes: Nodes, d: Id, name: string, e: Id)
    requires WellFormed(nodes) && IsDir(nodes, d) && name in Children(nodes, d)
    requires IsDir(nodes, e) && e != d
    ensures DirOk(Detach(nodes, d, name), e)
  {
    var r := Detach(nodes, d, name);
    var c := Children(nodes, d)[name];
    assert DirOk(nodes, e) && DirOk(nodes, d);
    forall x | x in Children(nodes, e).Values ensures x != c {
      var n :| n in Children(nodes, e) && Children(nodes, e)[n] == x;
    }
    DirOkFrame(nodes, r, e);
  }

  /** remove_child of a name that is not there, or a second time, changes nothing. */
  lemma DetachIdempotent(nodes: Nodes, d: Id, name: string)
    requires WellFormed(nodes) && IsDir(nodes, d)
    ensures WellFormed(Detach(nodes, d, name)) && Detach(Detach(nodes, d, name), d, name) == Detach(nodes, d, name)
  {
    DetachKeepsWellFormed(nodes, d, name);
  }

  // ---------------------------------------------------------------------
  // add_child

  /**
   * The second half of Dir::add_child, once the name is free: the node
   * enters the map, n_files_ counts it if it is a file_e and n_dirs_
   * otherwise, and its parent becomes the directory.
   */
  function Attach(nodes: Nodes, d: Id, name: string, c: Id): (r: Nodes)
    requires WellFormed(nodes) && IsDir(nodes, d) && c in nodes && d < c
    requires name !in Children(nodes, d) && Unowned(nodes, c)
    ensures r.Keys == nodes.Keys && IsDir(r, d)
    ensures Children(r, d) == Children(nodes, d)[name := c]
    ensures r[d].parent == nodes[d].parent && r[d].itype == nodes[d].itype
    ensures r[d].mode == nodes[d].mode && r[d].body.role == nodes[d].body.role
    ensures r[c] == nodes[c].SetParent(Some(d))
    ensures forall i :: i in nodes ==> r[i].itype == nodes[i].itype
    ensures forall i :: i in nodes && i != d && i != c ==> r[i] == nodes[i]
  {
    var b := nodes[d].body;
    var b' :=
      if nodes[c].itype == FileType then b.(children := b.children[name := c], nFiles := b.nFiles + 1)
      else b.(children := b.children[name := c], nDirs := b.nDirs + 1);
    nodes[d := nodes[d].(body := b')][c := nodes[c].SetParent(Some(d))]
  }

  lemma AttachKeepsWellFormed(nodes: Nodes, d: Id, name: string, c: Id)
    requires WellFormed(nodes) && IsDir(nodes, d) && c in nodes && d < c
    requires name !in Children(nodes, d) && Unowned(nodes, c)
    ensures WellFormed(Attach(nodes, d, name, c))
  {
    var r := Attach(nodes, d, name, c);
    forall i | i in r && r[i].parent.Some? ensures ParentOk(r, i) {
      if i != c {
        assert ParentOk(nodes, i);
      }
    }
    forall e | IsDir(r, e) ensures DirOk(r, e) {
      if e == d {
        AttachDirOkSelf(nodes, d, name, c);
      } else {
        AttachDirOkOther(nodes, d, name, c, e);
      }
    }
  }

  lemma FileNamesInsert(nodes: Nodes, r: Nodes, ch: map<string, Id>, name: string, c: Id)
    requires name !in ch && c in r
    requires forall x :: x in ch.Values ==> x in nodes && x in r && r[x].itype == nodes[x].itype
    ensures FileNames(r, ch[name := c]) == FileNames(nodes, ch) + (if r[c].itype == FileType then {name} else {})
  {
    FileNamesFrame(nodes, r, ch);
    var ch' := ch[name := c];
    forall n | n in ch' ensures n in FileNames(r, ch') <==> n in FileNames(r, ch) || (n == name && r[c].itype == FileType) {
      if n != name {
        assert ch'[n] == ch[n];
      }
    }
  }

  lemma AttachDirOkSelf(nodes: Nodes, d: Id, name: string, c: Id)
    requires WellFormed(nodes) && IsDir(nodes, d) && c in nodes && d < c
    requires name !in Children(nodes, d) && Unowned(nodes, c)
    ensures DirOk(Attach(nodes, d, name, c), d)
  {
    var r := Attach(nodes, d, name, c);
    var ch := Children(nodes, d);
    assert DirOk(nodes, d);
    UnownedEverywhere(nodes, c, d);
    forall x | x in ch.Values ensures x in r && r[x] == nodes[x] {
      var n :| n in ch && ch[n] == x;
    }
    DirOkInsert(nodes, r, d, name, c);
  }

  /** DirOk after an insertion, stated without the rest of the tree. */
  lemma DirOkInsert(nodes: Nodes, r: Nodes, d: Id, name: string, c: Id)
    requires IsDir(nodes, d) && DirOk(nodes, d) && IsDir(r, d)
    requires name !in Children(nodes, d) && c !in Children(nodes, d).Values
    requires Children(r, d) == Children(nodes, d)[name := c]
    requires c in r && d < c && r[c].parent == Some(d)
    requires forall x :: x in Children(nodes, d).Values ==> x in r && r[x] == nodes[x]
    requires r[d].body.nFiles == nodes[d].body.nFiles + (if r[c].itype == FileType then 1 else 0)
    requires r[d].body.nFiles + r[d].body.nDirs == nodes[d].body.nFiles + nodes[d].body.nDirs + 1
    ensures DirOk(r, d)
  {
    var ch := Children(nodes, d);
    var ch' := ch[name := c];
    assert forall n :: n in ch' ==> ch'[n] in r && d < ch'[n] && r[ch'[n]].parent == Some(d) by {
      forall n | n in ch' ensures ch'[n] in r && d < ch'[n] && r[ch'[n]].parent == Some(d) {
        if n != name {
          assert ch[n] in ch.Values;
        }
      }
    }
    assert Injective(ch') by {
      InjectiveInsert(ch, name, c);
    }
    assert |FileNames(r, ch')| == r[d].body.nFiles by {
      forall x | x in ch.Values ensures x in nodes && x in r && r[x].itype == nodes[x].itype {}
      FileNamesInsert(nodes, r, ch, name, c);
    }
    assert |ch'| == |ch| + 1 by {
      assert ch'.Keys == ch.Keys + {name};
    }
  }

  lemma InjectiveInsert(ch: map<string, Id>, name: string, c: Id)
    requires Injective(ch) && name !in ch && c !in ch.Values
    ensures Injective(ch[name := c])
  {
    forall n | n in ch ensures ch[n] != c {
      assert ch[n] in ch.Values;
    }
  }

  lemma AttachDirOkOther(nodes: Nodes, d: Id, name: string, c: Id, e: Id)
    requires WellFormed(nodes) && IsDir(nodes, d) && c in nodes && d < c
    requires name !in Children(nodes, d) && Unowned(nodes, c)
    requires IsDir(nodes, e) && e != d
    ensures DirOk(Attach(nodes, d, name, c), e)
  {
    var r := Attach(nodes, d, name, c);
    assert DirOk(nodes, e);
    UnownedEverywhere(nodes, c, e);
    DirOkFrame(nodes, r, e);
  }

  /** After Detach the name is free and the node being added is still unowned. */
  lemma DetachFreesName(nodes: Nodes, d: Id, name: string, c: Id)
    requires WellFormed(nodes) && IsDir(nodes, d) && c in nodes && Unowned(nodes, c)
    ensures WellFormed(Detach(nodes, d, name))
    ensures name !in Children(Detach(nodes, d, name), d) && c in Detach(nodes, d, name)
    ensures Unowned(Detach(nodes, d, name), c)
  {
    DetachKeepsWellFormed(nodes, d, name);
    var r := Detach(nodes, d, name);
    var ch := Children(nodes, d);
    if name in ch && r[c].parent.Some? {
      UnownedEverywhere(nodes, c, d);
      var p := r[c].parent.value;
      assert c != ch[name];
      assert ParentOk(nodes, c);
      UnownedEverywhere(nodes, c, p);
      assert Children(r, p).Values <= Children(nodes, p).Values by {
        forall x | x in Children(r, p).Values ensures x in Children(nodes, p).Values {
          var n :| n in Children(r, p) && Children(r, p)[n] == x;
          assert n in Children(nodes, p);
        }
      }
    }
  }

  /** Dir::add_child: remove the old child of that name, then attach. */
  function AddChild(nodes: Nodes, d: Id, name: string, c: Id): (r: Nodes)
    requires WellFormed(nodes) && IsDir(nodes, d) && c in nodes && d < c && Unowned(nodes, c)
    ensures WellFormed(r) && r.Keys == nodes.Keys && IsDir(r, d)
    ensures Children(r, d) == Children(nodes, d)[name := c]
    ensures r[c].parent == Some(d)
  {
    DetachFreesName(nodes, d, name, c);
    AttachKeepsWellFormed(Detach(nodes, d, name), d, name, c);
    Attach(Detach(nodes, d, name), d, name, c)
  }

  /**
   * What add_child leaves alone: the directory keeps its own fields, the
   * child only gains its parent, a replaced child only loses its parent,
   * and every other node is untouched.
   */
  ghost predicate AddFrame(nodes: Nodes, r: Nodes, d: Id, name: string, c: Id)
    requires IsDir(nodes, d) && IsDir(r, d) && c in nodes && r.Keys == nodes.Keys
  {
    && r[d].parent == nodes[d].parent && r[d].itype == nodes[d].itype
    && r[d].mode == nodes[d].mode && r[d].body.role == nodes[d].body.role
    && r[c] == nodes[c].SetParent(Some(d))
    && (forall i :: i in nodes && i != d && i != c ==>
         r[i].body == nodes[i].body && r[i].itype == nodes[i].itype && r[i].mode == nodes[i].mode)
    && (forall i :: i in nodes && i != d && i != c && (name in Children(nodes, d) ==> i != Children(nodes, d)[name]) ==>
         r[i] == nodes[i])
    && (name in Children(nodes, d) && Children(nodes, d)[name] != c && Children(nodes, d)[name] in nodes ==>
         r[Children(nodes, d)[name]] == nodes[Children(nodes, d)[name]].SetParent(None))
  }

  lemma AddChildFrame(nodes: Nodes, d: Id, name: string, c: Id)
    requires WellFormed(nodes) && IsDir(nodes, d) && c in nodes && d < c && Unowned(nodes, c)
    ensures AddFrame(nodes, AddChild(nodes, d, name, c), d, name, c)
  {
    var ch := Children(nodes, d);
    if name in ch {
      assert ch[name] != c by {
        UnownedEverywhere(nodes, c, d);
        assert ch[name] in ch.Values;
      }
    }
  }

  /** The counters always agree with the children: n_files_ counts the file_e children, n_dirs_ the rest. */
  lemma CountersAgree(nodes: Nodes, d: Id)
    requires WellFormed(nodes) && IsDir(nodes, d)
    ensures nodes[d].body.nFiles == |FileNames(nodes, Children(nodes, d))|
    ensures nodes[d].body.nDirs == |Children(nodes, d).Keys - FileNames(nodes, Children(nodes, d))|
  {
    assert DirOk(nodes, d);
    var ch := Children(nodes, d);
    assert |ch.Keys - FileNames(nodes, ch)| == |ch.Keys| - |FileNames(nodes, ch)|;
  }

  // ---------------------------------------------------------------------
  // Keeping some children only

  /** The part of a children map under the names in `keep`. */
  function Only(ch: map<string, Id>, keep: set<string>): (r: map<string, Id>)
    ensures r.Keys == ch.Keys * keep && forall n :: n in r ==> r[n] == ch[n]
  {
    map n | n in ch && n in keep :: ch[n]
  }

  /**
   * The directory keeps only its children under the names in `keep`, with
   * its counters recounted from them.  The dropped children are not told:
   * their parent is still the directory, which no longer holds them.
   */
  function Restrict(nodes: Nodes, d: Id, keep: set<string>): (r: Nodes)
    requires WellFormed(nodes) && IsDir(nodes, d)
    ensures r.Keys == nodes.Keys && IsDir(r, d) && Children(r, d) == Only(Children(nodes, d), keep)
    ensures r[d].parent == nodes[d].parent && r[d].itype == nodes[d].itype
    ensures r[d].mode == nodes[d].mode && r[d].body.role == nodes[d].body.role
    ensures forall i :: i in nodes && i != d ==> r[i] == nodes[i]
  {
    var ch := Only(Children(nodes, d), keep);
    var nf := |FileNames(nodes, ch)|;
    SubsetCard(FileNames(nodes, ch), ch.Keys);
    nodes[d := nodes[d].(body := nodes[d].body.(children := ch, nFiles := nf, nDirs := |ch| - nf))]
  }

  lemma RestrictKeepsWellFormed(nodes: Nodes, d: Id, keep: set<string>)
    requires WellFormed(nodes) && IsDir(nodes, d)
    ensures WellFormed(Restrict(nodes, d, keep))
  {
    var r := Restrict(nodes, d, keep);
    var ch := Only(Children(nodes, d), keep);
    assert DirOk(nodes, d);
    forall i | i in r && r[i].parent.Some? ensures ParentOk(r, i) {
      assert ParentOk(nodes, i);
    }
    forall e | IsDir(r, e) ensures DirOk(r, e) {
      assert DirOk(nodes, e);
      if e == d {
        forall x | x in ch.Values ensures x in nodes && x in r && r[x].itype == nodes[x].itype {
          var n :| n in ch && ch[n] == x;
        }
        FileNamesFrame(nodes, r, ch);
      } else {
        DirOkFrame(nodes, r, e);
      }
    }
  }

  // ---------------------------------------------------------------------
  // New nodes and in-place updates

  /** A node just constructed: no parent, and, for a directory, no children yet. */
  predicate Fresh(n: Inode) {
    n.parent.None? && (n.body.DirBody? ==> n.body.children == map[] && n.body.nFiles == 0 && n.body.nDirs == 0)
  }

  lemma AllocKeepsWellFormed(nodes: Nodes, id: Id, n: Inode)
    requires WellFormed(nodes) && id !in nodes && Fresh(n)
    ensures WellFormed(nodes[id := n]) && Unowned(nodes[id := n], id)
  {
    var r := nodes[id := n];
    forall i | i in r && r[i].parent.Some? ensures ParentOk(r, i) {
      assert ParentOk(nodes, i);
    }
    forall e | IsDir(r, e) ensures DirOk(r, e) {
      if e != id {
        assert DirOk(nodes, e);
        DirOkFrame(nodes, r, e);
      }
    }
  }

  /** An update that keeps a node's place in the tree: same parent, type and, for a directory, children and counters. */
  predicate SameShape(a: Inode, b: Inode) {
    && a.parent == b.parent && a.itype == b.itype
    && (a.body.DirBody? <==> b.body.DirBody?)
    && (a.body.DirBody? ==> a.body.children == b.body.children && a.body.nFiles == b.body.nFiles && a.body.nDirs == b.body.nDirs)
  }

  lemma ReplaceKeepsWellFormed(nodes: Nodes, i: Id, n: Inode)
    requires WellFormed(nodes) && i in nodes && SameShape(nodes[i], n)
    ensures WellFormed(nodes[i := n])
  {
    var r := nodes[i := n];
    forall j | j in r && r[j].parent.Some? ensures ParentOk(r, j) {
      assert ParentOk(nodes, j);
    }
    forall e | IsDir(r, e) ensures DirOk(r, e) {
      assert DirOk(nodes, e);
      var ch := Children(nodes, e);
      forall x | x in ch.Values ensures x in r && r[x].itype == nodes[x].itype {}
      FileNamesFrame(nodes, r, ch);
    }
  }

  // ---------------------------------------------------------------------
  // Dir::leaf

  /**
   * Where Dir::leaf stops when given the components `toks`: the node
   * reached and how many components it consumed.  A non-directory stops
   * the walk (Inode::leaf returns the node itself), and so does the first
   * component that names no child.
   */
  ghost function Walk(nodes: Nodes, at: Id, toks: seq<string>): (r: (Id, nat))
    requires WellFormed(nodes) && at in nodes
    ensures r.0 in nodes && r.1 <= |toks|
    ensures r.1 < |toks| ==> !IsDir(nodes, r.0) || toks[r.1] !in Children(nodes, r.0)
    decreases |toks|
  {
    if IsDir(nodes, at) && toks != [] && toks[0] in Children(nodes, at) then
      assert DirOk(nodes, at);
      var w := Walk(nodes, Children(nodes, at)[toks[0]], toks[1..]);
      (w.0, w.1 + 1)
    else (at, 0)
  }

  /** The walk follows the consumed components: walking them alone gets to the same node and consumes them all. */
  lemma {:induction false} WalkPrefix(nodes: Nodes, at: Id, toks: seq<string>)
    requires WellFormed(nodes) && at in nodes
    ensures Walk(nodes, at, toks[..Walk(nodes, at, toks).1]) == Walk(nodes, at, toks)
    decreases |toks|
  {
    var w := Walk(nodes, at, toks);
    if IsDir(nodes, at) && toks != [] && toks[0] in Children(nodes, at) {
      assert DirOk(nodes, at);
      var c := Children(nodes, at)[toks[0]];
      WalkPrefix(nodes, c, toks[1..]);
      assert toks[..w.1][1..] == toks[1..][..w.1 - 1];
    }
  }

  // ---------------------------------------------------------------------
  // Inode::path and Dir::path

  /** The name under which a directory holds a node, if it does. */
  function NameIn(ch: map<string, Id>, c: Id): (r: Option<string>)
    requires Injective(ch)
    ensures r.None? <==> c !in ch.Values
    ensures r.Some? ==> r.value in ch && ch[r.value] == c
  {
    if c in ch.Values then
      var n :| n in ch && ch[n] == c;
      Some(n)
    else None
  }

  /**
   * Inode::path: the mount path for a node without a parent; otherwise the
   * parent's path, "/" and the node's name there, or "?" when the parent
   * does not hold it.
   */
  function PathOf(nodes: Nodes, mountPath: string, i: Id): (r: string)
    requires WellFormed(nodes) && i in nodes
    ensures nodes[i].parent.None? ==> r == mountPath
    decreases i
  {
    match nodes[i].parent
    case None => mountPath
    case Some(p) =>
      assert ParentOk(nodes, i) && DirOk(nodes, p);
      match NameIn(Children(nodes, p), i)
      case None => "?"
      case Some(n) => PathOf(nodes, mountPath, p) + "/" + n
  }

  /** A child's path is its directory's path, "/" and its name. */
  lemma ChildPath(nodes: Nodes, mountPath: string, d: Id, name: string)
    requires WellFormed(nodes) && IsDir(nodes, d) && name in Children(nodes, d)
    ensures Children(nodes, d)[name] in nodes
    ensures PathOf(nodes, mountPath, Children(nodes, d)[name]) == PathOf(nodes, mountPath, d) + "/" + name
  {
    assert DirOk(nodes, d);
  }

  /** A node removed with remove_child has no parent, so its path is the mount path again. */
  lemma DetachedPath(nodes: Nodes, mountPath: string, d: Id, name: string)
    requires WellFormed(nodes) && IsDir(nodes, d) && name in Children(nodes, d)
    ensures WellFormed(Detach(nodes, d, name))
    ensures Children(nodes, d)[name] in nodes
    ensures PathOf(Detach(nodes, d, name), mountPath, Children(nodes, d)[name]) == mountPath
  {
    DetachKeepsWellFormed(nodes, d, name);
    assert DirOk(nodes, d);
  }

  /** A node whose directory has dropped it without clearing its parent has the path "?". */
  lemma StalePath(nodes: Nodes, mountPath: string, i: Id)
    requires WellFormed(nodes) && i in nodes && nodes[i].parent.Some? && Unowned(nodes, i)
    ensures PathOf(nodes, mountPath, i) == "?"
  {
    assert ParentOk(nodes, i) && DirOk(nodes, nodes[i].parent.value);
  }
}
