/** Directory entries and link counts (sysfile.c, fs.c): the invariant and what each change of one
    entry or one link count does to it.

    A directory is the sequence of its entries; module DirBytes relates that to the bytes of its file. */
module Links {

  datatype Kind = Unallocated | File | Dir

  /** inum 0 marks an empty slot.  Names are at most DIRSIZ characters. */
  datatype Entry = Entry(inum: nat, name: string)

  datatype Node = Node(kind: Kind, nlink: int, ents: seq<Entry>, ref: int, valid: bool)

  const Empty: Entry := Entry(0, "")

  /** A directory that some entry still leads to. */
  predicate Linked(x: Node) {
    x.kind == Dir && x.nlink > 0
  }

  predicate LinkedAt(nodes: seq<Node>, d: nat) {
    d < |nodes| && Linked(nodes[d])
  }

  // ----- counting links

  /** The entry counts as a link to inode i: it names it and is not ".". */
  predicate Counts(e: Entry, i: nat) {
    e.inum == i && i != 0 && e.name != "."
  }

  function One(b: bool): nat {
    if b then 1 else 0
  }

  function EntCount(ents: seq<Entry>, i: nat): nat {
    if ents == [] then 0 else EntCount(ents[..|ents| - 1], i) + One(Counts(ents[|ents| - 1], i))
  }

  function NodeCount(x: Node, i: nat): nat {
    if Linked(x) then EntCount(x.ents, i) else 0
  }

  /** The number of entries other than "." that name inode i, in linked directories. */
  function Total(nodes: seq<Node>, i: nat): nat {
    if nodes == [] then 0 else Total(nodes[..|nodes| - 1], i) + NodeCount(nodes[|nodes| - 1], i)
  }

  lemma {:induction false} EntUpdate(ents: seq<Entry>, k: nat, e: Entry, i: nat)
    requires k < |ents|
    ensures EntCount(ents[k := e], i) + One(Counts(ents[k], i)) == EntCount(ents, i) + One(Counts(e, i))
  {
    var m := |ents| - 1;
    if k == m {
      assert ents[k := e][..m] == ents[..m];
    } else {
      assert ents[k := e][..m] == ents[..m][k := e];
      EntUpdate(ents[..m], k, e, i);
    }
  }

  lemma EntAppend(ents: seq<Entry>, e: Entry, i: nat)
    ensures EntCount(ents + [e], i) == EntCount(ents, i) + One(Counts(e, i))
  {
    assert (ents + [e])[..|ents|] == ents;
  }

  lemma {:induction false} EntNone(ents: seq<Entry>, i: nat)
    requires forall k :: 0 <= k < |ents| ==> !Counts(ents[k], i)
    ensures EntCount(ents, i) == 0
  {
    if ents != [] {
      EntNone(ents[..|ents| - 1], i);
    }
  }

  lemma {:induction false} TotalUpdate(nodes: seq<Node>, d: nat, x: Node, i: nat)
    requires d < |nodes|
    ensures Total(nodes[d := x], i) + NodeCount(nodes[d], i) == Total(nodes, i) + NodeCount(x, i)
  {
    var m := |nodes| - 1;
    if d == m {
      assert nodes[d := x][..m] == nodes[..m];
    } else {
      assert nodes[d := x][..m] == nodes[..m][d := x];
      TotalUpdate(nodes[..m], d, x, i);
    }
  }

  lemma {:induction false} TotalNone(nodes: seq<Node>, i: nat)
    requires forall d :: 0 <= d < |nodes| ==> NodeCount(nodes[d], i) == 0
    ensures Total(nodes, i) == 0
  {
    if nodes != [] {
      TotalNone(nodes[..|nodes| - 1], i);
    }
  }

  /** An entry that counts makes the total at least one. */
  lemma TotalSome(nodes: seq<Node>, d: nat, k: nat, i: nat)
    requires LinkedAt(nodes, d) && k < |nodes[d].ents| && Counts(nodes[d].ents[k], i)
    ensures Total(nodes, i) >= 1
  {
    var ents := nodes[d].ents;
    EntUpdate(ents, k, Empty, i);
    TotalUpdate(nodes, d, nodes[d].(ents := ents[k := Empty]), i);
  }

  // ----- the invariant

  predicate NamesUnique(ents: seq<Entry>) {
    forall j, k :: 0 <= j < k < |ents| && ents[j].inum != 0 && ents[k].inum != 0 ==> ents[j].name != ents[k].name
  }

  predicate Dots(ents: seq<Entry>, self: nat) {
    |ents| >= 2 && ents[0] == Entry(self, ".") && ents[1].inum != 0 && ents[1].name == ".."
  }

  /** The entry k >= 2 of linked directory d: when it names a directory, that directory's ".." leads
      back to d and no other slot of d names it. */
  predicate EntryOk(nodes: seq<Node>, root: nat, d: nat, k: nat) {
    LinkedAt(nodes, d) && 2 <= k < |nodes[d].ents| && nodes[d].ents[k].inum != 0 ==>
      var i := nodes[d].ents[k].inum;
      && i < |nodes|
      && (nodes[i].kind == Dir ==>
            && i != root && Linked(nodes[i]) && |nodes[i].ents| >= 2 && nodes[i].ents[1].inum == d
            && forall j :: 2 <= j < |nodes[d].ents| && j != k ==> nodes[d].ents[j].inum != i)
  }

  /** A linked directory has its dots, unique names, and, unless it is the root, a linked parent with
      an entry for it. */
  predicate DirOk(nodes: seq<Node>, root: nat, d: nat) {
    LinkedAt(nodes, d) ==>
      var ents := nodes[d].ents;
      && d != 0 && Dots(ents, d) && NamesUnique(ents)
      && (d == root ==> ents[1].inum == root)
      && (d != root ==> ParentOk(nodes, ents[1].inum, d))
  }

  predicate ParentOk(nodes: seq<Node>, p: nat, d: nat) {
    LinkedAt(nodes, p) && exists k :: 2 <= k < |nodes[p].ents| && nodes[p].ents[k].inum == d
  }

  predicate CountOk(nodes: seq<Node>, i: nat) {
    0 < i < |nodes| ==>
      && nodes[i].nlink == Total(nodes, i)
      && (nodes[i].kind == Unallocated ==> nodes[i].nlink == 0)
  }

  /** A directory that has been removed, but is still open somewhere, has only its dots. */
  predicate RemovedOk(nodes: seq<Node>, d: nat) {
    d < |nodes| && nodes[d].kind == Dir && !Linked(nodes[d]) ==>
      d != 0 && Dots(nodes[d].ents, d) && OnlyDots(nodes[d].ents) && nodes[d].ents[1].inum < |nodes|
  }

  ghost predicate Inv(nodes: seq<Node>, root: nat) {
    && LinkedAt(nodes, root) && nodes[0].kind == Unallocated
    && (forall d: nat :: RemovedOk(nodes, d))
    && (forall d: nat :: DirOk(nodes, root, d))
    && (forall d: nat, k: nat :: EntryOk(nodes, root, d, k))
    && (forall i: nat :: CountOk(nodes, i))
  }

  // ----- adding an entry

  /** The slot dirlink uses: the first empty one, or the end. */
  predicate Slot(ents: seq<Entry>, k: nat) {
    k <= |ents| && (k < |ents| ==> ents[k].inum == 0) && forall j :: 0 <= j < k ==> ents[j].inum != 0
  }

  function SetEntry(ents: seq<Entry>, k: nat, e: Entry): (r: seq<Entry>)
    requires k <= |ents|
    ensures |r| == (if k == |ents| then k + 1 else |ents|) && r[k] == e
    ensures forall j :: 0 <= j < |ents| && j != k ==> r[j] == ents[j]
  {
    if k == |ents| then ents + [e] else ents[k := e]
  }

  predicate Fresh(ents: seq<Entry>, name: string) {
    forall k :: 0 <= k < |ents| && ents[k].inum != 0 ==> ents[k].name != name
  }

  lemma SetEntryCount(ents: seq<Entry>, k: nat, e: Entry, i: nat)
    requires Slot(ents, k)
    ensures EntCount(SetEntry(ents, k, e), i) == EntCount(ents, i) + One(Counts(e, i))
  {
    if k == |ents| {
      EntAppend(ents, e, i);
    } else {
      EntUpdate(ents, k, e, i);
    }
  }

  lemma SetEntryUnique(ents: seq<Entry>, k: nat, e: Entry)
    requires NamesUnique(ents) && Slot(ents, k) && Fresh(ents, e.name)
    ensures NamesUnique(SetEntry(ents, k, e))
  {
  }

  /** A file gets one more name in linked directory d: inode i, link count already raised. */
  function LinkFile(nodes: seq<Node>, d: nat, k: nat, i: nat, name: string, x: Node): seq<Node>
    requires d < |nodes| && i < |nodes| && k <= |nodes[d].ents|
  {
    nodes[i := x][d := nodes[d].(ents := SetEntry(nodes[d].ents, k, Entry(i, name)))]
  }

  lemma LinkFileCount(nodes: seq<Node>, d: nat, k: nat, i: nat, name: string, x: Node, j: nat)
    requires LinkedAt(nodes, d) && 0 < i < |nodes| && i != d && !Linked(nodes[i]) && !Linked(x) && Slot(nodes[d].ents, k) && name != "."
    ensures Total(LinkFile(nodes, d, k, i, name, x), j) == Total(nodes, j) + One(j == i)
  {
    var a := nodes[i := x];
    TotalUpdate(nodes, i, x, j);
    var y := nodes[d].(ents := SetEntry(nodes[d].ents, k, Entry(i, name)));
    TotalUpdate(a, d, y, j);
    SetEntryCount(nodes[d].ents, k, Entry(i, name), j);
  }

  /** The conditions under which a file gets a new name. */
  ghost predicate CanLinkFile(nodes: seq<Node>, root: nat, d: nat, k: nat, i: nat, name: string, x: Node) {
    && Inv(nodes, root) && LinkedAt(nodes, d) && 0 < i < |nodes| && nodes[i].kind != Dir && x.kind == File
    && x.nlink == nodes[i].nlink + 1 && Slot(nodes[d].ents, k) && Fresh(nodes[d].ents, name) && name != "."
  }

  lemma LinkFileDir(nodes: seq<Node>, root: nat, d: nat, k: nat, i: nat, name: string, x: Node, e: nat)
    requires CanLinkFile(nodes, root, d, k, i, name, x)
    ensures DirOk(LinkFile(nodes, d, k, i, name, x), root, e) && RemovedOk(LinkFile(nodes, d, k, i, name, x), e)
  {
    hide CountOk, EntryOk;
    assert DirOk(nodes, root, d) && DirOk(nodes, root, e) && RemovedOk(nodes, e);
    SetEntryUnique(nodes[d].ents, k, Entry(i, name));
    var t := LinkFile(nodes, d, k, i, name, x);
    if LinkedAt(nodes, e) && e != root {
      var p := nodes[e].ents[1].inum;
      var m :| 2 <= m < |nodes[p].ents| && nodes[p].ents[m].inum == e;
      assert t[p].ents[m].inum == e;
    }
  }

  lemma LinkFileEntry(nodes: seq<Node>, root: nat, d: nat, k: nat, i: nat, name: string, x: Node, e: nat, m: nat)
    requires CanLinkFile(nodes, root, d, k, i, name, x)
    ensures EntryOk(LinkFile(nodes, d, k, i, name, x), root, e, m)
  {
    hide CountOk, DirOk, RemovedOk;
    assert EntryOk(nodes, root, e, m);
  }

  lemma LinkFileKept(nodes: seq<Node>, root: nat, d: nat, k: nat, i: nat, name: string, x: Node)
    requires CanLinkFile(nodes, root, d, k, i, name, x)
    ensures Inv(LinkFile(nodes, d, k, i, name, x), root)
  {
    hide DirOk, EntryOk, RemovedOk, Total;
    var t := LinkFile(nodes, d, k, i, name, x);
    assert CountOk(nodes, i);
    forall e: nat ensures DirOk(t, root, e) && RemovedOk(t, e) {
      LinkFileDir(nodes, root, d, k, i, name, x, e);
    }
    forall e: nat, m: nat ensures EntryOk(t, root, e, m) {
      LinkFileEntry(nodes, root, d, k, i, name, x, e, m);
    }
    forall j: nat ensures CountOk(t, j) {
      assert CountOk(nodes, j);
      LinkFileCount(nodes, d, k, i, name, x, j);
    }
  }

  // ----- making a directory

  function NewDir(i: nat, d: nat, ref: int): Node {
    Node(Dir, 1, [Entry(i, "."), Entry(d, "..")], ref, true)
  }

  /** Directory i is made in linked directory d, whose link count goes up for its "..". */
  function LinkDir(nodes: seq<Node>, d: nat, k: nat, i: nat, name: string, x: Node): seq<Node>
    requires d < |nodes| && i < |nodes| && k <= |nodes[d].ents|
  {
    nodes[i := x][d := nodes[d].(nlink := nodes[d].nlink + 1, ents := SetEntry(nodes[d].ents, k, Entry(i, name)))]
  }

  lemma NewDirCount(i: nat, d: nat, ref: int, j: nat)
    ensures NodeCount(NewDir(i, d, ref), j) == One(j == d && d != 0)
  {
    var e0, e1 := Entry(i, "."), Entry(d, "..");
    assert [e0, e1] == ([] + [e0]) + [e1];
    EntAppend([], e0, j);
    EntAppend([e0], e1, j);
  }

  lemma LinkDirCount(nodes: seq<Node>, d: nat, k: nat, i: nat, name: string, ref: int, j: nat)
    requires LinkedAt(nodes, d) && 0 < i < |nodes| && d != 0 && i != d && !Linked(nodes[i]) && Slot(nodes[d].ents, k) && name != "."
    ensures Total(LinkDir(nodes, d, k, i, name, NewDir(i, d, ref)), j) == Total(nodes, j) + One(j == i) + One(j == d)
  {
    var x := NewDir(i, d, ref);
    var a := nodes[i := x];
    TotalUpdate(nodes, i, x, j);
    NewDirCount(i, d, ref, j);
    var y := nodes[d].(nlink := nodes[d].nlink + 1, ents := SetEntry(nodes[d].ents, k, Entry(i, name)));
    TotalUpdate(a, d, y, j);
    SetEntryCount(nodes[d].ents, k, Entry(i, name), j);
  }

  lemma LinkDirKept(nodes: seq<Node>, root: nat, d: nat, k: nat, i: nat, name: string, ref: int)
    requires Inv(nodes, root) && LinkedAt(nodes, d) && 0 < i < |nodes| && nodes[i].kind == Unallocated
    requires Slot(nodes[d].ents, k) && Fresh(nodes[d].ents, name) && name != "." && name != ".."
    ensures Inv(LinkDir(nodes, d, k, i, name, NewDir(i, d, ref)), root)
  {
    hide Total, EntCount, NodeCount;
    var t := LinkDir(nodes, d, k, i, name, NewDir(i, d, ref));
    assert DirOk(nodes, root, d) && CountOk(nodes, i);
    SetEntryUnique(nodes[d].ents, k, Entry(i, name));
    forall e: nat ensures DirOk(t, root, e) {
      assert DirOk(nodes, root, e);
      if e == i {
        assert t[d].ents[k].inum == i;
      }
    }
    forall e: nat ensures RemovedOk(t, e) {
      assert RemovedOk(nodes, e);
    }
    forall e: nat, m: nat ensures EntryOk(t, root, e, m) {
      LinkDirEntry(nodes, root, d, k, i, name, ref, e, m);
    }
    forall j: nat ensures CountOk(t, j) {
      assert CountOk(nodes, j);
      LinkDirCount(nodes, d, k, i, name, ref, j);
    }
  }

  /** Nothing named an unallocated inode before. */
  lemma NothingNames(nodes: seq<Node>, root: nat, i: nat, d: nat, k: nat)
    requires Inv(nodes, root) && 0 < i < |nodes| && nodes[i].nlink == 0
    requires LinkedAt(nodes, d) && k < |nodes[d].ents| && nodes[d].ents[k].name != "."
    ensures nodes[d].ents[k].inum != i
  {
    assert CountOk(nodes, i);
    if nodes[d].ents[k].inum == i {
      TotalSome(nodes, d, k, i);
    }
  }

  lemma DotsNamed(nodes: seq<Node>, root: nat, d: nat, k: nat)
    requires Inv(nodes, root) && LinkedAt(nodes, d) && 2 <= k < |nodes[d].ents| && nodes[d].ents[k].inum != 0
    ensures nodes[d].ents[k].name != "." && nodes[d].ents[k].name != ".."
  {
    assert DirOk(nodes, root, d);
  }

  lemma LinkDirEntry(nodes: seq<Node>, root: nat, d: nat, k: nat, i: nat, name: string, ref: int, e: nat, m: nat)
    requires Inv(nodes, root) && LinkedAt(nodes, d) && 0 < i < |nodes| && nodes[i].kind == Unallocated
    requires Slot(nodes[d].ents, k) && Fresh(nodes[d].ents, name) && name != "." && name != ".."
    ensures EntryOk(LinkDir(nodes, d, k, i, name, NewDir(i, d, ref)), root, e, m)
  {
    var t := LinkDir(nodes, d, k, i, name, NewDir(i, d, ref));
    assert EntryOk(nodes, root, e, m) && CountOk(nodes, i) && DirOk(nodes, root, d);
    forall j: nat | j < |nodes[d].ents| && 2 <= j ensures nodes[d].ents[j].inum != i {
      if nodes[d].ents[j].inum != 0 {
        DotsNamed(nodes, root, d, j);
        NothingNames(nodes, root, i, d, j);
      }
    }
    if LinkedAt(nodes, e) && 2 <= m < |nodes[e].ents| && nodes[e].ents[m].inum != 0 {
      DotsNamed(nodes, root, e, m);
      NothingNames(nodes, root, i, e, m);
    }
  }

  // ----- removing an entry

  /** Only the dots are left. */
  predicate OnlyDots(ents: seq<Entry>) {
    forall k :: 2 <= k < |ents| ==> ents[k].inum == 0
  }

  /** Slot k of linked directory d, which names file i, is cleared; i loses a link. */
  function UnlinkFile(nodes: seq<Node>, d: nat, k: nat): seq<Node>
    requires d < |nodes| && k < |nodes[d].ents| && nodes[d].ents[k].inum < |nodes|
  {
    var i := nodes[d].ents[k].inum;
    nodes[i := nodes[i].(nlink := nodes[i].nlink - 1)][d := nodes[d].(ents := nodes[d].ents[k := Empty])]
  }

  lemma UnlinkFileKept(nodes: seq<Node>, root: nat, d: nat, k: nat)
    requires Inv(nodes, root) && LinkedAt(nodes, d) && 2 <= k < |nodes[d].ents| && nodes[d].ents[k].inum != 0
    requires nodes[d].ents[k].inum < |nodes| && nodes[nodes[d].ents[k].inum].kind != Dir
    ensures nodes[nodes[d].ents[k].inum].nlink >= 1
    ensures Inv(UnlinkFile(nodes, d, k), root)
  {
    hide Total, EntCount, NodeCount;
    var i := nodes[d].ents[k].inum;
    var t := UnlinkFile(nodes, d, k);
    DotsNamed(nodes, root, d, k);
    TotalSome(nodes, d, k, i);
    assert CountOk(nodes, i) && DirOk(nodes, root, d);
    forall e: nat ensures DirOk(t, root, e) {
      assert DirOk(nodes, root, e);
      if LinkedAt(nodes, e) && e != root {
        StillNamed(nodes, t, d, k, e);
      }
    }
    forall e: nat ensures RemovedOk(t, e) {
      assert RemovedOk(nodes, e);
    }
    forall e: nat, m: nat ensures EntryOk(t, root, e, m) {
      assert EntryOk(nodes, root, e, m);
    }
    forall j: nat ensures CountOk(t, j) {
      assert CountOk(nodes, j);
      UnlinkFileCount(nodes, d, k, j);
    }
  }

  /** Clearing a slot that names something else leaves e's parent its entry for e. */
  lemma StillNamed(nodes: seq<Node>, t: seq<Node>, d: nat, k: nat, e: nat)
    requires d < |nodes| == |t| && k < |nodes[d].ents| && nodes[d].ents[k].inum != e && e != 0 && LinkedAt(nodes, e) && |nodes[e].ents| >= 2
    requires t[d].ents == nodes[d].ents[k := Empty] && forall x :: 0 <= x < |t| && x != d ==> t[x].ents == nodes[x].ents
    requires var p := nodes[e].ents[1].inum; ParentOk(nodes, p, e) && LinkedAt(t, p)
    ensures ParentOk(t, nodes[e].ents[1].inum, e)
  {
    var p := nodes[e].ents[1].inum;
    var m :| 2 <= m < |nodes[p].ents| && nodes[p].ents[m].inum == e;
    assert t[p].ents[m].inum == e;
  }

  lemma UnlinkFileCount(nodes: seq<Node>, d: nat, k: nat, j: nat)
    requires LinkedAt(nodes, d) && k < |nodes[d].ents| && 0 < nodes[d].ents[k].inum < |nodes| && nodes[d].ents[k].name != "."
    requires nodes[nodes[d].ents[k].inum].kind != Dir
    ensures Total(UnlinkFile(nodes, d, k), j) + One(j == nodes[d].ents[k].inum) == Total(nodes, j)
  {
    var i := nodes[d].ents[k].inum;
    var x := nodes[i].(nlink := nodes[i].nlink - 1);
    TotalUpdate(nodes, i, x, j);
    EntUpdate(nodes[d].ents, k, Empty, j);
    TotalUpdate(nodes[i := x], d, nodes[d].(ents := nodes[d].ents[k := Empty]), j);
  }

  /** Slot k of linked directory d, which names directory i, is cleared; both lose a link. */
  function UnlinkDir(nodes: seq<Node>, d: nat, k: nat): seq<Node>
    requires d < |nodes| && k < |nodes[d].ents| && nodes[d].ents[k].inum < |nodes|
  {
    var i := nodes[d].ents[k].inum;
    nodes[i := nodes[i].(nlink := nodes[i].nlink - 1)]
         [d := nodes[d].(nlink := nodes[d].nlink - 1, ents := nodes[d].ents[k := Empty])]
  }

  /** The only entry that counts as a link to an empty directory is the one in its parent. */
  lemma OnlyLink(nodes: seq<Node>, root: nat, d: nat, k: nat, e: nat, m: nat)
    requires Inv(nodes, root) && LinkedAt(nodes, d) && 2 <= k < |nodes[d].ents| && nodes[d].ents[k].inum != 0
    requires nodes[d].ents[k].inum < |nodes| && nodes[nodes[d].ents[k].inum].kind == Dir && OnlyDots(nodes[nodes[d].ents[k].inum].ents)
    requires LinkedAt(nodes, e) && m < |nodes[e].ents| && Counts(nodes[e].ents[m], nodes[d].ents[k].inum)
    ensures e == d && m == k
  {
    var i := nodes[d].ents[k].inum;
    assert EntryOk(nodes, root, d, k) && EntryOk(nodes, root, e, m) && DirOk(nodes, root, e);
  }

  /** An empty directory has exactly one link. */
  lemma EmptyDirLink(nodes: seq<Node>, root: nat, d: nat, k: nat)
    requires Inv(nodes, root) && LinkedAt(nodes, d) && 2 <= k < |nodes[d].ents| && nodes[d].ents[k].inum != 0
    requires nodes[d].ents[k].inum < |nodes| && nodes[nodes[d].ents[k].inum].kind == Dir && OnlyDots(nodes[nodes[d].ents[k].inum].ents)
    ensures nodes[nodes[d].ents[k].inum].nlink == 1
  {
    var i := nodes[d].ents[k].inum;
    var x := nodes[d].(ents := nodes[d].ents[k := Empty]);
    var t := nodes[d := x];
    DotsNamed(nodes, root, d, k);
    forall e | 0 <= e < |t| ensures NodeCount(t[e], i) == 0 {
      if Linked(t[e]) {
        forall m | 0 <= m < |t[e].ents| ensures !Counts(t[e].ents[m], i) {
          if Counts(nodes[e].ents[m], i) {
            OnlyLink(nodes, root, d, k, e, m);
          }
        }
        EntNone(t[e].ents, i);
      }
    }
    TotalNone(t, i);
    TotalUpdate(nodes, d, x, i);
    EntUpdate(nodes[d].ents, k, Empty, i);
    assert CountOk(nodes, i);
  }

  /** What an empty directory counts for: its "..". */
  lemma {:induction false} DotsCount(ents: seq<Entry>, i: nat, j: nat)
    requires Dots(ents, i) && OnlyDots(ents)
    ensures EntCount(ents, j) == One(j == ents[1].inum)
  {
    if |ents| == 2 {
      assert ents == ([] + [ents[0]]) + [ents[1]];
      EntAppend([], ents[0], j);
      EntAppend([ents[0]], ents[1], j);
    } else {
      DotsCount(ents[..|ents| - 1], i, j);
    }
  }

  lemma UnlinkDirCount(nodes: seq<Node>, root: nat, d: nat, k: nat, j: nat)
    requires Inv(nodes, root) && LinkedAt(nodes, d) && 2 <= k < |nodes[d].ents| && nodes[d].ents[k].inum != 0
    requires nodes[d].ents[k].inum < |nodes| && nodes[nodes[d].ents[k].inum].kind == Dir && OnlyDots(nodes[nodes[d].ents[k].inum].ents)
    requires nodes[d].nlink > 1
    ensures Total(UnlinkDir(nodes, d, k), j) + One(j == nodes[d].ents[k].inum) + One(j == d) == Total(nodes, j)
  {
    var i := nodes[d].ents[k].inum;
    assert EntryOk(nodes, root, d, k) && DirOk(nodes, root, i) && DirOk(nodes, root, d);
    EmptyDirLink(nodes, root, d, k);
    DotsNamed(nodes, root, d, k);
    var x := nodes[i].(nlink := nodes[i].nlink - 1);
    TotalUpdate(nodes, i, x, j);
    DotsCount(nodes[i].ents, i, j);
    EntUpdate(nodes[d].ents, k, Empty, j);
    TotalUpdate(nodes[i := x], d, nodes[d].(nlink := nodes[d].nlink - 1, ents := nodes[d].ents[k := Empty]), j);
  }

  lemma TotalTwo(nodes: seq<Node>, e: nat, m: nat, f: nat, n: nat, j: nat)
    requires LinkedAt(nodes, e) && m < |nodes[e].ents| && Counts(nodes[e].ents[m], j)
    requires LinkedAt(nodes, f) && n < |nodes[f].ents| && Counts(nodes[f].ents[n], j) && e != f
    ensures Total(nodes, j) >= 2
  {
    var x := nodes[e].(ents := nodes[e].ents[m := Empty]);
    EntUpdate(nodes[e].ents, m, Empty, j);
    TotalUpdate(nodes, e, x, j);
    TotalSome(nodes[e := x], f, n, j);
  }

  /** A directory with a subdirectory still has a link of its own after losing the subdirectory's. */
  lemma ParentKeepsLink(nodes: seq<Node>, root: nat, d: nat, k: nat)
    requires Inv(nodes, root) && LinkedAt(nodes, d) && 2 <= k < |nodes[d].ents| && nodes[d].ents[k].inum != 0
    requires nodes[d].ents[k].inum < |nodes| && nodes[nodes[d].ents[k].inum].kind == Dir && OnlyDots(nodes[nodes[d].ents[k].inum].ents)
    ensures nodes[d].nlink > 1
  {
    var i := nodes[d].ents[k].inum;
    assert EntryOk(nodes, root, d, k) && DirOk(nodes, root, i) && DirOk(nodes, root, d) && CountOk(nodes, d);
    if d == root {
      TotalTwo(nodes, d, 1, i, 1, d);
    } else {
      var p := nodes[d].ents[1].inum;
      var m :| 2 <= m < |nodes[p].ents| && nodes[p].ents[m].inum == d;
      DotsNamed(nodes, root, p, m);
      TotalTwo(nodes, p, m, i, 1, d);
    }
  }

  lemma UnlinkDirKept(nodes: seq<Node>, root: nat, d: nat, k: nat)
    requires Inv(nodes, root) && LinkedAt(nodes, d) && 2 <= k < |nodes[d].ents| && nodes[d].ents[k].inum != 0
    requires nodes[d].ents[k].inum < |nodes| && nodes[nodes[d].ents[k].inum].kind == Dir && OnlyDots(nodes[nodes[d].ents[k].inum].ents)
    ensures nodes[nodes[d].ents[k].inum].nlink == 1 && Inv(UnlinkDir(nodes, d, k), root)
  {
    hide Total, EntCount, NodeCount;
    var i := nodes[d].ents[k].inum;
    var t := UnlinkDir(nodes, d, k);
    EmptyDirLink(nodes, root, d, k);
    ParentKeepsLink(nodes, root, d, k);
    assert EntryOk(nodes, root, d, k) && DirOk(nodes, root, i) && DirOk(nodes, root, d);
    forall e: nat ensures DirOk(t, root, e) {
      UnlinkDirDir(nodes, root, d, k, e);
    }
    forall e: nat ensures RemovedOk(t, e) {
      assert RemovedOk(nodes, e);
    }
    forall e: nat, m: nat ensures EntryOk(t, root, e, m) {
      UnlinkDirEntry(nodes, root, d, k, e, m);
    }
    forall j: nat ensures CountOk(t, j) {
      assert CountOk(nodes, j);
      UnlinkDirCount(nodes, root, d, k, j);
    }
  }

  lemma UnlinkDirDir(nodes: seq<Node>, root: nat, d: nat, k: nat, e: nat)
    requires Inv(nodes, root) && LinkedAt(nodes, d) && 2 <= k < |nodes[d].ents| && nodes[d].ents[k].inum != 0
    requires nodes[d].ents[k].inum < |nodes| && nodes[nodes[d].ents[k].inum].kind == Dir && OnlyDots(nodes[nodes[d].ents[k].inum].ents)
    requires nodes[nodes[d].ents[k].inum].nlink == 1 && nodes[d].nlink > 1
    ensures DirOk(UnlinkDir(nodes, d, k), root, e)
  {
    var i := nodes[d].ents[k].inum;
    var t := UnlinkDir(nodes, d, k);
    assert EntryOk(nodes, root, d, k) && DirOk(nodes, root, i) && DirOk(nodes, root, d) && DirOk(nodes, root, e);
    if LinkedAt(t, e) && e != root {
      var p := nodes[e].ents[1].inum;
      var m :| 2 <= m < |nodes[p].ents| && nodes[p].ents[m].inum == e;
      assert LinkedAt(t, p);
      StillNamed(nodes, t, d, k, e);
    }
  }

  lemma UnlinkDirEntry(nodes: seq<Node>, root: nat, d: nat, k: nat, e: nat, m: nat)
    requires Inv(nodes, root) && LinkedAt(nodes, d) && 2 <= k < |nodes[d].ents| && nodes[d].ents[k].inum != 0
    requires nodes[d].ents[k].inum < |nodes| && nodes[nodes[d].ents[k].inum].kind == Dir && OnlyDots(nodes[nodes[d].ents[k].inum].ents)
    requires nodes[nodes[d].ents[k].inum].nlink == 1 && nodes[d].nlink > 1
    ensures EntryOk(UnlinkDir(nodes, d, k), root, e, m)
  {
    var i := nodes[d].ents[k].inum;
    assert EntryOk(nodes, root, e, m) && EntryOk(nodes, root, d, k) && DirOk(nodes, root, i);
    if LinkedAt(nodes, e) && 2 <= m < |nodes[e].ents| && nodes[e].ents[m].inum == i {
      DotsNamed(nodes, root, e, m);
      OnlyLink(nodes, root, d, k, e, m);
    }
  }

  // ----- freeing an inode

  /** Changes to an inode that is not a linked directory before or after, and to its reference count. */
  predicate Quiet(x: Node, y: Node) {
    y.nlink == x.nlink &&
    if Linked(x) then y.kind == x.kind && y.ents == x.ents
    else (y.kind == x.kind && y.ents == x.ents) || (y.kind == Unallocated && x.nlink == 0)
  }

  /** Freeing an inode without links, or changing a reference count, keeps everything. */
  lemma QuietKept(nodes: seq<Node>, root: nat, i: nat, y: Node)
    requires Inv(nodes, root) && 0 < i < |nodes| && Quiet(nodes[i], y)
    ensures Inv(nodes[i := y], root)
  {
    var t := nodes[i := y];
    forall e: nat ensures DirOk(t, root, e) {
      assert DirOk(nodes, root, e);
    }
    forall e: nat ensures RemovedOk(t, e) {
      assert RemovedOk(nodes, e);
    }
    forall e: nat, m: nat ensures EntryOk(t, root, e, m) {
      assert EntryOk(nodes, root, e, m);
    }
    forall j: nat ensures CountOk(t, j) {
      assert CountOk(nodes, j);
      TotalUpdate(nodes, i, y, j);
    }
  }
}
