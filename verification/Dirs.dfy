/** Directories and links (fs.c, sysfile.c): dirlookup, dirlink, link, unlink, create and iput.

    Paths are already resolved: an operation gets the inode numbers of the directory and the file.
    The references that link, unlink and create take and drop on the way are not part of them. */
module Dirs {
  import opened Links
  import opened Options

  /** What strncpy and strncmp see of a name. */
  function Trunc(dirsiz: nat, name: string): string {
    if |name| <= dirsiz then name else name[..dirsiz]
  }

  /** The slot that dirlookup finds. */
  predicate FoundAt(ents: seq<Entry>, name: string, k: nat) {
    && k < |ents| && ents[k].inum != 0 && ents[k].name == name
    && forall j :: 0 <= j < k && ents[j].inum != 0 ==> ents[j].name != name
  }

  /** What dirlookup makes of a name: inode i. */
  ghost predicate Means(ents: seq<Entry>, name: string, i: nat) {
    exists k: nat :: FoundAt(ents, name, k) && ents[k].inum == i
  }

  /** Every other name means what it meant. */
  ghost predicate OthersMean(was: seq<Entry>, now: seq<Entry>, name: string) {
    forall n: string, j: nat :: n != name ==> (Means(now, n, j) <==> Means(was, n, j))
  }

  lemma NameBound(ents: seq<Entry>, k: nat, i: nat, name: string)
    requires Slot(ents, k) && Fresh(ents, name) && i != 0
    ensures Means(SetEntry(ents, k, Entry(i, name)), name, i) && OthersMean(ents, SetEntry(ents, k, Entry(i, name)), name)
  {
    var now := SetEntry(ents, k, Entry(i, name));
    assert FoundAt(now, name, k);
    forall n: string, m: nat | n != name ensures FoundAt(now, n, m) <==> FoundAt(ents, n, m) {
      if FoundAt(ents, n, m) {
        assert forall j :: 0 <= j < m && now[j].inum != 0 ==> now[j].name != n;
      }
      if FoundAt(now, n, m) {
        assert forall j :: 0 <= j < m && j < |ents| && ents[j].inum != 0 ==> now[j] == ents[j];
      }
    }
  }

  lemma NameUnbound(ents: seq<Entry>, k: nat, name: string)
    requires FoundAt(ents, name, k) && NamesUnique(ents)
    ensures Fresh(ents[k := Empty], name) && OthersMean(ents, ents[k := Empty], name)
  {
    var now := ents[k := Empty];
    forall j | 0 <= j < |now| && now[j].inum != 0 ensures now[j].name != name {
      assert j < k || k < j;
    }
    forall n: string, m: nat | n != name ensures FoundAt(now, n, m) <==> FoundAt(ents, n, m) {
      if FoundAt(ents, n, m) {
        assert forall j :: 0 <= j < m && now[j].inum != 0 ==> now[j] == ents[j];
      }
      if FoundAt(now, n, m) {
        assert forall j :: 0 <= j < m && j != k ==> now[j] == ents[j];
      }
    }
  }

  /** In directory d the name has come to mean inode i; other names mean what they did, and other inodes
      are as they were. */
  ghost predicate Named(was: seq<Node>, now: seq<Node>, d: nat, name: string, i: nat) {
    && d < |was| == |now| && Means(now[d].ents, name, i) && OthersMean(was[d].ents, now[d].ents, name)
    && forall j :: 0 <= j < |now| && j != d && j != i ==> now[j] == was[j]
  }

  /** In directory d the name, which meant inode i, means nothing any more. */
  ghost predicate Unnamed(was: seq<Node>, now: seq<Node>, d: nat, name: string, i: nat) {
    && d < |was| == |now| && Means(was[d].ents, name, i) && Fresh(now[d].ents, name) && OthersMean(was[d].ents, now[d].ents, name)
    && forall j :: 0 <= j < |now| && j != d && j != i ==> now[j] == was[j]
  }

  predicate NoInode(nodes: seq<Node>) {
    forall j :: 1 <= j < |nodes| ==> nodes[j].kind != Unallocated
  }

  /** Every slot is in use and the directory cannot grow. */
  predicate NoRoom(ents: seq<Entry>, maxents: nat) {
    |ents| >= maxents && forall j :: 0 <= j < |ents| ==> ents[j].inum != 0
  }

  /** What create returns for a name that is there: the inode, exactly when a file was asked for and it
      is one. */
  predicate Reused(nodes: seq<Node>, i: nat, kind: Kind, r: Option<nat>) {
    i < |nodes| && r == if kind == File && nodes[i].kind == File then Some(i) else None
  }

  class NameSpace {
    const root: nat
    const dirsiz: nat
    const maxents: nat  // entries that fit in a file of maximal size
    var nodes: seq<Node>

    ghost predicate Valid()
      reads this
    {
      Inv(nodes, root) && dirsiz >= 2 && maxents >= 2
    }

    /** A new file system: the root directory, its own parent. */
    constructor (n: nat, dirsiz: nat, maxents: nat)
      requires n >= 2 && dirsiz >= 2 && maxents >= 2
      ensures Valid() && root == 1 && |nodes| == n && this.dirsiz == dirsiz && this.maxents == maxents
    {
      root := 1;
      this.dirsiz, this.maxents := dirsiz, maxents;
      var blank := Node(Unallocated, 0, [], 0, false);
      nodes := seq(n, i => if i == 1 then NewDir(1, 1, 0) else blank);
      new;
      RootOnly(nodes, blank);
    }

    /** dirlookup: the first slot in use with that name. */
    method Dirlookup(d: nat, name: string) returns (r: Option<nat>)
      requires d < |nodes| && nodes[d].kind == Dir
      ensures r.Some? ==> FoundAt(nodes[d].ents, Trunc(dirsiz, name), r.value)
      ensures r == None ==> Fresh(nodes[d].ents, Trunc(dirsiz, name))
    {
      var k := 0;
      while k < |nodes[d].ents|
        invariant 0 <= k <= |nodes[d].ents|
        invariant forall j :: 0 <= j < k && nodes[d].ents[j].inum != 0 ==> nodes[d].ents[j].name != Trunc(dirsiz, name)
      {
        if nodes[d].ents[k].inum != 0 && nodes[d].ents[k].name == Trunc(dirsiz, name) {
          return Some(k);
        }
        k := k + 1;
      }
      return None;
    }

    /** dirlink: refuses a name that is there; otherwise uses the first empty slot, or the end.
        panicked: every slot is in use and the directory cannot grow. */
    method Dirlink(d: nat, name: string, inum: nat) returns (ok: bool, panicked: bool, ghost k: nat)
      requires d < |nodes| && nodes[d].kind == Dir
      modifies this
      ensures ok || panicked <==> Fresh(old(nodes)[d].ents, Trunc(dirsiz, name))
      ensures ok || panicked ==> Slot(old(nodes)[d].ents, k) && panicked == (k == |old(nodes)[d].ents| >= maxents)
      ensures !(ok && panicked) && (!ok ==> nodes == old(nodes))
      ensures ok ==> nodes == old(nodes)[d := old(nodes)[d].(ents := SetEntry(old(nodes)[d].ents, k, Entry(inum, Trunc(dirsiz, name))))]
    {
      var found := Dirlookup(d, name);
      if found.Some? {
        return false, false, 0;
      }
      var ents := nodes[d].ents;
      var off := 0;
      while off < |ents| && ents[off].inum != 0
        invariant 0 <= off <= |ents| && forall j :: 0 <= j < off ==> ents[j].inum != 0
      {
        off := off + 1;
      }
      if off == |ents| >= maxents {
        return false, true, off;
      }
      nodes := nodes[d := nodes[d].(ents := SetEntry(ents, off, Entry(inum, Trunc(dirsiz, name))))];
      return true, false, off;
    }

    /** isdirempty */
    method IsDirEmpty(i: nat) returns (r: bool)
      requires i < |nodes|
      ensures r <==> OnlyDots(nodes[i].ents)
    {
      var k := 2;
      while k < |nodes[i].ents|
        invariant 2 <= k && forall j :: 2 <= j < k && j < |nodes[i].ents| ==> nodes[i].ents[j].inum == 0
      {
        if nodes[i].ents[k].inum != 0 {
          return false;
        }
        k := k + 1;
      }
      return true;
    }

    /** ialloc: the first unallocated inode, with no links yet; none left means a panic. */
    method Ialloc(kind: Kind) returns (r: Option<nat>)
      requires |nodes| > 0
      modifies this
      ensures r == None ==> nodes == old(nodes)
      ensures r == None <==> NoInode(old(nodes))
      ensures r.Some? ==> 0 < r.value < |old(nodes)| && old(nodes)[r.value].kind == Unallocated
      ensures r.Some? ==> nodes == old(nodes)[r.value := Node(kind, 0, [], 1, true)]
    {
      var i := 1;
      while i < |nodes|
        invariant 1 <= i && nodes == old(nodes) && forall j :: 1 <= j < i && j < |nodes| ==> nodes[j].kind != Unallocated
      {
        if nodes[i].kind == Unallocated {
          nodes := nodes[i := Node(kind, 0, [], 1, true)];
          return Some(i);
        }
        i := i + 1;
      }
      return None;
    }

    /** sys_link: file i gets the name in directory d.  It fails for a directory and for a name that
        is there, and then nothing has changed.  The link counts stay right exactly when d has not
        been removed itself. */
    method Link(i: nat, d: nat, name: string) returns (ok: bool, panicked: bool)
      requires Valid() && 0 < i < |nodes| && nodes[i].kind != Unallocated && d < |nodes| && nodes[d].kind == Dir
      modifies this
      ensures ok || panicked <==> old(nodes)[i].kind != Dir && Fresh(old(nodes)[d].ents, Trunc(dirsiz, name))
      ensures !ok && !panicked ==> nodes == old(nodes)
      ensures ok && !panicked ==> (Valid() <==> LinkedAt(old(nodes), d))
      ensures ok && !panicked ==> Named(old(nodes), nodes, d, Trunc(dirsiz, name), i)
      ensures ok && !panicked ==> nodes[i] == old(nodes)[i].(nlink := old(nodes)[i].nlink + 1)
      ensures ok && !panicked ==> exists k ::
        0 <= k <= |old(nodes)[d].ents| && Slot(old(nodes)[d].ents, k) &&
        nodes == LinkFile(old(nodes), d, k, i, Trunc(dirsiz, name), old(nodes)[i].(nlink := old(nodes)[i].nlink + 1))
      ensures panicked <==>
        old(nodes)[i].kind != Dir && Fresh(old(nodes)[d].ents, Trunc(dirsiz, name)) && NoRoom(old(nodes)[d].ents, maxents)
    {
      ghost var s := nodes;
      panicked := false;
      if nodes[i].kind == Dir {
        return false, false;
      }
      nodes := nodes[i := nodes[i].(nlink := nodes[i].nlink + 1)];
      ghost var k;
      ok, panicked, k := Dirlink(d, name, i);
      if ok {
        FreshNotDots(s, root, d, Trunc(dirsiz, name));
        LinkFileIff(s, root, d, k, i, Trunc(dirsiz, name), s[i].(nlink := s[i].nlink + 1));
        NameBound(s[d].ents, k, i, Trunc(dirsiz, name));
      } else if !panicked {
        nodes := nodes[i := nodes[i].(nlink := nodes[i].nlink - 1)];
        assert nodes == s;
      }
    }

    /** sys_unlink: removes the name from directory d, and a link from what it names.  It fails for
        the dots, for a name that is not there (every name, when d has been removed itself) and for a
        directory that is not empty, and then nothing has changed.  A directory it removes has no link
        left. */
    method Unlink(d: nat, name: string) returns (ok: bool, ghost k: nat)
      requires Valid() && d < |nodes| && nodes[d].kind == Dir
      modifies this
      ensures Valid()
      ensures !ok ==> nodes == old(nodes)
      ensures ok <==> Removable(old(nodes), d, Trunc(dirsiz, name))
      ensures ok ==> FoundAt(old(nodes)[d].ents, Trunc(dirsiz, name), k) && old(nodes)[d].ents[k].inum < |old(nodes)|
      ensures ok ==> var i := old(nodes)[d].ents[k].inum;
        nodes == if old(nodes)[i].kind == Dir then UnlinkDir(old(nodes), d, k) else UnlinkFile(old(nodes), d, k)
      ensures ok && old(nodes)[old(nodes)[d].ents[k].inum].kind == Dir ==> nodes[old(nodes)[d].ents[k].inum].nlink == 0
      ensures ok ==> Unnamed(old(nodes), nodes, d, Trunc(dirsiz, name), old(nodes)[d].ents[k].inum)
    {
      ghost var s := nodes;
      ok, k := false, 0;
      if Trunc(dirsiz, name) == "." || Trunc(dirsiz, name) == ".." {
        return;
      }
      var found := Dirlookup(d, name);
      if found == None {
        return;
      }
      k := found.value;
      FoundIsSlot(s, root, d, k, Trunc(dirsiz, name));
      NamesIn(s, root, d);
      NameUnbound(s[d].ents, k, Trunc(dirsiz, name));
      var i := nodes[d].ents[found.value].inum;
      var isDir := nodes[i].kind == Dir;
      if isDir {
        var empty := IsDirEmpty(i);
        if !empty {
          return;
        }
        UnlinkDirKept(s, root, d, k);
      } else {
        UnlinkFileKept(s, root, d, k);
      }
      assert i != d;
      nodes := nodes[d := nodes[d].(ents := nodes[d].ents[found.value := Empty])];
      if isDir {
        nodes := nodes[d := nodes[d].(nlink := nodes[d].nlink - 1)];
      }
      nodes := nodes[i := nodes[i].(nlink := nodes[i].nlink - 1)];
      assert nodes == if isDir then UnlinkDir(s, d, k) else UnlinkFile(s, d, k);
      ok := true;
    }

    /** create for a file or a directory: a name that is there is returned only if both are files;
        otherwise a new inode gets the name, and a new directory its dots.  The link counts stay right
        exactly when d has not been removed itself.  panicked: no inode is left, or d is full. */
    method Create(d: nat, name: string, kind: Kind) returns (r: Option<nat>, panicked: bool)
      requires Valid() && d < |nodes| && nodes[d].kind == Dir && kind != Unallocated
      modifies this
      ensures !Fresh(old(nodes)[d].ents, Trunc(dirsiz, name)) ==> nodes == old(nodes) && !panicked
      ensures !Fresh(old(nodes)[d].ents, Trunc(dirsiz, name)) ==>
        exists k: nat :: FoundAt(nodes[d].ents, Trunc(dirsiz, name), k) && Reused(nodes, nodes[d].ents[k].inum, kind, r)
      ensures Fresh(old(nodes)[d].ents, Trunc(dirsiz, name)) && !panicked ==>
        r.Some? && 0 < r.value < |old(nodes)| && old(nodes)[r.value].kind == Unallocated
      ensures Fresh(old(nodes)[d].ents, Trunc(dirsiz, name)) && !panicked ==> exists k: nat ::
        Slot(old(nodes)[d].ents, k) && nodes == Created(old(nodes), d, k, r.value, Trunc(dirsiz, name), kind)
      ensures Fresh(old(nodes)[d].ents, Trunc(dirsiz, name)) && !panicked ==> (Valid() <==> LinkedAt(old(nodes), d))
      ensures Fresh(old(nodes)[d].ents, Trunc(dirsiz, name)) && !panicked ==>
        && Named(old(nodes), nodes, d, Trunc(dirsiz, name), r.value) && nodes[r.value].kind == kind && nodes[r.value].nlink == 1
        && (kind == Dir ==> Means(nodes[r.value].ents, ".", r.value) && Means(nodes[r.value].ents, "..", d))
      ensures panicked <==>
        Fresh(old(nodes)[d].ents, Trunc(dirsiz, name)) && (NoInode(old(nodes)) || NoRoom(old(nodes)[d].ents, maxents))
    {
      ghost var s := nodes;
      panicked := false;
      var found := Dirlookup(d, name);
      if found.Some? {
        r := Existing(d, found.value, name, kind);
        return;
      }
      r := Ialloc(kind);
      if r == None {
        panicked := true;
        return;
      }
      var i := r.value;
      FreshNotDots(s, root, d, Trunc(dirsiz, name));
      nodes := nodes[i := nodes[i].(nlink := 1)];
      if kind == Dir {
        nodes := nodes[d := nodes[d].(nlink := nodes[d].nlink + 1)];
        MakeDots(i, d);
      }
      var ok;
      ghost var k;
      ok, panicked, k := Dirlink(d, name, i);
      if ok {
        assert nodes == Created(s, d, k, i, Trunc(dirsiz, name), kind);
        CreatedIff(s, root, d, k, i, Trunc(dirsiz, name), kind);
        NameBound(s[d].ents, k, i, Trunc(dirsiz, name));
        NewDots(i, d);
      }
    }

    /** create when the name is there. */
    method Existing(d: nat, k: nat, name: string, kind: Kind) returns (r: Option<nat>)
      requires Valid() && d < |nodes| && nodes[d].kind == Dir && FoundAt(nodes[d].ents, Trunc(dirsiz, name), k)
      ensures Reused(nodes, nodes[d].ents[k].inum, kind, r)
    {
      EntryInRange(nodes, root, d, k);
      var i := nodes[d].ents[k].inum;
      if kind == File && nodes[i].kind == File {
        return Some(i);
      }
      return None;
    }

    /** "." and ".." of a new directory. */
    method MakeDots(i: nat, d: nat)
      requires 0 < i < |nodes| && nodes[i].kind == Dir && nodes[i].ents == [] && dirsiz >= 2 && maxents >= 2
      modifies this
      ensures nodes == old(nodes)[i := old(nodes)[i].(ents := [Entry(i, "."), Entry(d, "..")])]
    {
      var ok, panicked, k := Dirlink(i, ".", i);
      assert nodes[i].ents == [Entry(i, ".")];
      ok, panicked, k := Dirlink(i, "..", d);
      assert k == 0 || k == 1;
      assert nodes[i].ents == [Entry(i, "."), Entry(d, "..")];
    }

    /** iput: drops a reference.  The inode and its contents are freed exactly when this was the last
        reference and there is no link; then no entry of a linked directory names it. */
    method Iput(i: nat) returns (freed: bool)
      requires Valid() && 0 < i < |nodes| && nodes[i].ref >= 1
      modifies this
      ensures Valid()
      ensures freed <==> old(nodes)[i].valid && old(nodes)[i].nlink == 0 && old(nodes)[i].ref == 1
      ensures nodes == old(nodes)[i := if freed then Node(Unallocated, 0, [], 0, false) else old(nodes)[i].(ref := old(nodes)[i].ref - 1)]
      ensures freed ==> forall d: nat, k: nat :: LinkedAt(nodes, d) && k < |nodes[d].ents| ==> !Counts(nodes[d].ents[k], i)
    {
      ghost var s := nodes;
      freed := nodes[i].valid && nodes[i].nlink == 0 && nodes[i].ref == 1;
      if freed {
        NoLinkNoName(s, root, i);
        nodes := nodes[i := nodes[i].(ents := [], kind := Unallocated, valid := false)];
      }
      nodes := nodes[i := nodes[i].(ref := nodes[i].ref - 1)];
      assert nodes == s[i := nodes[i]];
      QuietKept(s, root, i, nodes[i]);
    }
  }

  /** The name can be unlinked: it is not a dot, it is there, and it does not name a directory with entries. */
  ghost predicate Removable(nodes: seq<Node>, d: nat, name: string)
    requires d < |nodes|
  {
    name != "." && name != ".." &&
    exists k: nat :: FoundAt(nodes[d].ents, name, k) && nodes[d].ents[k].inum < |nodes| &&
      (nodes[nodes[d].ents[k].inum].kind == Dir ==> OnlyDots(nodes[nodes[d].ents[k].inum].ents))
  }

  function Created(nodes: seq<Node>, d: nat, k: nat, i: nat, name: string, kind: Kind): seq<Node>
    requires d < |nodes| && i < |nodes| && k <= |nodes[d].ents|
  {
    if kind == Dir then LinkDir(nodes, d, k, i, name, NewDir(i, d, 1))
    else LinkFile(nodes, d, k, i, name, Node(kind, 1, [], 1, true))
  }

  lemma NamesIn(nodes: seq<Node>, root: nat, d: nat)
    requires Inv(nodes, root) && d < |nodes| && LinkedAt(nodes, d)
    ensures NamesUnique(nodes[d].ents)
  {
    assert DirOk(nodes, root, d);
  }

  lemma NewDots(i: nat, d: nat)
    requires i != 0 && d != 0
    ensures Means(NewDir(i, d, 1).ents, ".", i) && Means(NewDir(i, d, 1).ents, "..", d)
  {
    assert FoundAt(NewDir(i, d, 1).ents, ".", 0) && FoundAt(NewDir(i, d, 1).ents, "..", 1);
  }

  lemma FreshNotDots(nodes: seq<Node>, root: nat, d: nat, name: string)
    requires Inv(nodes, root) && d < |nodes| && nodes[d].kind == Dir && Fresh(nodes[d].ents, name)
    ensures name != "." && name != ".."
  {
    assert DirOk(nodes, root, d) && RemovedOk(nodes, d);
    assert nodes[d].ents[0].name != name && nodes[d].ents[1].name != name;
  }

  lemma FoundIsSlot(nodes: seq<Node>, root: nat, d: nat, k: nat, name: string)
    requires Inv(nodes, root) && d < |nodes| && nodes[d].kind == Dir && FoundAt(nodes[d].ents, name, k) && name != "." && name != ".."
    ensures LinkedAt(nodes, d) && 2 <= k && nodes[d].ents[k].inum < |nodes|
  {
    assert DirOk(nodes, root, d) && EntryOk(nodes, root, d, k) && RemovedOk(nodes, d);
  }

  lemma EntryInRange(nodes: seq<Node>, root: nat, d: nat, k: nat)
    requires Inv(nodes, root) && d < |nodes| && nodes[d].kind == Dir && k < |nodes[d].ents| && nodes[d].ents[k].inum != 0
    ensures nodes[d].ents[k].inum < |nodes|
  {
    assert DirOk(nodes, root, d) && EntryOk(nodes, root, d, k) && RemovedOk(nodes, d);
  }

  lemma NoLinkNoName(nodes: seq<Node>, root: nat, i: nat)
    requires Inv(nodes, root) && 0 < i < |nodes| && nodes[i].nlink == 0
    ensures forall d: nat, k: nat :: LinkedAt(nodes, d) && k < |nodes[d].ents| ==> !Counts(nodes[d].ents[k], i)
  {
    assert CountOk(nodes, i);
    forall d: nat, k: nat | LinkedAt(nodes, d) && k < |nodes[d].ents| ensures !Counts(nodes[d].ents[k], i) {
      if Counts(nodes[d].ents[k], i) {
        TotalSome(nodes, d, k, i);
      }
    }
  }

  lemma RootOnly(nodes: seq<Node>, blank: Node)
    requires |nodes| >= 2 && blank == Node(Unallocated, 0, [], 0, false)
    requires forall i :: 0 <= i < |nodes| ==> nodes[i] == if i == 1 then NewDir(1, 1, 0) else blank
    ensures Inv(nodes, 1)
  {
    forall j: nat ensures CountOk(nodes, j) {
      NewDirCount(1, 1, 0, j);
      var t := nodes[1 := blank];
      TotalNone(t, j);
      TotalUpdate(t, 1, NewDir(1, 1, 0), j);
      assert t[1 := NewDir(1, 1, 0)] == nodes;
    }
    forall d: nat ensures DirOk(nodes, 1, d) {
    }
    forall d: nat, k: nat ensures EntryOk(nodes, 1, d, k) {
    }
  }

  // ----- directories that have been removed but are still open

  /** A new name for a file keeps the invariant exactly when the directory it goes into is itself
      still linked; the kernel does not check that. */
  lemma LinkFileIff(nodes: seq<Node>, root: nat, d: nat, k: nat, i: nat, name: string, x: Node)
    requires Inv(nodes, root) && d < |nodes| && nodes[d].kind == Dir && 0 < i < |nodes| && nodes[i].kind != Dir && x.kind == File
    requires x.nlink == nodes[i].nlink + 1 && Slot(nodes[d].ents, k) && Fresh(nodes[d].ents, name) && name != "."
    ensures Inv(LinkFile(nodes, d, k, i, name, x), root) <==> LinkedAt(nodes, d)
    ensures CountOk(LinkFile(nodes, d, k, i, name, x), i) <==> LinkedAt(nodes, d)
  {
    var t := LinkFile(nodes, d, k, i, name, x);
    assert CountOk(nodes, i);
    if LinkedAt(nodes, d) {
      LinkFileKept(nodes, root, d, k, i, name, x);
      assert CountOk(t, i);
    } else {
      TotalUpdate(nodes, i, x, i);
      TotalUpdate(nodes[i := x], d, nodes[d].(ents := SetEntry(nodes[d].ents, k, Entry(i, name))), i);
      assert !CountOk(t, i);
    }
  }

  /** What mkdir in a removed directory d does to the links of the directory its ".." names: raising
      d's own count makes that entry count again. */
  lemma RevivedCount(nodes: seq<Node>, root: nat, d: nat, k: nat, i: nat, name: string, ref: int)
    requires Inv(nodes, root) && d < |nodes| && nodes[d].kind == Dir && !Linked(nodes[d]) && 0 < i < |nodes| && nodes[i].kind == Unallocated
    requires Slot(nodes[d].ents, k) && name != "."
    ensures Dots(nodes[d].ents, d) && var up := nodes[d].ents[1].inum;
      Total(LinkDir(nodes, d, k, i, name, NewDir(i, d, ref)), up) == Total(nodes, up) + One(up == d) + 1 + One(up == i)
  {
    assert RemovedOk(nodes, d) && CountOk(nodes, d);
    var up := nodes[d].ents[1].inum;
    var x := NewDir(i, d, ref);
    NewDirCount(i, d, ref, up);
    TotalUpdate(nodes, i, x, up);
    DotsCount(nodes[d].ents, d, up);
    SetEntryCount(nodes[d].ents, k, Entry(i, name), up);
    TotalUpdate(nodes[i := x], d, nodes[d].(nlink := nodes[d].nlink + 1, ents := SetEntry(nodes[d].ents, k, Entry(i, name))), up);
  }

  /** A new directory keeps the link counts right exactly when its parent is itself still linked;
      otherwise the directory that the parent's ".." names has an entry more than links. */
  lemma LinkDirIff(nodes: seq<Node>, root: nat, d: nat, k: nat, i: nat, name: string, ref: int)
    requires Inv(nodes, root) && d < |nodes| && nodes[d].kind == Dir && 0 < i < |nodes| && nodes[i].kind == Unallocated
    requires Slot(nodes[d].ents, k) && Fresh(nodes[d].ents, name)
    ensures Inv(LinkDir(nodes, d, k, i, name, NewDir(i, d, ref)), root) <==> LinkedAt(nodes, d)
    ensures (forall j: nat :: CountOk(LinkDir(nodes, d, k, i, name, NewDir(i, d, ref)), j)) <==> LinkedAt(nodes, d)
  {
    var t := LinkDir(nodes, d, k, i, name, NewDir(i, d, ref));
    FreshNotDots(nodes, root, d, name);
    if LinkedAt(nodes, d) {
      LinkDirKept(nodes, root, d, k, i, name, ref);
    } else {
      RevivedCount(nodes, root, d, k, i, name, ref);
      var up := nodes[d].ents[1].inum;
      assert RemovedOk(nodes, d) && CountOk(nodes, up) && CountOk(nodes, i);
      assert !CountOk(t, up);
    }
  }

  lemma CreatedIff(nodes: seq<Node>, root: nat, d: nat, k: nat, i: nat, name: string, kind: Kind)
    requires Inv(nodes, root) && d < |nodes| && nodes[d].kind == Dir && 0 < i < |nodes| && nodes[i].kind == Unallocated
    requires kind != Unallocated && Slot(nodes[d].ents, k) && Fresh(nodes[d].ents, name)
    ensures Inv(Created(nodes, d, k, i, name, kind), root) <==> LinkedAt(nodes, d)
  {
    assert CountOk(nodes, i);
    FreshNotDots(nodes, root, d, name);
    if kind == Dir {
      LinkDirIff(nodes, root, d, k, i, name, 1);
    } else {
      LinkFileIff(nodes, root, d, k, i, name, Node(kind, 1, [], 1, true));
    }
  }

  /** mkdir of a directory and rmdir of it while it is open; then a file made in it, and instead of
      the file a directory. */
  lemma RemovedParent() returns (nodes: seq<Node>)
    ensures Inv(nodes, 1) && |nodes| == 4 && nodes[2].kind == Dir && nodes[3].kind == Unallocated && |nodes[2].ents| == 2
    ensures !CountOk(Created(nodes, 2, 2, 3, "x", File), 3)
    ensures !CountOk(Created(nodes, 2, 2, 3, "x", Dir), 1)
  {
    var blank := Node(Unallocated, 0, [], 0, false);
    var a := [blank, NewDir(1, 1, 0), blank, blank];
    RootOnly(a, blank);
    var b := LinkDir(a, 1, 2, 2, "d", NewDir(2, 1, 1));
    LinkDirKept(a, 1, 1, 2, 2, "d", 1);
    nodes := UnlinkDir(b, 1, 2);
    UnlinkDirKept(b, 1, 1, 2);
    assert CountOk(nodes, 3) && CountOk(nodes, 1);
    LinkFileIff(nodes, 1, 2, 2, 3, "x", Node(File, 1, [], 1, true));
    RevivedCount(nodes, 1, 2, 2, 3, "x", 1);
  }
}
