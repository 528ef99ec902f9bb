/** Inodes on disk (fs.h, fs.c): struct dinode records packed into the inode blocks, so that storing
    one inode means rewriting part of a block that holds others. */
module Dinodes {
  import opened Arith
  import opened FsBlocks

  const U32: nat := 0x1_0000_0000

  /** struct dinode in 32-bit words: type and major, minor and nlink, size, addrs. */
  function RecordWords(c: Params): nat { c.direct + 4 }

  /** What the 32-bit fields of a struct dinode can hold. */
  predicate Fits(c: Params, x: Inode) {
    |x.addrs| == c.direct + 1 && x.size < U32 && forall k :: 0 <= k < |x.addrs| ==> x.addrs[k] < U32
  }

  /** A short as 16 bits, and back. */
  function Half(v: Short): (h: nat)
    ensures h < 0x1_0000
  {
    if v < 0 then v + 0x1_0000 else v
  }

  function Signed(h: nat): Short
    requires h < 0x1_0000
  {
    if h < 0x8000 then h else h - 0x1_0000
  }

  function Packed(x: Inode): seq<nat> {
    [Half(x.kind) + 0x1_0000 * Half(x.major), Half(x.minor) + 0x1_0000 * Half(x.nlink), x.size] + x.addrs
  }

  /** Storing words at index k of a block. */
  function PutWords(b: Block, k: nat, ws: seq<nat>): (r: Block)
    requires 4 * (k + |ws|) <= |b|
    ensures |r| == |b|
    decreases |ws|
  {
    if ws == [] then b else PutWords(PutWord(b, k, ws[0]), k + 1, ws[1..])
  }

  lemma {:induction false} GetPutWords(b: Block, k: nat, ws: seq<nat>, m: nat)
    requires 4 * (k + |ws|) <= |b| && 4 * m + 4 <= |b| && forall j :: 0 <= j < |ws| ==> ws[j] < U32
    ensures GetWord(PutWords(b, k, ws), m) == if k <= m < k + |ws| then ws[m - k] else GetWord(b, m)
    decreases |ws|
  {
    hide GetWord, PutWord;
    if ws != [] {
      GetPut(b, k, ws[0], m);
      GetPutWords(PutWord(b, k, ws[0]), k + 1, ws[1..], m);
    }
  }

  /** Record j ends within a block that holds n of them. */
  predicate Room(c: Params, b: Block, n: nat) {
    4 * (n * RecordWords(c)) <= |b|
  }

  lemma RecordInside(c: Params, n: nat, j: nat)
    requires j < n
    ensures j * RecordWords(c) + RecordWords(c) <= n * RecordWords(c)
  {
    OneMore(j, RecordWords(c));
    Monotone(j + 1, n, RecordWords(c));
  }

  /** The words of record j. */
  function Record(c: Params, n: nat, b: Block, j: nat): (ws: seq<nat>)
    requires Room(c, b, n) && j < n
    ensures |ws| == RecordWords(c)
  {
    seq(RecordWords(c), k requires 0 <= k < RecordWords(c) => RecordWord(c, n, b, j, k))
  }

  function RecordWord(c: Params, n: nat, b: Block, j: nat, k: nat): nat
    requires Room(c, b, n) && j < n && k < RecordWords(c)
  {
    RecordInside(c, n, j);
    GetWord(b, j * RecordWords(c) + k)
  }

  function Unpacked(ws: seq<nat>): Inode
    requires |ws| >= 3
  {
    Inode(Signed(ws[0] % 0x1_0000), Signed(ws[0] / 0x1_0000 % 0x1_0000),
          Signed(ws[1] % 0x1_0000), Signed(ws[1] / 0x1_0000 % 0x1_0000), ws[2], ws[3..])
  }

  function GetInode(c: Params, n: nat, b: Block, j: nat): Inode
    requires Room(c, b, n) && j < n
  {
    Unpacked(Record(c, n, b, j))
  }

  function PutInode(c: Params, n: nat, b: Block, j: nat, x: Inode): (r: Block)
    requires Room(c, b, n) && j < n && |x.addrs| == c.direct + 1
    ensures |r| == |b|
  {
    RecordInside(c, n, j);
    PutWords(b, j * RecordWords(c), Packed(x))
  }

  lemma HalvesBack(a: Short, b: Short)
    ensures var w := Half(a) + 0x1_0000 * Half(b);
      w < U32 && Signed(w % 0x1_0000) == a && Signed(w / 0x1_0000 % 0x1_0000) == b
  {
    var w := Half(a) + 0x1_0000 * Half(b);
    assert w / 0x1_0000 == Half(b) && w % 0x1_0000 == Half(a);
  }

  lemma PackedFits(c: Params, x: Inode)
    requires Fits(c, x)
    ensures |Packed(x)| == RecordWords(c) && forall k :: 0 <= k < |Packed(x)| ==> Packed(x)[k] < U32
  {
    HalvesBack(x.kind, x.major);
    HalvesBack(x.minor, x.nlink);
  }

  lemma UnpackPacked(x: Inode)
    ensures Unpacked(Packed(x)) == x
  {
    HalvesBack(x.kind, x.major);
    HalvesBack(x.minor, x.nlink);
    assert Packed(x)[3..] == x.addrs;
  }

  lemma RecordOther(c: Params, n: nat, b: Block, j: nat, x: Inode, m: nat, k: nat)
    requires Room(c, b, n) && j < n && m < n && Fits(c, x) && k < RecordWords(c)
    ensures |Packed(x)| == RecordWords(c) && Room(c, PutInode(c, n, b, j, x), n)
    ensures RecordWord(c, n, PutInode(c, n, b, j, x), m, k) == if m == j then Packed(x)[k] else RecordWord(c, n, b, m, k)
  {
    hide GetWord, PutWords, Packed;
    RecordInside(c, n, j);
    RecordInside(c, n, m);
    PackedFits(c, x);
    GetPutWords(b, j * RecordWords(c), Packed(x), m * RecordWords(c) + k);
    if m < j {
      RecordInside(c, j, m);
    } else if j < m {
      RecordInside(c, m, j);
    }
  }

  /** Writing record j of a block makes that record the inode and leaves every other record alone. */
  lemma GetPutInode(c: Params, n: nat, b: Block, j: nat, x: Inode, m: nat)
    requires Room(c, b, n) && j < n && m < n && Fits(c, x)
    ensures Room(c, PutInode(c, n, b, j, x), n)
    ensures GetInode(c, n, PutInode(c, n, b, j, x), m) == if m == j then x else GetInode(c, n, b, m)
  {
    hide RecordWord, PutInode, Packed, Unpacked, Room;
    var r := PutInode(c, n, b, j, x);
    RecordOther(c, n, b, j, x, m, 0);
    var want := if m == j then Packed(x) else Record(c, n, b, m);
    forall k: nat | k < RecordWords(c) ensures Record(c, n, r, m)[k] == want[k] {
      RecordOther(c, n, b, j, x, m, k);
    }
    assert Record(c, n, r, m) == want;
    UnpackPacked(x);
  }

  // ----- all the inode blocks

  /** The inode block that holds inode i, and the place of its record there. */
  function Blkno(ipb: nat, i: nat): nat
    requires ipb > 0
  {
    i / ipb
  }

  function Slot(ipb: nat, i: nat): nat
    requires ipb > 0
  {
    i % ipb
  }

  /** The inode blocks hold count inodes, ipb to a block. */
  predicate InodeBlocks(c: Params, ipb: nat, count: nat, iblocks: seq<Block>) {
    && ipb > 0 && count <= |iblocks| * ipb
    && forall k :: 0 <= k < |iblocks| ==> |iblocks[k]| == c.bsize && Room(c, iblocks[k], ipb)
  }

  lemma BlockOf(c: Params, ipb: nat, count: nat, iblocks: seq<Block>, i: nat)
    requires InodeBlocks(c, ipb, count, iblocks) && i < count
    ensures Blkno(ipb, i) < |iblocks| && |iblocks[Blkno(ipb, i)]| == c.bsize && Room(c, iblocks[Blkno(ipb, i)], ipb) && Slot(ipb, i) < ipb
  {
    DivMod(i, ipb);
    Cancel(Blkno(ipb, i), |iblocks|, ipb);
  }

  lemma SameSlot(ipb: nat, i: nat, j: nat)
    requires ipb > 0
    ensures Blkno(ipb, i) == Blkno(ipb, j) && Slot(ipb, i) == Slot(ipb, j) <==> i == j
  {
    SamePlace(i, j, ipb);
  }

  /** Inode i as ilock reads it. */
  function StoredInode(c: Params, ipb: nat, count: nat, iblocks: seq<Block>, i: nat): Inode
    requires InodeBlocks(c, ipb, count, iblocks) && i < count
  {
    BlockOf(c, ipb, count, iblocks, i);
    GetInode(c, ipb, iblocks[Blkno(ipb, i)], Slot(ipb, i))
  }

  function Stored(c: Params, ipb: nat, count: nat, iblocks: seq<Block>): (r: seq<Inode>)
    requires InodeBlocks(c, ipb, count, iblocks)
    ensures |r| == count && forall i: nat :: i < count ==> r[i] == StoredInode(c, ipb, count, iblocks, i)
  {
    seq(count, i requires 0 <= i < count => StoredInode(c, ipb, count, iblocks, i))
  }

  lemma StoredOther(c: Params, ipb: nat, count: nat, iblocks: seq<Block>, after: seq<Block>, i: nat, x: Inode, j: nat)
    requires InodeBlocks(c, ipb, count, iblocks) && i < count && j < count && ipb > 0 && Fits(c, x) && Blkno(ipb, i) < |iblocks|
    requires after == iblocks[Blkno(ipb, i) := PutInode(c, ipb, iblocks[Blkno(ipb, i)], Slot(ipb, i), x)] && InodeBlocks(c, ipb, count, after)
    ensures StoredInode(c, ipb, count, after, j) == if j == i then x else StoredInode(c, ipb, count, iblocks, j)
  {
    hide GetInode, PutInode, Room, Fits, InodeBlocks, Blkno, Slot;
    BlockOf(c, ipb, count, iblocks, i);
    BlockOf(c, ipb, count, iblocks, j);
    SameSlot(ipb, i, j);
    if Blkno(ipb, j) == Blkno(ipb, i) {
      GetPutInode(c, ipb, iblocks[Blkno(ipb, i)], Slot(ipb, i), x, Slot(ipb, j));
    }
  }

  /** Rewriting record i % ipb of inode block i / ipb changes inode i and no other. */
  lemma StoreInode(c: Params, ipb: nat, count: nat, iblocks: seq<Block>, i: nat, x: Inode)
    requires InodeBlocks(c, ipb, count, iblocks) && i < count && Fits(c, x)
    ensures Blkno(ipb, i) < |iblocks|
    ensures var after := iblocks[Blkno(ipb, i) := PutInode(c, ipb, iblocks[Blkno(ipb, i)], Slot(ipb, i), x)];
      InodeBlocks(c, ipb, count, after) && Stored(c, ipb, count, after) == Stored(c, ipb, count, iblocks)[i := x]
  {
    hide GetInode, PutInode, Room, StoredInode, Blkno, Slot;
    BlockOf(c, ipb, count, iblocks, i);
    GetPutInode(c, ipb, iblocks[Blkno(ipb, i)], Slot(ipb, i), x, Slot(ipb, i));
    var after := iblocks[Blkno(ipb, i) := PutInode(c, ipb, iblocks[Blkno(ipb, i)], Slot(ipb, i), x)];
    forall j: nat | j < count
      ensures StoredInode(c, ipb, count, after, j) == if j == i then x else StoredInode(c, ipb, count, iblocks, j)
    {
      StoredOther(c, ipb, count, iblocks, after, i, x, j);
    }
  }
}
