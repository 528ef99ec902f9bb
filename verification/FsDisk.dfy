/** The file system as the blocks of a disk: what the kernel finds when it mounts a disk, and which
    blocks a transaction must hold to take the disk from one state of the file system to another. */
module FsDisk {
  import opened Arith
  import opened Counting
  import opened Dinodes
  import opened FsBlocks
  import opened FsFiles
  import Recovery
  import opened Superblock
  import Writes

  // ----- disk blocks are words in the log's eyes and bytes in the file system's

  function WordsOf(b: Block): (w: Writes.Block)
    requires |b| % 4 == 0
    ensures 4 * |w| == |b|
  {
    seq(|b| / 4, j requires 0 <= j < |b| / 4 => GetWord(b, j))
  }

  function Digit(x: int, k: nat): Byte {
    if k == 0 then x % 0x100 else if k == 1 then x / 0x100 % 0x100
    else if k == 2 then x / 0x1_0000 % 0x100 else x / 0x100_0000 % 0x100
  }

  function BytesOf(w: Writes.Block): (b: Block)
    ensures |b| == 4 * |w|
  {
    seq(4 * |w|, p requires 0 <= p < 4 * |w| => Digit(w[p / 4], p % 4))
  }

  lemma DigitsBack(b0: Byte, b1: Byte, b2: Byte, b3: Byte)
    ensures var n0: nat, n1: nat, n2: nat, n3: nat := b0, b1, b2, b3;
      var x := n0 + 0x100 * n1 + 0x1_0000 * n2 + 0x100_0000 * n3;
      Digit(x, 0) == b0 && Digit(x, 1) == b1 && Digit(x, 2) == b2 && Digit(x, 3) == b3
  {
    var n0: nat, n1: nat, n2: nat, n3: nat := b0, b1, b2, b3;
    var x := n0 + 0x100 * n1 + 0x1_0000 * n2 + 0x100_0000 * n3;
    assert x / 0x100 == n1 + 0x100 * n2 + 0x1_0000 * n3;
    assert x / 0x1_0000 == n2 + 0x100 * n3;
    assert x / 0x100_0000 == n3;
  }

  lemma BytesBack(b: Block)
    requires |b| % 4 == 0
    ensures BytesOf(WordsOf(b)) == b
  {
    forall p | 0 <= p < |b| ensures BytesOf(WordsOf(b))[p] == b[p] {
      var j := p / 4;
      assert p == 4 * j + p % 4;
      DigitsBack(b[4 * j], b[4 * j + 1], b[4 * j + 2], b[4 * j + 3]);
    }
  }

  // ----- the bitmap

  /** Bit j of a byte. */
  function BitOf(x: nat, j: nat): bool {
    if j == 0 then x % 2 == 1 else BitOf(x / 2, j - 1)
  }

  function Octet(bits: seq<bool>): nat {
    if bits == [] then 0 else (if bits[0] then 1 else 0) + 2 * Octet(bits[1..])
  }

  function Pow2(n: nat): nat {
    if n == 0 then 1 else 2 * Pow2(n - 1)
  }

  lemma {:induction false} OctetBits(bits: seq<bool>, j: nat)
    requires j < |bits|
    ensures BitOf(Octet(bits), j) == bits[j]
  {
    var x := Octet(bits);
    assert x / 2 == Octet(bits[1..]) && (x % 2 == 1 <==> bits[0]);
    if j > 0 {
      OctetBits(bits[1..], j - 1);
    }
  }

  lemma {:induction false} OctetBelow(bits: seq<bool>)
    ensures Octet(bits) < Pow2(|bits|)
  {
    if bits != [] {
      OctetBelow(bits[1..]);
    }
  }

  function BitsAt(used: seq<bool>, q: nat): (r: seq<bool>)
    ensures |r| == 8
  {
    seq(8, j requires 0 <= j => 8 * q + j < |used| && used[8 * q + j])
  }

  /** Byte q of the bitmap. */
  function MapByte(used: seq<bool>, q: nat): Byte {
    OctetBelow(BitsAt(used, q));
    assert Pow2(8) == 0x100 by { assert Pow2(4) == 0x10; }
    Octet(BitsAt(used, q))
  }

  /** Bitmap block k. */
  function MapBytes(bsize: nat, used: seq<bool>, k: nat): (b: Block)
    ensures |b| == bsize
  {
    var first := k * bsize;
    seq<Byte>(bsize, p requires 0 <= p < bsize => MapByte(used, first + p))
  }

  function BitIn(b: Block, r: nat): bool
    requires r < 8 * |b|
  {
    BitOf(b[r / 8], r % 8)
  }

  /** Bit r of bitmap block k. */
  lemma MapBit(bsize: nat, bpb: nat, used: seq<bool>, k: nat, r: nat)
    requires r < bpb == 8 * bsize && k * bpb + r < |used|
    ensures BitIn(MapBytes(bsize, used, k), r) == used[k * bpb + r]
  {
    hide MapByte, BitsAt, BitOf;
    var first := k * bsize;
    Scaled(k, bsize, bpb);
    ByteBit(used, first + r / 8, r % 8);
  }

  lemma ByteBit(used: seq<bool>, q: nat, j: nat)
    requires j < 8 && 8 * q + j < |used|
    ensures BitOf(MapByte(used, q), j) == used[8 * q + j]
  {
    OctetBits(BitsAt(used, q), j);
  }

  lemma Scaled(k: nat, m: nat, m8: nat)
    requires m8 == 8 * m
    ensures k * m8 == 8 * (k * m)
  {
  }

  // ----- what is on a disk

  /** The contents of the blocks after the log: the bitmap, the inode blocks and the data blocks. */
  datatype Volume = Volume(used: seq<bool>, blocks: seq<Block>, iblocks: seq<Block>)

  predicate SuperOk(sb: Super, c: Params) {
    && c.bsize > 0 && c.bsize % 4 == 0 && sb.ipb > 0 && sb.bpb == 8 * c.bsize
    && sb.size == c.size && NMeta(sb) <= c.size
  }

  predicate VolumeOk(sb: Super, c: Params, v: Volume) {
    && SuperOk(sb, c)
    && |v.used| == |v.blocks| == c.size && (forall b :: 0 <= b < c.size ==> |v.blocks[b]| == c.bsize)
    && InodeBlocks(c, sb.ipb, sb.ninodes, v.iblocks) && |v.iblocks| == BmapStart(sb) - InodeStart(sb)
  }

  /** A block that transactions write: not the boot block, the super block or a block of the log. */
  predicate HomeBlock(sb: Super, b: nat) {
    InodeStart(sb) <= b < sb.size
  }

  function Home(sb: Super, c: Params, v: Volume, b: nat): (r: Block)
    requires VolumeOk(sb, c, v) && HomeBlock(sb, b)
    ensures |r| == c.bsize
  {
    if b < BmapStart(sb) then v.iblocks[b - InodeStart(sb)]
    else if b < NMeta(sb) then MapBytes(c.bsize, v.used, b - BmapStart(sb))
    else v.blocks[b]
  }

  /** The disk holds the volume. */
  ghost predicate Holds(sb: Super, c: Params, d: Writes.Disk, v: Volume) {
    && VolumeOk(sb, c, v) && |d| == c.size
    && forall b: nat :: HomeBlock(sb, b) ==> BytesOf(d[b]) == Home(sb, c, v, b)
  }

  ghost predicate MetaIs(sb: Super, c: Params, use: seq<Use>) {
    SuperOk(sb, c) && |use| == c.size && forall b: nat :: b < c.size ==> (use[b].Meta? <==> b < NMeta(sb))
  }

  /** The state of the file system when nothing is cached. */
  ghost function StateOf(sb: Super, c: Params, v: Volume, use: seq<Use>): State
    requires VolumeOk(sb, c, v)
  {
    State(v.used, v.blocks, Stored(c, sb.ipb, sb.ninodes, v.iblocks), use, {})
  }

  ghost predicate Good(sb: Super, c: Params, v: Volume, use: seq<Use>) {
    VolumeOk(sb, c, v) && MetaIs(sb, c, use) && FilesOk(c, StateOf(sb, c, v, use))
  }

  // ----- mounting

  predicate DiskSized(sb: Super, c: Params, d: Writes.Disk) {
    SuperOk(sb, c) && |d| == c.size && forall b :: InodeStart(sb) <= b < c.size ==> 4 * |d[b]| == c.bsize
  }

  /** The bit of block b, as balloc reads it. */
  function MountedBit(sb: Super, c: Params, d: Writes.Disk, b: nat): bool
    requires DiskSized(sb, c, d) && b < c.size
  {
    BitPlace(sb, b, b);
    DivMod(b, sb.bpb);
    BitIn(BytesOf(d[BBlock(sb, b)]), b % sb.bpb)
  }

  predicate RoomForInodes(sb: Super, c: Params) {
    4 * (sb.ipb * RecordWords(c)) <= c.bsize
  }

  lemma InodeRoom(sb: Super, c: Params, d: Writes.Disk, i: nat)
    requires DiskSized(sb, c, d) && RoomForInodes(sb, c) && i < sb.ninodes
    ensures IBlock(sb, i) < |d| && i % sb.ipb < sb.ipb && Room(c, BytesOf(d[IBlock(sb, i)]), sb.ipb)
  {
    hide BytesOf, IBlock, BmapStart, NMeta;
    InodePlace(sb, i, i);
    StartsInOrder(sb);
    DivMod(i, sb.ipb);
  }

  /** Inode i, as ilock reads it. */
  function MountedInode(sb: Super, c: Params, d: Writes.Disk, i: nat): Inode
    requires DiskSized(sb, c, d) && RoomForInodes(sb, c) && i < sb.ninodes
  {
    InodeRoom(sb, c, d, i);
    GetInode(c, sb.ipb, BytesOf(d[IBlock(sb, i)]), i % sb.ipb)
  }

  function MountedBits(sb: Super, c: Params, d: Writes.Disk): (r: seq<bool>)
    requires DiskSized(sb, c, d)
    ensures |r| == c.size && forall b: nat :: b < c.size ==> r[b] == MountedBit(sb, c, d, b)
  {
    seq(c.size, b requires 0 <= b < c.size => MountedBit(sb, c, d, b))
  }

  function MountedInodes(sb: Super, c: Params, d: Writes.Disk): (r: seq<Inode>)
    requires DiskSized(sb, c, d) && RoomForInodes(sb, c)
    ensures |r| == sb.ninodes && forall i: nat :: i < sb.ninodes ==> r[i] == MountedInode(sb, c, d, i)
  {
    seq(sb.ninodes, i requires 0 <= i < sb.ninodes => MountedInode(sb, c, d, i))
  }

  /** The blocks of files; those before the inode blocks do not matter. */
  function MountedBlocks(sb: Super, c: Params, d: Writes.Disk): (r: seq<Block>)
    requires DiskSized(sb, c, d)
    ensures |r| == c.size && forall b: nat :: InodeStart(sb) <= b < c.size ==> r[b] == BytesOf(d[b])
    ensures forall b :: 0 <= b < c.size ==> |r[b]| == c.bsize
  {
    seq(c.size, b requires 0 <= b < c.size => if b < InodeStart(sb) then ZeroBlock(c) else BytesOf(d[b]))
  }

  /** The file system that the kernel finds on a disk. */
  ghost function Mounted(sb: Super, c: Params, d: Writes.Disk, use: seq<Use>): State
    requires DiskSized(sb, c, d) && RoomForInodes(sb, c)
  {
    State(MountedBits(sb, c, d), MountedBlocks(sb, c, d), MountedInodes(sb, c, d), use, {})
  }

  lemma HoldsSized(sb: Super, c: Params, d: Writes.Disk, v: Volume)
    requires Holds(sb, c, d, v)
    ensures DiskSized(sb, c, d) && RoomForInodes(sb, c)
  {
    hide BytesOf, Home, MapBytes;
    forall b: nat | InodeStart(sb) <= b < c.size ensures 4 * |d[b]| == c.bsize {
      assert HomeBlock(sb, b);
      assert |BytesOf(d[b])| == 4 * |d[b]|;
    }
    assert Room(c, v.iblocks[0], sb.ipb);
  }

  lemma MountBit(sb: Super, c: Params, d: Writes.Disk, v: Volume, b: nat)
    requires Holds(sb, c, d, v) && b < c.size && DiskSized(sb, c, d)
    ensures MountedBit(sb, c, d, b) == v.used[b]
  {
    hide BytesOf, MapBytes, BitIn, InodeBlocks, NMeta, BmapStart;
    BitPlace(sb, b, b);
    StartsInOrder(sb);
    DivMod(b, sb.bpb);
    MapBit(c.bsize, sb.bpb, v.used, b / sb.bpb, b % sb.bpb);
    assert HomeBlock(sb, BBlock(sb, b));
  }

  lemma StartsInOrder(sb: Super)
    requires sb.ipb > 0 && sb.bpb > 0
    ensures InodeStart(sb) < BmapStart(sb) < NMeta(sb)
  {
  }

  lemma MountInode(sb: Super, c: Params, d: Writes.Disk, v: Volume, i: nat)
    requires Holds(sb, c, d, v) && i < sb.ninodes && DiskSized(sb, c, d) && RoomForInodes(sb, c)
    ensures MountedInode(sb, c, d, i) == StoredInode(c, sb.ipb, sb.ninodes, v.iblocks, i)
  {
    hide BytesOf, MapBytes, GetInode, InodeBlocks, NMeta, BmapStart, Room;
    InodePlace(sb, i, i);
    StartsInOrder(sb);
    BlockOf(c, sb.ipb, sb.ninodes, v.iblocks, i);
    assert HomeBlock(sb, IBlock(sb, i));
  }

  /** No file reaches a metadata block. */
  lemma MetaApart(c: Params, s: State, t: State, i: nat, n: nat)
    requires Core(c, s) && Sized(c, t) && t == s.(blocks := t.blocks)
    requires forall b: nat :: b < c.size && !s.use[b].Meta? ==> t.blocks[b] == s.blocks[b]
    ensures SameAt(c, s, t, i, n) && AddrOk(c, t, i, n)
  {
    assert AddrOk(c, s, i, n) && IndexOk(c, s, i);
  }

  lemma MetaIrrelevant(c: Params, s: State, t: State)
    requires FilesOk(c, s) && Sized(c, t) && t == s.(blocks := t.blocks)
    requires forall b: nat :: b < c.size && !s.use[b].Meta? ==> t.blocks[b] == s.blocks[b]
    ensures FilesOk(c, t) && forall i: nat :: i < |s.inodes| ==> Contents(c, t, i) == Contents(c, s, i)
  {
    forall i: nat, n: nat ensures AddrOk(c, t, i, n) && SameAt(c, s, t, i, n) {
      MetaApart(c, s, t, i, n);
    }
    forall b: nat | b < c.size ensures UseOk(c, t, b) {
      assert UseOk(c, s, b);
      if s.use[b].Data? {
        assert SameAt(c, s, t, s.use[b].i, s.use[b].n);
      }
    }
    forall i: nat ensures IndexOk(c, t, i) {
      assert IndexOk(c, s, i);
    }
    forall i: nat | i < |s.inodes| ensures NoHole(c, t, i) && Contents(c, t, i) == Contents(c, s, i) {
      assert NoHole(c, s, i);
      SameContents(c, s, t, i);
    }
  }

  lemma SameContents(c: Params, s: State, t: State, i: nat)
    requires Inv(c, s) && Sized(c, t) && t.inodes == s.inodes && i < |s.inodes|
    requires forall n: nat :: SameAt(c, s, t, i, n)
    ensures forall p: nat :: ByteAt(c, t, i, p) == ByteAt(c, s, i, p)
    ensures Contents(c, t, i) == Contents(c, s, i)
  {
    hide UseOk, AddrOk, IndexOk;
    forall p: nat ensures ByteAt(c, t, i, p) == ByteAt(c, s, i, p) {
      assert SameAt(c, s, t, i, Blk(c, p));
      ByteSame(c, s, t, i, p);
    }
  }

  /** The files on the disk are those of the volume it holds. */
  ghost predicate Mounts(sb: Super, c: Params, d: Writes.Disk, v: Volume, use: seq<Use>) {
    && DiskSized(sb, c, d) && RoomForInodes(sb, c) && Good(sb, c, v, use)
    && FilesOk(c, Mounted(sb, c, d, use))
    && forall i: nat :: i < sb.ninodes ==> SameFile(sb, c, d, v, use, i)
  }

  ghost predicate SameFile(sb: Super, c: Params, d: Writes.Disk, v: Volume, use: seq<Use>, i: nat)
    requires DiskSized(sb, c, d) && RoomForInodes(sb, c) && Good(sb, c, v, use)
    requires i < sb.ninodes && Sized(c, Mounted(sb, c, d, use))
  {
    && Mounted(sb, c, d, use).inodes[i] == StateOf(sb, c, v, use).inodes[i]
    && Contents(c, Mounted(sb, c, d, use), i) == Contents(c, StateOf(sb, c, v, use), i)
  }

  lemma MountOk(sb: Super, c: Params, d: Writes.Disk, v: Volume, use: seq<Use>)
    requires Good(sb, c, v, use) && Holds(sb, c, d, v)
    ensures Mounts(sb, c, d, v, use)
  {
    hide MountedBit, MountedInode, UseOk, AddrOk, IndexOk, NoHole, InodeBlocks, StoredInode, MapBytes, BytesOf;
    HoldsSized(sb, c, d, v);
    var s, t := StateOf(sb, c, v, use), Mounted(sb, c, d, use);
    forall b: nat | b < c.size ensures t.used[b] == s.used[b] {
      MountBit(sb, c, d, v, b);
    }
    assert t.used == s.used;
    forall i: nat | i < sb.ninodes ensures t.inodes[i] == s.inodes[i] {
      MountInode(sb, c, d, v, i);
    }
    assert t.inodes == s.inodes;
    forall b: nat | b < c.size && !use[b].Meta? ensures t.blocks[b] == s.blocks[b] {
      StartsInOrder(sb);
      assert HomeBlock(sb, b);
    }
    MetaIrrelevant(c, s, t);
  }

  // ----- transactions

  /** The transaction holds every block in which the two volumes differ, with its new contents. */
  ghost predicate Transacts(sb: Super, c: Params, v: Volume, v': Volume, t: Recovery.Txn) {
    && VolumeOk(sb, c, v) && VolumeOk(sb, c, v') && |t.blocks| == |t.data|
    && (forall k: nat :: k < |t.blocks| ==> Carries(sb, c, v', t, k))
    && (forall b: nat :: HomeBlock(sb, b) && Home(sb, c, v', b) != Home(sb, c, v, b) ==> b in t.blocks)
  }

  predicate Carries(sb: Super, c: Params, v': Volume, t: Recovery.Txn, k: nat)
    requires VolumeOk(sb, c, v') && k < |t.blocks| == |t.data|
  {
    HomeBlock(sb, t.blocks[k]) && BytesOf(t.data[k]) == Home(sb, c, v', t.blocks[k])
  }

  /** The log of this file system. */
  function LogArea(sb: Super, logSize: nat): Recovery.Layout {
    Recovery.Layout(2, sb.nlog, logSize)
  }

  lemma NewHolds(sb: Super, c: Params, logSize: nat, d: Writes.Disk, e: Writes.Disk, v: Volume, v': Volume, t: Recovery.Txn)
    requires Holds(sb, c, d, v) && Transacts(sb, c, v, v', t) && Recovery.AllNew(LogArea(sb, logSize), d, t, e)
    ensures Holds(sb, c, e, v')
  {
    hide Home, BytesOf, InodeBlocks, Recovery.Erased;
    forall b: nat | HomeBlock(sb, b) ensures b < |e| && BytesOf(e[b]) == Home(sb, c, v', b) {
      assert !Recovery.InLog(LogArea(sb, logSize), b);
      assert Recovery.IsNew(d, t, b, e[b]);
      if b in t.blocks {
        var k: nat :| k < |t.blocks| && t.blocks[k] == b;
        assert Carries(sb, c, v', t, k);
      }
    }
  }

  lemma OldHolds(sb: Super, c: Params, logSize: nat, d: Writes.Disk, e: Writes.Disk, v: Volume)
    requires Holds(sb, c, d, v) && Recovery.AllOld(LogArea(sb, logSize), d, e)
    ensures Holds(sb, c, e, v)
  {
    hide Home, BytesOf, InodeBlocks, Recovery.Erased;
    forall b: nat | HomeBlock(sb, b) ensures b < |e| && BytesOf(e[b]) == Home(sb, c, v, b) {
      assert !Recovery.InLog(LogArea(sb, logSize), b);
    }
  }

  /** An operation as the disk sees it: the transaction it commits, cut short or not, and the volume
      and the block uses it leaves. */
  datatype Op = Op(ev: Recovery.Event, after: Volume, use: seq<Use>)

  ghost predicate OpOk(sb: Super, c: Params, v: Volume, op: Op) {
    Good(sb, c, op.after, op.use) && Transacts(sb, c, v, op.after, op.ev.t)
  }

  /** What is on disk when the operations that took effect have been applied one after another. */
  function Last(v: Volume, use: seq<Use>, ops: seq<Op>): (Volume, seq<Use>) {
    if ops == [] then (v, use)
    else
      var m := |ops| - 1;
      if Recovery.Effective(ops[m].ev) then (ops[m].after, ops[m].use) else Last(v, use, ops[..m])
  }

  ghost predicate History(sb: Super, c: Params, logSize: nat, d: Writes.Disk, v: Volume, use: seq<Use>, ops: seq<Op>, disks: seq<Writes.Disk>) {
    && |disks| == |ops| + 1 && disks[0] == d
    && forall m: nat :: m < |ops| ==> StepAt(sb, c, logSize, v, use, ops, disks, m)
  }

  /** Operation m starts from what the earlier ones left and commits a transaction that fits the log. */
  ghost predicate StepAt(sb: Super, c: Params, logSize: nat, v: Volume, use: seq<Use>, ops: seq<Op>, disks: seq<Writes.Disk>, m: nat)
    requires m < |ops| == |disks| - 1
  {
    var l, t := LogArea(sb, logSize), ops[m].ev.t;
    && OpOk(sb, c, Last(v, use, ops[..m]).0, ops[m])
    && Recovery.TxnOk(l, disks[m], t)
    && l.start < |disks[m]| && |disks[m][l.start]| > |t.blocks|
    && disks[m + 1] == Recovery.After(l, disks[m], ops[m].ev)
  }

  /** Whatever operations are performed and however they and the recoveries after them crash, the
      disk holds exactly the operations that took effect, and the kernel that mounts it finds a file
      system without a lost, shared or dangling block and without a hole, with those files. */
  lemma {:induction false} CrashSafe(sb: Super, c: Params, logSize: nat, d: Writes.Disk, v: Volume, use: seq<Use>, ops: seq<Op>, disks: seq<Writes.Disk>)
    requires Recovery.Erased(LogArea(sb, logSize), d) && Good(sb, c, v, use) && Holds(sb, c, d, v)
    requires History(sb, c, logSize, d, v, use, ops, disks)
    ensures Recovery.Erased(LogArea(sb, logSize), disks[|ops|])
    ensures var last := Last(v, use, ops); Holds(sb, c, disks[|ops|], last.0) && Mounts(sb, c, disks[|ops|], last.0, last.1)
    decreases |ops|
  {
    hide Holds, Good, Transacts, Mounts, Recovery.TxnOk, Recovery.After;
    if ops == [] {
      MountOk(sb, c, d, v, use);
    } else {
      var m := |ops| - 1;
      HistoryBefore(sb, c, logSize, d, v, use, ops, disks);
      CrashSafe(sb, c, logSize, d, v, use, ops[..m], disks[..m + 1]);
      assert StepAt(sb, c, logSize, v, use, ops, disks, m);
      OpSafe(sb, c, logSize, disks[m], Last(v, use, ops[..m]).0, ops[m]);
      LastGood(sb, c, logSize, d, v, use, ops, disks);
      MountOk(sb, c, disks[m + 1], Last(v, use, ops).0, Last(v, use, ops).1);
    }
  }

  lemma HistoryBefore(sb: Super, c: Params, logSize: nat, d: Writes.Disk, v: Volume, use: seq<Use>, ops: seq<Op>, disks: seq<Writes.Disk>)
    requires History(sb, c, logSize, d, v, use, ops, disks) && |ops| > 0
    ensures History(sb, c, logSize, d, v, use, ops[..|ops| - 1], disks[..|ops|])
  {
    hide OpOk, Last, Recovery.TxnOk, Recovery.After;
    var n := |ops| - 1;
    forall m: nat | m < n ensures StepAt(sb, c, logSize, v, use, ops[..n], disks[..|ops|], m) {
      assert StepAt(sb, c, logSize, v, use, ops, disks, m);
      assert ops[..n][..m] == ops[..m];
    }
  }

  lemma {:induction false} LastGood(sb: Super, c: Params, logSize: nat, d: Writes.Disk, v: Volume, use: seq<Use>, ops: seq<Op>, disks: seq<Writes.Disk>)
    requires Good(sb, c, v, use) && History(sb, c, logSize, d, v, use, ops, disks)
    ensures var last := Last(v, use, ops); Good(sb, c, last.0, last.1)
    decreases |ops|
  {
    hide Good, Transacts, Recovery.TxnOk, Recovery.After;
    if ops != [] {
      var m := |ops| - 1;
      HistoryBefore(sb, c, logSize, d, v, use, ops, disks);
      LastGood(sb, c, logSize, d, v, use, ops[..m], disks[..m + 1]);
      assert StepAt(sb, c, logSize, v, use, ops, disks, m);
    }
  }

  /** One operation. */
  lemma OpSafe(sb: Super, c: Params, logSize: nat, d: Writes.Disk, v: Volume, op: Op)
    requires Recovery.Erased(LogArea(sb, logSize), d) && Recovery.TxnOk(LogArea(sb, logSize), d, op.ev.t)
    requires Holds(sb, c, d, v) && Transacts(sb, c, v, op.after, op.ev.t)
    ensures var e := Recovery.After(LogArea(sb, logSize), d, op.ev);
      Recovery.Erased(LogArea(sb, logSize), e) && Holds(sb, c, e, if Recovery.Effective(op.ev) then op.after else v)
  {
    hide Holds, Transacts, NoRepeats, Recovery.After;
    var l := LogArea(sb, logSize);
    Recovery.EventIsAtomic(l, d, op.ev);
    if Recovery.Effective(op.ev) {
      NewHolds(sb, c, logSize, d, Recovery.After(l, d, op.ev), v, op.after, op.ev.t);
    } else {
      OldHolds(sb, c, logSize, d, Recovery.After(l, d, op.ev), v);
    }
  }

  // ----- the transaction of an operation that logs what it changes

  /** A set of block numbers as lh.block lists it. */
  lemma {:induction false} Listing(s: set<nat>) returns (q: seq<nat>)
    ensures |q| == |s| && NoRepeats(q) && forall x :: x in q <==> x in s
    decreases |s|
  {
    if s == {} {
      q := [];
    } else {
      var x :| x in s;
      q := Listing(s - {x});
      q := q + [x];
    }
  }

  ghost function Shifted(s: set<nat>, off: nat): (r: set<nat>)
    ensures forall b: nat :: b in r <==> off <= b && b - off in s
  {
    set k | k in s :: off + k
  }

  lemma {:induction false} ShiftedSize(s: set<nat>, off: nat)
    ensures |Shifted(s, off)| <= |s|
    decreases |s|
  {
    if s != {} {
      var x :| x in s;
      ShiftedSize(s - {x}, off);
      assert Shifted(s, off) == Shifted(s - {x}, off) + {off + x};
    }
  }

  /** The blocks that a transaction writes: inode blocks, bitmap blocks and data blocks. */
  ghost function Names(sb: Super, m: set<nat>, d: set<nat>, li: set<nat>): set<nat>
    requires sb.ipb > 0
  {
    Shifted(li, InodeStart(sb)) + Shifted(m, BmapStart(sb)) + d
  }

  lemma MapSame(bsize: nat, bpb: nat, used: seq<bool>, used': seq<bool>, k: nat)
    requires bpb == 8 * bsize && |used| == |used'|
    requires forall b: nat :: k * bpb <= b < k * bpb + bpb && b < |used| ==> used'[b] == used[b]
    ensures MapBytes(bsize, used', k) == MapBytes(bsize, used, k)
  {
    Scaled(k, bsize, bpb);
    var first := k * bsize;
    var x, y := MapBytes(bsize, used', k), MapBytes(bsize, used, k);
    forall p | 0 <= p < bsize ensures x[p] == y[p] {
      assert BitsAt(used', first + p) == BitsAt(used, first + p);
      assert x[p] == MapByte(used', first + p) && y[p] == MapByte(used, first + p);
    }
  }

  /** A bitmap block that was not logged is as it was. */
  lemma MapUnlogged(sb: Super, c: Params, s: State, t: State, m: set<nat>, d: set<nat>, k: nat)
    requires SuperOk(sb, c) && Logs(s, t, sb.bpb, {}, {}, m, d) && k !in m
    ensures MapBytes(c.bsize, t.used, k) == MapBytes(c.bsize, s.used, k)
  {
    hide MapBytes;
    forall b: nat | k * sb.bpb <= b < k * sb.bpb + sb.bpb && b < |s.used| ensures t.used[b] == s.used[b] {
      Quotient(b, k, b - k * sb.bpb, sb.bpb);
      assert LogsAt(s, t, sb.bpb, m, d, b);
    }
    MapSame(c.bsize, sb.bpb, s.used, t.used, k);
  }

  lemma ChangeIsNamed(sb: Super, c: Params, s: State, t: State, ib: seq<Block>, ib': seq<Block>, m: set<nat>, d: set<nat>, li: set<nat>, b: nat)
    requires VolumeOk(sb, c, Volume(s.used, s.blocks, ib)) && VolumeOk(sb, c, Volume(t.used, t.blocks, ib'))
    requires Logs(s, t, sb.bpb, {}, {}, m, d) && InodesLogged(ib, ib', li) && HomeBlock(sb, b)
    requires Home(sb, c, Volume(t.used, t.blocks, ib'), b) != Home(sb, c, Volume(s.used, s.blocks, ib), b)
    ensures b in Names(sb, m, d, li)
  {
    hide MapBytes, InodeBlocks;
    if b < BmapStart(sb) {
      var k: nat := b - InodeStart(sb);
      assert k in li;
    } else if b < NMeta(sb) {
      var k: nat := b - BmapStart(sb);
      if k !in m {
        MapUnlogged(sb, c, s, t, m, d, k);
      }
    } else {
      assert LogsAt(s, t, sb.bpb, m, d, b);
    }
  }

  lemma NamedIsHome(sb: Super, c: Params, s: State, t: State, ib': seq<Block>, m: set<nat>, d: set<nat>, li: set<nat>, b: nat)
    requires VolumeOk(sb, c, Volume(t.used, t.blocks, ib')) && MetaIs(sb, c, t.use)
    requires Logs(s, t, sb.bpb, {}, {}, m, d) && (forall k :: k in li ==> k < |ib'|) && b in Names(sb, m, d, li)
    ensures HomeBlock(sb, b)
  {
    hide InodeBlocks, BmapStart, LogsAt;
    StartsInOrder(sb);
    if b in Shifted(m, BmapStart(sb)) {
      var k: nat := b - BmapStart(sb);
      assert MapBlock(t, sb.bpb, k);
      MapInside(sb, k);
    } else if b in d {
      assert DataBlock(t, b);
    }
  }

  lemma MapInside(sb: Super, k: nat)
    requires sb.ipb > 0 && sb.bpb > 0 && k * sb.bpb < sb.size
    ensures BmapStart(sb) + k < NMeta(sb)
  {
    QuotientBelow(k * sb.bpb, sb.size, sb.bpb);
    Quotient(k * sb.bpb, k, 0, sb.bpb);
  }

  /** Logging every changed block makes a transaction that takes the one volume to the other. */
  lemma LoggedTxn(sb: Super, c: Params, s: State, t: State, ib: seq<Block>, ib': seq<Block>, m: set<nat>, d: set<nat>, li: set<nat>)
    returns (x: Recovery.Txn)
    requires VolumeOk(sb, c, Volume(s.used, s.blocks, ib)) && VolumeOk(sb, c, Volume(t.used, t.blocks, ib')) && MetaIs(sb, c, t.use)
    requires Logs(s, t, sb.bpb, {}, {}, m, d) && InodesLogged(ib, ib', li) && forall k :: k in li ==> k < |ib'|
    ensures Transacts(sb, c, Volume(s.used, s.blocks, ib), Volume(t.used, t.blocks, ib'), x)
    ensures NoRepeats(x.blocks) && |x.blocks| <= |m| + |d| + |li|
  {
    hide Home, Names, Logs, InodesLogged, WordsOf, BytesOf, InodeBlocks, NoRepeats;
    var v, v' := Volume(s.used, s.blocks, ib), Volume(t.used, t.blocks, ib');
    var q := Listing(Names(sb, m, d, li));
    NamesSize(sb, m, d, li);
    forall k | 0 <= k < |q| ensures HomeBlock(sb, q[k]) {
      NamedIsHome(sb, c, s, t, ib', m, d, li, q[k]);
    }
    x := Recovery.Txn(q, seq(|q|, k requires 0 <= k < |q| && HomeBlock(sb, q[k]) => WordsOf(Home(sb, c, v', q[k]))));
    forall k: nat | k < |q| ensures Carries(sb, c, v', x, k) {
      BytesBack(Home(sb, c, v', q[k]));
    }
    forall b: nat | HomeBlock(sb, b) && Home(sb, c, v', b) != Home(sb, c, v, b) ensures b in x.blocks {
      ChangeIsNamed(sb, c, s, t, ib, ib', m, d, li, b);
    }
  }

  lemma NamesSize(sb: Super, m: set<nat>, d: set<nat>, li: set<nat>)
    requires sb.ipb > 0
    ensures |Names(sb, m, d, li)| <= |m| + |d| + |li|
  {
    ShiftedSize(li, InodeStart(sb));
    ShiftedSize(m, BmapStart(sb));
  }
}
