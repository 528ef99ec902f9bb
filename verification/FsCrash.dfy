/** Crashes and file operations together (file.c, fs.c, log.c): an operation of the file layer run as
    a transaction of the log, cut short by a crash anywhere, followed by recovery and a mount. */
module FsCrash {
  import opened Arith
  import opened Counting
  import opened Dinodes
  import opened Fs
  import opened FsBlocks
  import opened FsDisk
  import opened FsFiles
  import Recovery
  import opened Superblock
  import Writes

  /** What the running kernel knows, when no transaction is open: the inode blocks agree with the
      cached inodes and the file system is in order. */
  ghost predicate Clean(sb: Super, fs: FileSystem)
    reads fs
  {
    && sb.bpb == fs.bpb && sb.ipb == fs.ipb && sb.ninodes == |fs.inodes|
    && VolumeOk(sb, fs.c, VolumeOf(fs)) && fs.Disk() == fs.inodes
    && MetaIs(sb, fs.c, fs.use) && FilesOk(fs.c, fs.St())
  }

  ghost function VolumeOf(fs: FileSystem): Volume
    reads fs
  {
    Volume(fs.used, fs.blocks, fs.iblocks)
  }

  /** The disk after a commit of t that is cut after k writes and a recovery with crashes ks. */
  ghost function AfterCrash(l: Recovery.Layout, d: Writes.Disk, t: Recovery.Txn, k: nat, ks: seq<nat>): Writes.Disk
    requires Recovery.Erased(l, d) && Recovery.TxnOk(l, d, t)
  {
    Recovery.Recovered(l, Recovery.CrashAt(d, Recovery.CommitWrites(l, d, t), k), ks)
  }

  /** A mount of disk e finds a file system in order, with file i as given. */
  ghost predicate Finds(sb: Super, c: Params, e: Writes.Disk, use: seq<Use>, i: nat, contents: seq<int>) {
    && DiskSized(sb, c, e) && RoomForInodes(sb, c) && FilesOk(c, Mounted(sb, c, e, use))
    && i < sb.ninodes && Contents(c, Mounted(sb, c, e, use), i) == contents
  }

  lemma FindsMounted(sb: Super, c: Params, e: Writes.Disk, v: Volume, use: seq<Use>, i: nat)
    requires Mounts(sb, c, e, v, use) && i < sb.ninodes
    ensures Finds(sb, c, e, use, i, Contents(c, StateOf(sb, c, v, use), i))
  {
    hide NoHole, UseOk, AddrOk, IndexOk;
    assert SameFile(sb, c, e, v, use, i);
  }

  /** Before the header is written a crash leaves the files of s, after it those of s'. */
  ghost predicate Atomic(sb: Super, c: Params, logSize: nat, d: Writes.Disk, s: State, s': State, t: Recovery.Txn)
    requires Sized(c, s) && Sized(c, s') && |s.inodes| == |s'.inodes| == sb.ninodes
    requires Recovery.Erased(LogArea(sb, logSize), d) && Recovery.TxnOk(LogArea(sb, logSize), d, t)
  {
    forall k: nat, ks: seq<nat>, i: nat :: i < sb.ninodes ==>
      var e := AfterCrash(LogArea(sb, logSize), d, t, k, ks);
      if k <= |t.blocks| then Finds(sb, c, e, s.use, i, Contents(c, s, i)) else Finds(sb, c, e, s'.use, i, Contents(c, s', i))
  }

  lemma CommitIsAtomic(sb: Super, c: Params, logSize: nat, d: Writes.Disk, v: Volume, use: seq<Use>, v': Volume, use': seq<Use>, t: Recovery.Txn)
    requires Recovery.Erased(LogArea(sb, logSize), d) && Recovery.TxnOk(LogArea(sb, logSize), d, t)
    requires Good(sb, c, v, use) && Good(sb, c, v', use') && Holds(sb, c, d, v) && Transacts(sb, c, v, v', t)
    ensures Atomic(sb, c, logSize, d, StateOf(sb, c, v, use), StateOf(sb, c, v', use'), t)
  {
    hide Holds, Transacts, Finds, NoHole, UseOk, AddrOk, IndexOk, InodeBlocks, Stored, NoRepeats;
    var s, s' := StateOf(sb, c, v, use), StateOf(sb, c, v', use');
    forall k: nat, ks: seq<nat>, i: nat | i < sb.ninodes
      ensures var e := AfterCrash(LogArea(sb, logSize), d, t, k, ks);
        if k <= |t.blocks| then Finds(sb, c, e, s.use, i, Contents(c, s, i)) else Finds(sb, c, e, s'.use, i, Contents(c, s', i))
    {
      var e := AfterCrash(LogArea(sb, logSize), d, t, k, ks);
      OpSafe(sb, c, logSize, d, v, Op(Recovery.Crashes(t, k, ks), v', use'));
      if k <= |t.blocks| {
        MountOk(sb, c, e, v, use);
        FindsMounted(sb, c, e, v, use, i);
      } else {
        MountOk(sb, c, e, v', use');
        FindsMounted(sb, c, e, v', use', i);
      }
    }
  }

  /** Logged sets that fit in the log make a transaction of it. */
  lemma FitsInLog(sb: Super, c: Params, logSize: nat, d: Writes.Disk, v: Volume, v': Volume, t: Recovery.Txn)
    requires Transacts(sb, c, v, v', t) && NoRepeats(t.blocks) && |t.blocks| <= logSize && |t.blocks| < sb.nlog && |d| == c.size
    ensures Recovery.TxnOk(LogArea(sb, logSize), d, t)
  {
    hide NoRepeats, Home, InodeBlocks, BytesOf;
    forall k: nat | k < |t.blocks| ensures t.blocks[k] < |d| && !Recovery.InLog(LogArea(sb, logSize), t.blocks[k]) {
      assert Carries(sb, c, v', t, k);
    }
  }

  lemma MetaStays(sb: Super, c: Params, s: State, t: State, m: set<nat>, d: set<nat>)
    requires MetaIs(sb, c, s.use) && Logs(s, t, sb.bpb, {}, {}, m, d)
    ensures MetaIs(sb, c, t.use)
  {
    forall b: nat | b < c.size ensures t.use[b].Meta? <==> b < NMeta(sb) {
      assert LogsAt(s, t, sb.bpb, m, d, b);
    }
  }

  /** An operation that takes the file system from s to t and logs what it changes is atomic. */
  lemma OperationIsAtomic(sb: Super, c: Params, logSize: nat, d: Writes.Disk, s: State, t: State, ib: seq<Block>, ib': seq<Block>,
                          lm: set<nat>, ld: set<nat>, li: set<nat>) returns (x: Recovery.Txn)
    requires Recovery.Erased(LogArea(sb, logSize), d) && Holds(sb, c, d, Volume(s.used, s.blocks, ib)) && MetaIs(sb, c, s.use)
    requires FilesOk(c, s) && FilesOk(c, t) && |s.inodes| == |t.inodes| == sb.ninodes && InodeBlocks(c, sb.ipb, sb.ninodes, ib')
    requires Stored(c, sb.ipb, sb.ninodes, ib) == s.inodes && Stored(c, sb.ipb, sb.ninodes, ib') == t.inodes
    requires Logs(s, t, sb.bpb, {}, {}, lm, ld) && InodesLogged(ib, ib', li) && forall k :: k in li ==> k < |ib'|
    requires |lm| + |ld| + |li| <= logSize && |lm| + |ld| + |li| < sb.nlog
    ensures MetaIs(sb, c, t.use) && VolumeOk(sb, c, Volume(t.used, t.blocks, ib'))
    ensures Transacts(sb, c, Volume(s.used, s.blocks, ib), Volume(t.used, t.blocks, ib'), x)
    ensures Recovery.TxnOk(LogArea(sb, logSize), d, x) && Atomic(sb, c, logSize, d, s, t, x)
  {
    hide Logs, InodeBlocks, Stored, Transacts, NoHole, UseOk, AddrOk, IndexOk, Home, Atomic, NoRepeats, BytesOf;
    var v, v' := Volume(s.used, s.blocks, ib), Volume(t.used, t.blocks, ib');
    MetaStays(sb, c, s, t, lm, ld);
    x := LoggedTxn(sb, c, s, t, ib, ib', lm, ld, li);
    FitsInLog(sb, c, logSize, d, v, v', x);
    assert StateOf(sb, c, v, s.use) == s && StateOf(sb, c, v', t.use) == t;
    CommitIsAtomic(sb, c, logSize, d, v, s.use, v', t.use, x);
  }

  /** One chunk of filewrite and its commit.  Whenever the machine crashes during the commit or the
      recoveries, the next mount finds every file as it was, or file i with src written at off and
      the other files as they were: which of the two depends on whether the header was written. */
  method WriteTransaction(fs: FileSystem, sb: Super, logSize: nat, i: nat, src: seq<Byte>, off: nat, half: nat, ghost d: Writes.Disk)
    returns (r: int, full: bool, ghost t: Recovery.Txn)
    requires Clean(sb, fs) && i < |fs.inodes| && off < U32 && |src| < U32 && |src| <= half * fs.c.bsize
    requires Holds(sb, fs.c, d, VolumeOf(fs)) && Recovery.Erased(LogArea(sb, logSize), d)
    requires 2 * half + 4 <= logSize && 2 * half + 4 < sb.nlog
    modifies fs
    ensures full ==> AllUsed(fs.used) && NeedsBlock(fs.c, old(fs.St()), i, off, |src|)
    ensures Refused(fs.c, old(fs.St()), i, off, |src|) ==> r == -1 && !full && fs.St() == old(fs.St())
    ensures !full ==> Clean(sb, fs) && |fs.inodes| == old(|fs.inodes|) == sb.ninodes && Recovery.TxnOk(LogArea(sb, logSize), d, t)
    ensures !full ==> Transacts(sb, fs.c, old(VolumeOf(fs)), VolumeOf(fs), t)
    ensures !full ==> Atomic(sb, fs.c, logSize, d, old(fs.St()), fs.St(), t)
    ensures !full && !Refused(fs.c, old(fs.St()), i, off, |src|) ==>
      && Contents(fs.c, fs.St(), i) == Splice(Contents(fs.c, old(fs.St()), i), off, src)
      && forall j: nat :: j < |fs.inodes| && j != i ==> Contents(fs.c, fs.St(), j) == Contents(fs.c, old(fs.St()), j)
  {
    hide Logs, InodesLogged, InodeBlocks, Stored, Holds, Transacts, Inv, NoHole, SameAt, Home, AllUsed;
    ghost var s, ib := fs.St(), fs.iblocks;
    ghost var logged;
    r, full, logged := fs.WriteChunk(i, src, off, half);
    t := Recovery.Txn([], []);
    if !full {
      t := OperationIsAtomic(sb, fs.c, logSize, d, s, fs.St(), ib, fs.iblocks, fs.loggedMap, fs.loggedData, fs.loggedInodes);
      if !Refused(fs.c, s, i, off, |src|) {
        forall j: nat | j < |fs.inodes| && j != i ensures Contents(fs.c, fs.St(), j) == Contents(fs.c, s, j) {
          OtherFileSame(fs.c, s, fs.St(), i, j);
        }
      }
    }
  }

  lemma MapBlocksFew(sb: Super, s: State, t: State, m: set<nat>, d: set<nat>)
    requires Logs(s, t, sb.bpb, {}, {}, m, d) && |t.used| == sb.size
    ensures |m| <= sb.size / sb.bpb + 1
  {
    forall k | k in m ensures k in Below(sb.size / sb.bpb + 1) {
      assert MapBlock(t, sb.bpb, k);
      QuotientBelow(k * sb.bpb, sb.size, sb.bpb);
      Quotient(k * sb.bpb, k, 0, sb.bpb);
    }
    SubsetSize(m, Below(sb.size / sb.bpb + 1));
  }

  /** itrunc and its commit, as when the last name of file i is removed: a crash leaves every file as
      it was, or file i empty and the others as they were. */
  method TruncateTransaction(fs: FileSystem, sb: Super, logSize: nat, i: nat, ghost d: Writes.Disk)
    returns (ghost t: Recovery.Txn)
    requires Clean(sb, fs) && i < |fs.inodes|
    requires Holds(sb, fs.c, d, VolumeOf(fs)) && Recovery.Erased(LogArea(sb, logSize), d)
    requires sb.size / sb.bpb + 2 <= logSize && sb.size / sb.bpb + 2 < sb.nlog
    modifies fs
    ensures Clean(sb, fs) && |fs.inodes| == old(|fs.inodes|) == sb.ninodes && Recovery.TxnOk(LogArea(sb, logSize), d, t)
    ensures Transacts(sb, fs.c, old(VolumeOf(fs)), VolumeOf(fs), t)
    ensures Atomic(sb, fs.c, logSize, d, old(fs.St()), fs.St(), t)
    ensures Contents(fs.c, fs.St(), i) == []
    ensures forall j: nat :: j < |fs.inodes| && j != i ==> Contents(fs.c, fs.St(), j) == Contents(fs.c, old(fs.St()), j)
  {
    hide Logs, InodesLogged, InodeBlocks, Stored, Holds, Transacts, NoHole, SameAt, Home, UseOk, AddrOk, IndexOk;
    ghost var s, ib := fs.St(), fs.iblocks;
    fs.loggedMap, fs.loggedData, fs.loggedInodes := {}, {}, {};
    fs.Itrunc(i);
    MapBlocksFew(sb, s, fs.St(), fs.loggedMap, fs.loggedData);
    t := OperationIsAtomic(sb, fs.c, logSize, d, s, fs.St(), ib, fs.iblocks, fs.loggedMap, fs.loggedData, fs.loggedInodes);
  }
}
