/** Files (fs.c, file.c): block allocation, the block map, reading, writing and truncating. */
module Fs {
  import opened Arith
  import opened Dinodes
  import opened FsBlocks
  import opened FsFiles

  class FileSystem {
    const c: Params
    const bpb: nat           // bitmap bits per block
    const ipb: nat           // inodes per block
    var used: seq<bool>
    var blocks: seq<Block>
    var inodes: seq<Inode>   // the cached inodes
    var iblocks: seq<Block>  // the inode blocks
    ghost var use: seq<Use>
    ghost var busy: set<nat>
    ghost var loggedMap: set<nat>    // bitmap blocks written in this transaction
    ghost var loggedData: set<nat>   // data and indirect blocks written
    ghost var loggedInodes: set<nat> // inode blocks written

    ghost function St(): State
      reads this
    {
      State(used, blocks, inodes, use, busy)
    }

    ghost predicate DiskOk()
      reads this
    {
      InodeBlocks(c, ipb, |inodes|, iblocks)
    }

    /** The inodes in the inode blocks. */
    ghost function Disk(): seq<Inode>
      requires DiskOk()
      reads this
    {
      Stored(c, ipb, |inodes|, iblocks)
    }

    /** balloc: the first block whose bit is clear, zeroed and marked; 0 when there is none, where
        the kernel panics. */
    method Balloc() returns (b: nat)
      requires Inv(c, St()) && bpb > 0
      modifies `used, `blocks, `use, `loggedMap, `loggedData
      ensures b < c.size && forall x :: 0 <= x < b ==> old(used)[x]
      ensures b == 0 ==> St() == old(St()) && AllUsed(used)
      ensures b != 0 ==> old(use)[b].Free? && St() == Take(c, old(St()), b)
      ensures loggedMap == if b == 0 then old(loggedMap) else old(loggedMap) + {b / bpb}
      ensures loggedData == if b == 0 then old(loggedData) else old(loggedData) + {b}
      ensures Logs(old(St()), St(), bpb, old(loggedMap), old(loggedData), loggedMap, loggedData)
    {
      assert UseOk(c, St(), 0);
      LogsInit(c, St(), bpb, loggedMap, loggedData);
      b := FindFree();
      if b != 0 {
        assert UseOk(c, St(), b);
        used := used[b := true];
        loggedMap := loggedMap + {b / bpb};
        blocks := blocks[b := ZeroBlock(c)];
        loggedData := loggedData + {b};
        use := use[b := Loose];
        LogsStep(old(St()), St(), bpb, old(loggedMap), old(loggedData), loggedMap, loggedData, b);
      }
    }

    /** balloc's search, bitmap block by bitmap block. */
    method FindFree() returns (r: nat)
      requires |used| == c.size > 0 && used[0] && bpb > 0
      ensures r < c.size && (r != 0 ==> !used[r]) && forall x :: 0 <= x < r ==> used[x]
      ensures r == 0 ==> AllUsed(used)
    {
      var b := 0;
      while b < c.size
        invariant forall x :: 0 <= x < b && x < c.size ==> used[x]
      {
        var bi := 0;
        while bi < bpb && b + bi < c.size
          invariant 0 <= bi <= bpb && forall x :: 0 <= x < b + bi && x < c.size ==> used[x]
        {
          if !used[b + bi] {
            return b + bi;
          }
          bi := bi + 1;
        }
        b := b + bpb;
      }
      return 0;
    }

    /** bmap: the block of file i that holds its block n, allocated when there is none; 0 when the
        disk is full, where the kernel panics. */
    method Bmap(i: nat, n: nat) returns (b: nat)
      requires Inv(c, St()) && bpb > 0 && i < |inodes| && n < MaxFile(c)
      modifies `used, `blocks, `inodes, `use, `loggedMap, `loggedData
      ensures Inv(c, St()) && Extended(c, old(St()), St(), i, n)
      ensures b == 0 ==> AllUsed(used)
      ensures b != 0 ==> b < c.size && Addr(c, St(), i, n) == b
      ensures Addr(c, old(St()), i, n) != 0 ==> b != 0 && St() == old(St())
      ensures Addr(c, old(St()), i, n) == 0 && b != 0 ==> blocks[b] == ZeroBlock(c)
      ensures Addr(c, old(St()), i, n) != 0 ==> loggedMap == old(loggedMap) && loggedData == old(loggedData)
      ensures loggedData <= old(loggedData) + {b} + IndexSet(c, inodes[i])
      ensures |loggedMap| <= |old(loggedMap)| + (if Addr(c, old(St()), i, n) != 0 then 0 else 1) + NewIndex(c, old(inodes)[i], inodes[i])
      ensures Logs(old(St()), St(), bpb, old(loggedMap), old(loggedData), loggedMap, loggedData)
    {
      hide Core, GetWord, ZeroBlock, Logs;
      ghost var s := St();
      if n < c.direct {
        b := DirectBlock(i, n);
      } else {
        NoIndexNoEntry(c, s, i, n);
        var x := IndexBlock(i, n);
        assert SameAt(c, s, St(), i, n);
        b := 0;
        if x != 0 {
          ghost var t, map1, data1 := St(), loggedMap, loggedData;
          b := EntryBlock(i, n - c.direct, s);
          LogsThen(s, t, St(), bpb, old(loggedMap), old(loggedData), map1, data1, loggedMap, loggedData);
        }
      }
    }

    /** iupdate: the cached inode replaces its record in the inode block; the other inodes of the
        block stay. */
    method Iupdate(i: nat)
      requires DiskOk() && i < |inodes| && Fits(c, inodes[i])
      modifies `iblocks, `loggedInodes
      ensures DiskOk() && Disk() == old(Disk())[i := inodes[i]]
      ensures loggedInodes == old(loggedInodes) + {i / ipb} && InodesLogged(old(iblocks), iblocks, loggedInodes)
      ensures i / ipb < |iblocks| == |old(iblocks)|
    {
      StoreInode(c, ipb, |inodes|, iblocks, i, inodes[i]);
      iblocks := iblocks[i / ipb := PutInode(c, ipb, iblocks[i / ipb], i % ipb, inodes[i])];
      loggedInodes := loggedInodes + {i / ipb};
    }

    /** readi: the bytes of file i from off on, at most n of them and none beyond its size.  It
        never allocates a block, although it looks blocks up with bmap: no state and no log changes. */
    method Readi(i: nat, off: nat, n: nat) returns (r: int, dst: seq<int>)
      requires FilesOk(c, St()) && bpb > 0 && i < |inodes| && off < U32 && n < U32
      modifies `used, `blocks, `inodes, `use, `loggedMap, `loggedData
      ensures St() == old(St()) && loggedMap == old(loggedMap) && loggedData == old(loggedData)
      ensures off > inodes[i].size || off + n >= U32 ==> r == -1 && dst == []
      ensures !(off > inodes[i].size || off + n >= U32) ==>
        r == |dst| && dst == Contents(c, St(), i)[off..Min(off + n, inodes[i].size)]
    {
      dst := [];
      if off > inodes[i].size || off + n >= U32 {
        return -1, [];
      }
      var n' := if off + n > inodes[i].size then inodes[i].size - off else n;
      ghost var s := St();
      var tot := 0;
      while tot < n'
        invariant 0 <= tot <= n' && St() == s && loggedMap == old(loggedMap) && loggedData == old(loggedData)
        invariant dst == Contents(c, s, i)[off..off + tot]
      {
        var m, piece := ReadPiece(i, off + tot, n' - tot);
        ReadMore(c, s, i, off, tot, m, dst, piece);
        dst := dst + piece;
        tot := tot + m;
      }
      r := n';
    }

    /** One turn of readi's loop. */
    method ReadPiece(i: nat, q: nat, left: nat) returns (m: nat, piece: seq<int>)
      requires FilesOk(c, St()) && bpb > 0 && i < |inodes| && 0 < left && q + left <= inodes[i].size
      modifies `used, `blocks, `inodes, `use, `loggedMap, `loggedData
      ensures St() == old(St()) && loggedMap == old(loggedMap) && loggedData == old(loggedData)
      ensures 0 < m <= left && |piece| == m && forall k: nat :: k < m ==> piece[k] == ByteAt(c, St(), i, q + k)
    {
      ghost var s := St();
      SizeInRange(c, s, i, q);
      var b := Bmap(i, Blk(c, q));
      m := Min(left, c.bsize - Ofs(c, q));
      var bytes := blocks[b];
      piece := seq(m, k requires 0 <= k < m && Ofs(c, q) + k < |bytes| => bytes[Ofs(c, q) + k] as int);
      forall k: nat | k < m ensures piece[k] == ByteAt(c, s, i, q + k) {
        InPiece(c, q + k, q, m);
      }
    }

    /** writei: writes src into file i at off, making it the exact splice; refuses to leave a hole or
        to exceed the largest file.  full: the disk has no free block left, where the kernel panics.
        Though the inode goes to disk only when the size grew, the inode on disk is always the
        cached one afterwards. */
    method Writei(i: nat, src: seq<Byte>, off: nat) returns (r: int, full: bool, ghost k: nat, ghost grown: nat)
      requires FilesOk(c, St()) && bpb > 0 && DiskOk() && i < |inodes| && off < U32 && |src| < U32
      modifies this
      ensures full ==> AllUsed(used) && NeedsBlock(c, old(St()), i, off, |src|)
      ensures Refused(c, old(St()), i, off, |src|) ==> r == -1 && !full && St() == old(St()) && iblocks == old(iblocks)
      ensures Refused(c, old(St()), i, off, |src|) ==>
        loggedMap == old(loggedMap) && loggedData == old(loggedData) && loggedInodes == old(loggedInodes)
      ensures !Refused(c, old(St()), i, off, |src|) && !full ==>
        && r == |src| && FilesOk(c, St()) && OthersSame(c, old(St()), St(), i)
        && Contents(c, St(), i) == Splice(Contents(c, old(St()), i), off, src)
      ensures |inodes| == |old(inodes)| && DiskOk() && Disk() == old(Disk())[i := Disk()[i]]
      ensures !full && old(Disk()) == old(inodes) ==> Disk() == inodes
      ensures !Refused(c, old(St()), i, off, |src|) && !full ==>
        && Turns(c, off, |src|, |src|, k) && GrownOk(Addr(c, old(St()), i, Blk(c, off)) != 0, k, grown)
        && |loggedMap| <= |old(loggedMap)| + grown + 1 && |loggedData| <= |old(loggedData)| + k + 1
        && |loggedInodes| <= |old(loggedInodes)| + 1
      ensures forall k :: k in loggedInodes ==> k in old(loggedInodes) || k < |iblocks|
      ensures !full ==> Logs(old(St()), St(), bpb, old(loggedMap), old(loggedData), loggedMap, loggedData)
      ensures !full ==> InodesLogged(old(iblocks), iblocks, loggedInodes)
      ensures !full && off <= old(inodes)[i].size && off + |src| <= MaxBytes(c) < U32 ==> r == |src|
    {
      hide Logs, InodeBlocks, Stored, Core, Turns, AllUsed;
      full, k, grown := false, 0, 0;
      LogsInit(c, St(), bpb, loggedMap, loggedData);
      if off > inodes[i].size || off + |src| >= U32 {
        return -1, full, k, grown;
      }
      if off + |src| > MaxBytes(c) {
        return -1, full, k, grown;
      }
      ghost var s := St();
      full, k, grown := WriteBlocks(i, src, off);
      if full {
        return -1, full, k, grown;
      }
      WriteDone(c, s, St(), i, off, src);
      if |src| > 0 && off + |src| > inodes[i].size {
        ghost var u := St();
        GrowSize(i, off + |src|);
        LogsUse(s, u, St(), bpb, old(loggedMap), old(loggedData), loggedMap, loggedData);
      } else {
        assert SetSize(St(), i, inodes[i].size) == St();
      }
      r := |src|;
    }

    /** writei: the new size goes to the inode block. */
    method GrowSize(i: nat, size: nat)
      requires Inv(c, St()) && DiskOk() && i < |inodes| && size < U32
      modifies `inodes, `iblocks, `loggedInodes
      ensures St() == SetSize(old(St()), i, size) && DiskOk() && Disk() == old(Disk())[i := inodes[i]]
      ensures loggedInodes == old(loggedInodes) + {i / ipb} && InodesLogged(old(iblocks), iblocks, loggedInodes)
      ensures i / ipb < |iblocks| == |old(iblocks)|
    {
      SetSizeKept(c, St(), i, size);
      inodes := inodes[i := inodes[i].(size := size)];
      InodeFits(c, St(), i);
      Iupdate(i);
    }

    /** writei's loop. */
    method WriteBlocks(i: nat, src: seq<Byte>, off: nat) returns (full: bool, ghost k: nat, ghost grown: nat)
      requires FilesOk(c, St()) && bpb > 0 && i < |inodes| && off + |src| <= MaxBytes(c)
      modifies `used, `blocks, `inodes, `use, `loggedMap, `loggedData
      ensures |inodes| == |old(inodes)| && (full ==> AllUsed(used) && NeedsBlock(c, old(St()), i, off, |src|))
      ensures !full ==>
        && Written(c, old(St()), St(), i, off, |src|, src) && Turns(c, off, |src|, |src|, k)
        && GrownOk(Addr(c, old(St()), i, Blk(c, off)) != 0, k, grown)
        && |loggedMap| <= |old(loggedMap)| + grown + 1 && |loggedData| <= |old(loggedData)| + k + 1
      ensures !full ==> Logs(old(St()), St(), bpb, old(loggedMap), old(loggedData), loggedMap, loggedData)
    {
      ghost var s := St();
      ghost var mine: set<nat>, map0, data0 := {}, loggedMap, loggedData;
      hide Turns, IndexSet, NewIndex, LogOk, Addr, Blk, Ofs, MaxBytes, AllUsed, Core, WroteAt, SameAt, Patch, SameButAddrs, Logs;
      full, k, grown := false, 0, 0;
      LogsInit(c, s, bpb, loggedMap, loggedData);
      WriteNone(c, s, i, off, src);
      LogNone(c, loggedMap, loggedData, inodes[i]);
      NoTurns(c, off, |src|);
      var tot := 0;
      while tot < |src|
        invariant 0 <= tot <= |src| && |inodes| == |s.inodes| && Written(c, s, St(), i, off, tot, src)
        invariant Turns(c, off, tot, |src|, k) && GrownOk(Addr(c, s, i, Blk(c, off)) != 0, k, grown)
        invariant k == 0 ==> St() == s
        invariant LogOk(c, map0, data0, loggedMap, loggedData, s.inodes[i], inodes[i], mine, k, grown)
        invariant Logs(s, St(), bpb, map0, data0, loggedMap, loggedData)
      {
        ghost var t, map1, data1 := St(), loggedMap, loggedData;
        TurnsNext(c, off, tot, |src|, k);
        BlkInRange(c, off + tot);
        FirstStays(c, s, t, i, off, tot, src, k);
        ghost var new1: nat := if Addr(c, t, i, Blk(c, off + tot)) != 0 then 0 else 1;
        var b, m := WritePiece(i, off, tot, src, s);
        if b == 0 {
          full := true;
          return;
        }
        LogsThen(s, t, St(), bpb, map0, data0, map1, data1, loggedMap, loggedData);
        LogMore(c, map0, data0, map1, data1, loggedMap, loggedData, s.inodes[i], t.inodes[i], inodes[i], mine, k, grown, b, new1);
        mine, k, grown := mine + {b}, k + 1, grown + new1;
        tot := tot + m;
      }
      Counted(c, map0, data0, loggedMap, loggedData, s.inodes[i], inodes[i], mine, k, grown);
    }

    /** One turn of writei's loop. */
    method WritePiece(i: nat, off: nat, tot: nat, src: seq<Byte>, ghost s: State) returns (b: nat, m: nat)
      requires FilesOk(c, s) && Written(c, s, St(), i, off, tot, src) && bpb > 0 && tot < |src|
      requires i < |inodes| && Sized(c, St()) && Blk(c, off + tot) < MaxFile(c)
      modifies `used, `blocks, `inodes, `use, `loggedMap, `loggedData
      ensures b == 0 ==> AllUsed(used) && NeedsBlock(c, s, i, off, |src|)
      ensures |inodes| == |old(inodes)|
      ensures b != 0 ==> m == Min(|src| - tot, c.bsize - Ofs(c, off + tot)) && Written(c, s, St(), i, off, tot + m, src)
      ensures b != 0 ==> loggedData <= old(loggedData) + {b} + IndexSet(c, inodes[i])
      ensures b != 0 ==> IndexSet(c, old(inodes)[i]) <= IndexSet(c, inodes[i])
      ensures b != 0 ==>
        |loggedMap| <= |old(loggedMap)| + (if Addr(c, old(St()), i, Blk(c, off + tot)) != 0 then 0 else 1) + NewIndex(c, old(inodes)[i], inodes[i])
      ensures b != 0 ==> Logs(old(St()), St(), bpb, old(loggedMap), old(loggedData), loggedMap, loggedData)
    {
      ghost var t := St();
      m := 0;
      b := Bmap(i, Blk(c, off + tot));
      if b == 0 {
        WasMissing(c, s, t, i, off, tot, src, |src|);
      } else {
        ghost var u := St();
        m := Min(|src| - tot, c.bsize - Ofs(c, off + tot));
        IndexStays(c, t, u, i, Blk(c, off + tot));
        assert AddrOk(c, u, i, Blk(c, off + tot));
        WriteStep(c, s, t, u, i, off, tot, m, src);
        blocks := blocks[b := Patch(blocks[b], Ofs(c, off + tot), src[tot..tot + m])];
        ghost var data1 := loggedData;
        loggedData := loggedData + {b};
        LogsStep(u, St(), bpb, loggedMap, data1, loggedMap, loggedData, b);
        LogsThen(t, u, St(), bpb, old(loggedMap), old(loggedData), loggedMap, data1, loggedMap, loggedData);
      }
    }

    /** bfree of block b, whose bit is set. */
    method Bfree(b: nat)
      requires b < |used| == |use| && used[b] && bpb > 0
      modifies `used, `use, `loggedMap
      ensures St() == Drop(old(St()), b) && loggedMap == old(loggedMap) + {b / bpb}
      ensures |blocks| == |used| && DataBlock(old(St()), b) ==>
        Logs(old(St()), St(), bpb, old(loggedMap), loggedData, loggedMap, loggedData)
    {
      used := used[b := false];
      use := use[b := Free];
      loggedMap := loggedMap + {b / bpb};
      if |blocks| == |used| && DataBlock(old(St()), b) {
        LogsStep(old(St()), St(), bpb, old(loggedMap), loggedData, loggedMap, loggedData, b);
      }
    }

    /** itrunc: every block of file i, and its indirect block, is freed once; bfree never finds a
        clear bit.  The file is empty, in memory and on disk, and no other file changes. */
    method Itrunc(i: nat)
      requires FilesOk(c, St()) && bpb > 0 && DiskOk() && i < |inodes|
      modifies this
      ensures Emptied(c, old(St()), St(), i) && FilesOk(c, St()) && Contents(c, St(), i) == []
      ensures forall j: nat :: j < |inodes| && j != i ==> Contents(c, St(), j) == Contents(c, old(St()), j)
      ensures |inodes| == |old(inodes)| && DiskOk() && Disk() == old(Disk())[i := inodes[i]] && blocks == old(blocks)
      ensures Logs(old(St()), St(), bpb, old(loggedMap), old(loggedData), loggedMap, loggedData)
      ensures InodesLogged(old(iblocks), iblocks, loggedInodes)
      ensures loggedData == old(loggedData) && loggedInodes == old(loggedInodes) + {i / ipb} && i / ipb < |iblocks|
    {
      hide Logs, InodeBlocks, Stored, InodesLogged;
      ghost var s := St();
      FreeDirect(i);
      ghost var t := St();
      ghost var map1 := loggedMap;
      if inodes[i].addrs[c.direct] != 0 {
        FreeIndirect(i, s);
        LogsThen(s, t, St(), bpb, old(loggedMap), loggedData, map1, loggedData, loggedMap, loggedData);
      } else {
        TruncDone(c, s, t, i);
        assert inodes[i].addrs[c.direct := 0] == inodes[i].addrs;
      }
      ghost var u := St();
      inodes := inodes[i := inodes[i].(size := 0)];
      LogsUse(s, u, St(), bpb, old(loggedMap), loggedData, loggedMap, loggedData);
      EmptiedFile(c, s, St(), i);
      InodeFits(c, St(), i);
      Iupdate(i);
    }

    /** itrunc's first loop. */
    method FreeDirect(i: nat)
      requires Inv(c, St()) && bpb > 0 && i < |inodes|
      modifies `used, `inodes, `use, `loggedMap
      ensures Truncated(c, old(St()), St(), i, c.direct)
      ensures Logs(old(St()), St(), bpb, old(loggedMap), loggedData, loggedMap, loggedData)
    {
      hide Logs;
      ghost var s := St();
      TruncNone(c, s, i);
      LogsInit(c, s, bpb, loggedMap, loggedData);
      var k := 0;
      while k < c.direct
        invariant 0 <= k <= c.direct && Truncated(c, s, St(), i, k)
        invariant Logs(s, St(), bpb, old(loggedMap), loggedData, loggedMap, loggedData)
      {
        if inodes[i].addrs[k] != 0 {
          ghost var t, map1 := St(), loggedMap;
          TruncStep(c, s, St(), i, k);
          assert AddrOk(c, t, i, k) && DataBlock(t, inodes[i].addrs[k]);
          Bfree(inodes[i].addrs[k]);
          ghost var u := St();
          LogsThen(s, t, u, bpb, old(loggedMap), loggedData, map1, loggedData, loggedMap, loggedData);
          inodes := inodes[i := inodes[i].(addrs := inodes[i].addrs[k := 0])];
          LogsUse(s, u, St(), bpb, old(loggedMap), loggedData, loggedMap, loggedData);
        } else {
          TruncSkip(c, s, St(), i, k);
        }
        k := k + 1;
      }
    }

    /** itrunc: the entries of the indirect block, and then the block. */
    method FreeIndirect(i: nat, ghost s: State)
      requires Inv(c, s) && bpb > 0 && Truncated(c, s, St(), i, c.direct) && inodes[i].addrs[c.direct] != 0
      modifies `used, `inodes, `use, `loggedMap, `busy
      ensures |inodes| == |s.inodes| && Emptied(c, s, SetSize(St(), i, 0), i)
      ensures Logs(old(St()), St(), bpb, old(loggedMap), loggedData, loggedMap, loggedData)
    {
      hide Logs, UseOk, AddrOk, IndexOk, DoomUseAt, EntryDoomed, SameAt, TruncUseAt;
      ghost var t := St();
      var x := inodes[i].addrs[c.direct];
      DetachKept(c, t, i);
      ghost var d := Detach(t, i);
      use, busy := d.use, d.busy;
      LogsNothing(t, St(), bpb, loggedMap, loggedData);
      ghost var u, map1 := St(), loggedMap;
      FreeEntries(i, x, t);
      LogsThen(t, u, St(), bpb, map1, loggedData, map1, loggedData, loggedMap, loggedData);
      DoomDone(c, s, t, St(), i, x);
      ghost var v, map2 := St(), loggedMap;
      Bfree(x);
      ghost var w := St();
      LogsThen(t, v, w, bpb, map1, loggedData, map2, loggedData, loggedMap, loggedData);
      inodes := inodes[i := inodes[i].(addrs := inodes[i].addrs[c.direct := 0])];
      busy := busy - {i};
      assert SetSize(St(), i, 0) == Cleared(c, w, i);
      LogsUse(t, w, St(), bpb, map1, loggedData, loggedMap, loggedData);
    }

    /** itrunc's second loop, over the entries of the indirect block x. */
    method FreeEntries(i: nat, x: nat, ghost t: State)
      requires bpb > 0 && Inv(c, t) && i < |t.inodes| && x == t.inodes[i].addrs[c.direct] && Dooming(c, t, St(), i, x, 0)
      modifies `used, `use, `loggedMap
      ensures Dooming(c, t, St(), i, x, c.indirect)
      ensures Logs(old(St()), St(), bpb, old(loggedMap), loggedData, loggedMap, loggedData)
    {
      hide Logs, LogsAt, UseOk, AddrOk, IndexOk, GetWord, DoomUseAt, SameAt;
      ghost var s := St();
      LogsNothing(s, s, bpb, loggedMap, loggedData);
      var a := blocks[x];
      var j := 0;
      while j < c.indirect
        invariant 0 <= j <= c.indirect && a == blocks[x] && Dooming(c, t, St(), i, x, j)
        invariant Logs(s, St(), bpb, old(loggedMap), loggedData, loggedMap, loggedData)
      {
        ghost var u, map1 := St(), loggedMap;
        if GetWord(a, j) != 0 {
          DoomStep(c, t, u, i, x, j);
          assert EntryDoomed(c, u, i, x, j);
          Bfree(GetWord(a, j));
          LogsThen(s, u, St(), bpb, old(loggedMap), loggedData, map1, loggedData, loggedMap, loggedData);
        } else {
          DoomSkip(c, t, u, i, x, j);
        }
        j := j + 1;
      }
    }

    /** filewrite: writes addr chunk by chunk at offset foff, one transaction a chunk.  done bytes are
        written, all of them unless writei refuses a chunk.  Whatever the number of bitmap blocks, no
        transaction logs more than maxop blocks. */
    method Filewrite(i: nat, addr: seq<Byte>, foff: nat, maxop: nat)
      returns (r: int, off: nat, done: nat, full: bool, ghost most: nat)
      requires FilesOk(c, St()) && bpb > 0 && DiskOk() && i < |inodes| && foff < U32 && |addr| < U32 && maxop >= 6
      modifies this
      ensures full ==> AllUsed(used) && foff + |addr| > old(inodes)[i].size
      ensures !full ==> FilesOk(c, St()) && OthersSame(c, old(St()), St(), i) && done <= |addr| && off == foff + done
      ensures !full && foff <= old(inodes)[i].size ==>
        Contents(c, St(), i) == Splice(Contents(c, old(St()), i), foff, addr[..done])
      ensures !full && foff > old(inodes)[i].size ==> done == 0 && St() == old(St())
      ensures !full ==> r == if done == |addr| then |addr| else -1
      ensures !full && done < |addr| ==>
        Refused(c, St(), i, off, Min(|addr| - done, (maxop - 4) / 2 * c.bsize))
      ensures !full ==> most <= maxop
      ensures !full && foff <= old(inodes)[i].size && foff + |addr| <= MaxBytes(c) < U32 ==> r == |addr|
    {
      hide Core, SameAt, AllUsed, ByteAt, NoHole, Logs, InodeBlocks, InodesLogged, Stored, Splice, MaxBytes;
      var half := (maxop - 1 - 1 - 2) / 2;
      var max := half * c.bsize;
      ghost var s := St();
      off, done, full, most := foff, 0, false, 0;
      FileStart(c, s, i, foff, addr);
      AtLeastOne(half, c.bsize);
      var more := true;
      while done < |addr| && more
        invariant 0 <= done <= |addr| && off == foff + done < U32 && FilesOk(c, St()) && OthersSame(c, s, St(), i)
        invariant DiskOk() && most <= maxop
        invariant foff <= s.inodes[i].size ==> Contents(c, St(), i) == Splice(Contents(c, s, i), foff, addr[..done])
        invariant foff > s.inodes[i].size ==> done == 0 && St() == s
        invariant !more ==> done < |addr| && Refused(c, St(), i, off, Min(|addr| - done, max))
        decreases |addr| - done, more
      {
        var n1 := if |addr| - done > max then max else |addr| - done;
        ghost var t := St();
        var r1, full1, logged := WriteChunk(i, addr[done..done + n1], off, half);
        if full1 {
          BeyondEnd(c, t, i, off, n1);
          return -1, off, done, true, most;
        }
        most := if logged > most then logged else most;
        if r1 < 0 {
          more := false;
        } else {
          OthersTrans(c, s, t, St(), i);
          NextChunk(c, s, i, foff, addr, done, n1, Contents(c, St(), i));
          off, done := off + r1, done + r1;
        }
      }
      r := if done == |addr| then |addr| else -1;
    }

    /** One transaction of filewrite: begin_op, writei, end_op. */
    method WriteChunk(i: nat, src: seq<Byte>, off: nat, ghost half: nat) returns (r: int, full: bool, ghost logged: nat)
      requires FilesOk(c, St()) && bpb > 0 && DiskOk() && i < |inodes| && off < U32 && |src| < U32
      requires |src| <= half * c.bsize
      modifies this
      ensures full ==> AllUsed(used) && NeedsBlock(c, old(St()), i, off, |src|)
      ensures |inodes| == |old(inodes)| && DiskOk()
      ensures Refused(c, old(St()), i, off, |src|) ==> r == -1 && !full && St() == old(St())
      ensures !Refused(c, old(St()), i, off, |src|) && !full ==>
        && r == |src| && FilesOk(c, St()) && OthersSame(c, old(St()), St(), i)
        && Contents(c, St(), i) == Splice(Contents(c, old(St()), i), off, src)
      ensures !full ==> logged == |loggedMap| + |loggedData| + |loggedInodes| <= 2 * half + 4
      ensures !full ==> Logs(old(St()), St(), bpb, {}, {}, loggedMap, loggedData)
      ensures !full ==> InodesLogged(old(iblocks), iblocks, loggedInodes) && forall k :: k in loggedInodes ==> k < |iblocks|
      ensures !full && old(Disk()) == old(inodes) ==> Disk() == inodes
    {
      hide Logs, InodeBlocks, Stored, Inv, AllUsed, InodesLogged, Turns, NoHole, SameAt, ByteAt, Addr;
      ghost var s := St();
      loggedMap, loggedData, loggedInodes := {}, {}, {};
      ghost var k, grown;
      r, full, k, grown := Writei(i, src, off);
      logged := |loggedMap| + |loggedData| + |loggedInodes|;
      if !full && !Refused(c, s, i, off, |src|) {
        ChunkCount(c, s, i, off, |src|, k, grown, half);
      }
    }

    /** bmap: direct block n. */
    method DirectBlock(i: nat, n: nat) returns (b: nat)
      requires Inv(c, St()) && bpb > 0 && i < |inodes| && n < c.direct
      modifies `used, `blocks, `inodes, `use, `loggedMap, `loggedData
      ensures Inv(c, St()) && Extended(c, old(St()), St(), i, n)
      ensures b == 0 ==> AllUsed(used)
      ensures b != 0 ==> b < c.size && Addr(c, St(), i, n) == b
      ensures Addr(c, old(St()), i, n) != 0 ==> b != 0 && St() == old(St())
      ensures Addr(c, old(St()), i, n) == 0 && b != 0 ==> blocks[b] == ZeroBlock(c)
      ensures Addr(c, old(St()), i, n) != 0 ==> loggedMap == old(loggedMap) && loggedData == old(loggedData)
      ensures loggedData <= old(loggedData) + {b} && |loggedMap| <= |old(loggedMap)| + 1
      ensures inodes[i].addrs[c.direct] == old(inodes)[i].addrs[c.direct]
      ensures Logs(old(St()), St(), bpb, old(loggedMap), old(loggedData), loggedMap, loggedData)
    {
      hide Logs;
      ghost var s := St();
      LogsInit(c, s, bpb, loggedMap, loggedData);
      assert AddrOk(c, s, i, n);
      b := inodes[i].addrs[n];
      if b == 0 {
        b := Balloc();
        if b != 0 {
          TakeDirect(c, s, i, n, b);
          ghost var u := St();
          inodes := inodes[i := inodes[i].(addrs := inodes[i].addrs[n := b])];
          use := use[b := Data(i, n)];
          LogsUse(s, u, St(), bpb, old(loggedMap), old(loggedData), loggedMap, loggedData);
        }
      }
    }

    /** bmap: the indirect block, allocated when there is none. */
    method IndexBlock(i: nat, ghost n: nat) returns (x: nat)
      requires Inv(c, St()) && bpb > 0 && i < |inodes| && c.direct <= n < MaxFile(c)
      modifies `used, `blocks, `inodes, `use, `loggedMap, `loggedData
      ensures Inv(c, St()) && Extended(c, old(St()), St(), i, n) && x == inodes[i].addrs[c.direct]
      ensures forall m: nat :: SameAt(c, old(St()), St(), i, m)
      ensures x == 0 ==> AllUsed(used)
      ensures old(inodes)[i].addrs[c.direct] != 0 ==> St() == old(St()) && loggedMap == old(loggedMap) && loggedData == old(loggedData)
      ensures loggedData <= old(loggedData) + IndexSet(c, inodes[i])
      ensures |loggedMap| <= |old(loggedMap)| + NewIndex(c, old(inodes)[i], inodes[i])
      ensures Logs(old(St()), St(), bpb, old(loggedMap), old(loggedData), loggedMap, loggedData)
    {
      hide Logs;
      ghost var s := St();
      LogsInit(c, s, bpb, loggedMap, loggedData);
      assert IndexOk(c, s, i);
      x := inodes[i].addrs[c.direct];
      if x == 0 {
        x := Balloc();
        if x != 0 {
          TakeIndex(c, s, i, n, x);
          ghost var u := St();
          inodes := inodes[i := inodes[i].(addrs := inodes[i].addrs[c.direct := x])];
          use := use[x := Index(i)];
          LogsUse(s, u, St(), bpb, old(loggedMap), old(loggedData), loggedMap, loggedData);
        }
      }
    }

    /** bmap: entry k of the indirect block. */
    method EntryBlock(i: nat, k: nat, ghost s: State) returns (b: nat)
      requires Inv(c, s) && Inv(c, St()) && bpb > 0 && i < |inodes| && k < c.indirect && inodes[i].addrs[c.direct] != 0
      requires Extended(c, s, St(), i, c.direct + k) && SameAt(c, s, St(), i, c.direct + k)
      requires Addr(c, s, i, c.direct + k) != 0 ==> St() == s
      modifies `used, `blocks, `inodes, `use, `loggedMap, `loggedData
      ensures Inv(c, St()) && Extended(c, s, St(), i, c.direct + k)
      ensures b == 0 ==> AllUsed(used)
      ensures b != 0 ==> b < c.size && Addr(c, St(), i, c.direct + k) == b
      ensures Addr(c, s, i, c.direct + k) != 0 ==> b != 0 && St() == s && loggedMap == old(loggedMap) && loggedData == old(loggedData)
      ensures Addr(c, s, i, c.direct + k) == 0 && b != 0 ==> blocks[b] == ZeroBlock(c)
      ensures inodes == old(inodes) && loggedData <= old(loggedData) + {b} + IndexSet(c, inodes[i])
      ensures |loggedMap| <= |old(loggedMap)| + 1
      ensures Logs(old(St()), St(), bpb, old(loggedMap), old(loggedData), loggedMap, loggedData)
    {
      hide Logs;
      ghost var t := St();
      LogsInit(c, t, bpb, loggedMap, loggedData);
      assert IndexOk(c, t, i) && AddrOk(c, t, i, c.direct + k);
      var x := inodes[i].addrs[c.direct];
      b := GetWord(blocks[x], k);
      if b == 0 {
        b := Balloc();
        if b != 0 {
          TakeEntry(c, t, i, k, b);
          ExtendTrans(c, s, t, LinkEntry(c, Take(c, t, b), i, k, b), i, c.direct + k);
          ghost var u, data1 := St(), loggedData;
          blocks := blocks[x := PutWord(blocks[x], k, b)];
          loggedData := loggedData + {x};
          use := use[b := Data(i, c.direct + k)];
          LogsStep(u, St(), bpb, loggedMap, data1, loggedMap, loggedData, x);
          LogsThen(t, u, St(), bpb, old(loggedMap), old(loggedData), loggedMap, data1, loggedMap, loggedData);
        }
      }
    }
  }
}
