/** What block allocation, writing and truncating do to files seen as byte arrays (fs.c): relations
    between a state and a later one, and the lemmas that take each operation one step further. */
module FsFiles {
  import opened Arith
  import Counting
  import opened Dinodes
  import opened FsBlocks

  // ----- allocating blocks for a file

  /** Block b is used as before, or was free and now holds block n of file i or its indirect block. */
  predicate GrewAt(s: State, t: State, i: nat, n: nat, b: nat)
    requires b < |s.use| && b < |t.use|
  {
    t.use[b] == s.use[b] || (s.use[b].Free? && (t.use[b] == Data(i, n) || t.use[b] == Index(i)))
  }

  predicate SameButAddrs(x: Inode, y: Inode) {
    x.kind == y.kind && x.major == y.major && x.minor == y.minor && x.nlink == y.nlink && x.size == y.size
  }

  /** From s to t, blocks were at most allocated for block n of file i; every other block of every
      file is where it was, with the same contents. */
  ghost predicate Extended(c: Params, s: State, t: State, i: nat, n: nat) {
    && Sized(c, s) && Sized(c, t) && |t.inodes| == |s.inodes| && t.busy == s.busy
    && i < |s.inodes| && t.inodes == s.inodes[i := t.inodes[i]] && SameButAddrs(s.inodes[i], t.inodes[i])
    && (forall j: nat, m: nat :: j != i || m != n ==> SameAt(c, s, t, j, m))
    && (forall b: nat :: b < c.size ==> GrewAt(s, t, i, n, b))
  }

  predicate AllUsed(used: seq<bool>) {
    forall x :: 0 <= x < |used| ==> used[x]
  }

  /** The indirect block of an inode, if it has one. */
  function IndexSet(c: Params, x: Inode): set<nat> {
    if c.direct < |x.addrs| && x.addrs[c.direct] != 0 then {x.addrs[c.direct]} else {}
  }

  /** 1 when the indirect block was allocated between x and y. */
  function NewIndex(c: Params, x: Inode, y: Inode): nat {
    if IndexSet(c, x) == {} && IndexSet(c, y) != {} then 1 else 0
  }

  lemma SameTrans(c: Params, s: State, t: State, r: State, i: nat, n: nat)
    requires Core(c, s) && Sized(c, t) && Sized(c, r) && SameAt(c, s, t, i, n) && SameAt(c, t, r, i, n)
    ensures SameAt(c, s, r, i, n)
  {
    assert AddrOk(c, s, i, n);
  }

  lemma ExtendTrans(c: Params, s: State, t: State, r: State, i: nat, n: nat)
    requires Core(c, s) && Extended(c, s, t, i, n) && Extended(c, t, r, i, n)
    ensures Extended(c, s, r, i, n)
  {
    forall j: nat, m: nat | j != i || m != n ensures SameAt(c, s, r, j, m) {
      SameTrans(c, s, t, r, j, m);
    }
    forall b: nat | b < c.size ensures GrewAt(s, r, i, n, b) {
      assert GrewAt(s, t, i, n, b) && GrewAt(t, r, i, n, b);
    }
  }

  /** A block taken from the bitmap and linked at once. */
  lemma TakeDirect(c: Params, s: State, i: nat, k: nat, b: nat)
    requires Inv(c, s) && Live(s, i) && k < c.direct && 0 < b < c.size && s.use[b].Free? && Addr(c, s, i, k) == 0
    ensures var t := LinkDirect(c, Take(c, s, b), i, k, b);
      Inv(c, t) && Extended(c, s, t, i, k) && Addr(c, t, i, k) == b && t.blocks[b] == ZeroBlock(c)
  {
    TakeKept(c, s, b);
    var u := Take(c, s, b);
    LinkDirectKept(c, u, i, k, b);
    var t := LinkDirect(c, u, i, k, b);
    forall j: nat, m: nat | j != i || m != k ensures SameAt(c, s, t, j, m) {
      SameTrans(c, s, u, t, j, m);
    }
    forall x: nat | x < c.size ensures GrewAt(s, t, i, k, x) {
    }
  }

  lemma TakeIndex(c: Params, s: State, i: nat, n: nat, b: nat)
    requires Inv(c, s) && Live(s, i) && 0 < b < c.size && s.use[b].Free? && s.inodes[i].addrs[c.direct] == 0
    ensures var t := LinkIndex(c, Take(c, s, b), i, b);
      Inv(c, t) && Extended(c, s, t, i, n) && t.inodes[i].addrs[c.direct] == b && forall m: nat :: SameAt(c, s, t, i, m)
  {
    TakeKept(c, s, b);
    var u := Take(c, s, b);
    LinkIndexKept(c, u, i, b);
    var t := LinkIndex(c, u, i, b);
    forall j: nat, m: nat ensures SameAt(c, s, t, j, m) {
      SameTrans(c, s, u, t, j, m);
    }
    forall x: nat | x < c.size ensures GrewAt(s, t, i, n, x) {
    }
  }

  lemma TakeEntry(c: Params, s: State, i: nat, k: nat, b: nat)
    requires Inv(c, s) && Live(s, i) && k < c.indirect && 0 < b < c.size && s.use[b].Free?
    requires 0 < s.inodes[i].addrs[c.direct] < c.size && Addr(c, s, i, c.direct + k) == 0
    ensures var t := LinkEntry(c, Take(c, s, b), i, k, b); var n := c.direct + k;
      && Inv(c, t) && Extended(c, s, t, i, n) && Addr(c, t, i, n) == b && t.blocks[b] == ZeroBlock(c)
      && s.inodes[i].addrs[c.direct] != b
  {
    var n := c.direct + k;
    TakeKept(c, s, b);
    var u := Take(c, s, b);
    assert SameAt(c, s, u, i, n);
    LinkEntryKept(c, u, i, k, b);
    var t := LinkEntry(c, u, i, k, b);
    assert IndexOk(c, s, i);
    forall j: nat, m: nat | j != i || m != n ensures SameAt(c, s, t, j, m) {
      SameTrans(c, s, u, t, j, m);
    }
    forall x: nat | x < c.size ensures GrewAt(s, t, i, n, x) {
    }
  }

  // ----- what the invariant means for the bitmap

  /** An inode slot, an indirect pointer or an indirect entry refers to block b. */
  ghost predicate Referred(c: Params, s: State, b: nat)
    requires Sized(c, s)
  {
    || (exists i: nat, n: nat :: i < |s.inodes| && n < MaxFile(c) && Addr(c, s, i, n) == b)
    || (exists i: nat :: i < |s.inodes| && s.inodes[i].addrs[c.direct] == b)
  }

  /** A bit is set exactly for metadata and for blocks something refers to. */
  lemma BitmapExact(c: Params, s: State, b: nat)
    requires Inv(c, s) && 0 < b < c.size
    ensures s.used[b] <==> s.use[b] == Meta || Referred(c, s, b)
  {
    assert UseOk(c, s, b);
    if Referred(c, s, b) {
      if i: nat, n: nat :| i < |s.inodes| && n < MaxFile(c) && Addr(c, s, i, n) == b {
        assert AddrOk(c, s, i, n);
      } else {
        var i: nat :| i < |s.inodes| && s.inodes[i].addrs[c.direct] == b;
        assert IndexOk(c, s, i);
      }
    }
  }

  /** No block is referred to twice. */
  lemma ReferredOnce(c: Params, s: State, i: nat, n: nat, j: nat, m: nat)
    requires Inv(c, s) && i < |s.inodes| && j < |s.inodes| && n < MaxFile(c) && m < MaxFile(c)
    ensures Addr(c, s, i, n) == Addr(c, s, j, m) != 0 ==> i == j && n == m
    ensures s.inodes[i].addrs[c.direct] == s.inodes[j].addrs[c.direct] != 0 ==> i == j
    ensures Addr(c, s, i, n) != 0 ==> Addr(c, s, i, n) != s.inodes[j].addrs[c.direct]
  {
    assert AddrOk(c, s, i, n) && AddrOk(c, s, j, m) && IndexOk(c, s, i) && IndexOk(c, s, j);
  }

  /** An inode whose size is a 32-bit number fits in its struct dinode. */
  lemma InodeFits(c: Params, s: State, i: nat)
    requires Inv(c, s) && i < |s.inodes| && s.inodes[i].size < U32
    ensures Fits(c, s.inodes[i])
  {
    assert IndexOk(c, s, i);
    forall k | 0 <= k < c.direct + 1 ensures s.inodes[i].addrs[k] < U32 {
      assert AddrOk(c, s, i, k);
    }
  }

  // ----- files as byte arrays

  /** The block of a file that byte p is in, and its place there. */
  function Blk(c: Params, p: nat): nat
    requires c.bsize > 0
  {
    p / c.bsize
  }

  function Ofs(c: Params, p: nat): (r: nat)
    requires c.bsize > 0
    ensures r < c.bsize
  {
    p % c.bsize
  }

  /** Byte p of file i, or -1 where the file has no block. */
  function ByteAt(c: Params, s: State, i: nat, p: nat): int
    requires Sized(c, s) && i < |s.inodes|
  {
    var b := Addr(c, s, i, Blk(c, p));
    if 0 < b < c.size then s.blocks[b][Ofs(c, p)] as int else -1
  }

  lemma ByteHasBlock(c: Params, s: State, i: nat, p: nat)
    requires Sized(c, s) && i < |s.inodes|
    ensures ByteAt(c, s, i, p) >= 0 ==> Addr(c, s, i, Blk(c, p)) != 0
  {
  }

  function MaxBytes(c: Params): nat {
    MaxFile(c) * c.bsize
  }

  /** Every byte below the size of file i is in a block. */
  ghost predicate NoHole(c: Params, s: State, i: nat)
    requires Sized(c, s) && i < |s.inodes|
  {
    s.inodes[i].size <= MaxBytes(c) && forall p: nat :: p < s.inodes[i].size ==> ByteAt(c, s, i, p) >= 0
  }

  /** The invariant of the file system between operations. */
  ghost predicate FilesOk(c: Params, s: State) {
    Inv(c, s) && forall i: nat :: i < |s.inodes| ==> NoHole(c, s, i)
  }

  ghost function Contents(c: Params, s: State, i: nat): (r: seq<int>)
    requires Sized(c, s) && i < |s.inodes|
    ensures |r| == s.inodes[i].size
    ensures forall p {:trigger r[p]} :: 0 <= p < |r| ==> r[p] == ByteAt(c, s, i, p)
  {
    seq(s.inodes[i].size, p requires 0 <= p => ByteAt(c, s, i, p))
  }

  lemma ByteSame(c: Params, s: State, t: State, i: nat, p: nat)
    requires Inv(c, s) && Sized(c, t) && i < |s.inodes| == |t.inodes| && SameAt(c, s, t, i, Blk(c, p))
    ensures ByteAt(c, t, i, p) == ByteAt(c, s, i, p)
  {
  }

  /** Files other than i are as they were. */
  ghost predicate OthersSame(c: Params, s: State, t: State, i: nat) {
    && Sized(c, s) && Sized(c, t) && i < |s.inodes| == |t.inodes| && t.inodes == s.inodes[i := t.inodes[i]]
    && forall j: nat, m: nat :: j != i ==> SameAt(c, s, t, j, m)
  }

  lemma OthersTrans(c: Params, s: State, t: State, r: State, i: nat)
    requires Inv(c, s) && OthersSame(c, s, t, i) && OthersSame(c, t, r, i)
    ensures OthersSame(c, s, r, i)
  {
    forall j: nat, m: nat | j != i ensures SameAt(c, s, r, j, m) {
      SameTrans(c, s, t, r, j, m);
    }
  }

  lemma OtherFileSame(c: Params, s: State, t: State, i: nat, j: nat)
    requires Inv(c, s) && OthersSame(c, s, t, i) && j < |s.inodes| && j != i
    ensures Contents(c, t, j) == Contents(c, s, j) && (NoHole(c, s, j) ==> NoHole(c, t, j))
  {
    forall p: nat ensures ByteAt(c, t, j, p) == ByteAt(c, s, j, p) {
      assert SameAt(c, s, t, j, Blk(c, p));
      ByteSame(c, s, t, j, p);
    }
  }

  function Min(a: nat, b: nat): nat {
    if a < b then a else b
  }

  /** A byte below the size is in a block that bmap will not have to allocate. */
  lemma SizeInRange(c: Params, s: State, i: nat, q: nat)
    requires FilesOk(c, s) && i < |s.inodes| && q < s.inodes[i].size
    ensures Blk(c, q) < MaxFile(c) && Addr(c, s, i, Blk(c, q)) != 0
  {
    assert NoHole(c, s, i);
    assert ByteAt(c, s, i, q) >= 0;
  }

  lemma ReadMore(c: Params, s: State, i: nat, off: nat, tot: nat, m: nat, dst: seq<int>, piece: seq<int>)
    requires Sized(c, s) && i < |s.inodes| && off + tot + m <= s.inodes[i].size && dst == Contents(c, s, i)[off..off + tot]
    requires |piece| == m && forall k: nat :: k < m ==> piece[k] == ByteAt(c, s, i, off + tot + k)
    ensures dst + piece == Contents(c, s, i)[off..off + tot + m]
  {
  }

  // ----- writing

  predicate WroteAt(c: Params, s: State, t: State, i: nat, off: nat, tot: nat, src: seq<Byte>, p: nat)
    requires Sized(c, s) && Sized(c, t) && i < |s.inodes| == |t.inodes| && tot <= |src|
  {
    if off <= p < off + tot then ByteAt(c, t, i, p) == src[p - off] as int
    else ByteAt(c, s, i, p) >= 0 ==> ByteAt(c, t, i, p) == ByteAt(c, s, i, p)
  }

  /** The first tot bytes of src have been written to file i at off, whose size field is unchanged. */
  ghost predicate Written(c: Params, s: State, t: State, i: nat, off: nat, tot: nat, src: seq<Byte>) {
    && OthersSame(c, s, t, i) && tot <= |src| && Inv(c, t) && SameButAddrs(s.inodes[i], t.inodes[i])
    && (forall p: nat :: WroteAt(c, s, t, i, off, tot, src, p))
    && (off + tot <= s.inodes[i].size ==> t.inodes == s.inodes && t.use == s.use)
  }

  function Patch(block: Block, o: nat, piece: seq<Byte>): (r: Block)
    requires o + |piece| <= |block|
    ensures |r| == |block|
  {
    block[..o] + piece + block[o + |piece|..]
  }

  lemma PatchAt(block: Block, o: nat, piece: seq<Byte>, k: nat)
    requires o + |piece| <= |block| && k < |block|
    ensures Patch(block, o, piece)[k] == if o <= k < o + |piece| then piece[k - o] else block[k]
  {
  }

  lemma WriteNone(c: Params, s: State, i: nat, off: nat, src: seq<Byte>)
    requires FilesOk(c, s) && i < |s.inodes|
    ensures Written(c, s, s, i, off, 0, src)
  {
    forall p: nat ensures WroteAt(c, s, s, i, off, 0, src, p) {
    }
  }

  /** What r holds at byte p after storing a patched block n in file i. */
  lemma StoreByte(c: Params, u: State, i: nat, n: nat, o: nat, piece: seq<Byte>, p: nat)
    requires Inv(c, u) && Live(u, i) && n < MaxFile(c) && Addr(c, u, i, n) != 0 && o + |piece| <= c.bsize
    ensures Addr(c, u, i, n) < c.size
    ensures var r := Store(c, u, Addr(c, u, i, n), Patch(u.blocks[Addr(c, u, i, n)], o, piece));
      Sized(c, r) && ByteAt(c, r, i, p) ==
        if Blk(c, p) == n && o <= Ofs(c, p) < o + |piece| then piece[Ofs(c, p) - o] as int else ByteAt(c, u, i, p)
  {
    assert AddrOk(c, u, i, n);
    var b := Addr(c, u, i, n);
    var block := Patch(u.blocks[b], o, piece);
    StoreKept(c, u, i, n, block);
    var r := Store(c, u, b, block);
    hide Core, Patch, Blk, Ofs;
    if Blk(c, p) == n {
      PatchAt(u.blocks[b], o, piece, Ofs(c, p));
    } else {
      assert SameAt(c, u, r, i, Blk(c, p));
      ByteSame(c, u, r, i, p);
    }
  }

  /** Extending file i by block n changes no byte that was in a block. */
  lemma ExtendByte(c: Params, t: State, u: State, i: nat, n: nat, p: nat)
    requires Inv(c, t) && Extended(c, t, u, i, n) && (Addr(c, t, i, n) != 0 ==> u == t)
    ensures ByteAt(c, t, i, p) >= 0 ==> ByteAt(c, u, i, p) == ByteAt(c, t, i, p)
  {
    if Blk(c, p) != n {
      assert SameAt(c, t, u, i, Blk(c, p));
      ByteSame(c, t, u, i, p);
    }
  }

  lemma InPiece(c: Params, p: nat, q: nat, m: nat)
    requires c.bsize > 0 && Ofs(c, q) + m <= c.bsize
    ensures q <= p < q + m <==> Blk(c, p) == Blk(c, q) && Ofs(c, q) <= Ofs(c, p) < Ofs(c, q) + m
    ensures q <= p < q + m ==> Ofs(c, p) - Ofs(c, q) == p - q
  {
    DivMod(p, c.bsize);
    DivMod(q, c.bsize);
    if q <= p < q + m {
      Quotient(p, q / c.bsize, q % c.bsize + (p - q), c.bsize);
    }
  }

  /** Bytes of the block being written. */
  lemma WriteByte(c: Params, s: State, t: State, u: State, i: nat, off: nat, tot: nat, m: nat, src: seq<Byte>, p: nat)
    requires Inv(c, s) && Inv(c, t) && Inv(c, u) && OthersSame(c, s, t, i) && tot + m <= |src|
    requires WroteAt(c, s, t, i, off, tot, src, p)
    requires Ofs(c, off + tot) + m <= c.bsize && Blk(c, off + tot) < MaxFile(c)
    requires Extended(c, t, u, i, Blk(c, off + tot)) && Addr(c, u, i, Blk(c, off + tot)) != 0
    requires Addr(c, t, i, Blk(c, off + tot)) != 0 ==> u == t
    requires Addr(c, u, i, Blk(c, off + tot)) < c.size
    ensures var b := Addr(c, u, i, Blk(c, off + tot));
      var r := Store(c, u, b, Patch(u.blocks[b], Ofs(c, off + tot), src[tot..tot + m]));
      Sized(c, r) && WroteAt(c, s, r, i, off, tot + m, src, p)
  {
    hide Core, Patch, ByteAt, Blk, Ofs;
    var q := off + tot;
    ExtendByte(c, t, u, i, Blk(c, q), p);
    StoreByte(c, u, i, Blk(c, q), Ofs(c, q), src[tot..tot + m], p);
    InPiece(c, p, q, m);
  }

  lemma WriteStep(c: Params, s: State, t: State, u: State, i: nat, off: nat, tot: nat, m: nat, src: seq<Byte>)
    requires FilesOk(c, s) && Inv(c, u) && Written(c, s, t, i, off, tot, src) && tot + m <= |src| && m > 0
    requires Ofs(c, off + tot) + m <= c.bsize && Blk(c, off + tot) < MaxFile(c)
    requires Extended(c, t, u, i, Blk(c, off + tot)) && Addr(c, u, i, Blk(c, off + tot)) != 0
    requires Addr(c, t, i, Blk(c, off + tot)) != 0 ==> u == t
    ensures Addr(c, u, i, Blk(c, off + tot)) < c.size
    ensures var b := Addr(c, u, i, Blk(c, off + tot));
      Written(c, s, Store(c, u, b, Patch(u.blocks[b], Ofs(c, off + tot), src[tot..tot + m])), i, off, tot + m, src)
  {
    hide Blk, Ofs, Patch, ByteAt;
    var q := off + tot;
    var n := Blk(c, q);
    assert AddrOk(c, u, i, n);
    var b := Addr(c, u, i, n);
    var block := Patch(u.blocks[b], Ofs(c, q), src[tot..tot + m]);
    StoreKept(c, u, i, n, block);
    var r := Store(c, u, b, block);
    assert OthersSame(c, t, u, i) && OthersSame(c, u, r, i);
    OthersTrans(c, s, t, u, i);
    OthersTrans(c, s, u, r, i);
    var tot1 := tot + m;
    forall p: nat ensures WroteAt(c, s, r, i, off, tot1, src, p) {
      WriteByte(c, s, t, u, i, off, tot, m, src, p);
    }
    if off + tot1 <= s.inodes[i].size {
      assert NoHole(c, s, i);
      assert ByteAt(c, s, i, q) >= 0;
      assert WroteAt(c, s, t, i, off, tot, src, q);
      ByteHasBlock(c, t, i, q);
    }
  }

  lemma NoIndexNoEntry(c: Params, s: State, i: nat, n: nat)
    requires Inv(c, s) && i < |s.inodes| && c.direct <= n < MaxFile(c)
    ensures s.inodes[i].addrs[c.direct] == 0 ==> Addr(c, s, i, n) == 0
  {
  }

  lemma BlkInRange(c: Params, q: nat)
    requires c.bsize > 0 && q < MaxBytes(c)
    ensures Blk(c, q) < MaxFile(c)
  {
    DivMod(q, c.bsize);
    Cancel(q / c.bsize, MaxFile(c), c.bsize);
  }

  function Splice(was: seq<int>, off: nat, src: seq<Byte>): (r: seq<int>)
    requires off <= |was|
    ensures |r| == if off + |src| > |was| then off + |src| else |was|
    ensures forall p :: 0 <= p < |r| ==>
      r[p] == if off <= p < off + |src| then src[p - off] as int else was[p]
  {
    var mid := seq(|src|, k requires 0 <= k < |src| => src[k] as int);
    was[..off] + mid + (if off + |src| < |was| then was[off + |src|..] else [])
  }

  function SetSize(s: State, i: nat, size: nat): State
    requires i < |s.inodes|
  {
    s.(inodes := s.inodes[i := s.inodes[i].(size := size)])
  }

  lemma SetSizeSame(c: Params, t: State, i: nat, size: nat, j: nat, m: nat)
    requires Core(c, t) && i < |t.inodes|
    ensures Sized(c, SetSize(t, i, size)) && SameAt(c, t, SetSize(t, i, size), j, m) && AddrOk(c, SetSize(t, i, size), j, m)
  {
    assert AddrOk(c, t, j, m);
  }

  lemma SetSizeKept(c: Params, t: State, i: nat, size: nat)
    requires Inv(c, t) && i < |t.inodes|
    ensures Inv(c, SetSize(t, i, size)) && OthersSame(c, t, SetSize(t, i, size), i)
    ensures forall p: nat :: ByteAt(c, SetSize(t, i, size), i, p) == ByteAt(c, t, i, p)
  {
    var r := SetSize(t, i, size);
    forall j: nat, m: nat ensures SameAt(c, t, r, j, m) && AddrOk(c, r, j, m) {
      SetSizeSame(c, t, i, size, j, m);
    }
    forall b: nat | b < c.size ensures UseOk(c, r, b) {
      assert UseOk(c, t, b);
      if t.use[b].Data? {
        assert SameAt(c, t, r, t.use[b].i, t.use[b].n);
      }
    }
    forall j: nat ensures IndexOk(c, r, j) {
      assert IndexOk(c, t, j);
    }
    forall p: nat ensures ByteAt(c, r, i, p) == ByteAt(c, t, i, p) {
      assert SameAt(c, t, r, i, Blk(c, p));
    }
  }

  /** The size that writei leaves. */
  function NewSize(s: State, i: nat, off: nat, n: nat): nat
    requires i < |s.inodes|
  {
    if n > 0 && off + n > s.inodes[i].size then off + n else s.inodes[i].size
  }

  /** A finished write: file i is the exact splice, and the others are what they were. */
  lemma WriteDone(c: Params, s: State, t: State, i: nat, off: nat, src: seq<Byte>)
    requires FilesOk(c, s) && i < |s.inodes| && off <= s.inodes[i].size && off + |src| <= MaxBytes(c)
    requires Written(c, s, t, i, off, |src|, src)
    ensures var r := SetSize(t, i, NewSize(s, i, off, |src|));
      FilesOk(c, r) && OthersSame(c, s, r, i) && Contents(c, r, i) == Splice(Contents(c, s, i), off, src)
  {
    var size := NewSize(s, i, off, |src|);
    var r := SetSize(t, i, size);
    SetSizeKept(c, t, i, size);
    OthersTrans(c, s, t, r, i);
    assert NoHole(c, s, i);
    hide Core, ByteAt, SameAt;
    forall p: nat | p < size ensures ByteAt(c, r, i, p) >= 0 && ByteAt(c, r, i, p) == Splice(Contents(c, s, i), off, src)[p] {
      assert WroteAt(c, s, t, i, off, |src|, src, p);
      if p < s.inodes[i].size {
        assert ByteAt(c, s, i, p) >= 0 && Contents(c, s, i)[p] == ByteAt(c, s, i, p);
      }
    }
    forall j: nat | j < |r.inodes| ensures NoHole(c, r, j) {
      if j != i {
        assert NoHole(c, s, j);
        OtherFileSame(c, s, r, i, j);
      }
    }
  }

  // ----- how much one write logs

  /** k turns of writei's loop have written tot bytes at off; when more is to come the last one ended
      at the end of a block. */
  predicate Turns(c: Params, off: nat, tot: nat, n: nat, k: nat) {
    && c.bsize > 0 && tot <= n
    && (k == 0 ==> tot == 0)
    && (k > 0 ==> (k - 1) * c.bsize < Ofs(c, off) + tot)
    && (k > 0 && tot < n ==> k * c.bsize == Ofs(c, off) + tot)
  }

  lemma TurnsNext(c: Params, off: nat, tot: nat, n: nat, k: nat)
    requires Turns(c, off, tot, n, k) && tot < n
    ensures var m := Min(n - tot, c.bsize - Ofs(c, off + tot)); m > 0 && Turns(c, off, tot + m, n, k + 1)
  {
    DivMod(off, c.bsize);
    if k > 0 {
      Distribute(off / c.bsize, k, c.bsize);
      Quotient(off + tot, off / c.bsize + k, 0, c.bsize);
    }
    OneMore(k, c.bsize);
  }

  /** Blocks allocated for file data while k blocks were written: not the first one when it was there. */
  predicate GrownOk(existed: bool, k: nat, grown: nat) {
    grown <= k && (existed && k > 0 ==> grown < k)
  }

  /** One chunk of filewrite, of at most half blocks, logs at most 2 * half + 4 blocks: the blocks
      written, one bitmap block for each block allocated, the indirect block with its bitmap block,
      and the inode. */
  lemma ChunkBound(c: Params, off: nat, n: nat, k: nat, grown: nat, existed: bool, half: nat)
    requires Turns(c, off, n, n, k) && n <= half * c.bsize && GrownOk(existed, k, grown) && (Ofs(c, off) != 0 ==> existed)
    ensures (k + 1) + (grown + 1) + 1 <= 2 * half + 4
  {
    if k > 0 {
      OneMore(half, c.bsize);
      Cancel(k - 1, half + 1, c.bsize);
      if Ofs(c, off) == 0 {
        Cancel(k - 1, half, c.bsize);
      }
    }
  }

  /** A block that begins before the end of the file is there. */
  lemma FirstExists(c: Params, s: State, i: nat, off: nat)
    requires FilesOk(c, s) && i < |s.inodes| && off <= s.inodes[i].size && Ofs(c, off) != 0
    ensures Addr(c, s, i, Blk(c, off)) != 0
  {
    SameBlockBefore(c, off);
    hide Blk, Ofs, ByteAt, Core;
    assert NoHole(c, s, i);
    ByteHasBlock(c, s, i, off - 1);
  }

  /** The bound of a chunk that writei accepted. */
  lemma ChunkCount(c: Params, s: State, i: nat, off: nat, n: nat, k: nat, grown: nat, half: nat)
    requires FilesOk(c, s) && i < |s.inodes| && off <= s.inodes[i].size && n <= half * c.bsize
    requires Turns(c, off, n, n, k) && GrownOk(Addr(c, s, i, Blk(c, off)) != 0, k, grown)
    ensures (k + 1) + (grown + 1) + 1 <= 2 * half + 4
  {
    hide Blk, Ofs, UseOk, AddrOk, IndexOk;
    if Ofs(c, off) != 0 {
      FirstExists(c, s, i, off);
    }
    ChunkBound(c, off, n, k, grown, Addr(c, s, i, Blk(c, off)) != 0, half);
  }

  lemma SameBlockBefore(c: Params, off: nat)
    requires c.bsize > 0 && Ofs(c, off) != 0
    ensures off > 0 && Blk(c, off - 1) == Blk(c, off)
  {
    DivMod(off, c.bsize);
    Quotient(off - 1, off / c.bsize, off % c.bsize - 1, c.bsize);
  }

  /** writei returns -1: the offset is beyond the end, the end wraps, or the file would be too large. */
  predicate Refused(c: Params, s: State, i: nat, off: nat, n: nat)
    requires i < |s.inodes|
  {
    off > s.inodes[i].size || off + n >= U32 || off + n > MaxBytes(c)
  }

  /** Writing n bytes at off reaches a byte that is in no block. */
  ghost predicate NeedsBlock(c: Params, s: State, i: nat, off: nat, n: nat)
    requires Sized(c, s) && i < |s.inodes|
  {
    exists q: nat :: off <= q < off + n && ByteAt(c, s, i, q) < 0
  }

  lemma BeyondEnd(c: Params, s: State, i: nat, off: nat, n: nat)
    requires FilesOk(c, s) && i < |s.inodes| && NeedsBlock(c, s, i, off, n)
    ensures off + n > s.inodes[i].size
  {
    assert NoHole(c, s, i);
  }

  /** A block that bmap had to allocate in the middle of a write was missing before it. */
  lemma WasMissing(c: Params, s: State, t: State, i: nat, off: nat, tot: nat, src: seq<Byte>, n: nat)
    requires Inv(c, s) && Written(c, s, t, i, off, tot, src) && tot < n && Addr(c, t, i, Blk(c, off + tot)) == 0
    ensures NeedsBlock(c, s, i, off, n)
  {
    var q := off + tot;
    assert WroteAt(c, s, t, i, off, tot, src, q);
    assert ByteAt(c, s, i, q) < 0;
  }

  lemma IndexStays(c: Params, t: State, u: State, i: nat, n: nat)
    requires Inv(c, t) && Inv(c, u) && Extended(c, t, u, i, n)
    ensures IndexSet(c, t.inodes[i]) <= IndexSet(c, u.inodes[i])
  {
    assert IndexOk(c, t, i) && IndexOk(c, u, i);
    var x := t.inodes[i].addrs[c.direct];
    if x != 0 {
      assert GrewAt(t, u, i, n, x);
      assert UseOk(c, u, x);
    }
  }

  /** When the first block was there, it is not one that the first turn allocates. */
  lemma FirstStays(c: Params, s: State, t: State, i: nat, off: nat, tot: nat, src: seq<Byte>, k: nat)
    requires Written(c, s, t, i, off, tot, src) && Turns(c, off, tot, |src|, k)
    requires k == 0 ==> t.inodes == s.inodes && t.blocks == s.blocks
    ensures k == 0 && Addr(c, s, i, Blk(c, off)) != 0 ==> Addr(c, t, i, Blk(c, off + tot)) != 0
  {
  }

  /** What the loop of writei has logged after k turns, grown of which allocated a data block: the
      blocks in mine, the indirect block, and a bitmap block for every block allocated. */
  predicate LogOk(c: Params, map0: set<nat>, data0: set<nat>, m: set<nat>, data: set<nat>, x0: Inode, x: Inode,
                  mine: set<nat>, k: nat, grown: nat) {
    && |mine| <= k && data <= data0 + mine + IndexSet(c, x) && IndexSet(c, x0) <= IndexSet(c, x)
    && |m| <= |map0| + grown + NewIndex(c, x0, x)
  }

  lemma LogNone(c: Params, m: set<nat>, data: set<nat>, x: Inode)
    ensures LogOk(c, m, data, m, data, x, x, {}, 0, 0)
  {
  }

  lemma NoTurns(c: Params, off: nat, n: nat)
    requires c.bsize > 0
    ensures Turns(c, off, 0, n, 0)
  {
  }

  lemma LogMore(c: Params, map0: set<nat>, data0: set<nat>, m: set<nat>, data: set<nat>, m': set<nat>, data': set<nat>,
                x0: Inode, x: Inode, x': Inode, mine: set<nat>, k: nat, grown: nat, b: nat, new1: nat)
    requires LogOk(c, map0, data0, m, data, x0, x, mine, k, grown)
    requires data' <= data + {b} + IndexSet(c, x') && IndexSet(c, x) <= IndexSet(c, x')
    requires |m'| <= |m| + new1 + NewIndex(c, x, x')
    ensures LogOk(c, map0, data0, m', data', x0, x', mine + {b}, k + 1, grown + new1)
  {
  }

  lemma Counted(c: Params, map0: set<nat>, data0: set<nat>, m: set<nat>, data: set<nat>, x0: Inode, x: Inode,
                mine: set<nat>, k: nat, grown: nat)
    requires LogOk(c, map0, data0, m, data, x0, x, mine, k, grown)
    ensures |m| <= |map0| + grown + 1 && |data| <= |data0| + k + 1
  {
    Counting.SubsetSize(data, data0 + mine + IndexSet(c, x));
  }

  lemma SpliceTwice(was: seq<int>, off: nat, a: seq<Byte>, b: seq<Byte>)
    requires off <= |was|
    ensures Splice(Splice(was, off, a), off + |a|, b) == Splice(was, off, a + b)
  {
    var x, y := Splice(Splice(was, off, a), off + |a|, b), Splice(was, off, a + b);
    forall p | 0 <= p < |x| ensures x[p] == y[p] {
    }
  }

  lemma FileStart(c: Params, s: State, i: nat, foff: nat, addr: seq<Byte>)
    requires Inv(c, s) && i < |s.inodes|
    ensures OthersSame(c, s, s, i) && c.bsize > 0
    ensures foff <= s.inodes[i].size ==> Contents(c, s, i) == Splice(Contents(c, s, i), foff, addr[..0])
  {
  }

  lemma NextChunk(c: Params, s: State, i: nat, foff: nat, addr: seq<Byte>, done: nat, n: nat, now: seq<int>)
    requires Sized(c, s) && i < |s.inodes| && done + n <= |addr| && foff <= s.inodes[i].size
    requires now == Splice(Splice(Contents(c, s, i), foff, addr[..done]), foff + done, addr[done..done + n])
    ensures now == Splice(Contents(c, s, i), foff, addr[..done + n])
  {
    SpliceTwice(Contents(c, s, i), foff, addr[..done], addr[done..done + n]);
    assert addr[..done] + addr[done..done + n] == addr[..done + n];
  }

  // ----- what an operation changes it logs

  predicate LogsAt(s: State, t: State, bpb: nat, m: set<nat>, d: set<nat>, b: nat)
    requires bpb > 0 && b < |s.used| == |s.blocks| == |s.use| == |t.used| == |t.blocks| == |t.use|
  {
    && (t.used[b] != s.used[b] ==> b / bpb in m)
    && (t.blocks[b] != s.blocks[b] ==> b in d)
    && (t.use[b].Meta? <==> s.use[b].Meta?)
  }

  predicate MapBlock(t: State, bpb: nat, k: nat) {
    k * bpb < |t.used|
  }

  predicate DataBlock(t: State, b: nat) {
    b < |t.use| && !t.use[b].Meta?
  }

  /** Going from s to t, a transaction that had logged bitmap blocks m0 and data blocks d0 has logged
      m and d: every block that changed, and no block that it may not write. */
  ghost predicate Logs(s: State, t: State, bpb: nat, m0: set<nat>, d0: set<nat>, m: set<nat>, d: set<nat>) {
    && bpb > 0 && |s.used| == |s.blocks| == |s.use| == |t.used| == |t.blocks| == |t.use|
    && m0 <= m && d0 <= d
    && (forall b: nat :: b < |s.used| ==> LogsAt(s, t, bpb, m, d, b))
    && (forall b :: b in d && b !in d0 ==> DataBlock(t, b))
    && (forall k :: k in m && k !in m0 ==> MapBlock(t, bpb, k))
  }

  /** Every inode block that changed is logged. */
  ghost predicate InodesLogged(was: seq<Block>, now: seq<Block>, logged: set<nat>) {
    |was| == |now| && forall k: nat :: k < |was| && now[k] != was[k] ==> k in logged
  }

  lemma LogsNothing(s: State, t: State, bpb: nat, m: set<nat>, d: set<nat>)
    requires bpb > 0 && |s.used| == |s.blocks| == |s.use| == |t.use| && t.used == s.used && t.blocks == s.blocks
    requires forall b: nat :: b < |s.use| ==> (t.use[b].Meta? <==> s.use[b].Meta?)
    ensures Logs(s, t, bpb, m, d, m, d)
  {
    forall b: nat | b < |s.used| ensures LogsAt(s, t, bpb, m, d, b) {
    }
  }

  lemma LogsInit(c: Params, s: State, bpb: nat, m: set<nat>, d: set<nat>)
    requires Inv(c, s) && bpb > 0
    ensures Logs(s, s, bpb, m, d, m, d)
  {
    LogsNothing(s, s, bpb, m, d);
  }

  /** The inodes and what other blocks are used for do not matter. */
  lemma LogsUse(s: State, t: State, r: State, bpb: nat, m0: set<nat>, d0: set<nat>, m: set<nat>, d: set<nat>)
    requires Logs(s, t, bpb, m0, d0, m, d) && r.used == t.used && r.blocks == t.blocks && |r.use| == |t.use|
    requires forall b: nat :: b < |t.use| ==> (r.use[b].Meta? <==> t.use[b].Meta?)
    ensures Logs(s, r, bpb, m0, d0, m, d)
  {
    LogsNothing(t, r, bpb, m, d);
    LogsThen(s, t, r, bpb, m0, d0, m, d, m, d);
  }

  /** A step that changes block b or its bit. */
  lemma LogsStep(s: State, t: State, bpb: nat, m: set<nat>, d: set<nat>, m': set<nat>, d': set<nat>, b: nat)
    requires bpb > 0 && b < |s.used| == |s.blocks| == |s.use| == |t.used| == |t.blocks| == |t.use| && !t.use[b].Meta?
    requires t.used == s.used[b := t.used[b]] && t.blocks == s.blocks[b := t.blocks[b]]
    requires forall x: nat :: x < |s.use| ==> (t.use[x].Meta? <==> s.use[x].Meta?)
    requires m <= m' <= m + {b / bpb} && d <= d' <= d + {b}
    requires (t.used[b] != s.used[b] ==> b / bpb in m') && (t.blocks[b] != s.blocks[b] ==> b in d')
    ensures Logs(s, t, bpb, m, d, m', d')
  {
    forall x: nat | x < |s.used| ensures LogsAt(s, t, bpb, m', d', x) {
    }
    DivMod(b, bpb);
  }

  lemma LogsThen(s: State, t: State, r: State, bpb: nat, m0: set<nat>, d0: set<nat>, m: set<nat>, d: set<nat>, m': set<nat>, d': set<nat>)
    requires Logs(s, t, bpb, m0, d0, m, d) && Logs(t, r, bpb, m, d, m', d')
    ensures Logs(s, r, bpb, m0, d0, m', d')
  {
    forall b: nat | b < |s.used| ensures LogsAt(s, r, bpb, m', d', b) {
      assert LogsAt(s, t, bpb, m, d, b) && LogsAt(t, r, bpb, m', d', b);
    }
    forall b | b in d' && b !in d0 ensures DataBlock(r, b) {
      if b in d {
        assert DataBlock(t, b) && LogsAt(t, r, bpb, m', d', b);
      }
    }
    forall k | k in m' && k !in m0 ensures MapBlock(r, bpb, k) {
      if k in m {
        assert MapBlock(t, bpb, k);
      }
    }
  }

  // ----- truncating

  /** Block b held one of the first k blocks of file i and is free now, or is used as before. */
  predicate TruncUseAt(s: State, t: State, i: nat, k: nat, b: nat)
    requires b < |s.use| && b < |t.use|
  {
    if s.use[b].Data? && s.use[b].i == i && s.use[b].n < k then t.use[b].Free? else t.use[b] == s.use[b]
  }

  /** The first k direct blocks of file i have been freed and their slots cleared. */
  ghost predicate Truncated(c: Params, s: State, t: State, i: nat, k: nat) {
    && OthersSame(c, s, t, i) && Inv(c, t) && k <= c.direct && SameButAddrs(s.inodes[i], t.inodes[i])
    && (forall m: nat :: m < k ==> t.inodes[i].addrs[m] == 0)
    && (forall m: nat :: k <= m ==> SameAt(c, s, t, i, m))
    && t.inodes[i].addrs[c.direct] == s.inodes[i].addrs[c.direct]
    && (forall b: nat :: b < c.size ==> TruncUseAt(s, t, i, k, b))
  }

  lemma TruncNone(c: Params, s: State, i: nat)
    requires Inv(c, s) && i < |s.inodes|
    ensures Truncated(c, s, s, i, 0)
  {
    forall b: nat | b < c.size ensures TruncUseAt(s, s, i, 0, b) {
    }
  }

  lemma TruncSkip(c: Params, s: State, t: State, i: nat, k: nat)
    requires Inv(c, s) && Truncated(c, s, t, i, k) && k < c.direct && t.inodes[i].addrs[k] == 0
    ensures Truncated(c, s, t, i, k + 1)
  {
    var k1 := k + 1;
    assert SameAt(c, s, t, i, k);
    forall b: nat | b < c.size ensures TruncUseAt(s, t, i, k1, b) {
      assert TruncUseAt(s, t, i, k, b) && UseOk(c, s, b);
    }
  }

  /** bfree of a direct block: its bit is set, so the panic is not reached. */
  lemma TruncStep(c: Params, s: State, t: State, i: nat, k: nat)
    requires Inv(c, s) && Truncated(c, s, t, i, k) && k < c.direct && t.inodes[i].addrs[k] != 0
    ensures t.inodes[i].addrs[k] < c.size && t.used[t.inodes[i].addrs[k]]
    ensures Truncated(c, s, DropDirect(c, t, i, k), i, k + 1)
  {
    DropDirectKept(c, t, i, k);
    var r := DropDirect(c, t, i, k);
    var x := t.inodes[i].addrs[k];
    assert OthersSame(c, t, r, i);
    OthersTrans(c, s, t, r, i);
    assert AddrOk(c, t, i, k) && SameAt(c, s, t, i, k) && AddrOk(c, s, i, k);
    var k1 := k + 1;
    forall m: nat | k1 <= m ensures SameAt(c, s, r, i, m) {
      assert SameAt(c, s, t, i, m) && SameAt(c, t, r, i, m);
      SameTrans(c, s, t, r, i, m);
    }
    forall b: nat | b < c.size ensures TruncUseAt(s, r, i, k1, b) {
      assert TruncUseAt(s, t, i, k, b) && UseOk(c, s, b) && UseOk(c, t, b);
    }
  }

  // the indirect block and its entries

  function DetachedUse(u: Use, i: nat): Use {
    if u.Data? && u.i == i then Doomed(i, u.n) else if u.Index? && u.i == i then Loose else u
  }

  /** Inode i is set aside: its blocks are no longer in use. */
  function Detach(s: State, i: nat): (t: State)
    ensures t.used == s.used && t.blocks == s.blocks && t.inodes == s.inodes && t.busy == s.busy + {i}
    ensures |t.use| == |s.use|
    ensures forall b {:trigger t.use[b]} :: 0 <= b < |s.use| ==> t.use[b] == DetachedUse(s.use[b], i)
  {
    s.(busy := s.busy + {i}, use := seq(|s.use|, b requires 0 <= b < |s.use| => DetachedUse(s.use[b], i)))
  }

  /** bfree of a block nothing refers to any more. */
  function Drop(s: State, b: nat): State
    requires b < |s.used| && b < |s.use|
  {
    s.(used := s.used[b := false], use := s.use[b := Free])
  }

  lemma DropKept(c: Params, s: State, b: nat)
    requires Core(c, s) && 0 < b < c.size && (s.use[b].Loose? || s.use[b].Doomed?)
    ensures s.used[b] && Core(c, Drop(s, b)) && forall j: nat, n: nat :: SameAt(c, s, Drop(s, b), j, n)
  {
    var t := Drop(s, b);
    assert UseOk(c, s, b);
    forall j: nat, n: nat ensures AddrOk(c, t, j, n) && SameAt(c, s, t, j, n) {
      assert AddrOk(c, s, j, n);
    }
    forall x: nat | x < c.size ensures UseOk(c, t, x) {
      assert UseOk(c, s, x);
    }
    forall j: nat ensures IndexOk(c, t, j) {
      assert IndexOk(c, s, j);
    }
  }

  /** Entry j of the indirect block x is doomed, and so is nothing but such entries from k on. */
  ghost predicate Dooming(c: Params, s: State, t: State, i: nat, x: nat, k: nat) {
    && Core(c, t) && t.busy == {i} && 0 < x < c.size && t.use[x].Loose? && k <= c.indirect
    && Sized(c, s) && t.inodes == s.inodes && t.blocks == s.blocks
    && (forall j: nat, n: nat :: j != i ==> SameAt(c, s, t, j, n))
    && (forall j: nat :: k <= j < c.indirect ==> EntryDoomed(c, t, i, x, j))
    && (forall b: nat :: b < c.size ==> DoomUseAt(c, s, t, i, x, k, b))
  }

  predicate EntryDoomed(c: Params, t: State, i: nat, x: nat, j: nat) {
    x < |t.blocks| && 4 * j + 4 <= |t.blocks[x]| &&
    (GetWord(t.blocks[x], j) != 0 ==>
       GetWord(t.blocks[x], j) < |t.use| && t.use[GetWord(t.blocks[x], j)] == Doomed(i, c.direct + j))
  }

  predicate DoomUseAt(c: Params, s: State, t: State, i: nat, x: nat, k: nat, b: nat)
    requires b < |s.use| && b < |t.use|
  {
    if b == x then t.use[b].Loose?
    else if s.use[b].Data? && s.use[b].i == i then
      c.direct <= s.use[b].n && (if s.use[b].n < c.direct + k then t.use[b].Free? else t.use[b] == Doomed(i, s.use[b].n))
    else t.use[b] == s.use[b]
  }

  lemma DetachKept(c: Params, s: State, i: nat)
    requires Inv(c, s) && i < |s.inodes| && s.inodes[i].addrs[c.direct] != 0
    requires forall m: nat :: m < c.direct ==> s.inodes[i].addrs[m] == 0
    ensures Dooming(c, s, Detach(s, i), i, s.inodes[i].addrs[c.direct], 0)
  {
    var t := Detach(s, i);
    var x := s.inodes[i].addrs[c.direct];
    assert IndexOk(c, s, i);
    forall j: nat, n: nat ensures AddrOk(c, t, j, n) && (j != i ==> SameAt(c, s, t, j, n)) {
      assert AddrOk(c, s, j, n);
    }
    forall b: nat | b < c.size ensures UseOk(c, t, b) && DoomUseAt(c, s, t, i, x, 0, b) {
      assert UseOk(c, s, b);
    }
    forall j: nat ensures IndexOk(c, t, j) {
      assert IndexOk(c, s, j);
    }
    forall j: nat | j < c.indirect ensures EntryDoomed(c, t, i, x, j) {
      assert AddrOk(c, s, i, c.direct + j);
    }
  }

  lemma DoomSkip(c: Params, s: State, t: State, i: nat, x: nat, k: nat)
    requires Inv(c, s) && i < |s.inodes| && x == s.inodes[i].addrs[c.direct] && Dooming(c, s, t, i, x, k) && k < c.indirect
    requires GetWord(t.blocks[x], k) == 0
    ensures Dooming(c, s, t, i, x, k + 1)
  {
    var k1 := k + 1;
    forall b: nat | b < c.size ensures DoomUseAt(c, s, t, i, x, k1, b) {
      assert DoomUseAt(c, s, t, i, x, k, b) && UseOk(c, s, b);
    }
  }

  lemma DoomStep(c: Params, s: State, t: State, i: nat, x: nat, k: nat)
    requires Inv(c, s) && i < |s.inodes| && x == s.inodes[i].addrs[c.direct] && Dooming(c, s, t, i, x, k) && k < c.indirect
    requires GetWord(t.blocks[x], k) != 0
    ensures var b := GetWord(t.blocks[x], k); b < c.size && t.used[b] && Dooming(c, s, Drop(t, b), i, x, k + 1)
  {
    assert EntryDoomed(c, t, i, x, k);
    var b := GetWord(t.blocks[x], k);
    DropKept(c, t, b);
    var r := Drop(t, b);
    var k1 := k + 1;
    forall j: nat, n: nat | j != i ensures SameAt(c, s, r, j, n) {
      SameTrans(c, s, t, r, j, n);
    }
    forall j: nat | k1 <= j < c.indirect ensures EntryDoomed(c, r, i, x, j) {
      assert EntryDoomed(c, t, i, x, j);
    }
    assert DoomUseAt(c, s, t, i, x, k, b) && UseOk(c, s, b);
    forall y: nat | y < c.size ensures DoomUseAt(c, s, r, i, x, k1, y) {
      assert DoomUseAt(c, s, t, i, x, k, y) && UseOk(c, s, y);
    }
  }

  /** Inode i refers to no block and has size 0. */
  predicate EmptyInode(c: Params, x: Inode) {
    |x.addrs| == c.direct + 1 && x.size == 0 && forall m :: 0 <= m <= c.direct ==> x.addrs[m] == 0
  }

  /** Every block of file i is free, and every other block is used as before. */
  predicate EmptiedAt(s: State, t: State, i: nat, b: nat)
    requires b < |s.use| && b < |t.use|
  {
    if (s.use[b].Data? || s.use[b].Index?) && s.use[b].i == i then t.use[b].Free? else t.use[b] == s.use[b]
  }

  ghost predicate Emptied(c: Params, s: State, t: State, i: nat) {
    && OthersSame(c, s, t, i) && EmptyInode(c, t.inodes[i]) && Inv(c, t)
    && SameButAddrs(t.inodes[i], s.inodes[i].(size := 0))
    && forall b: nat :: b < c.size ==> EmptiedAt(s, t, i, b)
  }

  /** Clearing the last slot and the size of an inode whose blocks have all been freed. */
  function Cleared(c: Params, t: State, i: nat): State
    requires i < |t.inodes| && c.direct < |t.inodes[i].addrs|
  {
    t.(busy := t.busy - {i}, inodes := t.inodes[i := t.inodes[i].(addrs := t.inodes[i].addrs[c.direct := 0], size := 0)])
  }

  lemma EmptyNoAddr(c: Params, t: State, i: nat, n: nat)
    requires Sized(c, t) && i < |t.inodes| && EmptyInode(c, t.inodes[i])
    ensures Addr(c, t, i, n) == 0
  {
  }

  lemma ClearedKept(c: Params, t: State, i: nat)
    requires Core(c, t) && i < |t.inodes| && t.busy <= {i} && (forall b :: 0 <= b < |t.use| ==> Settled(t.use[b]))
    requires forall m: nat :: m < c.direct ==> t.inodes[i].addrs[m] == 0
    requires forall b :: 0 <= b < |t.use| && (t.use[b].Data? || t.use[b].Index?) ==> t.use[b].i != i
    ensures Inv(c, Cleared(c, t, i)) && OthersSame(c, t, Cleared(c, t, i), i) && EmptyInode(c, Cleared(c, t, i).inodes[i])
  {
    var r := Cleared(c, t, i);
    assert Sized(c, r);
    forall j: nat, n: nat ensures AddrOk(c, r, j, n) && (j != i ==> SameAt(c, t, r, j, n)) {
      if j == i {
        EmptyNoAddr(c, r, i, n);
      } else {
        assert AddrOk(c, t, j, n);
      }
    }
    forall b: nat | b < c.size ensures UseOk(c, r, b) {
      assert UseOk(c, t, b);
      if t.use[b].Data? {
        assert SameAt(c, t, r, t.use[b].i, t.use[b].n);
      }
    }
    forall j: nat ensures IndexOk(c, r, j) {
      if j != i {
        assert IndexOk(c, t, j);
      }
    }
  }

  lemma NothingLeft(c: Params, t: State, i: nat, b: nat)
    requires Inv(c, t) && i < |t.inodes| && b < c.size
    requires forall m: nat :: m <= c.direct ==> t.inodes[i].addrs[m] == 0
    ensures t.use[b].Data? || t.use[b].Index? ==> t.use[b].i != i
  {
    assert UseOk(c, t, b);
  }

  /** A file without an indirect block. */
  lemma TruncDone(c: Params, s: State, t: State, i: nat)
    requires Inv(c, s) && Truncated(c, s, t, i, c.direct) && t.inodes[i].addrs[c.direct] == 0
    ensures Emptied(c, s, Cleared(c, t, i), i)
  {
    var r := Cleared(c, t, i);
    forall b | 0 <= b < |t.use| && (t.use[b].Data? || t.use[b].Index?) ensures t.use[b].i != i {
      NothingLeft(c, t, i, b);
    }
    ClearedKept(c, t, i);
    OthersTrans(c, s, t, r, i);
    forall b: nat | b < c.size ensures EmptiedAt(s, r, i, b) {
      assert TruncUseAt(s, t, i, c.direct, b) && UseOk(c, s, b);
    }
  }

  /** The indirect block itself is freed last. */
  lemma DoomDone(c: Params, s: State, t: State, u: State, i: nat, x: nat)
    requires Inv(c, s) && Truncated(c, s, t, i, c.direct) && x == t.inodes[i].addrs[c.direct] != 0
    requires Dooming(c, t, u, i, x, c.indirect)
    ensures u.used[x] && Emptied(c, s, Cleared(c, Drop(u, x), i), i)
  {
    DropKept(c, u, x);
    var v := Drop(u, x);
    forall b: nat | b < c.size
      ensures Settled(v.use[b]) && (v.use[b].Data? || v.use[b].Index? ==> v.use[b].i != i)
    {
      assert DoomUseAt(c, t, u, i, x, c.indirect, b) && UseOk(c, t, b);
    }
    ClearedKept(c, v, i);
    var r := Cleared(c, v, i);
    forall j: nat, n: nat | j != i ensures SameAt(c, s, r, j, n) {
      SameTrans(c, s, t, u, j, n);
      SameTrans(c, s, u, v, j, n);
      SameTrans(c, s, v, r, j, n);
    }
    assert IndexOk(c, t, i);
    forall b: nat | b < c.size ensures EmptiedAt(s, r, i, b) {
      assert TruncUseAt(s, t, i, c.direct, b) && DoomUseAt(c, t, u, i, x, c.indirect, b) && UseOk(c, s, b) && UseOk(c, t, b);
    }
  }

  /** A truncated file is empty; no other file has changed. */
  lemma EmptiedFile(c: Params, s: State, t: State, i: nat)
    requires FilesOk(c, s) && Emptied(c, s, t, i)
    ensures FilesOk(c, t) && Contents(c, t, i) == []
    ensures forall j: nat :: j < |s.inodes| && j != i ==> Contents(c, t, j) == Contents(c, s, j)
  {
    forall j: nat | j < |t.inodes| ensures NoHole(c, t, j) && (j != i ==> Contents(c, t, j) == Contents(c, s, j)) {
      if j != i {
        assert NoHole(c, s, j);
        OtherFileSame(c, s, t, i, j);
      }
    }
  }
}
