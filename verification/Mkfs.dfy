/** The initial file system (mkfs.c): that it satisfies the invariants the kernel relies on. */
module Mkfs {
  import opened Arith
  import opened DirBytes
  import Dirs
  import opened FsBlocks
  import opened FsFiles
  import Links
  import opened Superblock

  /** The bitmap with the first k of n bits set. */
  function Prefix(n: nat, k: nat): (r: seq<bool>)
    ensures |r| == n && forall b :: 0 <= b < n ==> r[b] == (b < k)
  {
    seq(n, b => b < k)
  }

  // ----- files written by iappend

  /** File i has no block at or beyond byte end. */
  ghost predicate Tight(c: Params, s: State, i: nat, end: nat)
    requires Sized(c, s) && i < |s.inodes|
  {
    forall n: nat :: n < MaxFile(c) && Addr(c, s, i, n) != 0 ==> n * c.bsize < end
  }

  lemma TightStep(c: Params, t: State, u: State, i: nat, q: nat, m: nat)
    requires Inv(c, t) && Extended(c, t, u, i, Blk(c, q)) && Tight(c, t, i, q) && m > 0
    ensures Tight(c, u, i, q + m)
  {
    DivMod(q, c.bsize);
    forall n: nat | n < MaxFile(c) && Addr(c, u, i, n) != 0 ensures n * c.bsize < q + m {
      if n != Blk(c, q) {
        assert SameAt(c, t, u, i, n);
      }
    }
  }

  lemma TightStore(c: Params, u: State, i: nat, n: nat, block: Block, end: nat)
    requires Inv(c, u) && i < |u.inodes| && n < MaxFile(c) && Addr(c, u, i, n) != 0 && |block| == c.bsize && Tight(c, u, i, end)
    ensures Addr(c, u, i, n) < c.size && Sized(c, Store(c, u, Addr(c, u, i, n), block))
    ensures Tight(c, Store(c, u, Addr(c, u, i, n), block), i, end)
  {
    StoreKept(c, u, i, n, block);
    var r := Store(c, u, Addr(c, u, i, n), block);
    forall m: nat | m < MaxFile(c) && Addr(c, r, i, m) != 0 ensures m * c.bsize < end {
      if m != n {
        assert SameAt(c, u, r, i, m);
      }
    }
  }

  lemma SetSizeTight(c: Params, t: State, i: nat, size: nat)
    requires Inv(c, t) && i < |t.inodes| && Tight(c, t, i, size)
    ensures Sized(c, SetSize(t, i, size)) && Tight(c, SetSize(t, i, size), i, size)
  {
    forall n: nat | n < MaxFile(c) && Addr(c, SetSize(t, i, size), i, n) != 0 ensures n * c.bsize < size {
      SetSizeSame(c, t, i, size, i, n);
    }
  }

  lemma OtherTight(c: Params, s: State, t: State, i: nat, j: nat)
    requires OthersSame(c, s, t, i) && Inv(c, s) && j < |s.inodes| && j != i && Tight(c, s, j, s.inodes[j].size)
    ensures Tight(c, t, j, t.inodes[j].size)
  {
    forall n: nat | n < MaxFile(c) && Addr(c, t, j, n) != 0 ensures n * c.bsize < t.inodes[j].size {
      assert SameAt(c, s, t, j, n);
    }
  }

  // ----- how many blocks a file needs

  function Ceil(c: Params, size: nat): nat
    requires c.bsize > 0
  {
    if Ofs(c, size) == 0 then Blk(c, size) else Blk(c, size) + 1
  }

  /** The data blocks and the indirect block of a file of the given size. */
  function Need(c: Params, size: nat): nat
    requires c.bsize > 0
  {
    Ceil(c, size) + if Ceil(c, size) > c.direct then 1 else 0
  }

  /** The blocks that iappend allocates to reach block n of file i. */
  function Allocs(c: Params, s: State, i: nat, n: nat): nat
    requires Sized(c, s) && i < |s.inodes|
  {
    (if Addr(c, s, i, n) == 0 then 1 else 0) + (if n >= c.direct && s.inodes[i].addrs[c.direct] == 0 then 1 else 0)
  }

  lemma CeilStep(c: Params, q: nat, m: nat)
    requires c.bsize > 0 && 0 < m && Ofs(c, q) + m <= c.bsize
    ensures Ceil(c, q + m) == Blk(c, q) + 1
  {
    DivMod(q, c.bsize);
    OneMore(q / c.bsize, c.bsize);
    if Ofs(c, q) + m == c.bsize {
      Quotient(q + m, q / c.bsize + 1, 0, c.bsize);
    } else {
      Quotient(q + m, q / c.bsize, Ofs(c, q) + m, c.bsize);
    }
  }

  lemma NeedMonotone(c: Params, q: nat, r: nat)
    requires c.bsize > 0 && q <= r
    ensures Need(c, q) <= Need(c, r)
  {
    DivMod(q, c.bsize);
    DivMod(r, c.bsize);
    OneMore(r / c.bsize, c.bsize);
    Cancel(q / c.bsize, r / c.bsize + 1, c.bsize);
  }

  /** A block that holds a byte of a file needs no allocation. */
  lemma NoAllocs(c: Params, s: State, i: nat, n: nat)
    requires Sized(c, s) && i < |s.inodes| && Addr(c, s, i, n) != 0
    ensures Allocs(c, s, i, n) == 0
  {
  }

  /** Appending to a file without a hole allocates what the larger file needs more. */
  lemma AllocsNeeded(c: Params, s: State, i: nat, q: nat, m: nat)
    requires Inv(c, s) && i < |s.inodes| && 0 < m && Ofs(c, q) + m <= c.bsize
    requires q > 0 ==> ByteAt(c, s, i, q - 1) >= 0
    ensures Need(c, q) + Allocs(c, s, i, Blk(c, q)) <= Need(c, q + m)
  {
    hide UseOk, AddrOk, IndexOk, Blk, Ofs, Addr;
    CeilStep(c, q, m);
    if q > 0 {
      ByteHasBlock(c, s, i, q - 1);
    }
    if Ofs(c, q) != 0 {
      SameBlockBefore(c, q);
      NoAllocs(c, s, i, Blk(c, q));
    } else if q > 0 {
      EndOfBlock(c, q);
      EntryHasIndex(c, s, i, Blk(c, q) - 1);
    } else {
      StartOfFile(c);
    }
  }

  lemma EntryHasIndex(c: Params, s: State, i: nat, n: nat)
    requires Sized(c, s) && i < |s.inodes| && Addr(c, s, i, n) != 0
    ensures n >= c.direct ==> s.inodes[i].addrs[c.direct] != 0
  {
  }

  lemma StartOfFile(c: Params)
    requires c.bsize > 0
    ensures Blk(c, 0) == 0
  {
  }

  lemma EndOfBlock(c: Params, q: nat)
    requires c.bsize > 0 && q > 0 && Ofs(c, q) == 0
    ensures Blk(c, q) > 0 && Blk(c, q - 1) == Blk(c, q) - 1
  {
    DivMod(q, c.bsize);
    AtLeastOne(q / c.bsize, c.bsize);
    OneMore(q / c.bsize - 1, c.bsize);
    Quotient(q - 1, q / c.bsize - 1, c.bsize - 1, c.bsize);
  }

  predicate SameType(x: Inode, y: Inode) {
    y.kind == x.kind && y.major == x.major && y.minor == x.minor && y.nlink == x.nlink
  }

  // ----- what main is asked to put in the image

  datatype Source = Source(name: string, data: seq<Byte>)

  /** A command-line argument: no NUL. */
  predicate IsString(name: string) {
    forall k :: 0 <= k < |name| ==> 0 < name[k] as int < 256
  }

  /** The name in the image: without a leading underscore, and at most DIRSIZ characters. */
  function NameFor(dirsiz: nat, name: string): string {
    Dirs.Trunc(dirsiz, if |name| > 0 && name[0] == '_' then name[1..] else name)
  }

  /** The root directory: itself twice, and the files in inodes 2, 3, ... */
  function RootEntries(dirsiz: nat, files: seq<Source>): (r: seq<Links.Entry>)
    ensures |r| == 2 + |files|
  {
    [Links.Entry(1, "."), Links.Entry(1, "..")] + seq(|files|, k requires 0 <= k < |files| => Links.Entry(2 + k, NameFor(dirsiz, files[k].name)))
  }

  predicate SourcesOk(dirsiz: nat, files: seq<Source>) {
    2 <= dirsiz && 2 + |files| <= 0x1_0000 && forall k :: 0 <= k < |files| ==> IsString(files[k].name)
  }

  lemma RootFits(dirsiz: nat, files: seq<Source>)
    requires SourcesOk(dirsiz, files)
    ensures AllFit(dirsiz, RootEntries(dirsiz, files))
  {
    forall k | 0 <= k < |files| ensures Fits(dirsiz, Links.Entry(2 + k, NameFor(dirsiz, files[k].name))) {
    }
  }

  lemma EntryFits(dirsiz: nat, files: seq<Source>, k: nat)
    requires SourcesOk(dirsiz, files) && k < |files|
    ensures Fits(dirsiz, Links.Entry(2 + k, NameFor(dirsiz, files[k].name)))
  {
  }

  lemma RootGrows(dirsiz: nat, files: seq<Source>, k: nat)
    requires k < |files|
    ensures RootEntries(dirsiz, files[..k + 1]) == RootEntries(dirsiz, files[..k]) + [Links.Entry(2 + k, NameFor(dirsiz, files[k].name))]
  {
  }

  /** mkfs and the kernel agree on these: T_DIR and T_FILE. */
  const DirKind: Short := 1
  const FileKind: Short := 2

  /** The root is a directory and the n inodes after it are files, each with one link. */
  predicate Typed(inodes: seq<Inode>, n: nat) {
    && 2 + n <= |inodes| && inodes[1].kind == DirKind && inodes[1].nlink == 1
    && forall j :: 2 <= j < 2 + n ==> inodes[j].kind == FileKind && inodes[j].nlink == 1
  }

  function AsInts(data: seq<Byte>): (r: seq<int>)
    ensures |r| == |data| && forall k :: 0 <= k < |r| ==> r[k] == data[k] as int
  {
    seq(|data|, k requires 0 <= k < |data| => data[k] as int)
  }

  /** The blocks that the data of the files needs. */
  function TotalNeed(c: Params, files: seq<Source>): nat
    requires c.bsize > 0
  {
    if files == [] then 0 else TotalNeed(c, files[..|files| - 1]) + Need(c, |files[|files| - 1].data|)
  }

  lemma {:induction false} TotalMonotone(c: Params, files: seq<Source>, k: nat)
    requires c.bsize > 0 && k <= |files|
    ensures TotalNeed(c, files[..k]) <= TotalNeed(c, files)
    decreases |files|
  {
    if k < |files| {
      TotalMonotone(c, files[..|files| - 1], k);
      assert files[..|files| - 1][..k] == files[..k];
    } else {
      assert files[..k] == files;
    }
  }

  // ----- the size of the root directory

  /** main sets the root directory's size to the next multiple of the block size above it. */
  function RoundedUp(c: Params, size: nat): nat
    requires c.bsize > 0
  {
    (size / c.bsize + 1) * c.bsize
  }

  lemma AboveSize(c: Params, size: nat)
    requires c.bsize > 0
    ensures size < RoundedUp(c, size)
    ensures Blk(c, size) < MaxFile(c) ==> RoundedUp(c, size) <= MaxBytes(c)
  {
    DivMod(size, c.bsize);
    OneMore(size / c.bsize, c.bsize);
    if Blk(c, size) < MaxFile(c) {
      Monotone(size / c.bsize + 1, MaxFile(c), c.bsize);
    }
  }

  /** That leaves the root directory without a hole exactly when its entries do not fill their last
      block: otherwise the new size covers a block that was never allocated. */
  lemma RootSizeIff(c: Params, s: State, i: nat)
    requires FilesOk(c, s) && i < |s.inodes| && Tight(c, s, i, s.inodes[i].size)
    ensures Sized(c, SetSize(s, i, RoundedUp(c, s.inodes[i].size)))
    ensures NoHole(c, SetSize(s, i, RoundedUp(c, s.inodes[i].size)), i) <==> Ofs(c, s.inodes[i].size) != 0
  {
    hide UseOk, AddrOk, IndexOk, ByteAt, RoundedUp, Blk, Ofs, MaxBytes, Tight;
    var size := s.inodes[i].size;
    var up := RoundedUp(c, size);
    SetSizeKept(c, s, i, up);
    AboveSize(c, size);
    var t := SetSize(s, i, up);
    if Ofs(c, size) != 0 {
      SizeBlock(c, s, i, size);
      forall p: nat | p < up ensures ByteAt(c, t, i, p) >= 0 {
        BytesBelow(c, s, i, p);
      }
    } else {
      BlockAtEnd(c, s, i);
      assert ByteAt(c, t, i, size) < 0;
    }
  }

  lemma BytesBelow(c: Params, s: State, i: nat, p: nat)
    requires FilesOk(c, s) && i < |s.inodes| && Ofs(c, s.inodes[i].size) != 0 && p < RoundedUp(c, s.inodes[i].size)
    ensures ByteAt(c, s, i, p) >= 0
  {
    hide UseOk, AddrOk, IndexOk, ByteAt, RoundedUp, Blk, Ofs, MaxBytes;
    if p >= s.inodes[i].size {
      LastBlock(c, s, i, p);
    } else {
      assert NoHole(c, s, i);
    }
  }

  /** Bytes beyond the end in the last block are in a block. */
  lemma LastBlock(c: Params, s: State, i: nat, p: nat)
    requires FilesOk(c, s) && i < |s.inodes| && Ofs(c, s.inodes[i].size) != 0
    requires s.inodes[i].size <= p < RoundedUp(c, s.inodes[i].size)
    ensures ByteAt(c, s, i, p) >= 0
  {
    var size := s.inodes[i].size;
    FirstExists(c, s, i, size);
    DivMod(size, c.bsize);
    OneMore(size / c.bsize, c.bsize);
    Quotient(p, size / c.bsize, p - size / c.bsize * c.bsize, c.bsize);
    SizeBlock(c, s, i, size);
    assert AddrOk(c, s, i, Blk(c, size));
  }

  lemma SizeBlock(c: Params, s: State, i: nat, size: nat)
    requires FilesOk(c, s) && i < |s.inodes| && size == s.inodes[i].size && Ofs(c, size) != 0
    ensures Blk(c, size) < MaxFile(c)
  {
    SameBlockBefore(c, size);
    assert NoHole(c, s, i);
    BlkInRange(c, size - 1);
  }

  lemma BlockAtEnd(c: Params, s: State, i: nat)
    requires FilesOk(c, s) && i < |s.inodes| && Tight(c, s, i, s.inodes[i].size) && Ofs(c, s.inodes[i].size) == 0
    ensures ByteAt(c, s, i, s.inodes[i].size) == -1
  {
    var size := s.inodes[i].size;
    DivMod(size, c.bsize);
    var n := Blk(c, size);
    assert n * c.bsize == size;
    if n < MaxFile(c) {
      assert Addr(c, s, i, n) == 0;
    }
  }

  class Image {
    const c: Params
    const bpb: nat
    var blocks: seq<Block>
    var inodes: seq<Inode>
    var freeblock: nat
    var freeinode: nat
    ghost var use: seq<Use>

    /** The bitmap that balloc will write: the blocks below freeblock. */
    ghost function St(): State
      reads this
    {
      State(Prefix(c.size, freeblock), blocks, inodes, use, {})
    }

    ghost predicate Valid()
      reads this
    {
      && FilesOk(c, St()) && 0 < freeblock <= c.size && freeinode <= |inodes|
      && BlankAbove(c, blocks, freeblock)
      && (forall i: nat :: i < |inodes| ==> Tight(c, St(), i, inodes[i].size))
      && (forall i: nat :: freeinode <= i < |inodes| ==> EmptyInode(c, inodes[i]))
    }

    /** All blocks zero, the metadata blocks in use, and no inode allocated yet. */
    constructor (c: Params, bpb: nat, nmeta: nat, ninodes: nat)
      requires c.bsize > 0 && 4 * c.indirect <= c.bsize && 0 < nmeta <= c.size <= 0x1_0000_0000 && ninodes > 0
      ensures Valid() && this.c == c && this.bpb == bpb && freeblock == nmeta && |inodes| == ninodes && freeinode == 1
    {
      this.c, this.bpb := c, bpb;
      blocks := seq(c.size, b => ZeroBlock(c));
      inodes := seq(ninodes, i => Inode(0, 0, 0, 0, 0, seq(c.direct + 1, k => 0)));
      freeblock, freeinode := nmeta, 1;
      use := seq(c.size, b => if b < nmeta then Meta else Free);
      new;
      EmptyDisk(c, St(), nmeta);
    }

    /** ialloc; fails when no inode is left, which mkfs does not test. */
    method Ialloc(kind: Short) returns (ok: bool, inum: nat)
      requires Valid()
      modifies `inodes, `freeinode
      ensures Valid() && ok == (old(freeinode) < |inodes|) && inum == old(freeinode) && |inodes| == old(|inodes|)
      ensures !ok ==> St() == old(St()) && freeinode == old(freeinode)
      ensures ok ==> freeinode == inum + 1 && inodes == old(inodes)[inum := old(inodes)[inum].(kind := kind, nlink := 1)]
      ensures ok ==> Contents(c, St(), inum) == []
      ensures forall j: nat :: j < |inodes| ==> Contents(c, St(), j) == Contents(c, old(St()), j)
    {
      ghost var s := St();
      inum := freeinode;
      ok := inum < |inodes|;
      if ok {
        freeinode := freeinode + 1;
        inodes := inodes[inum := inodes[inum].(kind := kind, nlink := 1)];
        Relabel(c, s, St(), inum);
        forall i: nat | i < |inodes| ensures Tight(c, St(), i, inodes[i].size) {
          assert Tight(c, s, i, s.inodes[i].size);
          SameTight(c, s, St(), i);
        }
      }
    }

    /** The next block of the image; 0 when the image is full, where the model stops. */
    method NextBlock() returns (b: nat)
      requires Inv(c, St()) && 0 < freeblock <= c.size && BlankAbove(c, blocks, freeblock)
      modifies `freeblock, `use
      ensures b == 0 ==> St() == old(St()) && freeblock == old(freeblock) == c.size
      ensures b != 0 ==> b == old(freeblock) < c.size && freeblock == b + 1 && old(use)[b].Free? && St() == Take(c, old(St()), b)
    {
      if freeblock == c.size {
        return 0;
      }
      ghost var s := St();
      b := freeblock;
      assert UseOk(c, s, b);
      freeblock := freeblock + 1;
      use := use[b := Loose];
      assert St().used == s.used[b := true];
      assert blocks == blocks[b := ZeroBlock(c)];
    }

    /** iappend's choice of the block for block n of file i; 0 when the image is full. */
    method BlockFor(i: nat, n: nat) returns (x: nat)
      requires Inv(c, St()) && i < |inodes| && n < MaxFile(c) && 0 < freeblock <= c.size && BlankAbove(c, blocks, freeblock)
      modifies `blocks, `inodes, `freeblock, `use
      ensures Inv(c, St()) && Extended(c, old(St()), St(), i, n)
      ensures old(freeblock) <= freeblock <= c.size && BlankAbove(c, blocks, freeblock)
      ensures freeblock <= old(freeblock) + Allocs(c, old(St()), i, n)
      ensures x == 0 ==> freeblock == c.size < old(freeblock) + Allocs(c, old(St()), i, n)
      ensures x != 0 ==> x == Addr(c, St(), i, n) < freeblock
      ensures Addr(c, old(St()), i, n) != 0 ==> x != 0 && St() == old(St())
    {
      hide Core, GetWord, ZeroBlock;
      ghost var s := St();
      if n < c.direct {
        x := DirectFor(i, n);
      } else {
        NoIndexNoEntry(c, s, i, n);
        IndexFor(i, n);
        assert SameAt(c, s, St(), i, n);
        x := 0;
        if inodes[i].addrs[c.direct] != 0 {
          x := EntryFor(i, n - c.direct, s);
        }
      }
    }

    method DirectFor(i: nat, n: nat) returns (x: nat)
      requires Inv(c, St()) && i < |inodes| && n < c.direct && 0 < freeblock <= c.size && BlankAbove(c, blocks, freeblock)
      modifies `inodes, `freeblock, `use
      ensures Inv(c, St()) && Extended(c, old(St()), St(), i, n)
      ensures old(freeblock) <= freeblock <= c.size && BlankAbove(c, blocks, freeblock)
      ensures freeblock <= old(freeblock) + Allocs(c, old(St()), i, n)
      ensures x == 0 ==> freeblock == c.size < old(freeblock) + Allocs(c, old(St()), i, n)
      ensures x != 0 ==> x == Addr(c, St(), i, n) < freeblock
      ensures Addr(c, old(St()), i, n) != 0 ==> x != 0 && St() == old(St())
    {
      ghost var s := St();
      x := inodes[i].addrs[n];
      if x == 0 {
        x := NextBlock();
        if x != 0 {
          TakeDirect(c, s, i, n, x);
          inodes := inodes[i := inodes[i].(addrs := inodes[i].addrs[n := x])];
          use := use[x := Data(i, n)];
          assert St() == LinkDirect(c, Take(c, s, x), i, n, x);
        }
      } else {
        UsedBelow(c, s, freeblock, i, n);
      }
    }

    method IndexFor(i: nat, ghost n: nat)
      requires Inv(c, St()) && i < |inodes| && c.direct <= n < MaxFile(c) && 0 < freeblock <= c.size && BlankAbove(c, blocks, freeblock)
      modifies `inodes, `freeblock, `use
      ensures Inv(c, St()) && Extended(c, old(St()), St(), i, n) && SameAt(c, old(St()), St(), i, n)
      ensures old(freeblock) <= freeblock <= c.size && BlankAbove(c, blocks, freeblock)
      ensures inodes[i].addrs[c.direct] == 0 ==> old(freeblock) == freeblock == c.size
      ensures freeblock <= old(freeblock) + if old(inodes)[i].addrs[c.direct] == 0 then 1 else 0
      ensures old(inodes)[i].addrs[c.direct] != 0 ==> St() == old(St()) && freeblock == old(freeblock)
    {
      ghost var s := St();
      if inodes[i].addrs[c.direct] == 0 {
        var b := NextBlock();
        if b != 0 {
          TakeIndex(c, s, i, n, b);
          inodes := inodes[i := inodes[i].(addrs := inodes[i].addrs[c.direct := b])];
          use := use[b := Index(i)];
          assert St() == LinkIndex(c, Take(c, s, b), i, b);
        }
      }
    }

    method EntryFor(i: nat, k: nat, ghost s: State) returns (x: nat)
      requires Inv(c, s) && Inv(c, St()) && i < |inodes| && k < c.indirect && inodes[i].addrs[c.direct] != 0
      requires 0 < freeblock <= c.size && BlankAbove(c, blocks, freeblock)
      requires Extended(c, s, St(), i, c.direct + k) && SameAt(c, s, St(), i, c.direct + k)
      requires Addr(c, s, i, c.direct + k) != 0 ==> St() == s
      modifies `blocks, `freeblock, `use
      ensures Inv(c, St()) && Extended(c, s, St(), i, c.direct + k)
      ensures old(freeblock) <= freeblock <= c.size && BlankAbove(c, blocks, freeblock)
      ensures x == 0 ==> old(freeblock) == freeblock == c.size && Addr(c, s, i, c.direct + k) == 0
      ensures freeblock <= old(freeblock) + if Addr(c, s, i, c.direct + k) == 0 then 1 else 0
      ensures x != 0 ==> x == Addr(c, St(), i, c.direct + k) < freeblock
      ensures Addr(c, s, i, c.direct + k) != 0 ==> x != 0 && St() == s
    {
      ghost var t := St();
      IndexBelow(c, t, freeblock, i);
      var y := inodes[i].addrs[c.direct];
      x := GetWord(blocks[y], k);
      if x == 0 {
        x := NextBlock();
        if x != 0 {
          TakeEntry(c, t, i, k, x);
          ExtendTrans(c, s, t, LinkEntry(c, Take(c, t, x), i, k, x), i, c.direct + k);
          blocks := blocks[y := PutWord(blocks[y], k, x)];
          use := use[x := Data(i, c.direct + k)];
          assert St() == LinkEntry(c, Take(c, t, x), i, k, x);
        }
      } else {
        UsedBelow(c, t, freeblock, i, c.direct + k);
      }
    }

    /** iappend: src is added at the end of file i, and no other file changes.  Fails only when the
        file would be too large, where mkfs stops, or needs more blocks than the image has left. */
    method Iappend(i: nat, src: seq<Byte>) returns (ok: bool)
      requires Valid() && i < freeinode
      modifies this
      ensures ok ==> Valid() && OthersSame(c, old(St()), St(), i) && freeinode == old(freeinode) && SameType(old(inodes)[i], inodes[i])
      ensures ok ==> Contents(c, St(), i) == Splice(Contents(c, old(St()), i), old(inodes)[i].size, src)
      ensures ok ==> freeblock <= old(freeblock) + Need(c, old(inodes)[i].size + |src|) - Need(c, old(inodes)[i].size)
      ensures !ok ==>
        || old(inodes)[i].size + |src| > MaxBytes(c)
        || old(freeblock) + Need(c, old(inodes)[i].size + |src|) - Need(c, old(inodes)[i].size) > c.size
    {
      hide UseOk, AddrOk, IndexOk, WroteAt, SameAt, Blk, Ofs, MaxBytes, Addr, Need;
      ghost var s := St();
      var off := inodes[i].size;
      assert NoHole(c, s, i) && Tight(c, s, i, off);
      ok := AppendBlocks(i, src, off);
      if ok {
        AppendDone(c, s, St(), i, src);
        inodes := inodes[i := inodes[i].(size := off + |src|)];
      }
    }

    /** iappend's loop. */
    method AppendBlocks(i: nat, src: seq<Byte>, off: nat) returns (ok: bool)
      requires FilesOk(c, St()) && i < |inodes| && off == inodes[i].size <= MaxBytes(c) && Tight(c, St(), i, off)
      requires 0 < freeblock <= c.size && BlankAbove(c, blocks, freeblock)
      modifies `blocks, `inodes, `freeblock, `use
      ensures ok ==> Written(c, old(St()), St(), i, off, |src|, src) && off + |src| <= MaxBytes(c)
      ensures ok ==> 0 < freeblock <= c.size && BlankAbove(c, blocks, freeblock) && Tight(c, St(), i, off + |src|)
      ensures ok ==> freeblock <= old(freeblock) + Need(c, off + |src|) - Need(c, off)
      ensures !ok ==> old(freeblock) + Need(c, off + |src|) - Need(c, off) > c.size || off + |src| > MaxBytes(c)
    {
      hide Core, WroteAt, SameAt, ByteAt, Blk, Ofs, MaxBytes, SameButAddrs, Addr, Need;
      ghost var s := St();
      WriteNone(c, s, i, off, src);
      var tot := 0;
      while tot < |src|
        invariant 0 <= tot <= |src| && Written(c, s, St(), i, off, tot, src)
        invariant 0 < freeblock <= c.size && BlankAbove(c, blocks, freeblock) && Tight(c, St(), i, off + tot)
        invariant off + tot <= MaxBytes(c) && freeblock <= old(freeblock) + Need(c, off + tot) - Need(c, off)
      {
        if Blk(c, off + tot) >= MaxFile(c) {
          TooLarge(c, off + tot);
          return false;
        }
        var m := AppendPiece(i, off, tot, src, s);
        if m == 0 {
          return false;
        }
        tot := tot + m;
      }
      ok := true;
    }

    /** One turn of iappend's loop; 0 when the image is full. */
    method AppendPiece(i: nat, off: nat, tot: nat, src: seq<Byte>, ghost s: State) returns (m: nat)
      requires FilesOk(c, s) && Written(c, s, St(), i, off, tot, src) && tot < |src| && i < |inodes| && off == s.inodes[i].size
      requires Blk(c, off + tot) < MaxFile(c) && 0 < freeblock <= c.size && BlankAbove(c, blocks, freeblock)
      requires Tight(c, St(), i, off + tot)
      modifies `blocks, `inodes, `freeblock, `use
      ensures m == 0 ==> freeblock == c.size < old(freeblock) + Need(c, off + |src|) - Need(c, off + tot)
      ensures m != 0 ==> freeblock <= old(freeblock) + Need(c, off + tot + m) - Need(c, off + tot)
      ensures m != 0 ==> tot + m <= |src| && Written(c, s, St(), i, off, tot + m, src) && Tight(c, St(), i, off + tot + m)
      ensures m != 0 ==> 0 < freeblock <= c.size && BlankAbove(c, blocks, freeblock) && off + tot + m <= MaxBytes(c)
    {
      hide Core, WroteAt, ByteAt, Blk, Ofs, Patch, Need, Allocs;
      ghost var t := St();
      var q := off + tot;
      LastByte(c, s, t, i, off, tot, src);
      m := Min(|src| - tot, c.bsize - Ofs(c, q));
      AllocsNeeded(c, t, i, q, m);
      NeedMonotone(c, q + m, off + |src|);
      var x := BlockFor(i, Blk(c, q));
      if x == 0 {
        return 0;
      }
      ghost var u := St();
      EndInRange(c, q, m);
      TightStep(c, t, u, i, q, m);
      WriteStep(c, s, t, u, i, off, tot, m, src);
      TightStore(c, u, i, Blk(c, q), Patch(blocks[x], Ofs(c, q), src[tot..tot + m]), q + m);
      blocks := blocks[x := Patch(blocks[x], Ofs(c, q), src[tot..tot + m])];
    }

    /** The end of main: the root directory's size is rounded up.  The file system the kernel then
        finds has no hole exactly when the root's entries did not fill their last block. */
    method FixRoot(root: nat)
      requires Valid() && root < |inodes|
      modifies `inodes
      ensures inodes == old(inodes)[root := old(inodes)[root].(size := RoundedUp(c, old(inodes)[root].size))]
      ensures FilesOk(c, St()) <==> Ofs(c, old(inodes)[root].size) != 0
      ensures Inv(c, St()) && forall j: nat :: j < |inodes| && j != root ==> Contents(c, St(), j) == Contents(c, old(St()), j)
      ensures Contents(c, old(St()), root) <= Contents(c, St(), root)
    {
      hide UseOk, AddrOk, IndexOk, ByteAt, Blk, Ofs, MaxBytes, Tight, SameAt;
      ghost var s := St();
      var size := inodes[root].size;
      RootSizeIff(c, s, root);
      SetSizeKept(c, s, root, RoundedUp(c, size));
      RootAndOthers(c, s, root, RoundedUp(c, size));
      AboveSize(c, size);
      inodes := inodes[root := inodes[root].(size := (size / c.bsize + 1) * c.bsize)];
      forall j: nat | j < |inodes| && j != root ensures Contents(c, St(), j) == Contents(c, s, j) {
        OtherFileSame(c, s, St(), root, j);
      }
    }

    /** The copy loop of main: the contents of an input file, a block at a time. */
    method CopyFile(i: nat, data: seq<Byte>) returns (ok: bool)
      requires Valid() && i < freeinode && inodes[i].size == 0
      modifies this
      ensures ok ==> Valid() && OthersSame(c, old(St()), St(), i) && freeinode == old(freeinode) && SameType(old(inodes)[i], inodes[i])
      ensures ok ==> Contents(c, St(), i) == AsInts(data) && freeblock <= old(freeblock) + Need(c, |data|)
      ensures !ok ==> |data| > MaxBytes(c) || old(freeblock) + Need(c, |data|) > c.size
    {
      hide Inv, NoHole, Tight, SameAt, Need, MaxBytes, BlankAbove;
      ghost var s := St();
      CopyNone(c, s, i);
      var off := 0;
      while off < |data|
        invariant 0 <= off <= |data| && Valid() && OthersSame(c, s, St(), i) && freeinode == old(freeinode)
        invariant SameType(s.inodes[i], inodes[i])
        invariant Contents(c, St(), i) == AsInts(data[..off]) && freeblock <= old(freeblock) + Need(c, off)
      {
        ghost var t := St();
        var cc := Min(c.bsize, |data| - off);
        NeedMonotone(c, off + cc, |data|);
        ok := Iappend(i, data[off..off + cc]);
        if !ok {
          return;
        }
        OthersTrans(c, s, t, St(), i);
        CopyMore(data, off, cc);
        off := off + cc;
      }
      assert data[..off] == data;
      ok := true;
    }

    /** Adding one entry to the root directory. */
    method AddEntry(dirsiz: nat, root: nat, e: Links.Entry, ghost ents: seq<Links.Entry>) returns (ok: bool)
      requires Valid() && root < freeinode && AllFit(dirsiz, ents) && Fits(dirsiz, e)
      requires Contents(c, St(), root) == Bytes(dirsiz, ents)
      modifies this
      ensures ok ==> Valid() && OthersSame(c, old(St()), St(), root) && freeinode == old(freeinode) && SameType(old(inodes)[root], inodes[root])
      ensures ok ==> AllFit(dirsiz, ents + [e]) && Contents(c, St(), root) == Bytes(dirsiz, ents + [e])
      ensures ok ==> freeblock + Need(c, |ents| * Width(dirsiz)) <= old(freeblock) + Need(c, (|ents| + 1) * Width(dirsiz))
      ensures !ok ==>
        || (|ents| + 1) * Width(dirsiz) > MaxBytes(c)
        || old(freeblock) + Need(c, (|ents| + 1) * Width(dirsiz)) > c.size + Need(c, |ents| * Width(dirsiz))
    {
      hide Inv, NoHole, Tight, SameAt, Need, MaxBytes, BlankAbove, Bytes, Encode, Fits;
      WritesEntry(dirsiz, ents, |ents|, e);
      OneMore(|ents|, Width(dirsiz));
      ok := Iappend(root, Encode(dirsiz, e));
    }

    /** The root directory holds the entries of files, and their inodes hold their data. */
    ghost predicate Built(dirsiz: nat, files: seq<Source>)
      reads this
    {
      && Valid() && freeinode == 2 + |files| && AllFit(dirsiz, RootEntries(dirsiz, files))
      && Contents(c, St(), 1) == Bytes(dirsiz, RootEntries(dirsiz, files))
      && FilesAre(c, St(), files) && Typed(inodes, |files|)
    }

    /** main up to the files: the root directory with its two entries. */
    method MakeRoot(dirsiz: nat) returns (ok: bool)
      requires Valid() && freeinode == 1 && 2 <= dirsiz
      modifies this
      ensures ok ==> |inodes| == old(|inodes|)
      ensures ok ==> Built(dirsiz, []) && freeblock <= old(freeblock) + Need(c, 2 * Width(dirsiz))
      ensures !ok ==>
        || old(|inodes|) < 2 || 2 * Width(dirsiz) > MaxBytes(c) || old(freeblock) + Need(c, 2 * Width(dirsiz)) > c.size
    {
      hide UseOk, AddrOk, IndexOk, NoHole, Tight, SameAt, Need, MaxBytes, BlankAbove, Bytes, Encode, AllFit;
      var root;
      ok, root := Ialloc(DirKind);
      if !ok {
        return;
      }
      ghost var none: seq<Links.Entry> := [];
      var dot, dotdot := Links.Entry(1, "."), Links.Entry(1, "..");
      NoEntries(c, dirsiz);
      NeedMonotone(c, Width(dirsiz), 2 * Width(dirsiz));
      ok := AddEntry(dirsiz, root, dot, none);
      if ok {
        assert none + [dot] == [dot] && [dot] + [dotdot] == RootEntries(dirsiz, []);
        ok := AddEntry(dirsiz, root, dotdot, [dot]);
      }
    }

    /** One turn of main's loop: an inode, an entry in the root directory, and the data. */
    method AddFile(dirsiz: nat, files: seq<Source>, k: nat) returns (ok: bool)
      requires SourcesOk(dirsiz, files) && k < |files| && Built(dirsiz, files[..k])
      modifies this
      ensures ok ==> |inodes| == old(|inodes|)
      ensures ok ==> Built(dirsiz, files[..k + 1])
      ensures ok ==>
        freeblock + Need(c, (2 + k) * Width(dirsiz)) <= old(freeblock) + Need(c, (3 + k) * Width(dirsiz)) + Need(c, |files[k].data|)
      ensures !ok ==>
        || old(|inodes|) < 3 + k || (3 + k) * Width(dirsiz) > MaxBytes(c) || |files[k].data| > MaxBytes(c)
        || old(freeblock) + Need(c, (3 + k) * Width(dirsiz)) + Need(c, |files[k].data|) > c.size + Need(c, (2 + k) * Width(dirsiz))
    {
      hide Core, NoHole, Tight, SameAt, Need, MaxBytes, BlankAbove, Bytes, Encode, AllFit, Contents, RootEntries, SourcesOk, NameFor;
      ghost var before := files[..k];
      RootFits(dirsiz, files);
      RootGrows(dirsiz, files, k);
      EntryFits(dirsiz, files, k);
      var e := Links.Entry(2 + k, NameFor(dirsiz, files[k].name));
      var inum;
      ok, inum := Ialloc(FileKind);
      if !ok {
        return;
      }
      ghost var s := St();
      ok := AddEntry(dirsiz, 1, e, RootEntries(dirsiz, before));
      if !ok {
        return;
      }
      ghost var t := St();
      EntryAdded(c, before, s, t);
      ok := CopyFile(inum, files[k].data);
      if ok {
        FileAdded(c, files, k, t, St());
      }
    }

    /** main.  It succeeds whenever the inodes, the largest file and the blocks of the image suffice;
        then the image holds the files, and is a file system in order unless the entries of the root
        directory happen to fill its last block. */
    method Build(dirsiz: nat, files: seq<Source>) returns (ok: bool)
      requires Valid() && freeinode == 1 && SourcesOk(dirsiz, files)
      modifies this
      ensures ok ==> Inv(c, St()) && 2 + |files| <= |inodes| && AllFit(dirsiz, RootEntries(dirsiz, files))
      ensures ok ==> Bytes(dirsiz, RootEntries(dirsiz, files)) <= Contents(c, St(), 1)
      ensures ok ==> forall k: nat :: k < |files| ==> Contents(c, St(), 2 + k) == AsInts(files[k].data)
      ensures ok ==> Typed(inodes, |files|)
      ensures ok ==> (FilesOk(c, St()) <==> Ofs(c, (2 + |files|) * Width(dirsiz)) != 0)
      ensures !ok ==>
        || old(|inodes|) < 2 + |files| || (2 + |files|) * Width(dirsiz) > MaxBytes(c)
        || (exists k: nat :: k < |files| && |files[k].data| > MaxBytes(c))
        || old(freeblock) + Need(c, (2 + |files|) * Width(dirsiz)) + TotalNeed(c, files) > c.size
    {
      hide UseOk, AddrOk, IndexOk, NoHole, Tight, SameAt, Need, MaxBytes, BlankAbove, Bytes, AllFit, Ofs;
      Bound(c, dirsiz, files, 0);
      ok := MakeRoot(dirsiz);
      if !ok {
        return;
      }
      var k := 0;
      while k < |files|
        invariant 0 <= k <= |files| && |inodes| == old(|inodes|) && Built(dirsiz, files[..k])
        invariant freeblock <= old(freeblock) + Need(c, (2 + k) * Width(dirsiz)) + TotalNeed(c, files[..k])
      {
        Bound(c, dirsiz, files, k + 1);
        assert files[..k + 1][..k] == files[..k];
        ok := AddFile(dirsiz, files, k);
        if !ok {
          return;
        }
        k := k + 1;
      }
      assert files[..k] == files;
      FixRoot(1);
      ok := true;
    }

    /** balloc: writes the first bitmap block; with the others still zero, the bit of every block of
        the disk says whether something uses the block. */
    method Balloc() returns (buf: seq<bool>)
      requires freeblock < bpb
      ensures buf == Prefix(bpb, freeblock)
      ensures forall b: nat :: b < c.size ==> (St().used[b] <==> b < bpb && buf[b])
    {
      buf := seq(bpb, i => false);
      var i := 0;
      while i < freeblock
        invariant 0 <= i <= freeblock && buf == Prefix(bpb, i)
      {
        buf := buf[i := true];
        i := i + 1;
      }
    }
  }

  /** The files in inodes 2, 3, ... hold the data of the inputs. */
  ghost predicate FilesAre(c: Params, s: State, files: seq<Source>) {
    Sized(c, s) && 2 + |files| <= |s.inodes| && forall k: nat :: k < |files| ==> Contents(c, s, 2 + k) == AsInts(files[k].data)
  }

  lemma EntryAdded(c: Params, files: seq<Source>, s: State, t: State)
    requires Inv(c, s) && OthersSame(c, s, t, 1) && FilesAre(c, s, files) && 2 + |files| < |s.inodes|
    ensures FilesAre(c, t, files) && Contents(c, t, 2 + |files|) == Contents(c, s, 2 + |files|)
  {
    hide UseOk, AddrOk, IndexOk, SameAt;
    forall j: nat | 2 <= j <= 2 + |files| ensures Contents(c, t, j) == Contents(c, s, j) {
      OtherFileSame(c, s, t, 1, j);
    }
  }

  lemma FileAdded(c: Params, files: seq<Source>, k: nat, t: State, u: State)
    requires k < |files| && Inv(c, t) && OthersSame(c, t, u, 2 + k) && FilesAre(c, t, files[..k]) && 2 + k < |t.inodes|
    requires Contents(c, u, 2 + k) == AsInts(files[k].data)
    ensures FilesAre(c, u, files[..k + 1]) && Contents(c, u, 1) == Contents(c, t, 1)
  {
    hide UseOk, AddrOk, IndexOk, SameAt;
    OtherFileSame(c, t, u, 2 + k, 1);
    forall f: nat | f < k ensures Contents(c, u, 2 + f) == AsInts(files[f].data) {
      OtherFileSame(c, t, u, 2 + k, 2 + f);
      assert Contents(c, t, 2 + f) == AsInts(files[..k][f].data);
    }
  }

  /** What the first k files need is part of what all need. */
  lemma Bound(c: Params, dirsiz: nat, files: seq<Source>, k: nat)
    requires c.bsize > 0 && k <= |files|
    ensures (2 + k) * Width(dirsiz) <= (2 + |files|) * Width(dirsiz)
    ensures Need(c, (2 + k) * Width(dirsiz)) <= Need(c, (2 + |files|) * Width(dirsiz))
    ensures TotalNeed(c, files[..k]) <= TotalNeed(c, files)
  {
    hide Need;
    Monotone(2 + k, 2 + |files|, Width(dirsiz));
    NeedMonotone(c, (2 + k) * Width(dirsiz), (2 + |files|) * Width(dirsiz));
    TotalMonotone(c, files, k);
  }

  lemma NoEntries(c: Params, dirsiz: nat)
    requires c.bsize > 0 && 2 <= dirsiz
    ensures Need(c, 0 * Width(dirsiz)) == 0 && AllFit(dirsiz, []) && Bytes(dirsiz, []) == []
    ensures Fits(dirsiz, Links.Entry(1, ".")) && Fits(dirsiz, Links.Entry(1, ".."))
  {
    Quotient(0, 0, 0, c.bsize);
  }

  lemma CopyNone(c: Params, s: State, i: nat)
    requires Inv(c, s) && i < |s.inodes| && s.inodes[i].size == 0
    ensures OthersSame(c, s, s, i) && Contents(c, s, i) == [] && Need(c, 0) == 0
  {
    Quotient(0, 0, 0, c.bsize);
  }

  lemma CopyMore(data: seq<Byte>, off: nat, cc: nat)
    requires off + cc <= |data|
    ensures Splice(AsInts(data[..off]), off, data[off..off + cc]) == AsInts(data[..off + cc])
  {
  }

  lemma RootAndOthers(c: Params, s: State, i: nat, size: nat)
    requires FilesOk(c, s) && i < |s.inodes| && Inv(c, SetSize(s, i, size)) && OthersSame(c, s, SetSize(s, i, size), i)
    ensures FilesOk(c, SetSize(s, i, size)) <==> NoHole(c, SetSize(s, i, size), i)
  {
    var t := SetSize(s, i, size);
    if NoHole(c, t, i) {
      forall j: nat | j < |t.inodes| ensures NoHole(c, t, j) {
        if j != i {
          assert NoHole(c, s, j);
          OtherFileSame(c, s, t, i, j);
        }
      }
    }
  }

  /** Blocks from fb on have never been written. */
  ghost predicate BlankAbove(c: Params, blocks: seq<Block>, fb: nat) {
    forall b :: fb <= b < |blocks| ==> blocks[b] == ZeroBlock(c)
  }

  /** Setting the size after iappend's loop. */
  lemma AppendDone(c: Params, s: State, u: State, i: nat, src: seq<Byte>)
    requires FilesOk(c, s) && i < |s.inodes| && s.inodes[i].size + |src| <= MaxBytes(c)
    requires forall j: nat :: j < |s.inodes| ==> Tight(c, s, j, s.inodes[j].size)
    requires Written(c, s, u, i, s.inodes[i].size, |src|, src) && Tight(c, u, i, s.inodes[i].size + |src|)
    ensures var t := SetSize(u, i, s.inodes[i].size + |src|);
      && FilesOk(c, t) && OthersSame(c, s, t, i)
      && Contents(c, t, i) == Splice(Contents(c, s, i), s.inodes[i].size, src)
      && forall j: nat :: j < |t.inodes| ==> Tight(c, t, j, t.inodes[j].size)
  {
    hide Core, WroteAt, SameAt, Blk, Ofs, MaxBytes, Addr;
    var size := s.inodes[i].size + |src|;
    var t := SetSize(u, i, size);
    WriteDone(c, s, u, i, s.inodes[i].size, src);
    SetSizeTight(c, u, i, size);
    forall j: nat | j < |t.inodes| ensures Tight(c, t, j, t.inodes[j].size) {
      if j != i {
        OtherTight(c, s, t, i, j);
      }
    }
  }

  /** The byte before the place where iappend goes on is in a block. */
  lemma LastByte(c: Params, s: State, t: State, i: nat, off: nat, tot: nat, src: seq<Byte>)
    requires FilesOk(c, s) && Written(c, s, t, i, off, tot, src) && off == s.inodes[i].size
    ensures off + tot > 0 ==> ByteAt(c, t, i, off + tot - 1) >= 0
  {
    hide Core, ByteAt;
    if off + tot > 0 {
      assert NoHole(c, s, i);
      assert WroteAt(c, s, t, i, off, tot, src, off + tot - 1);
    }
  }

  lemma TooLarge(c: Params, q: nat)
    requires c.bsize > 0 && Blk(c, q) >= MaxFile(c)
    ensures q >= MaxBytes(c)
  {
    DivMod(q, c.bsize);
    Monotone(MaxFile(c), q / c.bsize, c.bsize);
  }

  lemma EndInRange(c: Params, q: nat, m: nat)
    requires c.bsize > 0 && Blk(c, q) < MaxFile(c) && Ofs(c, q) + m <= c.bsize
    ensures q + m <= MaxBytes(c)
  {
    DivMod(q, c.bsize);
    OneMore(q / c.bsize, c.bsize);
    Monotone(q / c.bsize + 1, MaxFile(c), c.bsize);
  }

  /** A block referred to lies below freeblock. */
  lemma UsedBelow(c: Params, s: State, fb: nat, i: nat, n: nat)
    requires Inv(c, s) && s.used == Prefix(c.size, fb) && i < |s.inodes| && n < MaxFile(c)
    ensures Addr(c, s, i, n) != 0 ==> Addr(c, s, i, n) < fb
  {
    assert AddrOk(c, s, i, n);
    if Addr(c, s, i, n) != 0 {
      assert UseOk(c, s, Addr(c, s, i, n));
    }
  }

  lemma IndexBelow(c: Params, s: State, fb: nat, i: nat)
    requires Inv(c, s) && s.used == Prefix(c.size, fb) && i < |s.inodes|
    ensures s.inodes[i].addrs[c.direct] != 0 ==> s.inodes[i].addrs[c.direct] < fb
  {
    assert IndexOk(c, s, i);
    if s.inodes[i].addrs[c.direct] != 0 {
      assert UseOk(c, s, s.inodes[i].addrs[c.direct]);
    }
  }

  lemma EmptyDisk(c: Params, s: State, nmeta: nat)
    requires Sized(c, s) && 0 < nmeta <= c.size && s.busy == {}
    requires s.used == Prefix(c.size, nmeta) && |s.use| == c.size && (forall b :: 0 <= b < c.size ==> s.use[b] == if b < nmeta then Meta else Free)
    requires forall i: nat :: i < |s.inodes| ==> EmptyInode(c, s.inodes[i])
    ensures FilesOk(c, s) && forall i: nat :: i < |s.inodes| ==> Tight(c, s, i, s.inodes[i].size)
  {
    forall i: nat, n: nat ensures AddrOk(c, s, i, n) {
      if i < |s.inodes| {
        EmptyNoAddr(c, s, i, n);
      }
    }
    forall b: nat | b < c.size ensures UseOk(c, s, b) {
    }
    forall i: nat ensures IndexOk(c, s, i) {
    }
    forall i: nat | i < |s.inodes| ensures Tight(c, s, i, s.inodes[i].size) && NoHole(c, s, i) {
      forall n: nat ensures Addr(c, s, i, n) == 0 {
        EmptyNoAddr(c, s, i, n);
      }
    }
  }

  /** Changing an inode's type and link count affects no file's blocks. */
  lemma Relabel(c: Params, s: State, t: State, i: nat)
    requires FilesOk(c, s) && i < |s.inodes| && t == s.(inodes := t.inodes)
    requires |t.inodes| == |s.inodes| && t.inodes == s.inodes[i := t.inodes[i]]
    requires t.inodes[i].size == s.inodes[i].size && t.inodes[i].addrs == s.inodes[i].addrs
    ensures FilesOk(c, t) && forall j: nat, n: nat :: SameAt(c, s, t, j, n)
    ensures forall j: nat :: j < |s.inodes| ==> Contents(c, t, j) == Contents(c, s, j)
  {
    assert Sized(c, t);
    forall j: nat, n: nat ensures AddrOk(c, t, j, n) && SameAt(c, s, t, j, n) {
      assert AddrOk(c, s, j, n);
    }
    forall b: nat | b < c.size ensures UseOk(c, t, b) {
      assert UseOk(c, s, b);
      if s.use[b].Data? {
        assert SameAt(c, s, t, s.use[b].i, s.use[b].n);
      }
    }
    forall j: nat ensures IndexOk(c, t, j) {
      assert IndexOk(c, s, j);
    }
    forall j: nat | j < |t.inodes| ensures NoHole(c, t, j) && Contents(c, t, j) == Contents(c, s, j) {
      assert NoHole(c, s, j);
      forall p: nat ensures ByteAt(c, t, j, p) == ByteAt(c, s, j, p) {
        assert SameAt(c, s, t, j, Blk(c, p));
        ByteSame(c, s, t, j, p);
      }
    }
  }

  lemma SameTight(c: Params, s: State, t: State, i: nat)
    requires Inv(c, s) && Sized(c, t) && i < |s.inodes| == |t.inodes| && t.inodes[i].size == s.inodes[i].size
    requires Tight(c, s, i, s.inodes[i].size) && forall n: nat :: SameAt(c, s, t, i, n)
    ensures Tight(c, t, i, t.inodes[i].size)
  {
    forall n: nat | n < MaxFile(c) && Addr(c, t, i, n) != 0 ensures n * c.bsize < t.inodes[i].size {
      assert SameAt(c, s, t, i, n);
    }
  }

  lemma {:induction false} EmptyNeed(c: Params, files: seq<Source>)
    requires c.bsize > 0 && forall k :: 0 <= k < |files| ==> files[k].data == []
    ensures TotalNeed(c, files) == 0
  {
    if files != [] {
      EmptyNeed(c, files[..|files| - 1]);
      Quotient(0, 0, 0, c.bsize);
    }
  }

  /** With the shipped constants and any 30 empty files, whatever their names, main leaves a root
      directory with a hole: 32 entries of 16 bytes fill a block of 512. */
  method ShippedRootHole(files: seq<Source>) returns (img: Image)
    requires |files| == 30 && forall k :: 0 <= k < |files| ==> IsString(files[k].name) && files[k].data == []
    ensures img.c == Params(512, 12, 128, 1000) && Inv(img.c, img.St()) && !FilesOk(img.c, img.St())
  {
    var c, sb := Params(512, 12, 128, 1000), Super(30, 200, 8, 4096, 1000);
    img := new Image(c, sb.bpb, NMeta(sb), sb.ninodes);
    EmptyNeed(c, files);
    assert Need(c, 512) == 1;
    var ok := img.Build(14, files);
  }
}
