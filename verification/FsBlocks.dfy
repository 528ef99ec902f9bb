/** Blocks, the free bitmap and the block maps of inodes (fs.c), as the log and the buffer cache
    present them to one file-system operation.

    A block is bytes.  An indirect block is an array of 32-bit block numbers in such bytes, so what
    each block is for has to be known and kept: use says it, block by block. */
module FsBlocks {

  type Byte = x: nat | x < 256

  type Block = seq<Byte>

  /** bsize: BSIZE; direct: NDIRECT; indirect: NINDIRECT; size: the number of blocks. */
  datatype Params = Params(bsize: nat, direct: nat, indirect: nat, size: nat)

  type Short = x: int | -0x8000 <= x < 0x8000

  datatype Inode = Inode(kind: Short, major: Short, minor: Short, nlink: Short, size: nat, addrs: seq<nat>)

  /** What a block is for.  Data(i, n): block n of file i.  Index(i): the indirect block of inode i.
      Loose: just allocated.  Doomed(i, n): a block of a file that is being truncated. */
  datatype Use = Meta | Free | Loose | Data(i: nat, n: nat) | Index(i: nat) | Doomed(i: nat, n: nat)

  /** busy: inodes in the middle of itrunc. */
  datatype State = State(used: seq<bool>, blocks: seq<Block>, inodes: seq<Inode>, use: seq<Use>, busy: set<nat>)

  // ----- 32-bit numbers in a block, least significant byte first

  function GetWord(b: Block, j: nat): nat
    requires 4 * j + 4 <= |b|
  {
    var b0: nat, b1: nat, b2: nat, b3: nat := b[4 * j], b[4 * j + 1], b[4 * j + 2], b[4 * j + 3];
    b0 + 0x100 * b1 + 0x1_0000 * b2 + 0x100_0000 * b3
  }

  function PutWord(b: Block, j: nat, x: nat): (r: Block)
    requires 4 * j + 4 <= |b|
    ensures |r| == |b|
  {
    b[4 * j := x % 0x100][4 * j + 1 := x / 0x100 % 0x100][4 * j + 2 := x / 0x1_0000 % 0x100][4 * j + 3 := x / 0x100_0000 % 0x100]
  }

  lemma Digits(x: nat)
    requires x < 0x1_0000_0000
    ensures x == x % 0x100 + 0x100 * (x / 0x100 % 0x100) + 0x1_0000 * (x / 0x1_0000 % 0x100) + 0x100_0000 * (x / 0x100_0000 % 0x100)
  {
    var x1 := x / 0x100;
    var x2 := x1 / 0x100;
    var x3 := x2 / 0x100;
    assert x == 0x100 * x1 + x % 0x100 && x1 == 0x100 * x2 + x1 % 0x100 && x2 == 0x100 * x3 + x2 % 0x100;
    assert x / 0x1_0000 == x2 && x / 0x100_0000 == x3 && x3 < 0x100;
  }

  lemma GetPut(b: Block, j: nat, x: nat, k: nat)
    requires 4 * j + 4 <= |b| && 4 * k + 4 <= |b| && x < 0x1_0000_0000
    ensures GetWord(PutWord(b, j, x), k) == if k == j then x else GetWord(b, k)
  {
    if k == j {
      Digits(x);
    }
  }

  function ZeroBlock(c: Params): (r: Block)
    ensures |r| == c.bsize && forall k :: 0 <= k < |r| ==> r[k] == 0
  {
    seq(c.bsize, k => 0)
  }

  // ----- the block map

  predicate Sized(c: Params, s: State) {
    && c.bsize > 0 && 4 * c.indirect <= c.bsize && 0 < c.size <= 0x1_0000_0000
    && |s.used| == |s.blocks| == |s.use| == c.size
    && (forall b :: 0 <= b < c.size ==> |s.blocks[b]| == c.bsize)
    && (forall i :: 0 <= i < |s.inodes| ==> |s.inodes[i].addrs| == c.direct + 1)
  }

  function MaxFile(c: Params): nat {
    c.direct + c.indirect
  }

  /** The disk block of block n of file i, 0 when there is none. */
  function Addr(c: Params, s: State, i: nat, n: nat): nat
    requires Sized(c, s) && i < |s.inodes|
  {
    var a := s.inodes[i].addrs;
    if n < c.direct then a[n]
    else if n < MaxFile(c) && 0 < a[c.direct] < c.size then GetWord(s.blocks[a[c.direct]], n - c.direct)
    else 0
  }

  predicate Live(s: State, i: nat) {
    i < |s.inodes| && i !in s.busy
  }

  predicate UseOk(c: Params, s: State, b: nat)
    requires Sized(c, s) && b < c.size
  {
    && (s.used[b] <==> s.use[b] != Free)
    && match s.use[b]
       case Data(i, n) => Live(s, i) && n < MaxFile(c) && Addr(c, s, i, n) == b
       case Index(i) => Live(s, i) && s.inodes[i].addrs[c.direct] == b
       case _ => true
  }

  predicate AddrOk(c: Params, s: State, i: nat, n: nat)
    requires Sized(c, s)
  {
    Live(s, i) && n < MaxFile(c) && Addr(c, s, i, n) != 0 ==>
      Addr(c, s, i, n) < c.size && s.use[Addr(c, s, i, n)] == Data(i, n)
  }

  predicate IndexOk(c: Params, s: State, i: nat)
    requires Sized(c, s)
  {
    Live(s, i) && s.inodes[i].addrs[c.direct] != 0 ==>
      s.inodes[i].addrs[c.direct] < c.size && s.use[s.inodes[i].addrs[c.direct]] == Index(i)
  }

  /** A bit of the bitmap is set exactly for metadata and for blocks that exactly one inode slot,
      indirect pointer or indirect entry refers to. */
  ghost predicate Core(c: Params, s: State) {
    && Sized(c, s) && s.use[0] == Meta
    && (forall b: nat :: b < c.size ==> UseOk(c, s, b))
    && (forall i: nat, n: nat :: AddrOk(c, s, i, n))
    && (forall i: nat :: IndexOk(c, s, i))
  }

  predicate Settled(u: Use) {
    !u.Loose? && !u.Doomed?
  }

  /** The state between operations: no block is allocated without being referred to. */
  ghost predicate Inv(c: Params, s: State) {
    Core(c, s) && s.busy == {} && forall b :: 0 <= b < |s.use| ==> Settled(s.use[b])
  }

  /** Block n of file i is where it was, with the same contents. */
  predicate SameAt(c: Params, s: State, t: State, i: nat, n: nat)
    requires Sized(c, s) && Sized(c, t)
  {
    Live(s, i) && n < MaxFile(c) ==>
      && Live(t, i) && Addr(c, t, i, n) == Addr(c, s, i, n)
      && (0 < Addr(c, s, i, n) < c.size ==> t.blocks[Addr(c, s, i, n)] == s.blocks[Addr(c, s, i, n)])
  }

  // ----- elementary steps

  /** balloc marks block b used and zeroes it. */
  function Take(c: Params, s: State, b: nat): State
    requires Sized(c, s) && b < c.size
  {
    s.(used := s.used[b := true], blocks := s.blocks[b := ZeroBlock(c)], use := s.use[b := Loose])
  }

  function SetAddr(s: State, i: nat, k: nat, b: nat): State
    requires i < |s.inodes| && k < |s.inodes[i].addrs|
  {
    s.(inodes := s.inodes[i := s.inodes[i].(addrs := s.inodes[i].addrs[k := b])])
  }

  function LinkDirect(c: Params, s: State, i: nat, k: nat, b: nat): State
    requires Sized(c, s) && i < |s.inodes| && k < c.direct && b < c.size
  {
    SetAddr(s, i, k, b).(use := s.use[b := Data(i, k)])
  }

  function LinkIndex(c: Params, s: State, i: nat, b: nat): State
    requires Sized(c, s) && i < |s.inodes| && b < c.size
  {
    SetAddr(s, i, c.direct, b).(use := s.use[b := Index(i)])
  }

  function LinkEntry(c: Params, s: State, i: nat, j: nat, b: nat): State
    requires Sized(c, s) && i < |s.inodes| && j < c.indirect && b < c.size && s.inodes[i].addrs[c.direct] < c.size
  {
    var x := s.inodes[i].addrs[c.direct];
    s.(blocks := s.blocks[x := PutWord(s.blocks[x], j, b)], use := s.use[b := Data(i, c.direct + j)])
  }

  /** Writing a data block. */
  function Store(c: Params, s: State, b: nat, block: Block): State
    requires Sized(c, s) && b < c.size
  {
    s.(blocks := s.blocks[b := block])
  }

  /** bfree of direct block k, whose slot is then cleared. */
  function DropDirect(c: Params, s: State, i: nat, k: nat): State
    requires Sized(c, s) && i < |s.inodes| && k < c.direct && s.inodes[i].addrs[k] < c.size
  {
    var b := s.inodes[i].addrs[k];
    SetAddr(s, i, k, 0).(used := s.used[b := false], use := s.use[b := Free])
  }

  // ----- each keeps the invariant and changes only what it says

  /** A block that no file refers to does not matter to the files. */
  lemma LooseSame(c: Params, s: State, t: State, b: nat, i: nat, n: nat)
    requires Core(c, s) && Sized(c, t) && b < c.size && (s.use[b].Free? || s.use[b].Loose?)
    requires t.inodes == s.inodes && t.busy == s.busy && t.blocks == s.blocks[b := t.blocks[b]]
    ensures SameAt(c, s, t, i, n)
    ensures t.use == s.use[b := t.use[b]] && !t.use[b].Data? ==> AddrOk(c, t, i, n)
  {
    assert AddrOk(c, s, i, n) && IndexOk(c, s, i);
  }

  lemma TakeKept(c: Params, s: State, b: nat)
    requires Core(c, s) && b < c.size && s.use[b].Free?
    ensures Core(c, Take(c, s, b))
    ensures forall i: nat, n: nat :: SameAt(c, s, Take(c, s, b), i, n)
  {
    var t := Take(c, s, b);
    assert Sized(c, t);
    forall i: nat, n: nat ensures AddrOk(c, t, i, n) && SameAt(c, s, t, i, n) {
      LooseSame(c, s, t, b, i, n);
    }
    forall x: nat | x < c.size ensures UseOk(c, t, x) {
      assert UseOk(c, s, x);
      if s.use[x].Data? {
        assert SameAt(c, s, t, s.use[x].i, s.use[x].n);
      }
    }
    forall i: nat ensures IndexOk(c, t, i) {
      assert IndexOk(c, s, i);
    }
  }

  lemma LinkDirectKept(c: Params, s: State, i: nat, k: nat, b: nat)
    requires Core(c, s) && Live(s, i) && k < c.direct && 0 < b < c.size && s.use[b].Loose? && Addr(c, s, i, k) == 0
    ensures Core(c, LinkDirect(c, s, i, k, b))
    ensures Addr(c, LinkDirect(c, s, i, k, b), i, k) == b
    ensures forall j: nat, n: nat :: j != i || n != k ==> SameAt(c, s, LinkDirect(c, s, i, k, b), j, n)
  {
    var t := LinkDirect(c, s, i, k, b);
    assert Sized(c, t);
    forall j: nat, n: nat ensures AddrOk(c, t, j, n) && (j != i || n != k ==> SameAt(c, s, t, j, n)) {
      assert AddrOk(c, s, j, n) && IndexOk(c, s, j);
    }
    forall x: nat | x < c.size ensures UseOk(c, t, x) {
      assert UseOk(c, s, x);
      if s.use[x].Data? && (s.use[x].i != i || s.use[x].n != k) {
        assert SameAt(c, s, t, s.use[x].i, s.use[x].n);
      }
    }
    forall j: nat ensures IndexOk(c, t, j) {
      assert IndexOk(c, s, j);
    }
  }

  lemma ZeroWord(c: Params, j: nat)
    requires j < c.indirect && 4 * c.indirect <= c.bsize
    ensures GetWord(ZeroBlock(c), j) == 0
  {
  }

  lemma LinkIndexKept(c: Params, s: State, i: nat, b: nat)
    requires Core(c, s) && Live(s, i) && 0 < b < c.size && s.use[b].Loose? && s.blocks[b] == ZeroBlock(c)
    requires s.inodes[i].addrs[c.direct] == 0
    ensures Core(c, LinkIndex(c, s, i, b))
    ensures forall j: nat, n: nat :: SameAt(c, s, LinkIndex(c, s, i, b), j, n)
  {
    var t := LinkIndex(c, s, i, b);
    assert Sized(c, t);
    forall j: nat, n: nat ensures AddrOk(c, t, j, n) && SameAt(c, s, t, j, n) {
      assert AddrOk(c, s, j, n) && IndexOk(c, s, j);
      if c.direct <= n < MaxFile(c) {
        ZeroWord(c, n - c.direct);
      }
    }
    forall x: nat | x < c.size ensures UseOk(c, t, x) {
      assert UseOk(c, s, x);
      if s.use[x].Data? {
        assert SameAt(c, s, t, s.use[x].i, s.use[x].n);
      }
    }
    forall j: nat ensures IndexOk(c, t, j) {
      assert IndexOk(c, s, j);
    }
  }

  lemma LinkEntryAt(c: Params, s: State, i: nat, k: nat, b: nat, j: nat, n: nat)
    requires Core(c, s) && Live(s, i) && k < c.indirect && 0 < b < c.size && s.use[b].Loose?
    requires 0 < s.inodes[i].addrs[c.direct] < c.size && Addr(c, s, i, c.direct + k) == 0
    ensures Sized(c, LinkEntry(c, s, i, k, b))
    ensures AddrOk(c, LinkEntry(c, s, i, k, b), j, n)
    ensures j != i || n != c.direct + k ==> SameAt(c, s, LinkEntry(c, s, i, k, b), j, n)
    ensures Addr(c, LinkEntry(c, s, i, k, b), i, c.direct + k) == b
  {
    hide GetWord, PutWord;
    var t := LinkEntry(c, s, i, k, b);
    var x := s.inodes[i].addrs[c.direct];
    assert Sized(c, t);
    assert AddrOk(c, s, j, n) && IndexOk(c, s, j) && IndexOk(c, s, i);
    GetPut(s.blocks[x], k, b, k);
    if c.direct <= n < MaxFile(c) {
      GetPut(s.blocks[x], k, b, n - c.direct);
    }
  }

  lemma LinkEntryKept(c: Params, s: State, i: nat, k: nat, b: nat)
    requires Core(c, s) && Live(s, i) && k < c.indirect && 0 < b < c.size && s.use[b].Loose?
    requires 0 < s.inodes[i].addrs[c.direct] < c.size && Addr(c, s, i, c.direct + k) == 0
    ensures Core(c, LinkEntry(c, s, i, k, b))
    ensures Addr(c, LinkEntry(c, s, i, k, b), i, c.direct + k) == b
    ensures forall j: nat, n: nat :: j != i || n != c.direct + k ==> SameAt(c, s, LinkEntry(c, s, i, k, b), j, n)
  {
    var t := LinkEntry(c, s, i, k, b);
    hide GetWord, PutWord;
    forall j: nat, n: nat
      ensures AddrOk(c, t, j, n) && (j != i || n != c.direct + k ==> SameAt(c, s, t, j, n))
    {
      LinkEntryAt(c, s, i, k, b, j, n);
    }
    LinkEntryAt(c, s, i, k, b, i, c.direct + k);
    forall x: nat | x < c.size ensures UseOk(c, t, x) {
      assert UseOk(c, s, x);
      if s.use[x].Data? && (s.use[x].i != i || s.use[x].n != c.direct + k) {
        assert SameAt(c, s, t, s.use[x].i, s.use[x].n);
      }
    }
    forall j: nat ensures IndexOk(c, t, j) {
      assert IndexOk(c, s, j);
    }
  }

  lemma StoreKept(c: Params, s: State, i: nat, n: nat, block: Block)
    requires Core(c, s) && Live(s, i) && n < MaxFile(c) && Addr(c, s, i, n) != 0 && |block| == c.bsize
    ensures Addr(c, s, i, n) < c.size && Core(c, Store(c, s, Addr(c, s, i, n), block))
    ensures Addr(c, Store(c, s, Addr(c, s, i, n), block), i, n) == Addr(c, s, i, n)
    ensures forall j: nat, m: nat :: j != i || m != n ==> SameAt(c, s, Store(c, s, Addr(c, s, i, n), block), j, m)
  {
    assert AddrOk(c, s, i, n) && IndexOk(c, s, i);
    var b := Addr(c, s, i, n);
    var t := Store(c, s, b, block);
    assert Sized(c, t);
    forall j: nat, m: nat ensures AddrOk(c, t, j, m) && (j != i || m != n ==> SameAt(c, s, t, j, m)) {
      assert AddrOk(c, s, j, m) && IndexOk(c, s, j);
    }
    assert AddrOk(c, t, i, n);
    forall x: nat | x < c.size ensures UseOk(c, t, x) {
      assert UseOk(c, s, x);
      if s.use[x].Data? {
        assert AddrOk(c, s, s.use[x].i, s.use[x].n) && IndexOk(c, s, s.use[x].i);
      }
    }
    forall j: nat ensures IndexOk(c, t, j) {
      assert IndexOk(c, s, j);
    }
  }

  lemma DropDirectKept(c: Params, s: State, i: nat, k: nat)
    requires Core(c, s) && Live(s, i) && k < c.direct && s.inodes[i].addrs[k] != 0
    ensures s.inodes[i].addrs[k] < c.size && s.used[s.inodes[i].addrs[k]]
    ensures Core(c, DropDirect(c, s, i, k))
    ensures Addr(c, DropDirect(c, s, i, k), i, k) == 0
    ensures forall j: nat, n: nat :: j != i || n != k ==> SameAt(c, s, DropDirect(c, s, i, k), j, n)
  {
    assert AddrOk(c, s, i, k);
    assert UseOk(c, s, s.inodes[i].addrs[k]);
    var t := DropDirect(c, s, i, k);
    assert Sized(c, t);
    forall j: nat, n: nat ensures AddrOk(c, t, j, n) && (j != i || n != k ==> SameAt(c, s, t, j, n)) {
      assert AddrOk(c, s, j, n) && IndexOk(c, s, j);
    }
    forall x: nat | x < c.size ensures UseOk(c, t, x) {
      assert UseOk(c, s, x);
      if s.use[x].Data? && (s.use[x].i != i || s.use[x].n != k) {
        assert SameAt(c, s, t, s.use[x].i, s.use[x].n);
      }
    }
    forall j: nat ensures IndexOk(c, t, j) {
      assert IndexOk(c, s, j);
    }
  }
}
