/** The layout of the disk (fs.h, mkfs.c): boot block, super block, log, inode blocks, bitmap, data. */
module Superblock {
  import opened Arith

  /** ipb: IPB; bpb: BPB.  The log starts at block 2. */
  datatype Super = Super(nlog: nat, ninodes: nat, ipb: nat, bpb: nat, size: nat)

  function InodeStart(sb: Super): nat { 2 + sb.nlog }

  function BmapStart(sb: Super): nat
    requires sb.ipb > 0
  {
    InodeStart(sb) + (sb.ninodes / sb.ipb + 1)
  }

  /** The first data block. */
  function NMeta(sb: Super): nat
    requires sb.ipb > 0 && sb.bpb > 0
  {
    BmapStart(sb) + (sb.size / sb.bpb + 1)
  }

  /** IBLOCK */
  function IBlock(sb: Super, i: nat): nat
    requires sb.ipb > 0
  {
    i / sb.ipb + InodeStart(sb)
  }

  /** BBLOCK */
  function BBlock(sb: Super, b: nat): nat
    requires sb.ipb > 0 && sb.bpb > 0
  {
    b / sb.bpb + BmapStart(sb)
  }

  /** The records of the inodes and the bits of the blocks are all at different places, and none is
      in the log or a data block. */
  lemma LayoutSound(sb: Super, i: nat, j: nat, b: nat, d: nat)
    requires sb.ipb > 0 && sb.bpb > 0 && i < sb.ninodes && j < sb.ninodes && b < sb.size && d < sb.size
    ensures 2 + sb.nlog <= IBlock(sb, i) < BmapStart(sb) <= BBlock(sb, b) < NMeta(sb)
    ensures IBlock(sb, i) == IBlock(sb, j) && i % sb.ipb == j % sb.ipb ==> i == j
    ensures BBlock(sb, b) == BBlock(sb, d) && b % sb.bpb == d % sb.bpb ==> b == d
  {
    hide IBlock, BBlock, BmapStart, NMeta;
    InodePlace(sb, i, j);
    BitPlace(sb, b, d);
  }

  lemma InodePlace(sb: Super, i: nat, j: nat)
    requires sb.ipb > 0 && i < sb.ninodes && j < sb.ninodes
    ensures 2 + sb.nlog <= IBlock(sb, i) < BmapStart(sb)
    ensures IBlock(sb, i) == IBlock(sb, j) && i % sb.ipb == j % sb.ipb ==> i == j
  {
    QuotientBelow(i, sb.ninodes, sb.ipb);
    SamePlace(i, j, sb.ipb);
  }

  lemma BitPlace(sb: Super, b: nat, d: nat)
    requires sb.ipb > 0 && sb.bpb > 0 && b < sb.size && d < sb.size
    ensures BmapStart(sb) <= BBlock(sb, b) < NMeta(sb)
    ensures BBlock(sb, b) == BBlock(sb, d) && b % sb.bpb == d % sb.bpb ==> b == d
  {
    QuotientBelow(b, sb.size, sb.bpb);
    SamePlace(b, d, sb.bpb);
  }

  lemma QuotientBelow(a: nat, b: nat, m: nat)
    requires m > 0 && a <= b
    ensures a / m <= b / m
  {
    DivMod(a, m);
    DivMod(b, m);
    OneMore(b / m, m);
    Cancel(a / m, b / m + 1, m);
  }
}
