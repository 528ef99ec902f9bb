/** The Kernighan and Ritchie allocator of umalloc.c: a circular, address-ordered free list
    with coalescing.

    Addresses count Header-sized units; 0 is the null pointer.  `base` is the static list head,
    below everything sbrk returns.  A header cell is read and written through `mem`; the
    program's own writes go elsewhere (see UserWrite).  Each call of malloc may ask sbrk once
    (this is proved), so the answer sbrk would give is a parameter. */
module Umalloc {

  datatype Header = Header(ptr: nat, size: nat)

  type Memory = map<nat, Header>

  // ----- blocks and the units they cover

  /** `blk` gives the size of every block, free or live; `tag` gives, for every unit obtained
      from sbrk, the block it belongs to.  That `tag` is a function makes blocks disjoint; that
      it is onto the units makes nothing leak. */
  ghost predicate TagOk(blk: map<nat, nat>, tag: map<nat, nat>) {
    && (forall a :: a in tag ==> tag[a] in blk && tag[a] <= a < tag[a] + blk[tag[a]])
    && (forall b :: b in blk ==> blk[b] >= 1 && Covers(tag, b, blk[b]))
  }

  /** The `n` units from `b` on all belong to block `b`. */
  ghost predicate Covers(tag: map<nat, nat>, b: nat, n: nat) {
    forall a :: b <= a < b + n ==> a in tag && tag[a] == b
  }

  lemma UnitOf(blk: map<nat, nat>, tag: map<nat, nat>, b: nat, a: nat)
    requires TagOk(blk, tag) && b in blk && b <= a < b + blk[b]
    ensures a in tag && tag[a] == b
  {
    assert Covers(tag, b, blk[b]);
  }

  lemma OwnHeader(blk: map<nat, nat>, tag: map<nat, nat>, b: nat)
    requires TagOk(blk, tag) && b in blk
    ensures b in tag && tag[b] == b
  {
    UnitOf(blk, tag, b, b);
  }

  /** Two blocks do not overlap: the lower one ends before the upper one starts. */
  lemma Disjoint(blk: map<nat, nat>, tag: map<nat, nat>, b: nat, c: nat)
    requires TagOk(blk, tag) && b in blk && c in blk && b < c
    ensures b + blk[b] <= c
  {
    hide Covers;
    UnitOf(blk, tag, c, c);
    if c < b + blk[b] { UnitOf(blk, tag, b, c); }
  }

  /** Every unit of block `from` becomes a unit of block `to`. */
  function Retag(tag: map<nat, nat>, from: nat, to: nat): map<nat, nat> {
    map a | a in tag :: if tag[a] == from then to else tag[a]
  }

  lemma CoversMoved(tag: map<nat, nat>, tag': map<nat, nat>, b: nat, n: nat)
    requires Covers(tag, b, n)
    requires forall a :: a in tag && tag[a] == b && b <= a < b + n ==> a in tag' && tag'[a] == b
    ensures Covers(tag', b, n)
  {
  }

  lemma CoversJoined(tag: map<nat, nat>, b: nat, n: nat, m: nat)
    requires Covers(tag, b, n) && Covers(tag, b + n, m)
    ensures Covers(Retag(tag, b + n, b), b, n + m)
  {
  }

  lemma CoversCut(tag: map<nat, nat>, b: nat, n: nat, c: nat)
    requires Covers(tag, b, n) && b <= c <= b + n
    ensures Covers(Cut(tag, b, c), b, c - b) && Covers(Cut(tag, b, c), c, b + n - c)
  {
  }

  /** Joining block `c` to the block `b` that ends where it starts. */
  lemma Join(blk: map<nat, nat>, tag: map<nat, nat>, b: nat, c: nat)
    requires TagOk(blk, tag) && b in blk && c in blk && b + blk[b] == c
    ensures TagOk((blk - {c})[b := blk[b] + blk[c]], Retag(tag, c, b))
  {
    hide Covers;
    var blk' := (blk - {c})[b := blk[b] + blk[c]];
    var tag' := Retag(tag, c, b);
    CoversJoined(tag, b, blk[b], blk[c]);
    forall x | x in blk' ensures blk'[x] >= 1 && Covers(tag', x, blk'[x]) {
      if x != b { CoversMoved(tag, tag', x, blk[x]); }
    }
  }

  /** Cutting the last units, from `at` on, off block `b`. */
  function Cut(tag: map<nat, nat>, b: nat, at: nat): map<nat, nat> {
    map a | a in tag :: if tag[a] == b && a >= at then at else tag[a]
  }

  lemma Split(blk: map<nat, nat>, tag: map<nat, nat>, b: nat, s: nat)
    requires TagOk(blk, tag) && b in blk && 1 <= s < blk[b]
    ensures var c := b + blk[b] - s;
            c !in blk && TagOk(blk[b := blk[b] - s][c := s], Cut(tag, b, c))
  {
    hide Covers;
    var c := b + blk[b] - s;
    if c in blk { Disjoint(blk, tag, b, c); }
    var blk' := blk[b := blk[b] - s][c := s];
    var tag' := Cut(tag, b, c);
    CoversCut(tag, b, blk[b], c);
    forall x | x in blk' ensures blk'[x] >= 1 && Covers(tag', x, blk'[x]) {
      if x != b && x != c { CoversMoved(tag, tag', x, blk[x]); }
    }
  }

  /** A fresh block of `n` units at `b`, above everything so far. */
  function Grow(tag: map<nat, nat>, b: nat, n: nat): map<nat, nat> {
    map a | a in tag.Keys + Span(b, n) :: if a in tag then tag[a] else b
  }

  /** The units b .. b + n - 1. */
  function Span(b: nat, n: nat): (r: set<nat>)
    ensures forall x :: x in r <==> b <= x < b + n
  {
    if n == 0 then {} else Span(b, n - 1) + {b + n - 1}
  }

  lemma CoversNew(tag: map<nat, nat>, b: nat, n: nat)
    requires forall a :: a in tag ==> a < b
    ensures Covers(Grow(tag, b, n), b, n)
  {
  }

  lemma Fresh(blk: map<nat, nat>, tag: map<nat, nat>, b: nat, n: nat)
    requires TagOk(blk, tag) && n >= 1
    requires forall a :: a in tag ==> a < b
    ensures b !in blk && TagOk(blk[b := n], Grow(tag, b, n))
  {
    hide Covers;
    if b in blk { UnitOf(blk, tag, b, b); }
    var blk' := blk[b := n];
    var tag' := Grow(tag, b, n);
    forall a | a in tag' ensures tag'[a] in blk' && tag'[a] <= a < tag'[a] + blk'[tag'[a]] {
    }
    forall x | x in blk' ensures blk'[x] >= 1 && Covers(tag', x, blk'[x]) {
      if x != b { CoversMoved(tag, tag', x, blk[x]); } else { CoversNew(tag, b, n); }
    }
  }

  // ----- the ring

  function Succ(k: nat, n: nat): nat { if k + 1 < n then k + 1 else 0 }

  /** Ring entry `k` has a header cell that points to the next entry. */
  ghost predicate LinkAt(mem: Memory, ring: seq<nat>, k: nat) {
    k < |ring| && ring[k] in mem && mem[ring[k]].ptr == ring[Succ(k, |ring|)]
  }

  /** Entry `k` ends at or before the start of entry `k + 1`, which is above it. */
  ghost predicate BelowNext(mem: Memory, ring: seq<nat>, k: nat) {
    k + 1 < |ring| && ring[k] in mem && ring[k] < ring[k + 1] && ring[k] + mem[ring[k]].size <= ring[k + 1]
  }

  /** Entries `k` and `k + 1` do not touch. */
  ghost predicate ApartAt(mem: Memory, ring: seq<nat>, k: nat) {
    k + 1 < |ring| && ring[k] in mem && ring[k] + mem[ring[k]].size != ring[k + 1]
  }

  /** `ring` lists the free list from `base` on; the last block points back to `base`. */
  ghost predicate Links(mem: Memory, ring: seq<nat>) {
    |ring| >= 1 && forall k: nat :: k < |ring| ==> LinkAt(mem, ring, k)
  }

  /** Addresses go up along the ring, and blocks do not overlap. */
  ghost predicate Ordered(mem: Memory, ring: seq<nat>) {
    forall k: nat :: k + 1 < |ring| ==> BelowNext(mem, ring, k)
  }

  /** Fully coalesced: no free block ends where the next one starts. */
  ghost predicate Coalesced(mem: Memory, ring: seq<nat>) {
    forall k: nat :: k + 1 < |ring| ==> ApartAt(mem, ring, k)
  }

  lemma {:induction false} Ascending(mem: Memory, ring: seq<nat>, j: nat, k: nat)
    requires Ordered(mem, ring) && j < k < |ring|
    ensures ring[j] < ring[k]
  {
    if j + 1 < k { Ascending(mem, ring, j, k - 1); }
    assert BelowNext(mem, ring, k - 1);
  }

  function InsertIn(ring: seq<nat>, i: nat, bp: nat): (r: seq<nat>)
    requires i < |ring|
    ensures |r| == |ring| + 1
    ensures forall k: nat {:trigger r[k]} :: k < |r| ==> r[k] == if k <= i then ring[k] else if k == i + 1 then bp else ring[k - 1]
  {
    ring[..i + 1] + [bp] + ring[i + 1..]
  }

  /** `bp` fits between ring[i] and its successor. */
  ghost predicate FitsAt(mem: Memory, ring: seq<nat>, i: nat, bp: nat) {
    && i < |ring| && ring[i] in mem && bp in mem
    && ring[i] < bp && ring[i] + mem[ring[i]].size <= bp
    && (i + 1 < |ring| ==> bp < ring[i + 1] && bp + mem[bp].size <= ring[i + 1])
  }

  function LinkAfter(mem: Memory, p: nat, bp: nat): Memory
    requires p in mem && bp in mem
  {
    mem[bp := Header(mem[p].ptr, mem[bp].size)][p := Header(bp, mem[p].size)]
  }

  lemma Elsewhere(mem: Memory, ring: seq<nat>, i: nat, bp: nat, k: nat)
    requires Links(mem, ring) && Ordered(mem, ring) && FitsAt(mem, ring, i, bp) && k < |ring| && k != i
    ensures ring[k] != ring[i] && ring[k] != bp
    ensures ring[k] in mem && LinkAfter(mem, ring[i], bp)[ring[k]] == mem[ring[k]]
  {
    assert LinkAt(mem, ring, k);
    if k < i {
      Ascending(mem, ring, k, i);
    } else {
      Ascending(mem, ring, i, k);
      if k > i + 1 { Ascending(mem, ring, i + 1, k); }
    }
  }

  /** Linking `bp` in after ring[i] keeps the ring linked and ordered. */
  lemma Insert(mem: Memory, ring: seq<nat>, i: nat, bp: nat)
    requires Links(mem, ring) && Ordered(mem, ring) && FitsAt(mem, ring, i, bp)
    ensures Links(LinkAfter(mem, ring[i], bp), InsertIn(ring, i, bp))
    ensures Ordered(LinkAfter(mem, ring[i], bp), InsertIn(ring, i, bp))
  {
    var mem', ring' := LinkAfter(mem, ring[i], bp), InsertIn(ring, i, bp);
    forall k: nat | k < |ring'| ensures LinkAt(mem', ring', k) {
      var j := if k <= i then k else k - 1;
      assert LinkAt(mem, ring, j);
      if j != i { Elsewhere(mem, ring, i, bp, j); }
    }
    forall k: nat | k + 1 < |ring'| ensures BelowNext(mem', ring', k) {
      var j := if k <= i then k else k - 1;
      if j + 1 < |ring| { assert BelowNext(mem, ring, j); }
      if j != i { Elsewhere(mem, ring, i, bp, j); }
    }
  }

  /** The ring without entry k + 1, which has been joined to entry k. */
  function DropAfter(ring: seq<nat>, k: nat): (r: seq<nat>)
    requires k + 1 < |ring|
    ensures |r| == |ring| - 1
    ensures forall j: nat {:trigger r[j]} :: j < |r| ==> r[j] == if j <= k then ring[j] else ring[j + 1]
  {
    ring[..k + 1] + ring[k + 2..]
  }

  function JoinNext(mem: Memory, p: nat, q: nat): Memory
    requires p in mem && q in mem
  {
    mem[p := Header(mem[q].ptr, mem[p].size + mem[q].size)]
  }

  /** Joining entry i + 1 to entry i, or just unlinking it, keeps the ring linked. */
  lemma Unlink(mem: Memory, ring: seq<nat>, i: nat, size: nat)
    requires Links(mem, ring) && Ordered(mem, ring) && i + 1 < |ring|
    requires i + 2 < |ring| ==> ring[i] + size <= ring[i + 2]
    ensures ring[i] in mem && ring[i + 1] in mem
    ensures Links(mem[ring[i] := Header(mem[ring[i + 1]].ptr, size)], DropAfter(ring, i))
    ensures Ordered(mem[ring[i] := Header(mem[ring[i + 1]].ptr, size)], DropAfter(ring, i))
  {
    assert LinkAt(mem, ring, i) && LinkAt(mem, ring, i + 1);
    var mem', ring' := mem[ring[i] := Header(mem[ring[i + 1]].ptr, size)], DropAfter(ring, i);
    forall k: nat | k < |ring'| ensures LinkAt(mem', ring', k) {
      var j := if k <= i then k else k + 1;
      assert LinkAt(mem, ring, j);
      if j < i { Ascending(mem, ring, j, i); } else if j > i { Ascending(mem, ring, i, j); }
    }
    forall k: nat | k + 1 < |ring'| ensures BelowNext(mem', ring', k) {
      var j := if k <= i then k else k + 1;
      assert BelowNext(mem, ring, j) && BelowNext(mem, ring, i);
      if j < i {
        Ascending(mem, ring, j, i);
      } else if j > i {
        Ascending(mem, ring, i, j);
      } else {
        Ascending(mem, ring, i, i + 2);
      }
    }
  }

  // ----- the heap

  datatype State = State(
    mem: Memory,
    freep: nat,
    ring: seq<nat>,            // the free list in address order, from base on; [] before the first call
    blk: map<nat, nat>,        // block -> size, free and live
    live: set<nat>,            // blocks handed out and not yet freed
    tag: map<nat, nat>,        // unit -> its block
    brk: nat)                  // end of the memory obtained from sbrk

  ghost predicate FreeBlockAt(h: State, k: nat) {
    k < |h.ring| && h.ring[k] in h.blk && h.ring[k] !in h.live
  }

  /** The ring lists exactly the free blocks, after `base`. */
  ghost predicate RingOk(base: nat, h: State) {
    && Links(h.mem, h.ring) && Ordered(h.mem, h.ring)
    && h.ring[0] == base && base in h.mem && h.mem[base].size == 0
    && (forall k: nat :: 1 <= k < |h.ring| ==> FreeBlockAt(h, k))
    && (forall b :: b in h.blk && b !in h.live ==> b in h.ring)
  }

  ghost predicate BlocksOk(base: nat, h: State) {
    && 0 < base < h.brk
    && TagOk(h.blk, h.tag)
    && (forall a :: a in h.tag ==> base < a < h.brk)
    && (forall b :: b in h.blk ==> b in h.mem && h.mem[b].size == h.blk[b])
    && h.live <= h.blk.Keys
  }

  ghost predicate Inv(base: nat, h: State) {
    && BlocksOk(base, h)
    && (h.freep == 0 ==> h.ring == [] && h.blk == map[])
    && (h.freep != 0 ==> RingOk(base, h) && Coalesced(h.mem, h.ring) && h.freep in h.ring)
  }

  ghost predicate IsFree(h: State, a: nat) {
    a in h.tag && h.tag[a] !in h.live
  }

  lemma AboveBase(base: nat, h: State, b: nat)
    requires BlocksOk(base, h) && b in h.blk
    ensures base < b
  {
    UnitOf(h.blk, h.tag, b, b);
  }

  // ----- free

  ghost predicate SlotFor(ring: seq<nat>, i: nat, bp: nat) {
    i < |ring| && ring[i] < bp && (i + 1 < |ring| ==> bp < ring[i + 1])
  }

  function Inserted(h: State, i: nat, bp: nat): State
    requires i < |h.ring| && h.ring[i] in h.mem && bp in h.mem
  {
    h.(mem := LinkAfter(h.mem, h.ring[i], bp), ring := InsertIn(h.ring, i, bp), live := h.live - {bp})
  }

  lemma SlotFits(base: nat, h: State, i: nat, bp: nat)
    requires BlocksOk(base, h) && RingOk(base, h) && bp in h.live && SlotFor(h.ring, i, bp)
    ensures FitsAt(h.mem, h.ring, i, bp)
  {
    assert LinkAt(h.mem, h.ring, i);
    if i >= 1 { assert FreeBlockAt(h, i); Disjoint(h.blk, h.tag, h.ring[i], bp); }
    if i + 1 < |h.ring| { assert FreeBlockAt(h, i + 1); Disjoint(h.blk, h.tag, bp, h.ring[i + 1]); }
  }

  lemma InsertedOk(base: nat, h: State, i: nat, bp: nat)
    requires BlocksOk(base, h) && RingOk(base, h) && bp in h.live && SlotFor(h.ring, i, bp)
    ensures h.ring[i] in h.mem && bp in h.mem && bp in h.blk
    ensures BlocksOk(base, Inserted(h, i, bp)) && RingOk(base, Inserted(h, i, bp))
    ensures forall a: nat :: IsFree(Inserted(h, i, bp), a) <==> IsFree(h, a) || bp <= a < bp + h.blk[bp]
  {
    SlotFits(base, h, i, bp);
    Insert(h.mem, h.ring, i, bp);
    AboveBase(base, h, bp);
    assert LinkAt(h.mem, h.ring, i);
    var h' := Inserted(h, i, bp);
    forall k: nat | 1 <= k < |h'.ring| ensures FreeBlockAt(h', k) {
      if k != i + 1 { 
        var j := if k <= i then k else k - 1;
        assert FreeBlockAt(h, j);
      }
    }
    InsertKeeps(h.ring, i, bp);
    forall a: nat ensures IsFree(h', a) <==> IsFree(h, a) || bp <= a < bp + h.blk[bp] {
      if bp <= a < bp + h.blk[bp] { UnitOf(h.blk, h.tag, bp, a); }
    }
  }

  lemma InsertKeeps(ring: seq<nat>, i: nat, bp: nat)
    requires i < |ring|
    ensures forall b :: b in ring || b == bp ==> b in InsertIn(ring, i, bp)
  {
    var r := InsertIn(ring, i, bp);
    assert r[i + 1] == bp;
    forall b | b in ring ensures b in r {
      var k :| 0 <= k < |ring| && ring[k] == b;
      assert r[if k <= i then k else k + 1] == b;
    }
  }

  ghost predicate Touch(h: State, j: nat) {
    j + 1 < |h.ring| && h.ring[j] in h.mem && h.ring[j + 1] in h.mem &&
    h.ring[j] + h.mem[h.ring[j]].size == h.ring[j + 1]
  }

  /** Joining ring entry j + 1 to entry j. */
  function Joined(h: State, j: nat): State
    requires j + 1 < |h.ring| && h.ring[j] in h.mem && h.ring[j + 1] in h.mem
    requires h.ring[j] in h.blk && h.ring[j + 1] in h.blk
  {
    var p, q := h.ring[j], h.ring[j + 1];
    h.(mem := JoinNext(h.mem, p, q), ring := DropAfter(h.ring, j),
       blk := (h.blk - {q})[p := h.blk[p] + h.blk[q]], tag := Retag(h.tag, q, p))
  }

  lemma JoinedRing(base: nat, h: State, j: nat)
    requires BlocksOk(base, h) && RingOk(base, h) && 1 <= j && Touch(h, j)
    requires FreeBlockAt(h, j) && FreeBlockAt(h, j + 1)
    ensures RingOk(base, Joined(h, j))
  {
    hide TagOk;
    var p, q := h.ring[j], h.ring[j + 1];
    var h' := Joined(h, j);
    if j + 2 < |h.ring| { assert BelowNext(h.mem, h.ring, j + 1); }
    Unlink(h.mem, h.ring, j, h.mem[p].size + h.mem[q].size);
    Ascending(h.mem, h.ring, 0, j);
    forall k: nat | 1 <= k < |h'.ring| ensures FreeBlockAt(h', k) {
      assert FreeBlockAt(h, if k <= j then k else k + 1);
      if k <= j { Ascending(h.mem, h.ring, k, j + 1); } else { Ascending(h.mem, h.ring, j + 1, k + 1); }
    }
    forall b | b in h'.blk && b !in h'.live ensures b in h'.ring {
      var k :| 0 <= k < |h.ring| && h.ring[k] == b;
      assert h'.ring[if k <= j then k else k - 1] == b;
    }
  }

  lemma JoinedOk(base: nat, h: State, j: nat)
    requires BlocksOk(base, h) && RingOk(base, h) && 1 <= j && Touch(h, j)
    ensures FreeBlockAt(h, j) && FreeBlockAt(h, j + 1)
    ensures BlocksOk(base, Joined(h, j)) && RingOk(base, Joined(h, j))
    ensures forall a: nat :: IsFree(Joined(h, j), a) <==> IsFree(h, a)
  {
    hide TagOk;
    var p, q := h.ring[j], h.ring[j + 1];
    assert FreeBlockAt(h, j) && FreeBlockAt(h, j + 1);
    JoinedRing(base, h, j);
    Join(h.blk, h.tag, p, q);
    hide RingOk;
    var h' := Joined(h, j);
    assert forall b :: b in h'.blk ==> b in h'.mem && h'.mem[b].size == h'.blk[b];
  }

  /** Entries other than `i` and `j` do not touch their successors. */
  ghost predicate ApartBut(mem: Memory, ring: seq<nat>, i: nat, j: nat) {
    forall k: nat :: k + 1 < |ring| && k != i && k != j ==> ApartAt(mem, ring, k)
  }

  lemma InsertedApart(base: nat, h: State, i: nat, bp: nat)
    requires BlocksOk(base, h) && RingOk(base, h) && bp in h.live && SlotFor(h.ring, i, bp)
    requires Coalesced(h.mem, h.ring) && h.ring[i] in h.mem && bp in h.mem
    ensures ApartBut(Inserted(h, i, bp).mem, Inserted(h, i, bp).ring, i, i + 1)
  {
    hide TagOk;
    SlotFits(base, h, i, bp);
    var h' := Inserted(h, i, bp);
    forall k: nat | k + 1 < |h'.ring| && k != i && k != i + 1 ensures ApartAt(h'.mem, h'.ring, k) {
      var j := if k < i then k else k - 1;
      assert ApartAt(h.mem, h.ring, j);
      Elsewhere(h.mem, h.ring, i, bp, j);
    }
  }

  /** Joining at `j` leaves only entry `i` possibly touching its successor. */
  lemma JoinedApart(base: nat, h: State, i: nat, j: nat)
    requires BlocksOk(base, h) && RingOk(base, h) && 1 <= j && Touch(h, j) && i <= j
    requires FreeBlockAt(h, j) && FreeBlockAt(h, j + 1)
    requires ApartBut(h.mem, h.ring, i, j)
    ensures ApartBut(Joined(h, j).mem, Joined(h, j).ring, i, if i < j then i else |h.ring|)
    ensures i == j ==> Coalesced(Joined(h, j).mem, Joined(h, j).ring)
  {
    hide TagOk;
    var h' := Joined(h, j);
    forall k: nat | k + 1 < |h'.ring| && (k != i || i == j) ensures ApartAt(h'.mem, h'.ring, k) {
      assert ApartAt(h.mem, h.ring, if k < j then k else k + 1);
      if k < j { Ascending(h.mem, h.ring, k, j); } else { Ascending(h.mem, h.ring, j, k + 1); }
    }
  }

  /** What free leaves: the block linked in after ring[i], then joined to its neighbours. */
  ghost function FreedUp(base: nat, h: State, i: nat, bp: nat): State
    requires BlocksOk(base, h) && RingOk(base, h) && bp in h.live && SlotFor(h.ring, i, bp)
  {
    InsertedOk(base, h, i, bp);
    var h1 := Inserted(h, i, bp);
    if Touch(h1, i + 1) then JoinedOk(base, h1, i + 1); Joined(h1, i + 1) else h1
  }

  ghost function Freed(base: nat, h: State, i: nat, bp: nat): State
    requires BlocksOk(base, h) && RingOk(base, h) && bp in h.live && SlotFor(h.ring, i, bp)
  {
    FreedUpOk(base, h, i, bp);
    var h2 := FreedUp(base, h, i, bp);
    if i >= 1 && Touch(h2, i) then JoinedOk(base, h2, i); Joined(h2, i).(freep := h.ring[i])
    else h2.(freep := h.ring[i])
  }

  lemma FreedUpFree(base: nat, h: State, i: nat, bp: nat)
    requires BlocksOk(base, h) && RingOk(base, h) && bp in h.live && SlotFor(h.ring, i, bp)
    ensures bp in h.blk
    ensures BlocksOk(base, FreedUp(base, h, i, bp)) && RingOk(base, FreedUp(base, h, i, bp))
    ensures forall a: nat :: IsFree(FreedUp(base, h, i, bp), a) <==> IsFree(h, a) || bp <= a < bp + h.blk[bp]
  {
    hide TagOk, RingOk, BlocksOk, IsFree, Links, Ordered, Inserted, Joined;
    InsertedOk(base, h, i, bp);
    var h1 := Inserted(h, i, bp);
    if Touch(h1, i + 1) { JoinedOk(base, h1, i + 1); }
  }

  lemma FreedUpShape(base: nat, h: State, i: nat, bp: nat)
    requires BlocksOk(base, h) && RingOk(base, h) && bp in h.live && SlotFor(h.ring, i, bp)
    ensures bp in h.blk
    ensures var h2 := FreedUp(base, h, i, bp);
            && h2.live == h.live - {bp} && h2.brk == h.brk
            && i + 1 < |h2.ring| && h2.ring[i] == h.ring[i] && h2.ring[i + 1] == bp
            && h2.tag.Keys == h.tag.Keys && bp in h2.blk && h2.blk[bp] >= h.blk[bp]
            && (forall b :: b in h.live && b != bp ==> b in h2.blk && h2.blk[b] == h.blk[b])
  {
    hide TagOk, RingOk, BlocksOk, IsFree, Links, Ordered;
    InsertedOk(base, h, i, bp);
    var h1 := Inserted(h, i, bp);
    if Touch(h1, i + 1) { JoinedOk(base, h1, i + 1); }
  }

  lemma FreedUpOk(base: nat, h: State, i: nat, bp: nat)
    requires BlocksOk(base, h) && RingOk(base, h) && bp in h.live && SlotFor(h.ring, i, bp)
    ensures bp in h.blk
    ensures var h2 := FreedUp(base, h, i, bp);
            && BlocksOk(base, h2) && RingOk(base, h2) && h2.live == h.live - {bp} && h2.brk == h.brk
            && i + 1 < |h2.ring| && h2.ring[i] == h.ring[i] && h2.ring[i + 1] == bp
            && h2.tag.Keys == h.tag.Keys && bp in h2.blk && h2.blk[bp] >= h.blk[bp]
            && (forall b :: b in h.live && b != bp ==> b in h2.blk && h2.blk[b] == h.blk[b])
            && forall a: nat :: IsFree(h2, a) <==> IsFree(h, a) || bp <= a < bp + h.blk[bp]
  {
    hide TagOk, RingOk, BlocksOk, IsFree, Links, Ordered, FreedUp;
    FreedUpFree(base, h, i, bp);
    FreedUpShape(base, h, i, bp);
  }

  lemma FreedUpApart(base: nat, h: State, i: nat, bp: nat)
    requires BlocksOk(base, h) && RingOk(base, h) && bp in h.live && SlotFor(h.ring, i, bp)
    requires Coalesced(h.mem, h.ring)
    ensures ApartBut(FreedUp(base, h, i, bp).mem, FreedUp(base, h, i, bp).ring, i, i)
  {
    hide TagOk, IsFree, Links, Ordered, BlocksOk, RingOk;
    InsertedOk(base, h, i, bp);
    InsertedApart(base, h, i, bp);
    var h1 := Inserted(h, i, bp);
    if Touch(h1, i + 1) {
      JoinedOk(base, h1, i + 1);
      JoinedApart(base, h1, i, i + 1);
    } else {
      NotTouching(base, h1, i, i + 1);
    }
  }

  lemma NotTouching(base: nat, h: State, i: nat, j: nat)
    requires RingOk(base, h) && !Touch(h, j) && ApartBut(h.mem, h.ring, i, j)
    ensures ApartBut(h.mem, h.ring, i, i)
    ensures i == j ==> Coalesced(h.mem, h.ring)
  {
    if j + 1 < |h.ring| {
      assert LinkAt(h.mem, h.ring, j) && LinkAt(h.mem, h.ring, j + 1);
      assert ApartAt(h.mem, h.ring, j);
    }
  }

  /** Some free block has at least `n` units. */
  ghost predicate HasFit(h: State, n: nat) {
    exists b: nat :: Fits(h, n, b)
  }

  ghost predicate Fits(h: State, n: nat, b: nat) {
    b in h.blk && b !in h.live && h.blk[b] >= n
  }

  /** free keeps the whole invariant, frees exactly the block's units and moves no unit in or
      out of the heap. */
  lemma FreedOk(base: nat, h: State, i: nat, bp: nat)
    requires Inv(base, h) && h.freep != 0 && bp in h.live && SlotFor(h.ring, i, bp)
    ensures var h' := Freed(base, h, i, bp);
            && Inv(base, h') && h'.freep == h.ring[i] && h'.live == h.live - {bp} && h'.brk == h.brk
            && h'.tag.Keys == h.tag.Keys && HasFit(h', h.blk[bp])
            && (forall b :: b in h.live && b != bp ==> b in h'.blk && h'.blk[b] == h.blk[b])
            && forall a: nat :: IsFree(h', a) <==> IsFree(h, a) || bp <= a < bp + h.blk[bp]
  {
    hide TagOk, IsFree, FreedUp, Links, Ordered, BlocksOk, RingOk, Coalesced, ApartBut;
    FreedUpOk(base, h, i, bp);
    FreedUpApart(base, h, i, bp);
    var h2 := FreedUp(base, h, i, bp);
    RingAboveZero(base, h, i);
    if i >= 1 && Touch(h2, i) {
      JoinedOk(base, h2, i);
      JoinedApart(base, h2, i, i);
      assert Joined(h2, i).ring[i] == h.ring[i];
      WithFreep(base, Joined(h2, i), i);
      assert FreeBlockAt(Freed(base, h, i, bp), i) && Fits(Freed(base, h, i, bp), h.blk[bp], h.ring[i]);
    } else {
      if i == 0 { BaseApart(base, h2); }
      NotTouching(base, h2, i, i);
      WithFreep(base, h2, i);
      assert FreeBlockAt(Freed(base, h, i, bp), i + 1) && Fits(Freed(base, h, i, bp), h.blk[bp], bp);
    }
  }

  lemma RingAboveZero(base: nat, h: State, i: nat)
    requires BlocksOk(base, h) && RingOk(base, h) && i < |h.ring|
    ensures h.ring[i] > 0
  {
    if i >= 1 { assert FreeBlockAt(h, i); AboveBase(base, h, h.ring[i]); }
  }

  lemma WithFreep(base: nat, h: State, i: nat)
    requires BlocksOk(base, h) && RingOk(base, h) && Coalesced(h.mem, h.ring) && i < |h.ring| && h.ring[i] > 0
    ensures Inv(base, h.(freep := h.ring[i]))
    ensures forall a: nat :: IsFree(h.(freep := h.ring[i]), a) <==> IsFree(h, a)
  {
    var h' := h.(freep := h.ring[i]);
    forall k: nat | 1 <= k < |h'.ring| ensures FreeBlockAt(h', k) { assert FreeBlockAt(h, k); }
  }

  lemma BaseApart(base: nat, h: State)
    requires RingOk(base, h)
    ensures !Touch(h, 0)
  {
    if 1 < |h.ring| { assert BelowNext(h.mem, h.ring, 0); }
  }

  // ----- the search in free

  lemma {:induction false} FindSlot(mem: Memory, ring: seq<nat>, bp: nat) returns (i: nat)
    requires Ordered(mem, ring) && |ring| >= 1 && ring[0] < bp && bp !in ring
    ensures SlotFor(ring, i, bp)
  {
    i := 0;
    while i + 1 < |ring| && ring[i + 1] < bp
      invariant i < |ring| && ring[i] < bp
    {
      i := i + 1;
    }
  }

  /** The loop of free stops at an entry if and only if the block belongs after it: either the
      block lies between the entry and its successor, or the entry is the last one, where the
      list wraps, and the block lies above it. */
  lemma StopsAtSlot(base: nat, h: State, i: nat, k: nat, bp: nat)
    requires RingOk(base, h) && SlotFor(h.ring, i, bp) && k < |h.ring| && base < bp
    ensures h.ring[k] in h.mem
    ensures var p := h.ring[k];
            var q := h.mem[p].ptr;
            ((bp > p && bp < q) || (p >= q && (bp > p || bp < q))) <==> k == i
  {
    assert LinkAt(h.mem, h.ring, k);
    if k + 1 < |h.ring| {
      assert BelowNext(h.mem, h.ring, k);
      if k < i {
        if k + 1 < i { Ascending(h.mem, h.ring, k + 1, i); }
      } else if k > i {
        if k > i + 1 { Ascending(h.mem, h.ring, i + 1, k); }
      }
    } else {
      if k > 0 { Ascending(h.mem, h.ring, 0, k); }
      if k > i + 1 { Ascending(h.mem, h.ring, i + 1, k); }
    }
  }

  /** How far round the ring entry `i` is from entry `k`. */
  function Distance(k: nat, i: nat, n: nat): nat
    requires k < n && i < n
  {
    if k <= i then i - k else n - k + i
  }

  // ----- the pointer updates of free

  function FreeUpper(mem: Memory, p: nat, bp: nat): (r: Memory)
    requires p in mem && bp in mem && mem[p].ptr in mem
    ensures p in r && bp in r
  {
    var q := mem[p].ptr;
    if bp + mem[bp].size == q then mem[bp := Header(mem[q].ptr, mem[bp].size + mem[q].size)]
    else mem[bp := Header(q, mem[bp].size)]
  }

  function FreeLower(mem: Memory, p: nat, bp: nat): Memory
    requires p in mem && bp in mem
  {
    if p + mem[p].size == bp then mem[p := Header(mem[bp].ptr, mem[p].size + mem[bp].size)]
    else mem[p := Header(bp, mem[p].size)]
  }

  lemma LinkedTwice(mem: Memory, ring: seq<nat>, i: nat)
    requires Links(mem, ring) && i < |ring|
    ensures ring[i] in mem && mem[ring[i]].ptr == ring[Succ(i, |ring|)] && ring[Succ(i, |ring|)] in mem
  {
    assert LinkAt(mem, ring, i) && LinkAt(mem, ring, Succ(i, |ring|));
  }

  lemma UpperIs(base: nat, h: State, i: nat, bp: nat)
    requires BlocksOk(base, h) && RingOk(base, h) && bp in h.live && SlotFor(h.ring, i, bp)
    ensures h.ring[i] in h.mem && bp in h.mem && h.mem[h.ring[i]].ptr in h.mem && bp != h.ring[i]
    ensures FreedUp(base, h, i, bp).mem ==
            FreeUpper(h.mem, h.ring[i], bp)[h.ring[i] := Header(bp, h.mem[h.ring[i]].size)]
  {
    hide TagOk, Ordered, Links, BlocksOk;
    NextEntry(base, h, i);
    InsertedOk(base, h, i, bp);
    AboveBase(base, h, bp);
    UpperTouch(base, h, i, bp);
    hide RingOk;
    var p := h.ring[i];
    var q := h.mem[p].ptr;
    var h1 := Inserted(h, i, bp);
    if Touch(h1, i + 1) {
      Overwrite(h.mem, p, bp, h1.mem[bp], h1.mem[p], Header(h.mem[q].ptr, h.mem[bp].size + h.mem[q].size));
    }
  }

  lemma Overwrite(mem: Memory, p: nat, bp: nat, x: Header, y: Header, z: Header)
    requires p != bp
    ensures mem[bp := x][p := y][bp := z] == mem[bp := z][p := y]
  {
  }

  /** The code's test for joining upwards is the machine's. */
  lemma UpperTouch(base: nat, h: State, i: nat, bp: nat)
    requires BlocksOk(base, h) && RingOk(base, h) && bp in h.live && SlotFor(h.ring, i, bp) && base < bp
    requires h.ring[i] in h.mem && bp in h.mem && h.mem[h.ring[i]].ptr in h.mem
    requires h.mem[h.ring[i]].ptr == h.ring[Succ(i, |h.ring|)]
    ensures var h1 := Inserted(h, i, bp);
            var q := h.mem[h.ring[i]].ptr;
            && (Touch(h1, i + 1) <==> bp + h.mem[bp].size == q)
            && (Touch(h1, i + 1) ==> h1.ring[i + 1] == bp && h1.ring[i + 2] == q && q in h1.mem && h1.mem[q] == h.mem[q])
  {
    hide TagOk;
    SlotFits(base, h, i, bp);
    if i + 1 < |h.ring| { Elsewhere(h.mem, h.ring, i, bp, i + 1); }
  }

  lemma LowerIs(base: nat, h: State, i: nat, bp: nat)
    requires BlocksOk(base, h) && RingOk(base, h) && bp in h.live && SlotFor(h.ring, i, bp)
    ensures h.ring[i] in h.mem && bp in h.mem && h.mem[h.ring[i]].ptr in h.mem
    ensures Freed(base, h, i, bp).mem == FreeLower(FreeUpper(h.mem, h.ring[i], bp), h.ring[i], bp)
  {
    hide TagOk, BlocksOk, IsFree, Links, Ordered;
    UpperIs(base, h, i, bp);
    FreedUpOk(base, h, i, bp);
    var p := h.ring[i];
    var h2 := FreedUp(base, h, i, bp);
    hide FreedUp;
    if i == 0 { BaseApart(base, h2); }
    assert Touch(h2, i) <==> p + h.mem[p].size == bp;
  }

  // ----- malloc

  /** Taking the whole of ring entry k + 1. */
  function TakenWhole(h: State, k: nat): State
    requires k + 1 < |h.ring| && h.ring[k] in h.mem && h.ring[k + 1] in h.mem
  {
    var prev, p := h.ring[k], h.ring[k + 1];
    h.(mem := h.mem[prev := Header(h.mem[p].ptr, h.mem[prev].size)], ring := DropAfter(h.ring, k),
       live := h.live + {p}, freep := prev)
  }

  /** Taking the last `n` units of ring entry k + 1.  The pointer field of the new header is
      whatever that cell held. */
  function TakenTail(h: State, k: nat, n: nat, junk: nat): State
    requires k + 1 < |h.ring| && h.ring[k] in h.mem && h.ring[k + 1] in h.mem && h.ring[k + 1] in h.blk
    requires n < h.mem[h.ring[k + 1]].size && n < h.blk[h.ring[k + 1]]
  {
    var p := h.ring[k + 1];
    var left := h.mem[p].size - n;
    var c := p + left;
    h.(mem := h.mem[p := Header(h.mem[p].ptr, left)][c := Header(junk, n)],
       blk := h.blk[p := h.blk[p] - n][c := n], tag := Cut(h.tag, p, c),
       live := h.live + {c}, freep := h.ring[k])
  }

  /** What an allocation of the `n` units at `r` does to the heap. */
  ghost predicate Allocated(h: State, h': State, r: nat, n: nat) {
    && r !in h.live && h'.live == h.live + {r} && r in h'.blk && h'.blk[r] == n
    && h'.tag.Keys == h.tag.Keys && h'.brk == h.brk
    && (forall a: nat :: IsFree(h', a) <==> IsFree(h, a) && !(r <= a < r + n))
    && KeepsLive(h, h', h.live)
  }

  /** The live blocks in `s` are where they were, and no cell inside them has been written. */
  ghost predicate KeepsLive(h: State, h': State, s: set<nat>) {
    && (forall b :: b in s ==> b in h.blk && b in h'.blk && h'.blk[b] == h.blk[b])
    && (forall a :: a in h.tag && h.tag[a] in s ==> KeepsCell(h.mem, h'.mem, a))
  }

  ghost predicate KeepsCell(mem: Memory, mem': Memory, a: nat) {
    (a in mem' <==> a in mem) && (a in mem ==> mem'[a] == mem[a])
  }

  lemma WholeRing(base: nat, h: State, k: nat)
    requires Inv(base, h) && h.freep != 0 && k + 1 < |h.ring|
    ensures h.ring[k] in h.mem && h.ring[k + 1] in h.mem && FreeBlockAt(h, k + 1)
    ensures RingOk(base, TakenWhole(h, k))
  {
    hide TagOk;
    assert FreeBlockAt(h, k + 1) && BelowNext(h.mem, h.ring, k);
    if k + 2 < |h.ring| { assert BelowNext(h.mem, h.ring, k + 1); }
    Unlink(h.mem, h.ring, k, h.mem[h.ring[k]].size);
    var h' := TakenWhole(h, k);
    if k > 0 { Ascending(h.mem, h.ring, 0, k); }
    forall j: nat | 1 <= j < |h'.ring| ensures FreeBlockAt(h', j) {
      assert FreeBlockAt(h, if j <= k then j else j + 1);
      if j <= k { Ascending(h.mem, h.ring, j, k + 1); } else { Ascending(h.mem, h.ring, k + 1, j + 1); }
    }
    forall b | b in h'.blk && b !in h'.live ensures b in h'.ring {
      var j :| 0 <= j < |h.ring| && h.ring[j] == b;
      assert h'.ring[if j <= k then j else j - 1] == b;
    }
  }

  lemma WholeApart(base: nat, h: State, k: nat)
    requires RingOk(base, h) && Coalesced(h.mem, h.ring) && k + 1 < |h.ring|
    requires h.ring[k] in h.mem && h.ring[k + 1] in h.mem
    ensures Coalesced(TakenWhole(h, k).mem, TakenWhole(h, k).ring)
  {
    var h' := TakenWhole(h, k);
    forall j: nat | j + 1 < |h'.ring| ensures ApartAt(h'.mem, h'.ring, j) {
      assert ApartAt(h.mem, h.ring, if j <= k then j else j + 1);
      assert BelowNext(h.mem, h.ring, k);
      if j == k { assert BelowNext(h.mem, h.ring, k + 1); }
      if j < k { Ascending(h.mem, h.ring, j, k); } else if j > k { Ascending(h.mem, h.ring, k, j + 1); }
    }
  }

  lemma WholeOk(base: nat, h: State, k: nat)
    requires Inv(base, h) && h.freep != 0 && k + 1 < |h.ring|
    ensures h.ring[k] in h.mem && h.ring[k + 1] in h.mem && h.ring[k + 1] in h.blk
    ensures Inv(base, TakenWhole(h, k))
    ensures Allocated(h, TakenWhole(h, k), h.ring[k + 1], h.blk[h.ring[k + 1]])
  {
    WholeRing(base, h, k);
    WholeApart(base, h, k);
    RingAboveZero(base, h, k);
    RingCell(base, h, k);
    var p := h.ring[k + 1];
    var h' := TakenWhole(h, k);
    assert h'.ring[k] == h.ring[k];
    hide RingOk, Coalesced;
    forall a: nat ensures IsFree(h', a) <==> IsFree(h, a) && !(p <= a < p + h.blk[p]) {
      if p <= a < p + h.blk[p] { UnitOf(h.blk, h.tag, p, a); }
    }
    WritesFree(base, h, h', h.ring[k], h.ring[k], h.live);
  }

  lemma RingCell(base: nat, h: State, k: nat)
    requires BlocksOk(base, h) && RingOk(base, h) && k < |h.ring|
    ensures h.ring[k] == base || (h.ring[k] in h.tag && h.tag[h.ring[k]] == h.ring[k] && h.ring[k] !in h.live)
  {
    if k >= 1 { assert FreeBlockAt(h, k); UnitOf(h.blk, h.tag, h.ring[k], h.ring[k]); }
  }

  /** Writing header cells that are the list head or belong to free blocks leaves live blocks
      alone. */
  lemma WritesFree(base: nat, h: State, h': State, x: nat, y: nat, s: set<nat>)
    requires BlocksOk(base, h) && s <= h.live
    requires x == base || (x in h.tag && h.tag[x] !in s)
    requires y == base || (y in h.tag && h.tag[y] !in s)
    requires forall a: nat :: a != x && a != y ==> KeepsCell(h.mem, h'.mem, a)
    requires forall b :: b in s ==> b in h'.blk && h'.blk[b] == h.blk[b]
    ensures KeepsLive(h, h', s)
  {
  }

  /** No ring entry starts where the cut-off block does. */
  lemma TailEntry(base: nat, h: State, k: nat, n: nat, junk: nat, j: nat)
    requires BlocksOk(base, h) && RingOk(base, h) && k + 1 < |h.ring| && FreeBlockAt(h, k + 1) && j < |h.ring|
    requires h.ring[k] in h.mem && h.ring[k + 1] in h.mem && 1 <= n < h.blk[h.ring[k + 1]]
    requires h.ring[k + 1] + h.blk[h.ring[k + 1]] - n !in h.blk
    ensures var h' := TakenTail(h, k, n, junk);
            && LinkAt(h'.mem, h'.ring, j) && (1 <= j ==> FreeBlockAt(h', j))
            && (j != k + 1 ==> h.ring[j] in h.mem && h'.mem[h.ring[j]] == h.mem[h.ring[j]])
  {
    hide TagOk;
    assert LinkAt(h.mem, h.ring, j);
    Ascending(h.mem, h.ring, 0, k + 1);
    if j >= 1 { assert FreeBlockAt(h, j); }
    if j < k + 1 { Ascending(h.mem, h.ring, j, k + 1); } else if j > k + 1 { Ascending(h.mem, h.ring, k + 1, j); }
  }

  lemma TailRing(base: nat, h: State, k: nat, n: nat, junk: nat)
    requires Inv(base, h) && h.freep != 0 && k + 1 < |h.ring| && FreeBlockAt(h, k + 1)
    requires h.ring[k] in h.mem && h.ring[k + 1] in h.mem && 1 <= n < h.blk[h.ring[k + 1]]
    requires h.ring[k + 1] + h.blk[h.ring[k + 1]] - n !in h.blk
    ensures RingOk(base, TakenTail(h, k, n, junk))
    ensures Coalesced(TakenTail(h, k, n, junk).mem, TakenTail(h, k, n, junk).ring)
  {
    hide TagOk;
    var h' := TakenTail(h, k, n, junk);
    forall j: nat | j < |h.ring| ensures LinkAt(h'.mem, h'.ring, j) && (1 <= j ==> FreeBlockAt(h', j)) {
      TailEntry(base, h, k, n, junk, j);
    }
    forall j: nat | j + 1 < |h.ring| ensures BelowNext(h'.mem, h'.ring, j) && ApartAt(h'.mem, h'.ring, j) {
      assert BelowNext(h.mem, h.ring, j) && ApartAt(h.mem, h.ring, j);
      TailEntry(base, h, k, n, junk, j);
    }
    TailEntry(base, h, k, n, junk, 0);
  }

  lemma TailBlocks(base: nat, h: State, k: nat, n: nat, junk: nat)
    requires BlocksOk(base, h) && k + 1 < |h.ring| && h.ring[k] in h.mem && FreeBlockAt(h, k + 1)
    requires h.ring[k + 1] in h.mem && 1 <= n < h.blk[h.ring[k + 1]]
    ensures h.ring[k + 1] + h.blk[h.ring[k + 1]] - n !in h.blk
    ensures BlocksOk(base, TakenTail(h, k, n, junk))
  {
    hide TagOk, FreeBlockAt;
    assert h.ring[k + 1] in h.blk by { InRingBlock(h, k + 1); }
    Split(h.blk, h.tag, h.ring[k + 1], n);
  }

  lemma InRingBlock(h: State, k: nat)
    requires FreeBlockAt(h, k)
    ensures k < |h.ring| && h.ring[k] in h.blk && h.ring[k] !in h.live
  {
  }

  lemma TailOk(base: nat, h: State, k: nat, n: nat, junk: nat)
    requires Inv(base, h) && h.freep != 0 && k + 1 < |h.ring|
    requires h.ring[k + 1] in h.blk && 1 <= n < h.blk[h.ring[k + 1]]
    ensures h.ring[k] in h.mem && h.ring[k + 1] in h.mem && h.mem[h.ring[k + 1]].size == h.blk[h.ring[k + 1]]
    ensures Inv(base, TakenTail(h, k, n, junk))
    ensures Allocated(h, TakenTail(h, k, n, junk), h.ring[k + 1] + h.blk[h.ring[k + 1]] - n, n)
  {
    hide TagOk;
    assert BelowNext(h.mem, h.ring, k) && FreeBlockAt(h, k + 1);
    TailBlocks(base, h, k, n, junk);
    TailRing(base, h, k, n, junk);
    RingAboveZero(base, h, k);
    TailUnits(base, h, k, n, junk);
    hide RingOk, BlocksOk, Coalesced, IsFree;
  }

  lemma TailUnits(base: nat, h: State, k: nat, n: nat, junk: nat)
    requires BlocksOk(base, h) && k + 1 < |h.ring| && h.ring[k] in h.mem && FreeBlockAt(h, k + 1)
    requires h.ring[k + 1] in h.mem && 1 <= n < h.blk[h.ring[k + 1]]
    requires h.ring[k + 1] + h.blk[h.ring[k + 1]] - n !in h.blk
    ensures Allocated(h, TakenTail(h, k, n, junk), h.ring[k + 1] + h.blk[h.ring[k + 1]] - n, n)
  {
    hide TagOk;
    var p := h.ring[k + 1];
    var c := p + h.blk[p] - n;
    var h' := TakenTail(h, k, n, junk);
    forall a: nat ensures IsFree(h', a) <==> IsFree(h, a) && !(c <= a < c + n) {
      if c <= a < c + n { UnitOf(h.blk, h.tag, p, a); }
      InBlock(h, a);
    }
    UnitOf(h.blk, h.tag, p, p);
    UnitOf(h.blk, h.tag, p, c);
    WritesFree(base, h, h', p, c, h.live);
  }

  lemma InBlock(h: State, a: nat)
    requires TagOk(h.blk, h.tag)
    ensures a in h.tag ==> h.tag[a] in h.blk && h.tag[a] <= a < h.tag[a] + h.blk[h.tag[a]]
  {
  }

  // ----- the scan in malloc

  /** The entry `j` places after entry `f`. */
  function Around(f: nat, j: nat, n: nat): (r: nat)
    requires f < n && j <= n
    ensures r < n
  {
    if f + j < n then f + j else f + j - n
  }

  ghost predicate TooSmall(h: State, k: nat, n: nat) {
    k < |h.ring| && h.ring[k] in h.mem && h.mem[h.ring[k]].size < n
  }

  /** The `c - 1` entries after entry `f` are all too small. */
  ghost predicate Scanned(h: State, f: nat, c: nat, n: nat) {
    f < |h.ring| && c <= |h.ring| + 1 && forall j: nat :: 1 <= j < c ==> TooSmall(h, Around(f, j, |h.ring|), n)
  }

  /** Having come back to the start without a fit, there is none. */
  lemma ScanComplete(base: nat, h: State, f: nat, n: nat)
    requires BlocksOk(base, h) && RingOk(base, h) && Scanned(h, f, |h.ring| + 1, n)
    ensures !HasFit(h, n)
  {
    var len := |h.ring|;
    forall b: nat | b in h.blk && b !in h.live ensures h.blk[b] < n {
      var k: nat :| k < len && h.ring[k] == b;
      var j: nat := if k > f then k - f else k - f + len;
      assert Around(f, j, len) == k;
      assert TooSmall(h, Around(f, j, len), n);
    }
  }

  lemma BackAtStart(base: nat, h: State, f: nat, c: nat)
    requires RingOk(base, h) && f < |h.ring| && 1 <= c <= |h.ring|
    ensures h.ring[Around(f, c, |h.ring|)] == h.ring[f] <==> c == |h.ring|
  {
    var k := Around(f, c, |h.ring|);
    if k < f { Ascending(h.mem, h.ring, k, f); } else if f < k { Ascending(h.mem, h.ring, f, k); }
  }

  class Allocator {
    const base: nat
    var mem: Memory
    var freep: nat
    ghost var ring: seq<nat>
    ghost var blk: map<nat, nat>
    ghost var live: set<nat>
    ghost var tag: map<nat, nat>
    var brk: nat

    ghost function St(): State
      reads this
    {
      State(mem, freep, ring, blk, live, tag, brk)
    }

    ghost predicate Valid()
      reads this
    {
      Inv(base, St())
    }

    constructor (base: nat, brk: nat)
      requires 0 < base < brk
      ensures Valid() && freep == 0 && live == {} && this.base == base && this.brk == brk
    {
      this.base, this.brk := base, brk;
      mem, freep, ring, blk, live, tag := map[], 0, [], map[], {}, map[];
    }

    ghost method Become(h: State)
      requires h.mem == mem && h.freep == freep && h.brk == brk
      modifies this`ring, this`blk, this`live, this`tag
      ensures St() == h
    {
      ring, blk, live, tag := h.ring, h.blk, h.live, h.tag;
    }

    /** The program writes to memory it was given: any cell of a live block but its header. */
    method UserWrite(a: nat, x: Header)
      requires Valid() && a in tag && tag[a] in live && a != tag[a]
      modifies this`mem
      ensures Valid() && mem == old(mem)[a := x]
    {
      mem := mem[a := x];
      PayloadWritten(base, old(St()), a, x);
    }

    /** The search loop of free. */
    method Find(bp: nat) returns (p: nat, ghost i: nat)
      requires Valid() && bp in live
      ensures freep != 0 && RingOk(base, St()) && SlotFor(ring, i, bp) && p == ring[i]
    {
      ghost var h := St();
      LiveNotInRing(base, h, bp);
      i := FindSlot(mem, ring, bp);
      p := freep;
      ghost var k :| 0 <= k < |ring| && ring[k] == freep;
      StopsAtSlot(base, h, i, k, bp);
      while !(bp > p && bp < mem[p].ptr)
        invariant 0 <= k < |ring| && p == ring[k] && p in mem
        invariant (bp > p && bp < mem[p].ptr) || (p >= mem[p].ptr && (bp > p || bp < mem[p].ptr)) <==> k == i
        decreases Distance(k, i, |ring|)
      {
        if p >= mem[p].ptr && (bp > p || bp < mem[p].ptr) {
          break;
        }
        LinkedTwice(mem, ring, k);
        p := mem[p].ptr;
        k := Succ(k, |ring|);
        StopsAtSlot(base, h, i, k, bp);
      }
    }

    /** free.  The block's units, and no others, become free; other live blocks stay where they
        are and nothing inside them is written; the free list stays ordered and coalesced. */
    method Free(ap: nat)
      requires Valid() && ap >= 1 && ap - 1 in live
      modifies this
      ensures Valid() && freep != 0 && ap - 1 in old(blk)
      ensures live == old(live) - {ap - 1} && tag.Keys == old(tag.Keys) && brk == old(brk)
      ensures forall a: nat :: IsFree(St(), a) <==> IsFree(old(St()), a) || ap - 1 <= a < ap - 1 + old(blk)[ap - 1]
      ensures KeepsLive(old(St()), St(), live) && HasFit(St(), old(blk)[ap - 1])
    {
      hide Inv, TagOk, IsFree, KeepsLive, HasFit, Freed, Links, Ordered;
      var bp := ap - 1;
      ghost var h := St();
      ghost var i;
      var p;
      p, i := Find(bp);
      FreepSet(base, h);
      RingAboveZero(base, h, i);
      LowerIs(base, h, i, bp);
      FreedOk(base, h, i, bp);
      var q := mem[p].ptr;
      if bp + mem[bp].size == q {
        mem := mem[bp := Header(mem[q].ptr, mem[bp].size + mem[q].size)];
      } else {
        mem := mem[bp := Header(q, mem[bp].size)];
      }
      if p + mem[p].size == bp {
        mem := mem[p := Header(mem[bp].ptr, mem[p].size + mem[bp].size)];
      } else {
        mem := mem[p := Header(bp, mem[p].size)];
      }
      freep := p;
      Become(Freed(base, h, i, bp));
      FreeKeepsLive(base, h, St(), i, bp);
    }

    /** morecore.  `ok` and `gap` are sbrk's answer: whether it succeeds, and how far above the
        end of earlier memory the new memory starts. */
    method MoreCore(nu: nat, ok: bool, gap: nat) returns (p: nat)
      requires Valid() && freep != 0
      modifies this
      ensures Valid() && p == if ok then freep else 0
      ensures !ok ==> St() == old(St())
      ensures ok ==> freep != 0 && HasFit(St(), nu) && Grown(old(St()), St(), old(brk) + gap, Chunk(nu))
    {
      hide Inv, TagOk, IsFree, KeepsLive, HasFit;
      var n := if nu < 4096 then 4096 else nu;
      if !ok {
        return 0;
      }
      ghost var h := St();
      var hp := brk + gap;
      var junk := if hp in mem then mem[hp].ptr else 0;
      GrownOk(base, h, hp, junk, n);
      mem := mem[hp := Header(junk, n)];
      brk := hp + n;
      Become(WithChunk(h, hp, junk, n));
      ghost var h1 := St();
      Free(hp + 1);
      ChunkFreed(h, h1, St(), hp, junk, n);
      FitMono(St(), n, nu);
      p := freep;
    }

    /** Initialising the list on the first call. */
    method Init()
      requires Valid()
      modifies this
      ensures Valid() && freep != 0 && Same(old(St()), St())
    {
      if freep == 0 {
        mem := mem[base := Header(base, 0)];
        freep := base;
        ring := [base];
        InitOk(base, old(St()));
      }
    }

    /** Taking `n` units from the block `p` that follows `prevp` in the list. */
    method Take(prevp: nat, p: nat, n: nat, ghost k: nat) returns (r: nat)
      requires Valid() && freep != 0 && k + 1 < |ring| && prevp == ring[k] && p == ring[k + 1]
      requires p in mem && mem[p].size >= n >= 1
      modifies this
      ensures Valid() && Allocated(old(St()), St(), r, n)
    {
      hide Inv, IsFree, Allocated;
      ghost var h := St();
      TakeFacts(base, h, k);
      if mem[p].size == n {
        WholeOk(base, h, k);
        mem := mem[prevp := Header(mem[p].ptr, mem[prevp].size)];
        r := p;
        freep := prevp;
        Become(TakenWhole(h, k));
      } else {
        var left := mem[p].size - n;
        r := p + left;
        var junk := if r in mem then mem[r].ptr else 0;
        TailOk(base, h, k, n, junk);
        mem := mem[p := Header(mem[p].ptr, left)];
        mem := mem[r := Header(junk, n)];
        freep := prevp;
        Become(TakenTail(h, k, n, junk));
      }
    }

    /** malloc.  `ok` and `gap` are the answer sbrk gives if it is asked; `calls` counts how
        often it is asked, which is at most once, and `mid` is the heap from which the block is
        then taken.  sbrk is asked exactly when no free block is large enough. */
    method Malloc(nbytes: nat, ok: bool, gap: nat) returns (ap: nat, ghost calls: nat, ghost mid: State)
      requires Valid()
      modifies this
      ensures Valid() && calls <= 1
      ensures calls == 0 <==> HasFit(old(St()), Units(nbytes))
      ensures ap == 0 <==> calls == 1 && !ok
      ensures ap == 0 ==> Same(old(St()), St())
      ensures ap != 0 ==> Allocated(mid, St(), ap - 1, Units(nbytes))
      ensures ap != 0 && calls == 0 ==> Same(old(St()), mid)
      ensures ap != 0 && calls == 1 ==> ok && Grown(old(St()), mid, old(brk) + gap, Chunk(Units(nbytes)))
    {
      hide Inv, RingOk, BlocksOk, Scanned, Same, Grown, HasFit, Allocated;
      var nunits := (nbytes + 8 - 1) / 8 + 1;
      ghost var h0 := St();
      mid := h0;
      Init();
      calls := 0;
      var prevp := freep;
      ghost var f := StartScan(base, St(), nunits);
      ghost var k, c := f, 1;
      var p := mem[prevp].ptr;
      while true
        invariant Valid() && freep != 0 && RingOk(base, St()) && BlocksOk(base, St()) && calls <= 1
        invariant 0 <= f < |ring| && ring[f] == freep && 1 <= c <= |ring| && 0 <= k < |ring|
        invariant Succ(k, |ring|) == Around(f, c, |ring|)
        invariant prevp == ring[k] && p == ring[Succ(k, |ring|)] && p in mem
        invariant Scanned(St(), f, c, nunits)
        invariant calls == 0 ==> Same(h0, St())
        invariant calls == 1 ==> !HasFit(h0, nunits)
        invariant calls == 1 ==> ok && HasFit(St(), nunits) && Grown(h0, St(), h0.brk + gap, Chunk(nunits))
        decreases 1 - calls, |ring| - c
      {
        if mem[p].size >= nunits {
          NotTheHead(base, St(), k, nunits);
          FoundFit(base, h0, St(), k, nunits, calls);
          mid := St();
          var r := Take(prevp, p, nunits, k);
          ap := r + 1;
          return;
        }
        ScanOne(St(), f, c, nunits);
        BackAtStart(base, St(), f, c);
        if p == freep {
          ScanComplete(base, St(), f, nunits);
          ghost var h := St();
          NoFitBefore(h0, h, nunits, calls);
          p := MoreCore(nunits, ok, gap);
          calls := calls + 1;
          if p == 0 {
            ap := 0;
            return;
          }
          GrownSame(h0, h, St(), h.brk + gap, Chunk(nunits));
          f := StartScan(base, St(), nunits);
          k, c := f, 0;
        } else {
          k := Succ(k, |ring|);
        }
        NextEntry(base, St(), k);
        prevp := p;
        p := mem[p].ptr;
        c := c + 1;
      }
    }
  }

  /** The number of header-sized units for a request, the header included. */
  function Units(nbytes: nat): (n: nat)
    ensures n >= 1 && (n - 1) * 8 >= nbytes && (n - 1) * 8 < nbytes + 8
  {
    (nbytes + 8 - 1) / 8 + 1
  }

  /** What morecore asks sbrk for: the request, but never less than 4096 units. */
  function Chunk(nu: nat): (n: nat)
    ensures n >= nu && n >= 4096 && (n == nu || n == 4096)
  {
    if nu < 4096 then 4096 else nu
  }

  /** Only the list head may have been set up. */
  ghost predicate Same(h: State, h': State) {
    && h'.live == h.live && h'.blk == h.blk && h'.tag == h.tag && h'.brk == h.brk
    && forall a :: a in h.tag ==> KeepsCell(h.mem, h'.mem, a)
  }

  /** `n` fresh units at `hp` have been added to the free memory. */
  ghost predicate Grown(h: State, h': State, hp: nat, n: nat) {
    && h'.live == h.live && h'.tag.Keys == h.tag.Keys + Span(hp, n) && h'.brk == hp + n
    && (forall a: nat :: IsFree(h', a) <==> IsFree(h, a) || hp <= a < hp + n)
    && KeepsLive(h, h', h.live)
  }

  function WithChunk(h: State, hp: nat, junk: nat, n: nat): State {
    h.(mem := h.mem[hp := Header(junk, n)], blk := h.blk[hp := n], live := h.live + {hp},
       tag := Grow(h.tag, hp, n), brk := hp + n)
  }

  lemma GrownOk(base: nat, h: State, hp: nat, junk: nat, n: nat)
    requires Inv(base, h) && h.freep != 0 && hp >= h.brk && n >= 1
    ensures Inv(base, WithChunk(h, hp, junk, n)) && hp !in h.blk && hp !in h.tag && h.live <= h.blk.Keys
    ensures forall a :: a in h.tag ==> h.tag[a] in h.blk && a < hp
  {
    hide TagOk, RingOk;
    GrownBlocks(base, h, hp, junk, n);
    PayloadRing(base, h, hp, Header(junk, n));
    ChunkNotInRing(base, h.(mem := h.mem[hp := Header(junk, n)]), hp, n);
  }

  lemma GrownBlocks(base: nat, h: State, hp: nat, junk: nat, n: nat)
    requires BlocksOk(base, h) && hp >= h.brk && n >= 1
    ensures BlocksOk(base, WithChunk(h, hp, junk, n)) && hp !in h.blk && hp !in h.tag && h.live <= h.blk.Keys
    ensures forall a :: a in h.tag ==> h.tag[a] in h.blk && a < hp
  {
    hide Covers;
    Fresh(h.blk, h.tag, hp, n);
  }

  lemma ChunkNotInRing(base: nat, h: State, hp: nat, n: nat)
    requires RingOk(base, h) && hp !in h.blk
    ensures RingOk(base, h.(blk := h.blk[hp := n], live := h.live + {hp}, tag := Grow(h.tag, hp, n), brk := hp + n))
  {
    var h' := h.(blk := h.blk[hp := n], live := h.live + {hp}, tag := Grow(h.tag, hp, n), brk := hp + n);
    forall k: nat | 1 <= k < |h'.ring| ensures FreeBlockAt(h', k) { assert FreeBlockAt(h, k); }
  }

  lemma ChunkFreed(h: State, h1: State, h2: State, hp: nat, junk: nat, n: nat)
    requires h1 == WithChunk(h, hp, junk, n) && hp !in h.blk && hp !in h.tag && h.live <= h.blk.Keys
    requires forall a :: a in h.tag ==> h.tag[a] in h.blk && a < hp
    requires h2.live == h1.live - {hp} && h2.tag.Keys == h1.tag.Keys && h2.brk == h1.brk
    requires forall a: nat :: IsFree(h2, a) <==> IsFree(h1, a) || hp <= a < hp + n
    requires KeepsLive(h1, h2, h2.live)
    ensures Grown(h, h2, hp, n)
  {
  }

  lemma FitMono(h: State, n: nat, m: nat)
    requires HasFit(h, n) && m <= n
    ensures HasFit(h, m)
  {
    var b: nat :| Fits(h, n, b);
    assert Fits(h, m, b);
  }

  lemma InitOk(base: nat, h: State)
    requires Inv(base, h) && h.freep == 0
    ensures var h' := h.(mem := h.mem[base := Header(base, 0)], freep := base, ring := [base]);
            Inv(base, h') && Same(h, h')
  {
    var h' := h.(mem := h.mem[base := Header(base, 0)], freep := base, ring := [base]);
    assert LinkAt(h'.mem, h'.ring, 0);
  }

  lemma TakeFacts(base: nat, h: State, k: nat)
    requires Inv(base, h) && h.freep != 0 && k + 1 < |h.ring|
    ensures h.ring[k] in h.mem && h.ring[k + 1] in h.blk && h.ring[k + 1] in h.mem
    ensures h.mem[h.ring[k + 1]].size == h.blk[h.ring[k + 1]]
  {
    assert FreeBlockAt(h, k + 1) && LinkAt(h.mem, h.ring, k) && LinkAt(h.mem, h.ring, k + 1);
  }

  /** A block that fits is not the list head, so it follows its predecessor in address order. */
  /** The block that the scan stopped at, before any call of morecore, was free all along. */
  lemma FoundFit(base: nat, h0: State, h: State, k: nat, n: nat, calls: nat)
    requires BlocksOk(base, h) && RingOk(base, h) && k + 1 < |h.ring| && h.ring[k + 1] in h.mem && h.mem[h.ring[k + 1]].size >= n
    requires calls == 0 ==> Same(h0, h)
    ensures calls == 0 ==> HasFit(h0, n)
  {
    assert FreeBlockAt(h, k + 1);
    if calls == 0 {
      assert Fits(h0, n, h.ring[k + 1]);
    }
  }

  lemma NoFitBefore(h0: State, h: State, n: nat, calls: nat)
    requires !HasFit(h, n) && (calls == 0 ==> Same(h0, h))
    ensures calls == 0 ==> !HasFit(h0, n)
  {
    if calls == 0 {
      forall b: nat ensures !Fits(h0, n, b) {
        assert !Fits(h, n, b);
      }
    }
  }

  lemma NotTheHead(base: nat, h: State, k: nat, n: nat)
    requires RingOk(base, h) && k < |h.ring| && n >= 1
    requires h.ring[Succ(k, |h.ring|)] in h.mem && h.mem[h.ring[Succ(k, |h.ring|)]].size >= n
    ensures k + 1 < |h.ring|
  {
  }

  lemma NextEntry(base: nat, h: State, k: nat)
    requires RingOk(base, h) && k < |h.ring|
    ensures h.ring[k] in h.mem && h.mem[h.ring[k]].ptr == h.ring[Succ(k, |h.ring|)]
    ensures h.ring[Succ(k, |h.ring|)] in h.mem
  {
    LinkedTwice(h.mem, h.ring, k);
  }

  lemma StartScan(base: nat, h: State, n: nat) returns (f: nat)
    requires Inv(base, h) && h.freep != 0
    ensures f < |h.ring| && h.ring[f] == h.freep && RingOk(base, h) && BlocksOk(base, h)
    ensures h.freep in h.mem && h.mem[h.freep].ptr == h.ring[Succ(f, |h.ring|)] && h.mem[h.freep].ptr in h.mem
    ensures Scanned(h, f, 1, n)
  {
    f :| 0 <= f < |h.ring| && h.ring[f] == h.freep;
    LinkedTwice(h.mem, h.ring, f);
  }

  lemma ScanOne(h: State, f: nat, c: nat, n: nat)
    requires 1 <= c <= |h.ring| && Scanned(h, f, c, n) && TooSmall(h, Around(f, c, |h.ring|), n)
    ensures Scanned(h, f, c + 1, n)
  {
  }

  lemma GrownSame(h0: State, h: State, h': State, hp: nat, n: nat)
    requires Same(h0, h) && Grown(h, h', hp, n)
    ensures Grown(h0, h', hp, n) && h0.brk == h.brk
  {
  }

  lemma FreeKeepsLive(base: nat, h: State, h': State, i: nat, bp: nat)
    requires BlocksOk(base, h) && RingOk(base, h) && bp in h.live && SlotFor(h.ring, i, bp)
    requires h'.live == h.live - {bp}
    requires forall b :: b in h.live && b != bp ==> b in h'.blk && h'.blk[b] == h.blk[b]
    requires h.ring[i] in h.mem && bp in h.mem && h.mem[h.ring[i]].ptr in h.mem
    requires h'.mem == FreeLower(FreeUpper(h.mem, h.ring[i], bp), h.ring[i], bp)
    ensures KeepsLive(h, h', h'.live)
  {
    hide TagOk, RingOk;
    OwnHeader(h.blk, h.tag, bp);
    RingCell(base, h, i);
    WritesFree(base, h, h', h.ring[i], bp, h'.live);
  }

  lemma LiveNotInRing(base: nat, h: State, bp: nat)
    requires Inv(base, h) && bp in h.live
    ensures h.freep != 0 && RingOk(base, h) && h.freep in h.ring && base < bp && bp !in h.ring
  {
    AboveBase(base, h, bp);
    forall k: nat | k < |h.ring| ensures h.ring[k] != bp {
      if k >= 1 { assert FreeBlockAt(h, k); }
    }
  }

  lemma FreepSet(base: nat, h: State)
    requires Inv(base, h)
    ensures BlocksOk(base, h)
  {
  }

  lemma PayloadBlocks(base: nat, h: State, a: nat, x: Header)
    requires BlocksOk(base, h) && a in h.tag && a != h.tag[a]
    ensures a !in h.blk && a != base && BlocksOk(base, h.(mem := h.mem[a := x]))
  {
    hide Covers;
    if a in h.blk { OwnHeader(h.blk, h.tag, a); }
  }

  lemma PayloadRing(base: nat, h: State, a: nat, x: Header)
    requires RingOk(base, h) && Coalesced(h.mem, h.ring) && a !in h.blk && a != base
    ensures RingOk(base, h.(mem := h.mem[a := x])) && Coalesced(h.mem[a := x], h.ring)
  {
    var h' := h.(mem := h.mem[a := x]);
    forall k: nat | k < |h.ring| ensures h.ring[k] != a && LinkAt(h'.mem, h'.ring, k) && (1 <= k ==> FreeBlockAt(h', k)) {
      assert LinkAt(h.mem, h.ring, k);
      if k >= 1 { assert FreeBlockAt(h, k); }
    }
    forall k: nat | k + 1 < |h.ring| ensures BelowNext(h'.mem, h'.ring, k) && ApartAt(h'.mem, h'.ring, k) {
      assert BelowNext(h.mem, h.ring, k) && ApartAt(h.mem, h.ring, k);
    }
  }

  lemma PayloadWritten(base: nat, h: State, a: nat, x: Header)
    requires Inv(base, h) && a in h.tag && h.tag[a] in h.live && a != h.tag[a]
    ensures Inv(base, h.(mem := h.mem[a := x]))
  {
    hide TagOk, RingOk, BlocksOk, Coalesced;
    PayloadBlocks(base, h, a, x);
    if h.freep != 0 {
      PayloadRing(base, h, a, x);
    }
  }

  /** What the invariant says of any two blocks and of every unit: blocks, free or live, never
      overlap; the units obtained from sbrk are exactly the units of blocks; and along the ring,
      up to its one wrap, each free block ends strictly below the start of every later one. */
  lemma HeapPartition(base: nat, h: State)
    requires Inv(base, h)
    ensures forall b, c :: b in h.blk && c in h.blk && b < c ==> b + h.blk[b] <= c
    ensures forall a :: a in h.tag <==> exists b :: b in h.blk && b <= a < b + h.blk[b]
    ensures forall j: nat, k: nat :: j < k < |h.ring| ==> EndsBelow(h, j, k)
  {
    forall b, c | b in h.blk && c in h.blk && b < c ensures b + h.blk[b] <= c {
      Disjoint(h.blk, h.tag, b, c);
    }
    forall a ensures a in h.tag <==> exists b :: b in h.blk && b <= a < b + h.blk[b] {
      if b :| b in h.blk && b <= a < b + h.blk[b] { UnitOf(h.blk, h.tag, b, a); }
    }
    hide TagOk, RingOk;
    forall j: nat, k: nat | j < k < |h.ring| ensures EndsBelow(h, j, k) {
      RingGap(base, h, j, k);
    }
  }

  /** Ring entry `j` ends strictly below the start of entry `k`. */
  ghost predicate EndsBelow(h: State, j: nat, k: nat) {
    j < |h.ring| && k < |h.ring| && h.ring[j] in h.mem && h.ring[j] + h.mem[h.ring[j]].size < h.ring[k]
  }

  lemma RingGap(base: nat, h: State, j: nat, k: nat)
    requires Inv(base, h) && j < k < |h.ring|
    ensures EndsBelow(h, j, k)
  {
    hide TagOk;
    assert BelowNext(h.mem, h.ring, j) && ApartAt(h.mem, h.ring, j);
    if j + 1 < k { Ascending(h.mem, h.ring, j + 1, k); }
  }
}
