/** What the operations on address spaces (vm.c) do to the flat page map and to the use of every
    page, as relations between a state and a later one, with the lemmas that take each operation
    one page further. */
module VmSteps {
  import opened Arith
  import opened Counting
  import opened PageMem

  // ----- relations between a state and a later one

  /** Still used for the same thing (a free page may move on the list). */
  predicate Keeps(u: Use, v: Use) {
    u == v || (u.Free? && v.Free?)
  }

  predicate Comparable(c: Params, s: State, t: State) {
    Sized(c, s) && Sized(c, t) && |t.mem| == |s.mem|
  }

  /** Every directory maps every page as before, with the same contents. */
  ghost predicate AllSame(c: Params, s: State, t: State) {
    Comparable(c, s, t) && forall e: nat, v: nat :: SameAt(c, s, t, e, v)
  }

  /** Every directory but d, and d outside pages [lo, hi), maps every page as before. */
  ghost predicate SameBut(c: Params, s: State, t: State, d: nat, lo: nat, hi: nat) {
    Comparable(c, s, t) && forall e: nat, v: nat :: !(e == d && lo <= v < hi) ==> SameAt(c, s, t, e, v)
  }

  lemma SameTrans(c: Params, s: State, t: State, r: State, e: nat, v: nat)
    requires Inv(c, s) && Comparable(c, s, t) && Comparable(c, t, r)
    requires SameAt(c, s, t, e, v) && SameAt(c, t, r, e, v)
    ensures SameAt(c, s, r, e, v)
  {
    assert PteOk(c, s, e, v);
  }

  lemma SameButTrans(c: Params, s: State, t: State, r: State, d: nat, lo: nat, hi: nat)
    requires Inv(c, s) && SameBut(c, s, t, d, lo, hi) && SameBut(c, t, r, d, lo, hi)
    ensures SameBut(c, s, r, d, lo, hi)
  {
    forall e: nat, v: nat | !(e == d && lo <= v < hi) ensures SameAt(c, s, r, e, v) {
      SameTrans(c, s, t, r, e, v);
    }
  }

  lemma AllSameTrans(c: Params, s: State, t: State, r: State)
    requires Inv(c, s) && AllSame(c, s, t) && AllSame(c, t, r)
    ensures AllSame(c, s, r)
  {
    forall e: nat, v: nat ensures SameAt(c, s, r, e, v) {
      SameTrans(c, s, t, r, e, v);
    }
  }

  /** Page f is used as before, or was free and is now a page table of d. */
  predicate GrewAt(s: State, t: State, d: nat, f: nat)
    requires f < |s.use| && f < |t.use|
  {
    Keeps(s.use[f], t.use[f]) || (s.use[f].Free? && t.use[f].Table? && t.use[f].dir == d)
  }

  /** No page changed its use, except that free pages became page tables of d. */
  ghost predicate Grew(s: State, t: State, d: nat) {
    |s.use| == |t.use| && forall f: nat :: f < |s.use| ==> GrewAt(s, t, d, f)
  }

  /** Pages in nobody's use keep their contents. */
  ghost predicate LooseKept(s: State, t: State) {
    |s.use| == |s.mem| == |t.mem| && forall f: nat :: f < |s.use| && s.use[f].Other? ==> t.mem[f] == s.mem[f]
  }

  // ----- how many pages an operation takes

  /** The directory entries of d that have a page table. */
  function Tables(s: State, d: nat): set<nat>
    requires d < |s.mem|
  {
    set k: nat | k < |s.mem[d]| && s.mem[d][k].p
  }

  /** The directory entries that pages [lo, hi) fall into. */
  function Dirs(c: Params, lo: nat, hi: nat): (r: set<nat>)
    requires c.words > 0
  {
    if hi <= lo then {} else Dirs(c, lo, hi - 1) + {Pdx(c, hi - 1)}
  }

  lemma {:induction false} DirsGrow(c: Params, lo: nat, mid: nat, hi: nat)
    requires c.words > 0 && mid <= hi
    ensures Dirs(c, lo, mid) <= Dirs(c, lo, hi)
    ensures lo <= mid < hi ==> Pdx(c, mid) in Dirs(c, lo, hi)
    decreases hi
  {
    hide Pdx;
    if mid + 1 < hi {
      DirsGrow(c, lo, mid, hi - 1);
    }
  }

  /** From s to t, page tables were allocated for the entries ks of d and n pages besides; every page
      that was taken came off the free list. */
  ghost predicate Spent(s: State, t: State, d: nat, ks: set<nat>, n: nat) {
    && d < |s.mem| && d < |t.mem| && Tables(t, d) == Tables(s, d) + ks
    && |t.free| + |Tables(t, d)| + n == |s.free| + |Tables(s, d)|
  }

  lemma SpentNothing(s: State, d: nat)
    requires d < |s.mem|
    ensures Spent(s, s, d, {}, 0)
  {
  }

  lemma SpentThen(s: State, t: State, r: State, d: nat, ks: set<nat>, n: nat, ks': set<nat>, n': nat)
    requires Spent(s, t, d, ks, n) && Spent(t, r, d, ks', n')
    ensures Spent(s, r, d, ks + ks', n + n')
  {
    assert Tables(s, d) + (ks + ks') == Tables(s, d) + ks + ks';
  }

  /** A step that leaves the directory page alone. */
  lemma SpentPages(s: State, t: State, d: nat, n: nat)
    requires d < |s.mem| && d < |t.mem| && t.mem[d] == s.mem[d] && |t.free| + n == |s.free|
    ensures Spent(s, t, d, {}, n)
  {
    assert Tables(t, d) == Tables(s, d);
  }

  lemma SpentTable(c: Params, s: State, t: State, d: nat, k: nat)
    requires d < |s.mem| == |t.mem| && k < |s.mem[d]| == |t.mem[d]| && !s.mem[d][k].p && |t.free| + 1 == |s.free|
    requires t.mem[d] == s.mem[d][k := t.mem[d][k]] && t.mem[d][k].p
    ensures Spent(s, t, d, {k}, 0)
  {
    assert Tables(t, d) == Tables(s, d) + {k} && k !in Tables(s, d);
  }

  lemma SpentFound(s: State, d: nat, k: nat)
    requires d < |s.mem| && k < |s.mem[d]| && s.mem[d][k].p
    ensures Spent(s, s, d, {k}, 0)
  {
    assert Tables(s, d) + {k} == Tables(s, d);
  }

  /** There are not enough free pages for the tables of pages [lo, hi) of d and n pages besides. */
  ghost predicate Short(c: Params, s: State, d: nat, lo: nat, hi: nat, n: nat) {
    c.words > 0 && d < |s.mem| && |s.free| + |Tables(s, d)| < |Tables(s, d) + Dirs(c, lo, hi)| + n
  }

  lemma NotShort(c: Params, s: State, t: State, d: nat, lo: nat, hi: nat, n: nat)
    requires c.words > 0 && Spent(s, t, d, Dirs(c, lo, hi), n)
    ensures !Short(c, s, d, lo, hi, n)
  {
  }

  /** No page is left for the page table of page i. */
  lemma NoTable(c: Params, s: State, t: State, d: nat, lo: nat, i: nat, hi: nat, n: nat)
    requires c.words > 0 && Spent(s, t, d, Dirs(c, lo, i), n) && t.free == [] && lo <= i < hi
    requires Pdx(c, i) !in Tables(t, d)
    ensures Short(c, s, d, lo, hi, n)
  {
    hide Pdx;
    DirsGrow(c, lo, i, hi);
    assert |Tables(t, d) + {Pdx(c, i)}| == |Tables(t, d)| + 1;
    SubsetSize(Tables(t, d) + {Pdx(c, i)}, Tables(s, d) + Dirs(c, lo, hi));
  }

  /** No page is left for page i itself. */
  lemma NoPage(c: Params, s: State, t: State, d: nat, lo: nat, i: nat, hi: nat)
    requires c.words > 0 && lo <= i < hi && Spent(s, t, d, Dirs(c, lo, i), i - lo) && t.free == []
    ensures Short(c, s, d, lo, hi, hi - lo)
  {
    hide Pdx;
    DirsGrow(c, lo, i, hi);
    SubsetSize(Tables(t, d), Tables(s, d) + Dirs(c, lo, hi));
  }

  /** One page and no table for it: seen from the start. */
  lemma ShortOfTable(c: Params, s: State, t: State, d: nat, lo: nat, i: nat, hi: nat)
    requires c.words > 0 && lo <= i < hi && Spent(s, t, d, Dirs(c, lo, i), i - lo + 1) && Short(c, t, d, i, i + 1, 0)
    ensures Short(c, s, d, lo, hi, hi - lo)
  {
    hide Pdx;
    DirsGrow(c, lo, i, hi);
    assert Dirs(c, i, i + 1) == {Pdx(c, i)} by { assert Dirs(c, i, i) == {}; }
    SubsetSize(Tables(t, d) + {Pdx(c, i)}, Tables(s, d) + Dirs(c, lo, hi));
  }

  lemma OneDir(c: Params, i: nat)
    requires c.words > 0
    ensures Dirs(c, i, i) == {} && Dirs(c, i, i + 1) == {Pdx(c, i)}
  {
  }

  lemma NextDir(c: Params, lo: nat, i: nat)
    requires c.words > 0 && lo <= i
    ensures Dirs(c, lo, i + 1) == Dirs(c, lo, i) + {Pdx(c, i)}
  {
  }

  lemma NoEntry(c: Params, s: State, d: nat, v: nat)
    requires Inv(c, s) && IsDir(s, d) && Va(c, v) && !HasTable(c, s, d, v)
    ensures Pdx(c, v) !in Tables(s, d)
  {
    assert PdeOk(c, s, d, Pdx(c, v));
  }

  /** Storing a page-table entry takes no page. */
  lemma PutSpends(c: Params, s: State, d: nat, v: nat, w: Word)
    requires Inv(c, s) && CanPut(c, s, d, v, w)
    requires v < c.user && Entry(c, s, d, v).p ==> Entry(c, s, d, v).frame < |s.mem|
    ensures Spent(s, Put(c, s, d, v, w), d, {}, 0)
  {
    PutTable(c, s, d, v);
    SpentPages(s, Put(c, s, d, v, w), d, 0);
  }

  /** kalloc of a page that is then filled. */
  lemma TakeSpends(c: Params, s: State, t: State, d: nat, ks: set<nat>, n: nat, page: Page)
    requires Inv(c, t) && IsDir(t, d) && |t.free| > 0 && Spent(s, t, d, ks, n)
    ensures t.head < |t.mem| && |t.mem[t.head]| > 0 && Spent(s, Fill(Pop(t), t.head, page), d, ks, n + 1)
  {
    PopKept(c, t);
    var u := Fill(Pop(t), t.head, page);
    SpentPages(t, u, d, 1);
    SpentThen(s, t, u, d, ks, n, {}, 1);
    assert ks + {} == ks;
  }

  /** A page and its mapping. */
  lemma PageSpends(c: Params, s: State, u: State, r: State, d: nat, lo: nat, i: nat, n: nat)
    requires c.words > 0 && lo <= i && Spent(s, u, d, Dirs(c, lo, i), n) && Spent(u, r, d, Dirs(c, i, i + 1), 0)
    ensures Spent(s, r, d, Dirs(c, lo, i + 1), n)
  {
    hide Pdx;
    OneDir(c, i);
    NextDir(c, lo, i);
    SpentThen(s, u, r, d, Dirs(c, lo, i), n, {Pdx(c, i)}, 0);
  }

  /** One more page mapped: at most its page table was taken. */
  lemma MapSpends(c: Params, s: State, t: State, u: State, d: nat, first: nat, i: nat, w: Word)
    requires Inv(c, u) && CanPut(c, u, d, i, w) && !Entry(c, u, d, i).p && first <= i
    requires Spent(s, t, d, Dirs(c, first, i), 0) && Spent(t, u, d, {Pdx(c, i)}, 0)
    ensures Spent(s, Put(c, u, d, i, w), d, Dirs(c, first, i + 1), 0)
  {
    hide Spent, Pdx;
    var r := Put(c, u, d, i, w);
    NextDir(c, first, i);
    SpentThen(s, t, u, d, Dirs(c, first, i), 0, {Pdx(c, i)}, 0);
    PutSpends(c, u, d, i, w);
    SpentThen(s, u, r, d, Dirs(c, first, i + 1), 0, {}, 0);
    assert Dirs(c, first, i + 1) + {} == Dirs(c, first, i + 1);
  }

  // ----- what the invariant means: no page has two uses

  /** A mapped user page is mapped nowhere else, is not on the free list, and is no directory. */
  lemma NoSharing(c: Params, s: State, d: nat, v: nat, e: nat, x: nat)
    requires Inv(c, s) && IsDir(s, d) && IsDir(s, e) && Va(c, v) && Va(c, x) && v < c.user && x < c.user
    requires Entry(c, s, d, v).p && Entry(c, s, e, x).p && Entry(c, s, d, v).frame == Entry(c, s, e, x).frame
    ensures d == e && v == x
    ensures Entry(c, s, d, v).frame !in s.free && !IsDir(s, Entry(c, s, d, v).frame)
  {
    assert PteOk(c, s, d, v) && PteOk(c, s, e, x);
    var f := Entry(c, s, d, v).frame;
    forall k: nat | k < |s.free| ensures s.free[k] != f {
      assert FreeOk(c, s, k);
    }
  }

  /** The free list has no page twice, and none of its pages is a page table or a directory. */
  lemma FreeListSound(c: Params, s: State, i: nat, j: nat, d: nat, k: nat)
    requires Inv(c, s) && i < j < |s.free| && IsDir(s, d) && k < c.words
    ensures s.free[i] != s.free[j] && s.free[i] != d
    ensures s.mem[d][k].p ==> s.free[i] != s.mem[d][k].frame
  {
    assert FreeOk(c, s, i) && FreeOk(c, s, j) && PdeOk(c, s, d, k);
  }

  // ----- mapping a range

  function PteFor(flags: Word, frame: nat): Word {
    flags.(frame := frame, p := true)
  }

  predicate MapUseAt(s: State, t: State, d: nat, f: nat, first: nat, i: nat, frame: nat)
    requires f < |s.use| && f < |t.use|
  {
    || GrewAt(s, t, d, f)
    || (s.use[f].Other? && t.use[f].User? && t.use[f].dir == d && first <= t.use[f].v < i && f == frame + (t.use[f].v - first))
  }

  /** From s to t pages [first, i) of d have been mapped to consecutive frames. */
  ghost predicate Mapped(c: Params, s: State, t: State, d: nat, first: nat, i: nat, frame: nat, flags: Word) {
    && SameBut(c, s, t, d, first, i) && IsDir(t, d) && first <= i && LooseKept(s, t)
    && (forall v: nat :: first <= v < i ==> Va(c, v) && Entry(c, t, d, v) == PteFor(flags, frame + (v - first)))
    && (forall f: nat :: f < |s.use| ==> MapUseAt(s, t, d, f, first, i, frame))
  }

  /** Pages [first, last] of d can be mapped to frames from frame on: none is mapped yet, and a frame
      for a user page is in nobody's use. */
  ghost predicate CanMap(c: Params, s: State, d: nat, first: nat, last: nat, frame: nat) {
    && Sized(c, s) && IsDir(s, d) && first <= last
    && (forall v: nat :: first <= v <= last ==> Va(c, v) && !Entry(c, s, d, v).p)
    && (forall v: nat :: first <= v <= last ==> FrameReady(c, s, first, frame, v))
  }

  predicate FrameReady(c: Params, s: State, first: nat, frame: nat, v: nat) {
    first <= v && v < c.user ==> 0 < frame + (v - first) < |s.use| && s.use[frame + (v - first)].Other?
  }

  lemma MapNone(c: Params, s: State, d: nat, first: nat, frame: nat, flags: Word)
    requires Inv(c, s) && IsDir(s, d)
    ensures Mapped(c, s, s, d, first, first, frame, flags)
  {
    forall f: nat | f < |s.use| ensures MapUseAt(s, s, d, f, first, first, frame) {
    }
  }

  lemma MapStarts(c: Params, s: State, d: nat, first: nat, last: nat, frame: nat, flags: Word)
    requires Inv(c, s) && CanMap(c, s, d, first, last, frame)
    ensures first <= last && c.words > 0
    ensures Mapped(c, s, s, d, first, first, frame, flags) && Spent(s, s, d, Dirs(c, first, first), 0)
  {
    MapNone(c, s, d, first, frame, flags);
    OneDir(c, first);
    SpentNothing(s, d);
  }

  lemma MapAfterWalk(c: Params, s: State, t: State, r: State, d: nat, first: nat, i: nat, frame: nat, flags: Word)
    requires Inv(c, s) && Inv(c, t) && Mapped(c, s, t, d, first, i, frame, flags)
    requires AllSame(c, t, r) && Grew(t, r, d) && LooseKept(t, r)
    ensures Mapped(c, s, r, d, first, i, frame, flags)
  {
    forall f: nat | f < |s.use| && s.use[f].Other? ensures r.mem[f] == s.mem[f] {
      assert MapUseAt(s, t, d, f, first, i, frame) && UseOk(c, t, f);
      if t.use[f].User? {
        assert SameAt(c, t, r, d, t.use[f].v);
      }
    }
    assert SameBut(c, t, r, d, first, i);
    SameButTrans(c, s, t, r, d, first, i);
    assert SameAt(c, t, r, d, 0);
    forall v: nat | first <= v < i ensures Va(c, v) && Entry(c, r, d, v) == PteFor(flags, frame + (v - first)) {
      assert SameAt(c, t, r, d, v);
    }
    forall f: nat | f < |s.use| ensures MapUseAt(s, r, d, f, first, i, frame) {
      assert MapUseAt(s, t, d, f, first, i, frame) && GrewAt(t, r, d, f);
    }
  }

  lemma MapReady(c: Params, s: State, t: State, d: nat, first: nat, i: nat, last: nat, frame: nat, flags: Word)
    requires CanMap(c, s, d, first, last, frame) && first <= i <= last && Mapped(c, s, t, d, first, i, frame, flags)
    ensures Sized(c, t) && IsDir(t, d) && Va(c, i)
  {
  }

  lemma CanPutNext(c: Params, s: State, t: State, d: nat, first: nat, i: nat, last: nat, frame: nat, flags: Word)
    requires Inv(c, s) && Inv(c, t) && CanMap(c, s, d, first, last, frame) && first <= i <= last
    requires Mapped(c, s, t, d, first, i, frame, flags) && HasTable(c, t, d, i)
    ensures CanPut(c, t, d, i, PteFor(flags, frame + (i - first))) && !Entry(c, t, d, i).p
  {
    assert SameAt(c, s, t, d, i) && FrameReady(c, s, first, frame, i);
    if i < c.user {
      assert MapUseAt(s, t, d, frame + (i - first), first, i, frame);
    }
  }

  lemma MapStep(c: Params, s: State, t: State, d: nat, first: nat, i: nat, last: nat, frame: nat, flags: Word)
    requires Inv(c, s) && Inv(c, t) && CanMap(c, s, d, first, last, frame) && first <= i <= last
    requires Mapped(c, s, t, d, first, i, frame, flags) && HasTable(c, t, d, i)
    requires CanPut(c, t, d, i, PteFor(flags, frame + (i - first))) && !Entry(c, t, d, i).p
    ensures var r := Put(c, t, d, i, PteFor(flags, frame + (i - first)));
      Inv(c, r) && Mapped(c, s, r, d, first, i + 1, frame, flags)
  {
    var w := PteFor(flags, frame + (i - first));
    var r := Put(c, t, d, i, w);
    PutKept(c, t, d, i, w);
    assert SameBut(c, s, t, d, first, i + 1) && SameBut(c, t, r, d, first, i + 1);
    SameButTrans(c, s, t, r, d, first, i + 1);
    PutTable(c, t, d, i);
    forall f: nat | f < |s.use| && s.use[f].Other? ensures r.mem[f] == s.mem[f] {
      assert MapUseAt(s, t, d, f, first, i, frame) && UseOk(c, t, f);
    }
    forall v: nat | first <= v < i + 1 ensures Va(c, v) && Entry(c, r, d, v) == PteFor(flags, frame + (v - first)) {
      if v < i {
        assert SameAt(c, t, r, d, v);
      }
    }
    var j := i + 1;
    forall f: nat | f < |s.use| ensures MapUseAt(s, r, d, f, first, j, frame) {
      assert MapUseAt(s, t, d, f, first, i, frame);
      if i < c.user && f == w.frame {
        assert MapUseAt(s, t, d, w.frame, first, i, frame);
      }
    }
  }

  // ----- unmapping a range

  /** The page mapped at page v of d, for lo <= v < i, has become free; every other page is used as before. */
  predicate UnmapUseAt(s: State, t: State, d: nat, lo: nat, i: nat, f: nat)
    requires f < |s.use| && f < |t.use|
  {
    if s.use[f].User? && s.use[f].dir == d && lo <= s.use[f].v < i then t.use[f].Free? else Keeps(s.use[f], t.use[f])
  }

  ghost predicate Unmapped(c: Params, s: State, t: State, d: nat, lo: nat, i: nat) {
    && SameBut(c, s, t, d, lo, i) && IsDir(t, d)
    && (forall v: nat :: lo <= v < i ==> Va(c, v) && Entry(c, t, d, v) == Zero)
    && (forall f: nat :: f < |s.use| ==> UnmapUseAt(s, t, d, lo, i, f))
  }

  lemma UnmapNone(c: Params, s: State, d: nat, lo: nat)
    requires Inv(c, s) && IsDir(s, d)
    ensures Unmapped(c, s, s, d, lo, lo)
  {
    forall f: nat | f < |s.use| ensures UnmapUseAt(s, s, d, lo, lo, f) {
    }
  }

  /** Page i is not mapped: nothing to do. */
  lemma UnmapSkip(c: Params, s: State, t: State, d: nat, lo: nat, i: nat, j: nat)
    requires Inv(c, s) && Inv(c, t) && IsDir(s, d) && Unmapped(c, s, t, d, lo, i) && lo <= i <= j <= c.user
    requires forall v: nat :: i <= v < j ==> Va(c, v) && !Entry(c, t, d, v).p
    ensures Unmapped(c, s, t, d, lo, j)
  {
    forall v: nat | lo <= v < j ensures Va(c, v) && Entry(c, t, d, v) == Zero {
      assert PteOk(c, t, d, v);
    }
    forall f: nat | f < |s.use| ensures UnmapUseAt(s, t, d, lo, j, f) {
      assert UnmapUseAt(s, t, d, lo, i, f) && UseOk(c, s, f);
      if s.use[f].User? {
        var e, v := s.use[f].dir, s.use[f].v;
        assert (e == d && lo <= v < i) || SameAt(c, s, t, e, v);
      }
    }
  }

  /** The page mapped at i is freed and its entry cleared. */
  lemma UnmapStep(c: Params, s: State, t: State, d: nat, lo: nat, i: nat)
    requires Inv(c, s) && Inv(c, t) && IsDir(s, d) && Unmapped(c, s, t, d, lo, i) && lo <= i < c.user
    requires Va(c, i) && HasTable(c, t, d, i) && Entry(c, t, d, i).p
    ensures CanPut(c, t, d, i, Zero) && 0 < Entry(c, t, d, i).frame < |t.mem|
    ensures var r := Push(c, Put(c, t, d, i, Zero), Entry(c, t, d, i).frame);
      Inv(c, r) && Unmapped(c, s, r, d, lo, i + 1)
  {
    var f := Entry(c, t, d, i).frame;
    assert PteOk(c, t, d, i);
    PutKept(c, t, d, i, Zero);
    var q := Put(c, t, d, i, Zero);
    PutTable(c, t, d, i);
    PushKept(c, q, f);
    var r := Push(c, q, f);
    var j := i + 1;
    assert SameBut(c, s, t, d, lo, j) && SameBut(c, t, q, d, lo, j) && SameBut(c, q, r, d, lo, j);
    SameButTrans(c, s, t, q, d, lo, j);
    SameButTrans(c, s, q, r, d, lo, j);
    assert IsDir(q, d) && IsDir(r, d);
    forall v: nat | lo <= v < j ensures Va(c, v) && Entry(c, r, d, v) == Zero {
      assert SameAt(c, q, r, d, v);
      if v < i {
        assert SameAt(c, t, q, d, v);
      }
    }
    assert SameAt(c, s, t, d, i) && PteOk(c, s, d, i);
    forall g: nat | g < |s.use| ensures UnmapUseAt(s, r, d, lo, j, g) {
      assert UnmapUseAt(s, t, d, lo, i, g) && UseOk(c, s, g);
    }
  }

  /** kfree first and then clearing the entry gives the same memory. */
  lemma FreeThenClear(c: Params, t: State, d: nat, i: nat)
    requires Inv(c, t) && IsDir(t, d) && Va(c, i) && HasTable(c, t, d, i) && Entry(c, t, d, i).p && i < c.user
    requires CanPut(c, t, d, i, Zero)
    ensures var table := t.mem[d][Pdx(c, i)].frame; var f := Entry(c, t, d, i).frame;
      f < |t.mem| && table != f && table < |t.mem| && Sized(c, Push(c, t, f)) &&
      var r := Push(c, t, f);
      r.(mem := r.mem[table := r.mem[table][Ptx(c, i) := Zero]]) == Push(c, Put(c, t, d, i, Zero), f)
  {
    PutTable(c, t, d, i);
    var table := t.mem[d][Pdx(c, i)].frame;
    var f := Entry(c, t, d, i).frame;
    var r := Push(c, t, f);
    var q := Push(c, Put(c, t, d, i, Zero), f);
    assert r.mem[table := r.mem[table][Ptx(c, i) := Zero]] == q.mem;
    assert r.use == q.use;
  }

  lemma SameTable(c: Params, s: State, d: nat, i: nat, v: nat)
    requires Sized(c, s) && d < |s.mem| && Va(c, i) && !HasTable(c, s, d, i) && i <= v < (Pdx(c, i) + 1) * c.words
    ensures Va(c, v) && !Entry(c, s, d, v).p
  {
    var q := i / c.words;
    DivMod(i, c.words);
    OneMore(q, c.words);
    Quotient(v, q, v - q * c.words, c.words);
  }

  // ----- growing a process

  const UserRw: Word := Word(0, true, true, true, 0)

  /** Page v of d is mapped, writable for the user, to a page of zeros that was free in s. */
  predicate FreshAt(c: Params, s: State, t: State, d: nat, v: nat)
    requires Comparable(c, s, t)
  {
    && IsDir(t, d) && Va(c, v)
    && Entry(c, t, d, v) == PteFor(UserRw, Entry(c, t, d, v).frame)
    && Entry(c, t, d, v).frame < |s.mem| && s.use[Entry(c, t, d, v).frame].Free?
    && t.mem[Entry(c, t, d, v).frame] == ZeroPage(c)
  }

  /** Page f is used as before, or was free and is now a table of d, mapped by d in [lo, i), or g. */
  predicate AllocUseAt(s: State, t: State, d: nat, lo: nat, i: nat, g: nat, f: nat)
    requires f < |s.use| && f < |t.use|
  {
    || GrewAt(s, t, d, f)
    || (s.use[f].Free? && t.use[f].User? && t.use[f].dir == d && lo <= t.use[f].v < i)
    || (f == g && s.use[f].Free? && t.use[f].Other?)
  }

  /** From s to t pages [lo, i) of d were given new pages; g, if not 0, is a page taken from the free
      list and not used yet. */
  ghost predicate Alloced(c: Params, s: State, t: State, d: nat, lo: nat, i: nat, g: nat) {
    && SameBut(c, s, t, d, lo, i) && IsDir(t, d) && lo <= i
    && (forall v: nat :: lo <= v < i ==> FreshAt(c, s, t, d, v))
    && (forall f: nat :: f < |s.use| ==> AllocUseAt(s, t, d, lo, i, g, f))
    && (g != 0 ==> g < |s.use| && s.use[g].Free? && t.use[g].Other?)
  }

  lemma AllocNone(c: Params, s: State, d: nat, lo: nat)
    requires Inv(c, s) && IsDir(s, d)
    ensures Alloced(c, s, s, d, lo, lo, 0)
  {
    forall f: nat | f < |s.use| ensures AllocUseAt(s, s, d, lo, lo, 0, f) {
    }
  }

  /** A step that leaves every mapping alone leaves the new pages alone. */
  lemma FreshSame(c: Params, s: State, t: State, r: State, d: nat, v: nat)
    requires Comparable(c, s, t) && Comparable(c, t, r) && FreshAt(c, s, t, d, v) && SameAt(c, t, r, d, v) && v < c.user
    ensures FreshAt(c, s, r, d, v)
  {
  }

  lemma AllocPop(c: Params, s: State, t: State, d: nat, lo: nat, i: nat)
    requires Inv(c, s) && Inv(c, t) && Alloced(c, s, t, d, lo, i, 0) && |t.free| > 0 && i <= c.user
    ensures t.head < |t.mem| && |t.mem[t.head]| > 0 && t.head != 0
    ensures Inv(c, Pop(t)) && Alloced(c, s, Pop(t), d, lo, i, t.head)
  {
    PopKept(c, t);
    var r := Pop(t);
    assert SameBut(c, t, r, d, lo, i);
    SameButTrans(c, s, t, r, d, lo, i);
    forall v: nat | lo <= v < i ensures FreshAt(c, s, r, d, v) {
      assert SameAt(c, t, r, d, v);
      FreshSame(c, s, t, r, d, v);
    }
    assert AllocUseAt(s, t, d, lo, i, 0, t.head);
    forall f: nat | f < |s.use| ensures AllocUseAt(s, r, d, lo, i, t.head, f) {
      assert AllocUseAt(s, t, d, lo, i, 0, f);
    }
  }

  lemma AllocFill(c: Params, s: State, t: State, d: nat, lo: nat, i: nat, g: nat, page: Page)
    requires Inv(c, s) && Inv(c, t) && Alloced(c, s, t, d, lo, i, g) && g != 0 && i <= c.user && |page| == c.words
    ensures g < |t.mem|
    ensures Inv(c, Fill(t, g, page)) && Alloced(c, s, Fill(t, g, page), d, lo, i, g)
  {
    FillKept(c, t, g, page);
    var r := Fill(t, g, page);
    assert SameBut(c, t, r, d, lo, i);
    SameButTrans(c, s, t, r, d, lo, i);
    forall v: nat | lo <= v < i ensures FreshAt(c, s, r, d, v) {
      assert SameAt(c, t, r, d, v);
      FreshSame(c, s, t, r, d, v);
    }
    forall f: nat | f < |s.use| ensures AllocUseAt(s, r, d, lo, i, g, f) {
      assert AllocUseAt(s, t, d, lo, i, g, f);
    }
  }

  /** The page cannot be mapped for want of a page table. */
  lemma AllocUnmappable(c: Params, s: State, t: State, r: State, d: nat, lo: nat, i: nat, g: nat)
    requires Inv(c, s) && Inv(c, t) && Alloced(c, s, t, d, lo, i, g) && g != 0 && i <= c.user
    requires Mapped(c, t, r, d, i, i, g, UserRw)
    ensures Alloced(c, s, r, d, lo, i, g)
  {
    assert SameBut(c, t, r, d, lo, i);
    SameButTrans(c, s, t, r, d, lo, i);
    forall v: nat | lo <= v < i ensures FreshAt(c, s, r, d, v) {
      assert SameAt(c, t, r, d, v);
      FreshSame(c, s, t, r, d, v);
    }
    assert MapUseAt(t, r, d, g, i, i, g);
    forall f: nat | f < |s.use| ensures AllocUseAt(s, r, d, lo, i, g, f) {
      assert AllocUseAt(s, t, d, lo, i, g, f) && MapUseAt(t, r, d, f, i, i, g);
    }
  }

  lemma AllocMapped(c: Params, s: State, t: State, r: State, d: nat, lo: nat, i: nat, g: nat)
    requires Inv(c, s) && Inv(c, t) && Inv(c, r) && Alloced(c, s, t, d, lo, i, g) && g != 0 && i < c.user
    requires Mapped(c, t, r, d, i, i + 1, g, UserRw) && t.mem[g] == ZeroPage(c)
    ensures Alloced(c, s, r, d, lo, i + 1, 0)
  {
    var j := i + 1;
    assert SameBut(c, s, t, d, lo, j) && SameBut(c, t, r, d, lo, j);
    SameButTrans(c, s, t, r, d, lo, j);
    forall v: nat | lo <= v < j ensures FreshAt(c, s, r, d, v) {
      if v < i {
        assert SameAt(c, t, r, d, v);
        FreshSame(c, s, t, r, d, v);
      }
    }
    assert PteOk(c, r, d, i);
    forall f: nat | f < |s.use| ensures AllocUseAt(s, r, d, lo, j, 0, f) {
      assert AllocUseAt(s, t, d, lo, i, g, f) && MapUseAt(t, r, d, f, i, j, g);
    }
  }

  /** No mapping has changed; only free pages became page tables of d, and g was taken. */
  ghost predicate Restored(c: Params, s: State, r: State, d: nat, g: nat) {
    && AllSame(c, s, r)
    && (forall f: nat :: f < |s.use| ==> AllocUseAt(s, r, d, 0, 0, g, f))
    && (g != 0 ==> g < |s.use| && s.use[g].Free? && r.use[g].Other?)
  }

  /** Undoing a failed allocation. */
  lemma AllocUndone(c: Params, s: State, t: State, r: State, d: nat, lo: nat, i: nat, hi: nat, g: nat)
    requires Inv(c, s) && Inv(c, t) && IsDir(s, d) && Alloced(c, s, t, d, lo, i, g) && lo <= i <= hi <= c.user
    requires forall v: nat :: lo <= v < hi ==> Va(c, v) && !Entry(c, s, d, v).p
    requires Unmapped(c, t, r, d, lo, hi)
    ensures Restored(c, s, r, d, g)
  {
    forall e: nat, v: nat ensures SameAt(c, s, r, e, v) {
      if e == d && lo <= v < hi {
        assert PteOk(c, s, d, v);
      } else {
        SameTrans(c, s, t, r, e, v);
      }
    }
    forall f: nat | f < |s.use| ensures AllocUseAt(s, r, d, 0, 0, g, f) {
      assert AllocUseAt(s, t, d, lo, i, g, f) && UnmapUseAt(t, r, d, lo, hi, f) && UseOk(c, s, f);
    }
    if g != 0 {
      assert UnmapUseAt(t, r, d, lo, hi, g);
    }
  }

  lemma RestoredPush(c: Params, s: State, r: State, d: nat, g: nat)
    requires Inv(c, s) && Inv(c, r) && Restored(c, s, r, d, g) && g != 0
    ensures g < |r.mem| && Inv(c, Push(c, r, g)) && Restored(c, s, Push(c, r, g), d, 0)
  {
    PushKept(c, r, g);
    AllSameTrans(c, s, r, Push(c, r, g));
    forall f: nat | f < |s.use| ensures AllocUseAt(s, Push(c, r, g), d, 0, 0, 0, f) {
      assert AllocUseAt(s, r, d, 0, 0, g, f);
    }
  }

  lemma RestoredGrew(c: Params, s: State, r: State, d: nat)
    requires Inv(c, s) && Restored(c, s, r, d, 0)
    ensures AllSame(c, s, r) && Grew(s, r, d)
  {
    forall f: nat | f < |s.use| ensures GrewAt(s, r, d, f) {
      assert AllocUseAt(s, r, d, 0, 0, 0, f);
      assert UseOk(c, s, f);
    }
  }

  // ----- freeing an address space

  ghost predicate OthersSame(c: Params, s: State, t: State, d: nat) {
    Comparable(c, s, t) && forall e: nat, v: nat :: e != d ==> SameAt(c, s, t, e, v)
  }

  lemma OthersTrans(c: Params, s: State, t: State, r: State, d: nat)
    requires Inv(c, s) && OthersSame(c, s, t, d) && OthersSame(c, t, r, d)
    ensures OthersSame(c, s, r, d)
  {
    forall e: nat, v: nat | e != d ensures SameAt(c, s, r, e, v) {
      SameTrans(c, s, t, r, e, v);
    }
  }

  /** Page f belongs to the address space of directory d. */
  predicate Owned(s: State, f: nat, d: nat)
    requires f < |s.use|
  {
    || (f == d && s.use[f].Dir?)
    || (s.use[f].Table? && s.use[f].dir == d)
    || (s.use[f].User? && s.use[f].dir == d)
  }

  /** d's user pages and its first k tables are free, its other tables doomed. */
  predicate FreeingAt(s: State, t: State, d: nat, k: nat, f: nat)
    requires f < |s.use| && f < |t.use|
  {
    if f == d then t.use[f].Other?
    else if s.use[f].User? && s.use[f].dir == d then t.use[f].Free?
    else if s.use[f].Table? && s.use[f].dir == d then
      (if s.use[f].k < k then t.use[f].Free? else t.use[f] == Doomed(d, s.use[f].k))
    else Keeps(s.use[f], t.use[f])
  }

  ghost predicate Freeing(c: Params, s: State, t: State, d: nat, k: nat) {
    && OthersSame(c, s, t, d)
    && (forall f: nat :: f < |s.use| ==> FreeingAt(s, t, d, k, f))
    && d < |t.mem| && t.use[d].Other?
    && (forall f: nat :: f < |t.mem| ==> DoomedBack(c, t, d, f))
    && (forall j: nat :: k <= j < c.words && t.mem[d][j].p ==>
          t.mem[d][j].frame < |t.mem| && t.use[t.mem[d][j].frame] == Doomed(d, j))
  }

  lemma FreeingStarts(c: Params, s: State, t: State, d: nat)
    requires Inv(c, s) && Inv(c, t) && IsDir(s, d) && Unmapped(c, s, t, d, 0, c.user)
    ensures Core(c, Doom(t, d)) && Freeing(c, s, Doom(t, d), d, 0)
  {
    forall f | 0 <= f < |t.use| && t.use[f].User? ensures t.use[f].dir != d {
      assert UseOk(c, t, f);
    }
    DoomKept(c, t, d);
    var r := Doom(t, d);
    assert OthersSame(c, s, t, d) && OthersSame(c, t, r, d);
    OthersTrans(c, s, t, r, d);
    forall f: nat | f < |s.use| ensures FreeingAt(s, r, d, 0, f) {
      assert UnmapUseAt(s, t, d, 0, c.user, f) && UseOk(c, s, f);
    }
  }

  lemma FreeingStep(c: Params, s: State, t: State, d: nat, k: nat)
    requires Inv(c, s) && Core(c, t) && Freeing(c, s, t, d, k) && k < c.words && t.mem[d][k].p
    ensures 0 < t.mem[d][k].frame < |t.mem|
    ensures Core(c, Push(c, t, t.mem[d][k].frame)) && Freeing(c, s, Push(c, t, t.mem[d][k].frame), d, k + 1)
  {
    var g := t.mem[d][k].frame;
    PushCore(c, t, g);
    var r := Push(c, t, g);
    assert OthersSame(c, t, r, d);
    OthersTrans(c, s, t, r, d);
    var k1 := k + 1;
    forall f: nat | f < |r.mem| ensures DoomedBack(c, r, d, f) {
      assert DoomedBack(c, t, d, f);
    }
    assert FreeingAt(s, t, d, k, g);
    forall f: nat | f < |s.use| ensures FreeingAt(s, r, d, k1, f) {
      assert FreeingAt(s, t, d, k, f) && DoomedBack(c, t, d, f);
    }
  }

  lemma FreeingSkip(c: Params, s: State, t: State, d: nat, k: nat)
    requires Inv(c, s) && IsDir(s, d) && Freeing(c, s, t, d, k) && k < c.words && !t.mem[d][k].p
    ensures Freeing(c, s, t, d, k + 1)
  {
    var k1 := k + 1;
    forall f: nat | f < |s.use| ensures FreeingAt(s, t, d, k1, f) {
      assert FreeingAt(s, t, d, k, f) && DoomedBack(c, t, d, f);
    }
  }

  /** Every page of d has been returned, and every other page is used as before. */
  predicate FreedAt(s: State, t: State, d: nat, f: nat)
    requires f < |s.use| && f < |t.use|
  {
    if Owned(s, f, d) then t.use[f].Free? else Keeps(s.use[f], t.use[f])
  }

  ghost predicate Freed(c: Params, s: State, t: State, d: nat) {
    OthersSame(c, s, t, d) && forall f: nat :: f < |s.use| ==> FreedAt(s, t, d, f)
  }

  lemma FreeingDone(c: Params, s: State, t: State, d: nat)
    requires Inv(c, s) && Core(c, t) && IsDir(s, d) && Freeing(c, s, t, d, c.words)
    ensures Inv(c, Push(c, t, d)) && Freed(c, s, Push(c, t, d), d)
  {
    PushCore(c, t, d);
    var r := Push(c, t, d);
    assert OthersSame(c, t, r, d);
    OthersTrans(c, s, t, r, d);
    forall f: nat | f < |s.use| ensures FreedAt(s, r, d, f) && !r.use[f].Doomed? {
      assert FreeingAt(s, t, d, c.words, f) && UseOk(c, s, f);
    }
  }

  // ----- copying an address space

  /** The kernel's part of every address space: ranges of pages and the frames they map to. */
  datatype Range = Range(first: nat, last: nat, frame: nat, flags: Word)

  function KernelEntry(kmap: seq<Range>, v: nat): Word {
    if kmap == [] then Zero
    else
      var r := kmap[|kmap| - 1];
      if r.first <= v <= r.last then PteFor(r.flags, r.frame + (v - r.first)) else KernelEntry(kmap[..|kmap| - 1], v)
  }

  predicate RangeOk(c: Params, kmap: seq<Range>, j: nat)
    requires j < |kmap|
  {
    && c.user <= kmap[j].first <= kmap[j].last
    && forall v: nat :: kmap[j].first <= v <= kmap[j].last ==> Va(c, v) && !KernelEntry(kmap[..j], v).p
  }

  /** The ranges lie above user memory and do not overlap. */
  ghost predicate KmapOk(c: Params, kmap: seq<Range>) {
    forall j: nat :: j < |kmap| ==> RangeOk(c, kmap, j)
  }

  /** Page v of the new directory maps a copy, on a page that was free, of what d maps there, with
      the same flags. */
  predicate CopyAt(c: Params, s: State, t: State, d: nat, nd: nat, v: nat)
    requires Comparable(c, s, t)
  {
    && IsDir(s, d) && IsDir(t, nd) && Va(c, v)
    && Entry(c, t, nd, v) == Entry(c, s, d, v).(frame := Entry(c, t, nd, v).frame)
    && Entry(c, t, nd, v).frame < |s.mem| && s.use[Entry(c, t, nd, v).frame].Free?
    && Entry(c, s, d, v).frame < |s.mem|
    && t.mem[Entry(c, t, nd, v).frame] == s.mem[Entry(c, s, d, v).frame]
  }

  /** Page f is used as before, or was free and now belongs to nd or is g. */
  predicate CloneUseAt(s: State, t: State, nd: nat, g: nat, f: nat)
    requires f < |s.use| && f < |t.use|
  {
    || Keeps(s.use[f], t.use[f])
    || (s.use[f].Free? && Owned(t, f, nd))
    || (f == g && s.use[f].Free? && t.use[f].Other?)
  }

  ghost predicate CloneUse(s: State, t: State, nd: nat, g: nat) {
    && |s.use| == |t.use| && (forall f: nat :: f < |s.use| ==> CloneUseAt(s, t, nd, g, f))
    && (g != 0 ==> g < |s.use| && s.use[g].Free? && t.use[g].Other?)
  }

  /** nd is a new directory with copies of pages [1, i) of d and otherwise only the kernel's
      mappings; nothing else changed, except that g, if not 0, has been taken off the free list. */
  ghost predicate Cloned(c: Params, s: State, t: State, d: nat, nd: nat, i: nat, g: nat, kmap: seq<Range>) {
    && AllSame(c, s, t) && IsDir(t, nd) && s.use[nd].Free? && CloneUse(s, t, nd, g)
    && (forall v: nat :: 1 <= v < i ==> CopyAt(c, s, t, d, nd, v))
    && (forall v: nat :: Va(c, v) && !(1 <= v < i) ==> Entry(c, t, nd, v) == KernelEntry(kmap, v))
  }

  /** Pages [1, n) of d are mapped, and are user pages. */
  ghost predicate Present(c: Params, s: State, d: nat, n: nat) {
    && Sized(c, s) && IsDir(s, d)
    && forall v: nat :: 1 <= v < n ==> v < c.user && Va(c, v) && Entry(c, s, d, v).p
  }

  lemma PresentBelow(c: Params, s: State, d: nat, n: nat, m: nat)
    requires Present(c, s, d, n) && m <= n
    ensures Present(c, s, d, m)
  {
  }

  lemma ClonedDir(c: Params, s: State, t: State, d: nat, nd: nat, i: nat, g: nat, kmap: seq<Range>)
    requires Cloned(c, s, t, d, nd, i, g, kmap)
    ensures nd < |t.mem|
  {
  }

  lemma CopySame(c: Params, s: State, t: State, r: State, d: nat, nd: nat, v: nat)
    requires Comparable(c, s, t) && Comparable(c, t, r) && v < c.user
    requires CopyAt(c, s, t, d, nd, v) && SameAt(c, t, r, nd, v) && Entry(c, s, d, v).p
    ensures CopyAt(c, s, r, d, nd, v)
  {
  }

  /** A step that leaves every mapping alone. */
  lemma CloneSame(c: Params, s: State, t: State, r: State, d: nat, nd: nat, i: nat, g: nat, h: nat, kmap: seq<Range>)
    requires Inv(c, s) && Cloned(c, s, t, d, nd, i, g, kmap) && AllSame(c, t, r) && Present(c, s, d, i)
    requires CloneUse(s, r, nd, h)
    ensures Cloned(c, s, r, d, nd, i, h, kmap)
  {
    AllSameTrans(c, s, t, r);
    assert SameAt(c, t, r, nd, 0);
    forall v: nat | 1 <= v < i ensures CopyAt(c, s, r, d, nd, v) {
      assert CopyAt(c, s, t, d, nd, v) && SameAt(c, t, r, nd, v);
      CopySame(c, s, t, r, d, nd, v);
    }
    forall v: nat | Va(c, v) && !(1 <= v < i) ensures Entry(c, r, nd, v) == KernelEntry(kmap, v) {
      assert SameAt(c, t, r, nd, v);
    }
  }

  /** The page to copy next is still what it was. */
  lemma CloneSource(c: Params, s: State, t: State, d: nat, nd: nat, i: nat, g: nat, kmap: seq<Range>)
    requires Inv(c, s) && Inv(c, t) && Cloned(c, s, t, d, nd, i, g, kmap) && Present(c, s, d, i + 1) && 1 <= i
    ensures i < c.user && Va(c, i) && Present(c, s, d, i) && IsDir(t, d) && HasTable(c, t, d, i)
    ensures Entry(c, t, d, i) == Entry(c, s, d, i) && Entry(c, s, d, i).frame < |s.mem| == |t.mem|
    ensures t.mem[Entry(c, s, d, i).frame] == s.mem[Entry(c, s, d, i).frame]
  {
    assert SameAt(c, s, t, d, i) && PteOk(c, s, d, i);
  }

  lemma ClonePop(c: Params, s: State, t: State, d: nat, nd: nat, i: nat, kmap: seq<Range>)
    requires Inv(c, s) && Inv(c, t) && Cloned(c, s, t, d, nd, i, 0, kmap) && Present(c, s, d, i) && |t.free| > 0
    ensures t.head < |t.mem| && |t.mem[t.head]| > 0 && t.head != 0
    ensures Inv(c, Pop(t)) && Cloned(c, s, Pop(t), d, nd, i, t.head, kmap)
  {
    PopKept(c, t);
    var r := Pop(t);
    assert CloneUseAt(s, t, nd, 0, t.head);
    forall f: nat | f < |s.use| ensures CloneUseAt(s, r, nd, t.head, f) {
      assert CloneUseAt(s, t, nd, 0, f);
    }
    CloneSame(c, s, t, r, d, nd, i, 0, t.head, kmap);
  }

  lemma CloneFill(c: Params, s: State, t: State, d: nat, nd: nat, i: nat, g: nat, page: Page, kmap: seq<Range>)
    requires Inv(c, s) && Inv(c, t) && Cloned(c, s, t, d, nd, i, g, kmap) && g != 0 && |page| == c.words && Present(c, s, d, i)
    ensures g < |t.mem| && Inv(c, Fill(t, g, page)) && Cloned(c, s, Fill(t, g, page), d, nd, i, g, kmap)
  {
    FillKept(c, t, g, page);
    var r := Fill(t, g, page);
    forall f: nat | f < |s.use| ensures CloneUseAt(s, r, nd, g, f) {
      assert CloneUseAt(s, t, nd, g, f);
    }
    CloneSame(c, s, t, r, d, nd, i, g, g, kmap);
  }

  /** The copy cannot be mapped for want of a page table. */
  lemma CloneUnmappable(c: Params, s: State, t: State, r: State, d: nat, nd: nat, i: nat, g: nat, flags: Word, kmap: seq<Range>)
    requires Inv(c, s) && Inv(c, t) && Cloned(c, s, t, d, nd, i, g, kmap) && g != 0 && Present(c, s, d, i)
    requires Mapped(c, t, r, nd, i, i, g, flags)
    ensures Cloned(c, s, r, d, nd, i, g, kmap)
  {
    assert AllSame(c, t, r);
    forall f: nat | f < |s.use| ensures CloneUseAt(s, r, nd, g, f) {
      assert CloneUseAt(s, t, nd, g, f) && MapUseAt(t, r, nd, f, i, i, g);
    }
    assert MapUseAt(t, r, nd, g, i, i, g);
    CloneSame(c, s, t, r, d, nd, i, g, g, kmap);
  }

  lemma CloneMapped(c: Params, s: State, t: State, r: State, d: nat, nd: nat, i: nat, g: nat, kmap: seq<Range>)
    requires Inv(c, s) && Inv(c, t) && Inv(c, r) && Cloned(c, s, t, d, nd, i, g, kmap) && g != 0 && 1 <= i < c.user
    requires Present(c, s, d, i + 1) && Entry(c, s, d, i).frame < |s.mem| && t.mem[g] == s.mem[Entry(c, s, d, i).frame]
    requires Mapped(c, t, r, nd, i, i + 1, g, Entry(c, s, d, i))
    ensures Cloned(c, s, r, d, nd, i + 1, 0, kmap)
  {
    var j := i + 1;
    forall e: nat, v: nat ensures SameAt(c, s, r, e, v) {
      if e != nd {
        SameTrans(c, s, t, r, e, v);
      }
    }
    forall v: nat | 1 <= v < j ensures CopyAt(c, s, r, d, nd, v) {
      if v < i {
        assert CopyAt(c, s, t, d, nd, v) && SameAt(c, t, r, nd, v);
        CopySame(c, s, t, r, d, nd, v);
      } else {
        assert Entry(c, r, nd, i) == PteFor(Entry(c, s, d, i), g + (i - i));
      }
    }
    forall v: nat | Va(c, v) && !(1 <= v < j) ensures Entry(c, r, nd, v) == KernelEntry(kmap, v) {
      assert SameAt(c, t, r, nd, v);
    }
    assert PteOk(c, r, nd, i);
    forall f: nat | f < |s.use| ensures CloneUseAt(s, r, nd, 0, f) {
      assert CloneUseAt(s, t, nd, g, f) && MapUseAt(t, r, nd, f, i, j, g);
    }
  }

  /** Mapping one kernel range, or part of it. */
  lemma CloneKernel(c: Params, s: State, t: State, r: State, nd: nat, kmap: seq<Range>, j: nat, mid: nat)
    requires Inv(c, s) && Inv(c, t) && Inv(c, r) && KmapOk(c, kmap) && j < |kmap| && Cloned(c, s, t, 0, nd, 1, 0, kmap[..j])
    requires Mapped(c, t, r, nd, kmap[j].first, mid, kmap[j].frame, kmap[j].flags) && mid <= kmap[j].last + 1
    ensures AllSame(c, s, r) && CloneUse(s, r, nd, 0)
    ensures mid == kmap[j].last + 1 ==> Cloned(c, s, r, 0, nd, 1, 0, kmap[..j + 1])
  {
    forall e: nat, v: nat ensures SameAt(c, s, r, e, v) {
      if e != nd {
        SameTrans(c, s, t, r, e, v);
      }
    }
    var x := kmap[j];
    forall f: nat | f < |s.use| ensures CloneUseAt(s, r, nd, 0, f) {
      assert CloneUseAt(s, t, nd, 0, f) && MapUseAt(t, r, nd, f, x.first, mid, x.frame);
      assert UseOk(c, r, f) && RangeOk(c, kmap, j);
    }
    if mid == x.last + 1 {
      var k1 := kmap[..j + 1];
      assert k1[..j] == kmap[..j];
      forall v: nat | Va(c, v) && !(1 <= v < 1) ensures Entry(c, r, nd, v) == KernelEntry(k1, v) {
        if !(x.first <= v <= x.last) {
          assert SameAt(c, t, r, nd, v);
        }
      }
    }
  }

  /** Cloning nothing yet: no page of any d is needed. */
  lemma CloneOf(c: Params, s: State, t: State, d: nat, nd: nat, kmap: seq<Range>)
    requires Cloned(c, s, t, 0, nd, 1, 0, kmap)
    ensures Cloned(c, s, t, d, nd, 1, 0, kmap)
  {
  }

  lemma KernelCanMap(c: Params, s: State, t: State, nd: nat, kmap: seq<Range>, j: nat)
    requires KmapOk(c, kmap) && j < |kmap| && Cloned(c, s, t, 0, nd, 1, 0, kmap[..j])
    ensures CanMap(c, t, nd, kmap[j].first, kmap[j].last, kmap[j].frame)
  {
    assert RangeOk(c, kmap, j);
    forall v: nat | kmap[j].first <= v <= kmap[j].last ensures FrameReady(c, t, kmap[j].first, kmap[j].frame, v) {
    }
  }

  lemma CloneStarts(c: Params, s: State)
    requires Inv(c, s) && |s.free| > 0
    ensures s.head < |s.mem| && |s.mem[s.head]| > 0 && s.head != 0
    ensures var t := MakeDir(Fill(Pop(s), s.head, ZeroPage(c)), s.head);
      Inv(c, t) && Cloned(c, s, t, 0, s.head, 1, 0, [])
  {
    PopKept(c, s);
    var a := Pop(s);
    FillKept(c, a, s.head, ZeroPage(c));
    var b := Fill(a, s.head, ZeroPage(c));
    MakeDirKept(c, b, s.head);
    var t := MakeDir(b, s.head);
    AllSameTrans(c, s, a, b);
    AllSameTrans(c, s, b, t);
    forall f: nat | f < |s.use| ensures CloneUseAt(s, t, s.head, 0, f) {
    }
  }

  /** No mapping and no page's use has changed, except that g was taken off the free list. */
  ghost predicate Unchanged(c: Params, s: State, r: State, g: nat) {
    && AllSame(c, s, r)
    && (forall f: nat :: f < |s.use| ==> Keeps(s.use[f], r.use[f]) || (f == g && s.use[f].Free? && r.use[f].Other?))
    && (g != 0 ==> g < |s.use| && s.use[g].Free? && r.use[g].Other?)
  }

  /** Giving a half-made copy back. */
  lemma CloneFreed(c: Params, s: State, t: State, r: State, nd: nat, g: nat)
    requires Inv(c, s) && Inv(c, t) && AllSame(c, s, t) && CloneUse(s, t, nd, g) && nd < |s.use| && s.use[nd].Free?
    requires Freed(c, t, r, nd)
    ensures Unchanged(c, s, r, g)
  {
    forall e: nat, v: nat ensures SameAt(c, s, r, e, v) {
      if e != nd {
        SameTrans(c, s, t, r, e, v);
      }
    }
    forall f: nat | f < |s.use|
      ensures Keeps(s.use[f], r.use[f]) || (f == g && s.use[f].Free? && r.use[f].Other?)
    {
      assert CloneUseAt(s, t, nd, g, f) && FreedAt(t, r, nd, f) && UseOk(c, s, f);
    }
    if g != 0 {
      assert FreedAt(t, r, nd, g);
    }
  }

  lemma LoosePush(c: Params, s: State, t: State, d: nat, nd: nat, i: nat, g: nat, kmap: seq<Range>)
    requires Inv(c, s) && Inv(c, t) && Cloned(c, s, t, d, nd, i, g, kmap) && g != 0
    ensures g < |t.mem| && Inv(c, Push(c, t, g)) && AllSame(c, s, Push(c, t, g)) && CloneUse(s, Push(c, t, g), nd, 0)
    ensures IsDir(Push(c, t, g), nd) && s.use[nd].Free?
  {
    PushKept(c, t, g);
    var r := Push(c, t, g);
    AllSameTrans(c, s, t, r);
    assert SameAt(c, t, r, nd, 0);
    forall f: nat | f < |s.use| ensures CloneUseAt(s, r, nd, 0, f) {
      assert CloneUseAt(s, t, nd, g, f);
    }
  }

  // ----- how many pages a copy takes

  /** The directory entries of the kernel's ranges. */
  function KernelDirs(c: Params, kmap: seq<Range>): set<nat>
    requires c.words > 0
  {
    if kmap == [] then {}
    else
      var m := |kmap| - 1;
      KernelDirs(c, kmap[..m]) + Dirs(c, kmap[m].first, kmap[m].last + 1)
  }

  /** The pages of an address space with the kernel's ranges and pages [1, hi): the directory, the
      page tables and the pages. */
  function SpaceNeeds(c: Params, kmap: seq<Range>, hi: nat): nat
    requires c.words > 0
  {
    1 + |KernelDirs(c, kmap) + Dirs(c, 1, hi)| + if hi > 1 then hi - 1 else 0
  }

  lemma {:induction false} KernelDirsGrow(c: Params, kmap: seq<Range>, j: nat)
    requires c.words > 0 && j <= |kmap|
    ensures KernelDirs(c, kmap[..j]) <= KernelDirs(c, kmap)
    decreases |kmap|
  {
    if j < |kmap| {
      KernelDirsGrow(c, kmap[..|kmap| - 1], j);
      assert kmap[..|kmap| - 1][..j] == kmap[..j];
    } else {
      assert kmap[..j] == kmap;
    }
  }

  lemma KernelDirsNext(c: Params, kmap: seq<Range>, j: nat)
    requires c.words > 0 && j < |kmap|
    ensures KernelDirs(c, kmap[..j + 1]) == KernelDirs(c, kmap[..j]) + Dirs(c, kmap[j].first, kmap[j].last + 1)
  {
    assert kmap[..j + 1][..j] == kmap[..j];
  }

  /** The new directory nd has page tables for the entries ks, and with them n pages were taken. */
  ghost predicate Took(s: State, t: State, nd: nat, ks: set<nat>, n: nat) {
    nd < |t.mem| && Tables(t, nd) == ks && |t.free| + |ks| + n == |s.free|
  }

  lemma TookDir(c: Params, s: State, t: State, nd: nat)
    requires nd < |t.mem| && t.mem[nd] == ZeroPage(c) && |t.free| + 1 == |s.free|
    ensures Took(s, t, nd, {}, 1)
  {
    assert Tables(t, nd) == {};
  }

  lemma TookMore(s: State, t: State, r: State, nd: nat, ks: set<nat>, n: nat, ks': set<nat>, n': nat)
    requires Took(s, t, nd, ks, n) && Spent(t, r, nd, ks', n')
    ensures Took(s, r, nd, ks + ks', n + n')
  {
  }

  lemma KernelShort(c: Params, s: State, t: State, nd: nat, kmap: seq<Range>, j: nat)
    requires c.words > 0 && j < |kmap| && Took(s, t, nd, KernelDirs(c, kmap[..j]), 1)
    requires Short(c, t, nd, kmap[j].first, kmap[j].last + 1, 0)
    ensures |s.free| < SpaceNeeds(c, kmap, 1)
  {
    KernelDirsNext(c, kmap, j);
    KernelDirsGrow(c, kmap, j + 1);
    SubsetSize(KernelDirs(c, kmap[..j + 1]), KernelDirs(c, kmap) + Dirs(c, 1, 1));
  }

  lemma NeedsSome(c: Params, kmap: seq<Range>)
    requires c.words > 0
    ensures SpaceNeeds(c, kmap, 1) == 1 + |KernelDirs(c, kmap)|
  {
    OneDir(c, 1);
    assert KernelDirs(c, kmap) + {} == KernelDirs(c, kmap);
  }

  /** The kernel's part and pages [1, i) have been made. */
  ghost predicate TookCopies(c: Params, s: State, t: State, nd: nat, kmap: seq<Range>, i: nat) {
    c.words > 0 && Took(s, t, nd, KernelDirs(c, kmap) + Dirs(c, 1, i), i)
  }

  lemma CopiesStart(c: Params, s: State, t: State, nd: nat, kmap: seq<Range>)
    requires c.words > 0 && Took(s, t, nd, KernelDirs(c, kmap), 1)
    ensures TookCopies(c, s, t, nd, kmap, 1) && SpaceNeeds(c, kmap, 1) <= |s.free|
  {
    OneDir(c, 1);
    assert KernelDirs(c, kmap) + {} == KernelDirs(c, kmap);
  }

  lemma NoCopyPage(c: Params, s: State, t: State, nd: nat, kmap: seq<Range>, i: nat, hi: nat)
    requires TookCopies(c, s, t, nd, kmap, i) && t.free == [] && 1 <= i < hi
    ensures |s.free| < SpaceNeeds(c, kmap, hi)
  {
    DirsGrow(c, 1, i, hi);
    SubsetSize(KernelDirs(c, kmap) + Dirs(c, 1, i), KernelDirs(c, kmap) + Dirs(c, 1, hi));
  }

  lemma NoCopyTable(c: Params, s: State, u: State, nd: nat, kmap: seq<Range>, i: nat, hi: nat)
    requires c.words > 0 && 1 <= i < hi && Took(s, u, nd, KernelDirs(c, kmap) + Dirs(c, 1, i), i + 1)
    requires Short(c, u, nd, i, i + 1, 0)
    ensures |s.free| < SpaceNeeds(c, kmap, hi)
  {
    hide Pdx;
    OneDir(c, i);
    DirsGrow(c, 1, i, hi);
    SubsetSize(Tables(u, nd) + Dirs(c, i, i + 1), KernelDirs(c, kmap) + Dirs(c, 1, hi));
  }

  /** A copied page, and its page table if it is the first in it. */
  lemma CopySpends(c: Params, s: State, u: State, r: State, nd: nat, kmap: seq<Range>, i: nat)
    requires c.words > 0 && 1 <= i && Took(s, u, nd, KernelDirs(c, kmap) + Dirs(c, 1, i), i + 1)
    requires Spent(u, r, nd, Dirs(c, i, i + 1), 0)
    ensures TookCopies(c, s, r, nd, kmap, i + 1)
  {
    hide Pdx;
    OneDir(c, i);
    NextDir(c, 1, i);
    TookMore(s, u, r, nd, KernelDirs(c, kmap) + Dirs(c, 1, i), i + 1, {Pdx(c, i)}, 0);
    assert KernelDirs(c, kmap) + Dirs(c, 1, i) + {Pdx(c, i)} == KernelDirs(c, kmap) + Dirs(c, 1, i + 1);
  }

  lemma TakeForCopy(c: Params, s: State, t: State, nd: nat, kmap: seq<Range>, i: nat, page: Page)
    requires Inv(c, t) && IsDir(t, nd) && |t.free| > 0 && TookCopies(c, s, t, nd, kmap, i)
    ensures t.head < |t.mem| && |t.mem[t.head]| > 0
    ensures Took(s, Fill(Pop(t), t.head, page), nd, KernelDirs(c, kmap) + Dirs(c, 1, i), i + 1)
  {
    PopKept(c, t);
    var u := Fill(Pop(t), t.head, page);
    SpentPages(t, u, nd, 1);
    TookMore(s, t, u, nd, KernelDirs(c, kmap) + Dirs(c, 1, i), i, {}, 1);
    assert KernelDirs(c, kmap) + Dirs(c, 1, i) + {} == KernelDirs(c, kmap) + Dirs(c, 1, i);
  }

  lemma CopiesDone(c: Params, s: State, t: State, nd: nat, kmap: seq<Range>, i: nat, hi: nat)
    requires TookCopies(c, s, t, nd, kmap, i) && 1 <= i && (hi <= 1 ==> i == 1) && (hi > 1 ==> i == hi)
    ensures SpaceNeeds(c, kmap, hi) <= |s.free|
  {
    OneDir(c, 1);
    assert hi <= 1 ==> Dirs(c, 1, hi) == {};
  }

  lemma NeedsGrow(c: Params, kmap: seq<Range>, hi: nat)
    requires c.words > 0
    ensures SpaceNeeds(c, kmap, 1) <= SpaceNeeds(c, kmap, hi)
  {
    OneDir(c, 1);
    SubsetSize(KernelDirs(c, kmap) + Dirs(c, 1, 1), KernelDirs(c, kmap) + Dirs(c, 1, hi));
  }

  lemma KernelStarts(c: Params, kmap: seq<Range>)
    requires c.words > 0
    ensures kmap[..0] == [] && KernelDirs(c, kmap[..0]) == {}
  {
  }

  lemma NothingChanged(c: Params, s: State)
    requires Inv(c, s)
    ensures Unchanged(c, s, s, 0)
  {
  }

  lemma StillDir(c: Params, t: State, u: State, d: nat, first: nat, mid: nat, frame: nat, flags: Word)
    requires Mapped(c, t, u, d, first, mid, frame, flags)
    ensures IsDir(u, d)
  {
  }

  lemma CloneDirs(c: Params, s: State, t: State, d: nat, nd: nat, i: nat, g: nat, kmap: seq<Range>)
    requires Cloned(c, s, t, d, nd, i, g, kmap)
    ensures IsDir(t, nd)
  {
  }

  // ----- changing flags

  /** The entry of page v of d is w in t, and the page it maps has the same contents. */
  predicate ReflagAt(c: Params, s: State, t: State, d: nat, v: nat, w: Word)
    requires Comparable(c, s, t)
  {
    && IsDir(s, d) && IsDir(t, d) && Va(c, v) && Entry(c, t, d, v) == w
    && (v < c.user && w.p ==> w.frame < |s.mem| && t.mem[w.frame] == s.mem[w.frame])
  }

  /** Storing an entry that differs from the old one only in its flags. */
  lemma ReflagOne(c: Params, s: State, d: nat, v: nat, w: Word)
    requires Inv(c, s) && IsDir(s, d) && Va(c, v) && HasTable(c, s, d, v)
    requires w.p == Entry(c, s, d, v).p && w.frame == Entry(c, s, d, v).frame && (v < c.user && !w.p ==> w == Entry(c, s, d, v))
    ensures CanPut(c, s, d, v, w) && (v < c.user && w.p ==> w.frame < |s.mem|)
    ensures var t := Put(c, s, d, v, w);
      && Inv(c, t) && SameBut(c, s, t, d, v, v + 1) && ReflagAt(c, s, t, d, v, w)
      && t.use == s.use && t.free == s.free && t.head == s.head
  {
    assert PteOk(c, s, d, v);
    PutTable(c, s, d, v);
    PutKept(c, s, d, v, w);
    var t := Put(c, s, d, v, w);
    assert t.use == s.use;
    if v < c.user && w.p {
      assert t.mem[w.frame] == s.mem[w.frame];
    }
  }

  /** The user can access page v of d. */
  predicate Accessible(c: Params, s: State, d: nat, v: nat) {
    Sized(c, s) && IsDir(s, d) && Va(c, v) && Entry(c, s, d, v).p && Entry(c, s, d, v).u
  }

  lemma TableStays(c: Params, t: State, d: nat, i: nat, w: Word, v: nat)
    requires Inv(c, t) && CanPut(c, t, d, i, w)
    requires i < c.user && Entry(c, t, d, i).p ==> Entry(c, t, d, i).frame < |t.mem|
    requires Va(c, v)
    ensures Sized(c, Put(c, t, d, i, w)) && (HasTable(c, Put(c, t, d, i, w), d, v) <==> HasTable(c, t, d, v))
  {
    PutTable(c, t, d, i);
  }

  /** The same pages of d have a page table. */
  ghost predicate SameTables(c: Params, s: State, t: State, d: nat) {
    && Sized(c, s) && Sized(c, t) && d < |s.mem| && d < |t.mem|
    && forall v: nat :: Va(c, v) ==> (HasTable(c, t, d, v) <==> HasTable(c, s, d, v))
  }

  /** From s to t exactly pages [lo, i) of d had their writable flag set to w. */
  ghost predicate Protected(c: Params, s: State, t: State, d: nat, lo: nat, i: nat, w: bool) {
    && SameBut(c, s, t, d, lo, i) && IsDir(s, d) && IsDir(t, d) && t.use == s.use && t.free == s.free && t.head == s.head
    && forall v: nat :: lo <= v < i ==> Va(c, v) && ReflagAt(c, s, t, d, v, Entry(c, s, d, v).(w := w))
  }

  lemma ProtectStep(c: Params, s: State, t: State, r: State, d: nat, lo: nat, i: nat, w: bool)
    requires Inv(c, s) && Inv(c, t) && Protected(c, s, t, d, lo, i, w) && lo <= i && Va(c, i)
    requires SameBut(c, t, r, d, i, i + 1) && ReflagAt(c, t, r, d, i, Entry(c, t, d, i).(w := w))
    requires r.use == t.use && r.free == t.free && r.head == t.head
    ensures Protected(c, s, r, d, lo, i + 1, w)
  {
    var j := i + 1;
    assert SameBut(c, s, t, d, lo, j) && SameBut(c, t, r, d, lo, j);
    SameButTrans(c, s, t, r, d, lo, j);
    assert SameAt(c, s, t, d, i) && PteOk(c, s, d, i);
    forall v: nat | lo <= v < j ensures Va(c, v) && ReflagAt(c, s, r, d, v, Entry(c, s, d, v).(w := w)) {
      if v < i {
        assert SameAt(c, t, r, d, v) && ReflagAt(c, s, t, d, v, Entry(c, s, d, v).(w := w));
      }
    }
  }

  /** munprotect undoes mprotect exactly when every page of the range was writable to begin with. */
  lemma ProtectUndone(c: Params, s: State, t: State, r: State, d: nat, lo: nat, hi: nat)
    requires Inv(c, s) && Inv(c, t) && Protected(c, s, t, d, lo, hi, false) && Protected(c, t, r, d, lo, hi, true)
    ensures AllSame(c, s, r) <==> forall v: nat :: lo <= v < hi ==> Va(c, v) && Entry(c, s, d, v).w
  {
    if AllSame(c, s, r) {
      forall v: nat | lo <= v < hi ensures Va(c, v) && Entry(c, s, d, v).w {
        assert ReflagAt(c, t, r, d, v, Entry(c, t, d, v).(w := true)) && SameAt(c, s, r, d, v);
      }
    }
    if forall v: nat :: lo <= v < hi ==> Va(c, v) && Entry(c, s, d, v).w {
      forall e: nat, v: nat ensures SameAt(c, s, r, e, v) {
        if e == d && lo <= v < hi {
          assert ReflagAt(c, s, t, d, v, Entry(c, s, d, v).(w := false));
          assert ReflagAt(c, t, r, d, v, Entry(c, t, d, v).(w := true));
        } else {
          SameTrans(c, s, t, r, e, v);
        }
      }
    }
  }

  // ----- byte addresses and page numbers

  /** PGROUNDUP(n) / PGSIZE */
  function Pages(c: Params, n: nat): nat
    requires c.pgsize > 0
  {
    (n + c.pgsize - 1) / c.pgsize
  }

  function Max(a: nat, b: nat): nat {
    if a <= b then b else a
  }

  /** Every user page number has a directory entry. */
  predicate WellFormed(c: Params) {
    c.words > 0 && c.pgsize > 0 && c.user <= c.words * c.words
  }

  lemma UserVa(c: Params, v: nat)
    requires WellFormed(c) && v < c.user
    ensures Va(c, v)
  {
    DivMod(v, c.words);
    if v / c.words >= c.words {
      Monotone(c.words, v / c.words, c.words);
    }
  }

  /** Page f lies wholly within bytes [vstart, vend). */
  predicate Inside(c: Params, vstart: nat, vend: nat, f: nat) {
    vstart <= f * c.pgsize && (f + 1) * c.pgsize <= vend
  }

  lemma PagesIff(c: Params, i: nat, n: nat)
    requires c.pgsize > 0
    ensures i * c.pgsize < n <==> i < Pages(c, n)
  {
    var q := Pages(c, n);
    DivMod(n + c.pgsize - 1, c.pgsize);
    if i < q {
      Monotone(i + 1, q, c.pgsize);
      OneMore(i, c.pgsize);
    } else {
      Monotone(q, i, c.pgsize);
    }
  }

  /** The pages that a growth from a to b bytes adds. */
  function Growth(c: Params, a: nat, b: nat): nat
    requires c.pgsize > 0
  {
    if Pages(c, a) < Pages(c, b) then Pages(c, b) - Pages(c, a) else 0
  }

  lemma PagesOrder(c: Params, a: nat, b: nat)
    requires c.pgsize > 0 && a <= b
    ensures Pages(c, a) <= Pages(c, b)
  {
    PagesIff(c, Pages(c, b), a);
    PagesIff(c, Pages(c, b), b);
  }

  lemma PagesBelow(c: Params, n: nat)
    requires c.pgsize > 0 && n < c.user * c.pgsize
    ensures Pages(c, n) <= c.user
  {
    PagesIff(c, c.user, n);
  }

  lemma UserLimit(c: Params)
    requires WellFormed(c)
    ensures Pages(c, c.user * c.pgsize) == c.user && Pages(c, 0) == 0
    ensures c.user > 0 ==> c.user * c.pgsize > 0
  {
    PagesIff(c, c.user, c.user * c.pgsize);
    if c.user > 0 {
      OneMore(c.user - 1, c.pgsize);
      PagesIff(c, c.user - 1, c.user * c.pgsize);
    }
    DivMod(c.pgsize - 1, c.pgsize);
    PagesIff(c, 0, 0);
  }

  lemma PageAddress(a: nat, m: nat)
    requires m > 0
    ensures a * m / m == a && (a * m + m - 1) / m == a
  {
    Quotient(a * m, a, 0, m);
    Quotient(a * m + m - 1, a, m - 1, m);
  }

  lemma RangeAddress(first: nat, last: nat, m: nat)
    requires m > 0 && first <= last
    ensures (last - first + 1) * m > 0
    ensures first * m / m == first && (first * m + (last - first + 1) * m - 1) / m == last
  {
    PageAddress(first, m);
    PageAddress(last, m);
    OneMore(last - first, m);
    Distribute(first, last - first, m);
  }

  /** The copy about to be mapped by copyuvm can be. */
  lemma OneCopy(c: Params, s: State, u: State, d: nat, nd: nat, i: nat, g: nat, kmap: seq<Range>)
    requires Inv(c, s) && Inv(c, u) && Cloned(c, s, u, d, nd, i, g, kmap) && g != 0 && WellFormed(c) && KmapOk(c, kmap)
    requires 1 <= i < c.user && Va(c, i)
    ensures CanMap(c, u, nd, i, i, g)
  {
    KernelAbove(c, kmap, |kmap|, i);
    assert kmap[..|kmap|] == kmap;
    assert FrameReady(c, u, i, g, i);
  }

  lemma {:induction false} KernelAbove(c: Params, kmap: seq<Range>, j: nat, v: nat)
    requires KmapOk(c, kmap) && v < c.user && j <= |kmap|
    ensures KernelEntry(kmap[..j], v) == Zero
  {
    if j > 0 {
      KernelAbove(c, kmap, j - 1, v);
      assert kmap[..j][..j - 1] == kmap[..j - 1];
      assert RangeOk(c, kmap, j - 1);
    }
  }

  /** The page about to be mapped by allocuvm can be. */
  lemma OnePage(c: Params, s: State, u: State, d: nat, lo: nat, a: nat, g: nat)
    requires Inv(c, s) && Inv(c, u) && Alloced(c, s, u, d, lo, a, g) && g != 0 && WellFormed(c)
    requires IsDir(s, d) && Va(c, a) && !Entry(c, s, d, a).p
    ensures CanMap(c, u, d, a, a, g)
  {
    assert SameAt(c, s, u, d, a);
    assert FrameReady(c, u, a, g, a);
  }

  lemma GrewByTable(c: Params, s: State, d: nat, k: nat)
    requires Inv(c, s) && |s.free| > 0 && IsDir(s, d) && k < c.words
    ensures s.head < |s.mem| && |s.mem[s.head]| > 0 && Sized(c, Fill(Pop(s), s.head, ZeroPage(c)))
    ensures Grew(s, Attach(c, Fill(Pop(s), s.head, ZeroPage(c)), d, k, s.head), d)
  {
    PopKept(c, s);
    var r := Attach(c, Fill(Pop(s), s.head, ZeroPage(c)), d, k, s.head);
    forall f: nat | f < |s.use| ensures GrewAt(s, r, d, f) {
    }
  }
}
