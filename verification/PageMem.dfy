/** Physical pages and the two-level page tables kept in them (vm.c, kalloc.c).

    Memory is one sequence of pages of words.  A page table, a page directory, a link of the free
    list and the user's data are all just words in it, so that what each page is for has to be
    known and kept: use says it, page by page. */
module PageMem {

  /** A word read as a page-table entry: page frame and flags. */
  datatype Word = Word(frame: nat, p: bool, w: bool, u: bool, other: nat)

  type Page = seq<Word>

  /** words: NPTENTRIES, the entries of a table and of a directory; user: KERNBASE / PGSIZE;
      pgsize: PGSIZE. */
  datatype Params = Params(words: nat, user: nat, pgsize: nat)

  /** What a page is for.  Free(k): k pages lie below it on the free list.  Table(d, k): the page
      table of entry k of directory d.  User(d, v): mapped at page v of directory d.
      Doomed(d, k): a table of a directory that is being freed. */
  datatype Use = Free(pos: nat) | Dir | Table(dir: nat, k: nat) | User(dir: nat, v: nat) | Doomed(dir: nat, k: nat) | Other

  /** head is kmem.freelist, 0 standing for the null pointer; free lists the free pages, bottom first. */
  datatype State = State(mem: seq<Page>, head: nat, use: seq<Use>, free: seq<nat>)

  const Zero: Word := Word(0, false, false, false, 0)

  /** PDX and PTX of page number v. */
  function Pdx(c: Params, v: nat): nat
    requires c.words > 0
  {
    v / c.words
  }

  function Ptx(c: Params, v: nat): (r: nat)
    requires c.words > 0
    ensures r < c.words
  {
    v % c.words
  }

  predicate Va(c: Params, v: nat) {
    c.words > 0 && Pdx(c, v) < c.words
  }

  lemma SplitInjective(c: Params, v: nat, w: nat)
    requires c.words > 0 && Pdx(c, v) == Pdx(c, w) && Ptx(c, v) == Ptx(c, w)
    ensures v == w
  {
  }

  predicate Sized(c: Params, s: State) {
    && c.words > 0 && |s.use| == |s.mem|
    && forall f :: 0 <= f < |s.mem| ==> |s.mem[f]| == c.words
  }

  predicate IsDir(s: State, d: nat) {
    d < |s.use| && s.use[d] == Dir
  }

  predicate HasTable(c: Params, s: State, d: nat, v: nat)
    requires Sized(c, s) && d < |s.mem| && Va(c, v)
  {
    s.mem[d][Pdx(c, v)].p && s.mem[d][Pdx(c, v)].frame < |s.mem|
  }

  /** The flat page map that the two levels stand for: the entry of page v in directory d. */
  function Entry(c: Params, s: State, d: nat, v: nat): Word
    requires Sized(c, s) && d < |s.mem| && Va(c, v)
  {
    if HasTable(c, s, d, v) then s.mem[s.mem[d][Pdx(c, v)].frame][Ptx(c, v)] else Zero
  }

  // ----- the invariant

  /** A directory entry that is present leads to a page table and leaves it to the entries there what
      the user may do. */
  predicate PdeOk(c: Params, s: State, d: nat, k: nat)
    requires Sized(c, s)
  {
    IsDir(s, d) && k < c.words && s.mem[d][k].p ==>
      s.mem[d][k].frame < |s.mem| && s.use[s.mem[d][k].frame] == Table(d, k) && s.mem[d][k].w && s.mem[d][k].u
  }

  predicate PteOk(c: Params, s: State, d: nat, v: nat)
    requires Sized(c, s)
  {
    IsDir(s, d) && Va(c, v) && v < c.user ==>
      if Entry(c, s, d, v).p
      then Entry(c, s, d, v).frame < |s.mem| && s.use[Entry(c, s, d, v).frame] == User(d, v)
      else Entry(c, s, d, v) == Zero
  }

  predicate UseOk(c: Params, s: State, f: nat)
    requires Sized(c, s) && f < |s.mem|
  {
    match s.use[f]
    case Free(k) => k < |s.free| && s.free[k] == f
    case Table(d, k) => IsDir(s, d) && k < c.words && s.mem[d][k].p && s.mem[d][k].frame == f
    case User(d, v) => IsDir(s, d) && Va(c, v) && v < c.user && Entry(c, s, d, v).p && Entry(c, s, d, v).frame == f
    case _ => true
  }

  predicate FreeOk(c: Params, s: State, k: nat)
    requires Sized(c, s) && k < |s.free|
  {
    && 0 < s.free[k] < |s.mem| && s.use[s.free[k]] == Free(k)
    && s.mem[s.free[k]][0].frame == Below(s.free, k)
  }

  /** The page under position k of the list, 0 at the bottom. */
  function Below(free: seq<nat>, k: nat): nat
    requires k <= |free|
  {
    if k == 0 then 0 else free[k - 1]
  }

  ghost predicate Core(c: Params, s: State) {
    && Sized(c, s) && |s.mem| > 0 && s.use[0] == Other
    && s.head == Below(s.free, |s.free|)
    && (forall f: nat :: f < |s.mem| ==> UseOk(c, s, f))
    && (forall d: nat, k: nat :: PdeOk(c, s, d, k))
    && (forall d: nat, v: nat :: PteOk(c, s, d, v))
    && (forall k: nat :: k < |s.free| ==> FreeOk(c, s, k))
  }

  /** The state between operations: in addition, nothing is in the middle of being freed. */
  ghost predicate Inv(c: Params, s: State) {
    Core(c, s) && forall f :: 0 <= f < |s.use| ==> !s.use[f].Doomed?
  }

  /** Directory d maps page v in t exactly as in s, to a page with the same contents. */
  predicate SameAt(c: Params, s: State, t: State, d: nat, v: nat)
    requires Sized(c, s) && Sized(c, t) && |t.mem| == |s.mem|
  {
    IsDir(s, d) && Va(c, v) ==>
      && IsDir(t, d) && Entry(c, t, d, v) == Entry(c, s, d, v)
      && (v < c.user && Entry(c, s, d, v).p && Entry(c, s, d, v).frame < |s.mem| ==>
            t.mem[Entry(c, s, d, v).frame] == s.mem[Entry(c, s, d, v).frame])
  }

  // ----- elementary steps

  /** kalloc */
  function Pop(s: State): State
    requires |s.free| > 0 && s.head < |s.mem| == |s.use| && |s.mem[s.head]| > 0
  {
    State(s.mem, s.mem[s.head][0].frame, s.use[s.head := Other], s.free[..|s.free| - 1])
  }

  /** What kfree leaves in a page: junk everywhere, and the link to the next free page. */
  function Link(c: Params, next: nat): (r: Page)
    requires c.words > 0
    ensures |r| == c.words && r[0].frame == next
  {
    seq(c.words, i => if i == 0 then Word(next, false, false, false, 0) else Word(0x1010, true, false, false, 0x100))
  }

  /** kfree */
  function Push(c: Params, s: State, f: nat): State
    requires c.words > 0 && f < |s.mem| == |s.use|
  {
    State(s.mem[f := Link(c, s.head)], f, s.use[f := Free(|s.free|)], s.free + [f])
  }

  /** memset or memmove into a page that nothing refers to. */
  function Fill(s: State, f: nat, page: Page): State
    requires f < |s.mem|
  {
    s.(mem := s.mem[f := page])
  }

  function ZeroPage(c: Params): (r: Page)
    ensures |r| == c.words && forall i :: 0 <= i < c.words ==> r[i] == Zero
  {
    seq(c.words, i => Zero)
  }

  /** A new page table f for entry k of directory d. */
  function Attach(c: Params, s: State, d: nat, k: nat, f: nat): State
    requires Sized(c, s) && d < |s.mem| && k < c.words && f < |s.use|
  {
    s.(mem := s.mem[d := s.mem[d][k := Word(f, true, true, true, 0)]], use := s.use[f := Table(d, k)])
  }

  /** A new, empty directory. */
  function MakeDir(s: State, f: nat): State
    requires f < |s.use|
  {
    s.(use := s.use[f := Dir])
  }

  /** Storing w in the page-table entry of page v. */
  function Put(c: Params, s: State, d: nat, v: nat, w: Word): State
    requires Sized(c, s) && d < |s.mem| && Va(c, v) && HasTable(c, s, d, v)
    requires v < c.user && Entry(c, s, d, v).p ==> Entry(c, s, d, v).frame < |s.mem|
    requires v < c.user && w.p ==> w.frame < |s.mem|
  {
    var table := s.mem[d][Pdx(c, v)].frame;
    var e := s.mem[table][Ptx(c, v)];
    var use1 := if v < c.user && e.p then s.use[e.frame := Other] else s.use;
    var use2 := if v < c.user && w.p then use1[w.frame := User(d, v)] else use1;
    s.(mem := s.mem[table := s.mem[table][Ptx(c, v) := w]], use := use2)
  }

  // ----- each keeps the invariant and changes only what it says

  lemma PopKept(c: Params, s: State)
    requires Inv(c, s) && |s.free| > 0
    ensures s.head < |s.mem| && |s.mem[s.head]| > 0 && s.use[s.head].Free? && s.head != 0
    ensures Inv(c, Pop(s))
    ensures forall d: nat, v: nat :: SameAt(c, s, Pop(s), d, v)
  {
    var top := |s.free| - 1;
    assert FreeOk(c, s, top);
    var t := Pop(s);
    assert Sized(c, t);
    forall f: nat | f < |t.mem| ensures UseOk(c, t, f) {
      assert UseOk(c, s, f);
    }
    forall d: nat, k: nat ensures PdeOk(c, t, d, k) {
      assert PdeOk(c, s, d, k);
    }
    forall d: nat, v: nat ensures PteOk(c, t, d, v) && SameAt(c, s, t, d, v) {
      assert PteOk(c, s, d, v);
    }
    forall k: nat | k < |t.free| ensures FreeOk(c, t, k) {
      assert FreeOk(c, s, k);
    }
  }

  lemma PushCore(c: Params, s: State, f: nat)
    requires Core(c, s) && 0 < f < |s.mem| && (s.use[f].Other? || s.use[f].Doomed?)
    ensures Core(c, Push(c, s, f))
    ensures forall d: nat, v: nat :: SameAt(c, s, Push(c, s, f), d, v)
  {
    var t := Push(c, s, f);
    assert Sized(c, t);
    forall d: nat, v: nat ensures PteOk(c, t, d, v) && SameAt(c, s, t, d, v) {
      LooseSame(c, s, t, f, d, v);
    }
    forall g: nat | g < |t.mem| ensures UseOk(c, t, g) {
      assert UseOk(c, s, g);
      if s.use[g].User? {
        assert SameAt(c, s, t, s.use[g].dir, s.use[g].v);
      }
    }
    forall d: nat, k: nat ensures PdeOk(c, t, d, k) {
      assert PdeOk(c, s, d, k);
    }
    forall k: nat | k < |t.free| ensures FreeOk(c, t, k) {
      if k < |s.free| {
        assert FreeOk(c, s, k);
      }
    }
  }

  lemma PushKept(c: Params, s: State, f: nat)
    requires Inv(c, s) && 0 < f < |s.mem| && s.use[f].Other?
    ensures Inv(c, Push(c, s, f))
    ensures forall d: nat, v: nat :: SameAt(c, s, Push(c, s, f), d, v)
  {
    PushCore(c, s, f);
  }

  /** A page that is no table, directory or user page does not matter to the page maps. */
  lemma LooseSame(c: Params, s: State, t: State, f: nat, d: nat, v: nat)
    requires Core(c, s) && Sized(c, t) && f < |s.mem| == |t.mem| && (s.use[f].Other? || s.use[f].Doomed?)
    requires t.mem == s.mem[f := t.mem[f]] && t.use == s.use[f := t.use[f]] && t.use[f] != Dir
    ensures PteOk(c, t, d, v) && SameAt(c, s, t, d, v)
  {
    assert PteOk(c, s, d, v);
    if Va(c, v) {
      assert PdeOk(c, s, d, Pdx(c, v));
    }
  }

  lemma FillKept(c: Params, s: State, f: nat, page: Page)
    requires Inv(c, s) && f < |s.mem| && s.use[f].Other? && |page| == c.words
    ensures Inv(c, Fill(s, f, page))
    ensures forall d: nat, v: nat :: SameAt(c, s, Fill(s, f, page), d, v)
  {
    var t := Fill(s, f, page);
    assert Sized(c, t);
    forall d: nat, v: nat ensures PteOk(c, t, d, v) && SameAt(c, s, t, d, v) {
      LooseSame(c, s, t, f, d, v);
    }
    forall g: nat | g < |t.mem| ensures UseOk(c, t, g) {
      assert UseOk(c, s, g);
      if s.use[g].User? {
        assert SameAt(c, s, t, s.use[g].dir, s.use[g].v);
      }
    }
    forall d: nat, k: nat ensures PdeOk(c, t, d, k) {
      assert PdeOk(c, s, d, k);
    }
    forall k: nat | k < |t.free| ensures FreeOk(c, t, k) {
      assert FreeOk(c, s, k);
    }
  }

  lemma MakeDirKept(c: Params, s: State, f: nat)
    requires Inv(c, s) && 0 < f < |s.mem| && s.use[f].Other? && s.mem[f] == ZeroPage(c)
    ensures Inv(c, MakeDir(s, f))
    ensures forall d: nat, v: nat :: SameAt(c, s, MakeDir(s, f), d, v)
    ensures forall v: nat :: Va(c, v) ==> Entry(c, MakeDir(s, f), f, v) == Zero
  {
    var t := MakeDir(s, f);
    assert Sized(c, t);
    forall g: nat | g < |t.mem| ensures UseOk(c, t, g) {
      assert UseOk(c, s, g);
    }
    forall d: nat, k: nat ensures PdeOk(c, t, d, k) {
      assert PdeOk(c, s, d, k);
    }
    forall d: nat, v: nat ensures PteOk(c, t, d, v) && SameAt(c, s, t, d, v) {
      assert PteOk(c, s, d, v);
    }
    forall k: nat | k < |t.free| ensures FreeOk(c, t, k) {
      assert FreeOk(c, s, k);
    }
  }

  // a new page table: no entry changes, since it is all zeros

  lemma AttachEntry(c: Params, s: State, d: nat, k: nat, f: nat, e: nat, v: nat)
    requires Inv(c, s) && IsDir(s, d) && k < c.words && !s.mem[d][k].p
    requires 0 < f < |s.mem| && s.use[f].Other? && s.mem[f] == ZeroPage(c)
    ensures Sized(c, Attach(c, s, d, k, f))
    ensures SameAt(c, s, Attach(c, s, d, k, f), e, v)
    ensures PteOk(c, Attach(c, s, d, k, f), e, v)
  {
    var t := Attach(c, s, d, k, f);
    assert Sized(c, t);
    assert PteOk(c, s, e, v);
    if Va(c, v) {
      assert PdeOk(c, s, e, Pdx(c, v));
    }
  }

  lemma AttachKept(c: Params, s: State, d: nat, k: nat, f: nat)
    requires Inv(c, s) && IsDir(s, d) && k < c.words && !s.mem[d][k].p
    requires 0 < f < |s.mem| && s.use[f].Other? && s.mem[f] == ZeroPage(c)
    ensures Inv(c, Attach(c, s, d, k, f))
    ensures forall e: nat, v: nat :: SameAt(c, s, Attach(c, s, d, k, f), e, v)
  {
    var t := Attach(c, s, d, k, f);
    assert Sized(c, t);
    forall e: nat, v: nat ensures PteOk(c, t, e, v) && SameAt(c, s, t, e, v) {
      AttachEntry(c, s, d, k, f, e, v);
    }
    forall g: nat | g < |t.mem| ensures UseOk(c, t, g) {
      assert UseOk(c, s, g);
      if s.use[g].User? {
        assert SameAt(c, s, t, s.use[g].dir, s.use[g].v);
      }
    }
    forall e: nat, m: nat ensures PdeOk(c, t, e, m) {
      assert PdeOk(c, s, e, m);
    }
    forall m: nat | m < |t.free| ensures FreeOk(c, t, m) {
      assert FreeOk(c, s, m);
    }
  }

  // storing one page-table entry

  /** w may be stored for page v of d: a user page's frame is loose, or the one already there, and
      an entry that is not present is all zeros. */
  predicate CanPut(c: Params, s: State, d: nat, v: nat, w: Word) {
    && Sized(c, s) && IsDir(s, d) && Va(c, v) && HasTable(c, s, d, v)
    && (v < c.user && !w.p ==> w == Zero)
    && (v < c.user && w.p ==>
          0 < w.frame < |s.mem| &&
          (s.use[w.frame].Other? || (Entry(c, s, d, v).p && Entry(c, s, d, v).frame == w.frame)))
  }

  lemma PutTable(c: Params, s: State, d: nat, v: nat)
    requires Inv(c, s) && IsDir(s, d) && Va(c, v) && HasTable(c, s, d, v)
    ensures s.use[s.mem[d][Pdx(c, v)].frame] == Table(d, Pdx(c, v))
    ensures v < c.user && Entry(c, s, d, v).p ==>
      Entry(c, s, d, v).frame < |s.mem| && s.use[Entry(c, s, d, v).frame] == User(d, v)
  {
    assert PdeOk(c, s, d, Pdx(c, v)) && PteOk(c, s, d, v);
  }

  lemma PutEntry(c: Params, s: State, d: nat, v: nat, w: Word, e: nat, x: nat)
    requires Inv(c, s) && CanPut(c, s, d, v, w)
    requires v < c.user && Entry(c, s, d, v).p ==> Entry(c, s, d, v).frame < |s.mem|
    ensures Sized(c, Put(c, s, d, v, w)) && IsDir(Put(c, s, d, v, w), d)
    ensures Entry(c, Put(c, s, d, v, w), d, v) == w
    ensures e != d || x != v ==> SameAt(c, s, Put(c, s, d, v, w), e, x)
    ensures PteOk(c, Put(c, s, d, v, w), e, x)
  {
    hide Pdx, Ptx;
    var t := Put(c, s, d, v, w);
    assert Sized(c, t);
    PutTable(c, s, d, v);
    assert PteOk(c, s, e, x);
    if Va(c, x) {
      assert PdeOk(c, s, e, Pdx(c, x));
      if Pdx(c, x) == Pdx(c, v) && Ptx(c, x) == Ptx(c, v) {
        SplitInjective(c, x, v);
      }
    }
  }

  lemma PutKept(c: Params, s: State, d: nat, v: nat, w: Word)
    requires Inv(c, s) && CanPut(c, s, d, v, w)
    ensures v < c.user && Entry(c, s, d, v).p ==> Entry(c, s, d, v).frame < |s.mem|
    ensures Inv(c, Put(c, s, d, v, w))
    ensures Entry(c, Put(c, s, d, v, w), d, v) == w
    ensures forall e: nat, x: nat :: e != d || x != v ==> SameAt(c, s, Put(c, s, d, v, w), e, x)
  {
    PutTable(c, s, d, v);
    var t := Put(c, s, d, v, w);
    assert Sized(c, t);
    forall e: nat, x: nat ensures PteOk(c, t, e, x) && (e != d || x != v ==> SameAt(c, s, t, e, x)) {
      PutEntry(c, s, d, v, w, e, x);
    }
    PutEntry(c, s, d, v, w, d, v);
    hide Pdx, Ptx;
    forall g: nat | g < |t.mem| ensures UseOk(c, t, g) {
      PutUse(c, s, d, v, w, g);
    }
    forall e: nat, m: nat ensures PdeOk(c, t, e, m) {
      PutPde(c, s, d, v, w, e, m);
    }
    forall m: nat | m < |t.free| ensures FreeOk(c, t, m) {
      assert FreeOk(c, s, m);
    }
  }

  lemma PutPde(c: Params, s: State, d: nat, v: nat, w: Word, e: nat, m: nat)
    requires Inv(c, s) && CanPut(c, s, d, v, w)
    requires v < c.user && Entry(c, s, d, v).p ==> Entry(c, s, d, v).frame < |s.mem|
    ensures Sized(c, Put(c, s, d, v, w)) && PdeOk(c, Put(c, s, d, v, w), e, m)
  {
    hide Pdx, Ptx;
    PutTable(c, s, d, v);
    assert PdeOk(c, s, e, m);
  }

  lemma PutUse(c: Params, s: State, d: nat, v: nat, w: Word, g: nat)
    requires Inv(c, s) && CanPut(c, s, d, v, w) && g < |s.mem|
    requires v < c.user && Entry(c, s, d, v).p ==> Entry(c, s, d, v).frame < |s.mem|
    ensures Sized(c, Put(c, s, d, v, w)) && UseOk(c, Put(c, s, d, v, w), g)
  {
    hide Pdx, Ptx;
    var t := Put(c, s, d, v, w);
    PutTable(c, s, d, v);
    PutEntry(c, s, d, v, w, d, v);
    assert UseOk(c, s, g);
    if s.use[g].User? {
      PutEntry(c, s, d, v, w, s.use[g].dir, s.use[g].v);
    }
  }

  // a directory about to be freed

  function DoomedUse(u: Use, f: nat, d: nat): Use {
    if f == d then Other else if u.Table? && u.dir == d then Doomed(d, u.k) else u
  }

  /** Directory d and its page tables are no longer in use. */
  function Doom(s: State, d: nat): (t: State)
    ensures t.mem == s.mem && t.head == s.head && t.free == s.free && |t.use| == |s.use|
    ensures forall f {:trigger t.use[f]} :: 0 <= f < |s.use| ==> t.use[f] == DoomedUse(s.use[f], f, d)
  {
    s.(use := seq(|s.use|, f requires 0 <= f < |s.use| => DoomedUse(s.use[f], f, d)))
  }

  /** The only doomed pages are the tables that directory page d still points to. */
  predicate DoomedBack(c: Params, t: State, d: nat, f: nat)
    requires Sized(c, t) && f < |t.mem|
  {
    t.use[f].Doomed? ==>
      && t.use[f].dir == d < |t.mem| && t.use[f].k < c.words
      && t.mem[d][t.use[f].k].p && t.mem[d][t.use[f].k].frame == f
  }

  lemma DoomKept(c: Params, s: State, d: nat)
    requires Inv(c, s) && IsDir(s, d)
    requires forall f :: 0 <= f < |s.use| && s.use[f].User? ==> s.use[f].dir != d
    ensures Core(c, Doom(s, d))
    ensures forall e: nat, v: nat :: e != d ==> SameAt(c, s, Doom(s, d), e, v)
    ensures forall k: nat :: k < c.words && s.mem[d][k].p ==>
      s.mem[d][k].frame < |s.mem| && Doom(s, d).use[s.mem[d][k].frame] == Doomed(d, k)
    ensures forall f: nat :: f < |s.mem| ==> DoomedBack(c, Doom(s, d), d, f)
  {
    var t := Doom(s, d);
    assert Sized(c, t);
    forall f: nat | f < |t.mem| ensures DoomedBack(c, t, d, f) {
      assert UseOk(c, s, f);
    }
    forall g: nat | g < |t.mem| ensures UseOk(c, t, g) {
      assert UseOk(c, s, g);
    }
    forall e: nat, k: nat ensures PdeOk(c, t, e, k) {
      assert PdeOk(c, s, e, k);
    }
    forall e: nat, v: nat ensures PteOk(c, t, e, v) && (e != d ==> SameAt(c, s, t, e, v)) {
      assert PteOk(c, s, e, v);
    }
    forall k: nat | k < |t.free| ensures FreeOk(c, t, k) {
      assert FreeOk(c, s, k);
    }
    forall k: nat | k < c.words && s.mem[d][k].p
      ensures s.mem[d][k].frame < |s.mem| && t.use[s.mem[d][k].frame] == Doomed(d, k)
    {
      assert PdeOk(c, s, d, k);
    }
  }
}
