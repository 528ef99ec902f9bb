/** Address spaces (vm.c) and the page allocator (kalloc.c).

    Addresses are page numbers times PGSIZE.  Every method is stated on the flat page map Entry and
    on the use of every page; the two-level tables appear only in the bodies. */
module Vm {
  import opened Arith
  import opened PageMem
  import opened VmSteps

  class Memory {
    const c: Params
    var mem: seq<Page>
    var head: nat
    ghost var use: seq<Use>
    ghost var free: seq<nat>

    /** All pages are taken; freerange hands over those the allocator manages. */
    constructor (c: Params, mem: seq<Page>)
      requires c.words > 0 && |mem| > 0 && forall f :: 0 <= f < |mem| ==> |mem[f]| == c.words
      ensures Inv(c, St()) && this.c == c && this.mem == mem && free == []
      ensures forall f :: 0 <= f < |use| ==> use[f].Other?
    {
      this.c, this.mem, head := c, mem, 0;
      use, free := seq(|mem|, i => Other), [];
    }

    /** freerange: every whole page of [vstart, vend) becomes free, and no other. */
    method Freerange(vstart: nat, vend: nat)
      requires Inv(c, St()) && c.pgsize > 0
      requires forall f: nat :: Inside(c, vstart, vend, f) ==> 0 < f < |mem| && use[f].Other?
      modifies this
      ensures Inv(c, St()) && |use| == |old(use)| && AllSame(c, old(St()), St())
      ensures forall f: nat :: f < |use| ==>
        if Inside(c, vstart, vend, f) then use[f].Free? else use[f] == old(use)[f]
    {
      ghost var s := St();
      var i := Pages(c, vstart);
      while (i + 1) * c.pgsize <= vend
        invariant Pages(c, vstart) <= i && Inv(c, St()) && AllSame(c, s, St()) && |use| == |s.use|
        invariant forall f: nat :: f < |use| ==>
          if Pages(c, vstart) <= f < i then use[f].Free? else use[f] == s.use[f]
        invariant forall f: nat :: Pages(c, vstart) <= f < i ==> Inside(c, vstart, vend, f)
        decreases vend - i
      {
        PagesIff(c, i, vstart);
        AtLeastOne(i + 1, c.pgsize);
        assert Inside(c, vstart, vend, i);
        ghost var t := St();
        PushKept(c, t, i);
        AllSameTrans(c, s, t, Push(c, t, i));
        Kfree(i);
        i := i + 1;
      }
      forall f: nat | f < |use|
        ensures if Inside(c, vstart, vend, f) then use[f].Free? else use[f] == s.use[f]
      {
        PagesIff(c, f, vstart);
        if f >= i {
          Monotone(i + 1, f + 1, c.pgsize);
        }
      }
    }

    ghost function St(): State
      reads this
    {
      State(mem, head, use, free)
    }

    /** kalloc: takes the first page off the list, if there is one. */
    method Kalloc() returns (f: nat)
      requires Inv(c, St())
      modifies this
      ensures Inv(c, St()) && AllSame(c, old(St()), St())
      ensures f == 0 ==> old(free) == [] && St() == old(St())
      ensures f != 0 ==> old(free) != [] && f == old(head) < |mem| && old(use)[f].Free? && St() == Pop(old(St()))
    {
      ghost var s := St();
      if |s.free| > 0 {
        PopKept(c, s);
      }
      f := head;
      if f != 0 {
        head := mem[f][0].frame;
        use, free := use[f := Other], free[..|free| - 1];
      }
    }

    /** kfree: fills the page with junk and puts it first on the list. */
    method Kfree(f: nat)
      requires Sized(c, St()) && 0 < f < |mem|
      modifies this
      ensures St() == Push(c, old(St()), f)
    {
      mem := mem[f := Link(c, head)];
      head := f;
      use, free := use[f := Free(|free|)], free + [f];
    }

    /** walkpgdir: the page table that holds the entry of page v, made if asked for and missing. */
    method Walk(d: nat, v: nat, alloc: bool) returns (table: nat)
      requires Inv(c, St()) && IsDir(St(), d) && Va(c, v)
      modifies this
      ensures Inv(c, St()) && AllSame(c, old(St()), St()) && Grew(old(St()), St(), d) && LooseKept(old(St()), St())
      ensures table != 0 ==> HasTable(c, St(), d, v) && table == mem[d][Pdx(c, v)].frame
      ensures table == 0 ==> St() == old(St()) && !HasTable(c, St(), d, v) && (!alloc || free == [])
      ensures HasTable(c, old(St()), d, v) || !alloc ==> St() == old(St())
      ensures table != 0 ==> Spent(old(St()), St(), d, {Pdx(c, v)}, 0)
    {
      ghost var s := St();
      assert PdeOk(c, s, d, Pdx(c, v));
      if mem[d][Pdx(c, v)].p {
        table := mem[d][Pdx(c, v)].frame;
        SpentFound(s, d, Pdx(c, v));
        return;
      }
      if !alloc {
        return 0;
      }
      table := Kalloc();
      if table == 0 {
        return;
      }
      NewTable(d, Pdx(c, v), table);
      GrewByTable(c, s, d, Pdx(c, v));
      AllSameTrans(c, s, Pop(s), St());
      SpentTable(c, s, St(), d, Pdx(c, v));
    }

    /** The store into a page-table entry. */
    method SetPte(d: nat, v: nat, table: nat, w: Word)
      requires Inv(c, St()) && CanPut(c, St(), d, v, w) && table == mem[d][Pdx(c, v)].frame
      requires v < c.user && Entry(c, St(), d, v).p ==> Entry(c, St(), d, v).frame < |mem|
      modifies this
      ensures St() == Put(c, old(St()), d, v, w)
    {
      ghost var after := Put(c, St(), d, v, w);
      mem := mem[table := mem[table][Ptx(c, v) := w]];
      use := after.use;
    }

    /** mappages: maps the pages that bytes [va, va + size) touch to consecutive frames, and no
        others; stops at mid when there is no page left for a page table. */
    method MapPages(d: nat, va: nat, size: nat, frame: nat, flags: Word) returns (ok: bool, ghost mid: nat)
      requires Inv(c, St()) && c.pgsize > 0 && size > 0
      requires CanMap(c, St(), d, va / c.pgsize, (va + size - 1) / c.pgsize, frame)
      modifies this
      ensures Inv(c, St()) && Mapped(c, old(St()), St(), d, va / c.pgsize, mid, frame, flags)
      ensures va / c.pgsize <= mid <= (va + size - 1) / c.pgsize + 1
      ensures ok <==> mid == (va + size - 1) / c.pgsize + 1
      ensures !ok ==> free == []
      ensures Spent(old(St()), St(), d, Dirs(c, va / c.pgsize, mid), 0)
      ensures ok <==> !Short(c, old(St()), d, va / c.pgsize, (va + size - 1) / c.pgsize + 1, 0)
    {
      hide Mapped, CanMap, Spent, Short, Core, Dirs;
      ghost var s := St();
      var first, last := va / c.pgsize, (va + size - 1) / c.pgsize;
      var a := first;
      MapStarts(c, s, d, first, last, frame, flags);
      while a <= last
        invariant first <= a <= last + 1 && Inv(c, St()) && Mapped(c, s, St(), d, first, a, frame, flags)
        invariant Spent(s, St(), d, Dirs(c, first, a), 0)
      {
        ok := MapPage(d, a, frame + (a - first), flags, s, first, last, frame);
        if !ok {
          return false, a;
        }
        a := a + 1;
      }
      NotShort(c, s, St(), d, first, last + 1, 0);
      return true, a;
    }

    /** One turn of mappages' loop. */
    method MapPage(d: nat, a: nat, pa: nat, flags: Word, ghost s: State, ghost first: nat, ghost last: nat, ghost frame: nat)
      returns (ok: bool)
      requires Inv(c, s) && Inv(c, St()) && CanMap(c, s, d, first, last, frame) && first <= a <= last && pa == frame + (a - first)
      requires Mapped(c, s, St(), d, first, a, frame, flags) && Spent(s, St(), d, Dirs(c, first, a), 0)
      modifies this
      ensures Inv(c, St())
      ensures ok ==> Mapped(c, s, St(), d, first, a + 1, frame, flags) && Spent(s, St(), d, Dirs(c, first, a + 1), 0)
      ensures !ok ==> Mapped(c, s, St(), d, first, a, frame, flags) && Spent(s, St(), d, Dirs(c, first, a), 0)
      ensures !ok ==> free == [] && Short(c, s, d, first, last + 1, 0)
    {
      hide Mapped, SameBut, AllSame, Grew, LooseKept, Spent, Short, CanMap, UseOk, PdeOk, PteOk, FreeOk, Dirs;
      ghost var t := St();
      MapReady(c, s, t, d, first, a, last, frame, flags);
      var table := Walk(d, a, true);
      ghost var u := St();
      MapAfterWalk(c, s, t, u, d, first, a, frame, flags);
      if table == 0 {
        NoEntry(c, t, d, a);
        NoTable(c, s, t, d, first, a, last + 1, 0);
        return false;
      }
      CanPutNext(c, s, u, d, first, a, last, frame, flags);
      MapStep(c, s, u, d, first, a, last, frame, flags);
      MapSpends(c, s, t, u, d, first, a, PteFor(flags, pa));
      SetPte(d, a, table, PteFor(flags, pa));
      ok := true;
    }

    /** mappages of whole pages, first to last. */
    method MapWhole(d: nat, first: nat, last: nat, frame: nat, flags: Word) returns (ok: bool, ghost mid: nat)
      requires Inv(c, St()) && c.pgsize > 0 && CanMap(c, St(), d, first, last, frame)
      modifies this
      ensures Inv(c, St()) && first <= mid <= last + 1 && Mapped(c, old(St()), St(), d, first, mid, frame, flags)
      ensures ok <==> mid == last + 1
      ensures Spent(old(St()), St(), d, Dirs(c, first, mid), 0)
      ensures ok <==> !Short(c, old(St()), d, first, last + 1, 0)
    {
      hide Mapped, Spent, Short, Core, Dirs;
      RangeAddress(first, last, c.pgsize);
      ok, mid := MapPages(d, first * c.pgsize, (last - first + 1) * c.pgsize, frame, flags);
    }

    /** One page of deallocuvm. */
    method UnmapPage(d: nat, i: nat, table: nat)
      requires Inv(c, St()) && IsDir(St(), d) && Va(c, i) && i < c.user && HasTable(c, St(), d, i)
      requires table == mem[d][Pdx(c, i)].frame && Entry(c, St(), d, i).p && CanPut(c, St(), d, i, Zero)
      requires 0 < Entry(c, St(), d, i).frame < |mem|
      modifies this
      ensures St() == Push(c, Put(c, old(St()), d, i, Zero), Entry(c, old(St()), d, i).frame)
    {
      FreeThenClear(c, St(), d, i);
      Kfree(mem[table][Ptx(c, i)].frame);
      mem := mem[table := mem[table][Ptx(c, i) := Zero]];
    }

    /** deallocuvm: unmaps and frees exactly the mapped pages from newlimit up to oldlimit, although
        it jumps over directory entries without a page table. */
    method Deallocuvm(d: nat, oldlimit: nat, newlimit: nat) returns (r: nat)
      requires Inv(c, St()) && IsDir(St(), d) && WellFormed(c) && Pages(c, oldlimit) <= c.user
      modifies this
      ensures Inv(c, St())
      ensures newlimit >= oldlimit ==> r == oldlimit && St() == old(St())
      ensures newlimit < oldlimit ==> r == newlimit
      ensures newlimit < oldlimit ==>
        Unmapped(c, old(St()), St(), d, Pages(c, newlimit), Max(Pages(c, newlimit), Pages(c, oldlimit)))
    {
      if newlimit >= oldlimit {
        return oldlimit;
      }
      ghost var s := St();
      ghost var lo, hi := Pages(c, newlimit), Pages(c, oldlimit);
      var a := Pages(c, newlimit);
      UnmapNone(c, s, d, lo);
      PagesIff(c, a, oldlimit);
      while a * c.pgsize < oldlimit
        invariant lo <= a && Inv(c, St()) && (a * c.pgsize < oldlimit <==> a < hi)
        invariant Unmapped(c, s, St(), d, lo, if a < hi then a else Max(lo, hi))
        decreases hi - a
      {
        UserVa(c, a);
        a := DeallocStep(d, a, s, lo, hi);
        PagesIff(c, a, oldlimit);
      }
      return newlimit;
    }

    /** One turn of deallocuvm's loop: page a, or all pages of a directory entry without a table. */
    method DeallocStep(d: nat, a: nat, ghost s: State, ghost lo: nat, ghost hi: nat) returns (next: nat)
      requires Inv(c, s) && IsDir(s, d) && Inv(c, St()) && WellFormed(c) && lo <= a < hi <= c.user && Va(c, a)
      requires Unmapped(c, s, St(), d, lo, a)
      modifies this
      ensures Inv(c, St()) && a < next
      ensures Unmapped(c, s, St(), d, lo, if next < hi then next else hi)
    {
      var table := Walk(d, a, false);
      if table == 0 {
        next := (Pdx(c, a) + 1) * c.words;
        DivMod(a, c.words);
        OneMore(Pdx(c, a), c.words);
        ghost var j := if next < hi then next else hi;
        forall v: nat | a <= v < j ensures Va(c, v) && !Entry(c, St(), d, v).p {
          SameTable(c, St(), d, a, v);
        }
        UnmapSkip(c, s, St(), d, lo, a, j);
      } else {
        if mem[table][Ptx(c, a)].p {
          UnmapStep(c, s, St(), d, lo, a);
          UnmapPage(d, a, table);
        } else {
          UnmapSkip(c, s, St(), d, lo, a, a + 1);
        }
        next := a + 1;
      }
    }

    /** allocuvm: on success every page from oldlimit up to newlimit is mapped to a zeroed page that
        was free, and nothing else changed; on failure every mapping is as before, and all that is
        left is new, empty page tables. */
    method Allocuvm(d: nat, oldlimit: nat, newlimit: nat) returns (r: nat)
      requires Inv(c, St()) && IsDir(St(), d) && WellFormed(c)
      requires newlimit < c.user * c.pgsize ==>
        forall v: nat :: Pages(c, oldlimit) <= v < Pages(c, newlimit) ==> Va(c, v) && !Entry(c, St(), d, v).p
      modifies this
      ensures Inv(c, St())
      ensures newlimit >= c.user * c.pgsize ==> r == 0 && St() == old(St())
      ensures newlimit < oldlimit && newlimit < c.user * c.pgsize ==> r == oldlimit && St() == old(St())
      ensures oldlimit <= newlimit < c.user * c.pgsize ==> r == 0 || r == newlimit
      ensures oldlimit <= newlimit < c.user * c.pgsize && r == newlimit > 0 ==>
        Alloced(c, old(St()), St(), d, Pages(c, oldlimit), Max(Pages(c, oldlimit), Pages(c, newlimit)), 0)
      ensures oldlimit <= newlimit < c.user * c.pgsize && r == 0 < newlimit ==>
        AllSame(c, old(St()), St()) && Grew(old(St()), St(), d)
      ensures oldlimit <= newlimit < c.user * c.pgsize && newlimit > 0 ==>
        (r == 0 <==> Short(c, old(St()), d, Pages(c, oldlimit), Pages(c, newlimit), Growth(c, oldlimit, newlimit)))
    {
      hide Alloced, AllSame, Grew, UseOk, PdeOk, PteOk, FreeOk, Spent, Short, Dirs, Pages;
      if newlimit >= c.user * c.pgsize {
        return 0;
      }
      if newlimit < oldlimit {
        return oldlimit;
      }
      PagesBelow(c, newlimit);
      PagesOrder(c, oldlimit, newlimit);
      var ok := Grow(d, oldlimit, newlimit);
      return if ok then newlimit else 0;
    }

    /** allocuvm's loop. */
    method Grow(d: nat, oldlimit: nat, newlimit: nat) returns (ok: bool)
      requires Inv(c, St()) && IsDir(St(), d) && WellFormed(c) && oldlimit <= newlimit
      requires Pages(c, oldlimit) <= Pages(c, newlimit) <= c.user
      requires forall v: nat :: Pages(c, oldlimit) <= v < Pages(c, newlimit) ==> Va(c, v) && !Entry(c, St(), d, v).p
      modifies this
      ensures Inv(c, St())
      ensures ok ==> Alloced(c, old(St()), St(), d, Pages(c, oldlimit), Pages(c, newlimit), 0)
      ensures !ok ==> AllSame(c, old(St()), St()) && Grew(old(St()), St(), d)
      ensures ok <==> !Short(c, old(St()), d, Pages(c, oldlimit), Pages(c, newlimit), Pages(c, newlimit) - Pages(c, oldlimit))
    {
      hide Alloced, AllSame, Grew, UseOk, PdeOk, PteOk, FreeOk, Spent, Short, Dirs, Pages, Pdx, Ptx;
      ghost var s := St();
      ghost var lo, hi := Pages(c, oldlimit), Pages(c, newlimit);
      var a := Pages(c, oldlimit);
      AllocNone(c, s, d, lo);
      OneDir(c, lo);
      SpentNothing(s, d);
      PagesIff(c, a, newlimit);
      while a * c.pgsize < newlimit
        invariant lo <= a <= hi && Inv(c, St()) && (a * c.pgsize < newlimit <==> a < hi)
        invariant Alloced(c, s, St(), d, lo, a, 0) && Spent(s, St(), d, Dirs(c, lo, a), a - lo)
      {
        var g;
        g, ok := AllocPage(d, a, s, lo, hi);
        if !ok {
          PagesIff(c, lo, oldlimit);
          Monotone(lo, a, c.pgsize);
          Undo(d, oldlimit, newlimit, g, s, a);
          return;
        }
        a := a + 1;
        PagesIff(c, a, newlimit);
      }
      NotShort(c, s, St(), d, lo, hi, a - lo);
      ok := true;
    }

    /** One turn of allocuvm's loop; g is the page that could not be mapped, if any. */
    method AllocPage(d: nat, a: nat, ghost s: State, ghost lo: nat, ghost hi: nat) returns (g: nat, ok: bool)
      requires Inv(c, s) && Inv(c, St()) && Alloced(c, s, St(), d, lo, a, 0) && lo <= a < hi <= c.user && WellFormed(c)
      requires IsDir(s, d) && Va(c, a) && !Entry(c, s, d, a).p && Spent(s, St(), d, Dirs(c, lo, a), a - lo)
      modifies this
      ensures Inv(c, St())
      ensures ok ==> Alloced(c, s, St(), d, lo, a + 1, 0) && Spent(s, St(), d, Dirs(c, lo, a + 1), a + 1 - lo)
      ensures !ok ==> Alloced(c, s, St(), d, lo, a, g) && Short(c, s, d, lo, hi, hi - lo)
    {
      hide Mapped, Spent, Short, CanMap, UseOk, PdeOk, PteOk, FreeOk, Dirs, FreshAt, AllocUseAt, SameAt, AllSame;
      ghost var t := St();
      if |t.free| > 0 {
        AllocPop(c, s, t, d, lo, a);
        TakeSpends(c, s, t, d, Dirs(c, lo, a), a - lo, ZeroPage(c));
      }
      g := Kalloc();
      if g == 0 {
        NoPage(c, s, t, d, lo, a, hi);
        return g, false;
      }
      AllocFill(c, s, St(), d, lo, a, g, ZeroPage(c));
      mem := mem[g := ZeroPage(c)];
      ghost var u := St();
      OnePage(c, s, u, d, lo, a, g);
      ghost var mid;
      ok, mid := MapWhole(d, a, a, g, UserRw);
      if ok {
        AllocMapped(c, s, u, St(), d, lo, a, g);
        PageSpends(c, s, u, St(), d, lo, a, a + 1 - lo);
      } else {
        AllocUnmappable(c, s, u, St(), d, lo, a, g);
        ShortOfTable(c, s, u, d, lo, a, hi);
      }
    }

    /** allocuvm gives up: deallocuvm, and kfree of the page that could not be mapped. */
    method Undo(d: nat, oldlimit: nat, newlimit: nat, g: nat, ghost s: State, ghost a: nat)
      requires Inv(c, s) && Inv(c, St()) && IsDir(s, d) && WellFormed(c) && oldlimit < newlimit
      requires Pages(c, oldlimit) <= a <= Pages(c, newlimit) <= c.user
      requires forall v: nat :: Pages(c, oldlimit) <= v < Pages(c, newlimit) ==> Va(c, v) && !Entry(c, s, d, v).p
      requires Alloced(c, s, St(), d, Pages(c, oldlimit), a, g)
      modifies this
      ensures Inv(c, St()) && AllSame(c, s, St()) && Grew(s, St(), d)
    {
      ghost var t := St();
      var r := Deallocuvm(d, newlimit, oldlimit);
      AllocUndone(c, s, t, St(), d, Pages(c, oldlimit), a, Pages(c, newlimit), g);
      if g != 0 {
        RestoredPush(c, s, St(), d, g);
        Kfree(g);
      }
      RestoredGrew(c, s, St(), d);
    }

    /** freevm: gives back every page of the address space once, and touches no other. */
    method Freevm(d: nat)
      requires Inv(c, St()) && IsDir(St(), d) && WellFormed(c)
      modifies this
      ensures Inv(c, St()) && Freed(c, old(St()), St(), d)
    {
      ghost var s := St();
      UserLimit(c);
      UnmapNone(c, s, d, 0);
      var r := Deallocuvm(d, c.user * c.pgsize, 0);
      ghost var t := St();
      FreeingStarts(c, s, t, d);
      use := Doom(t, d).use;
      FreeTables(d, s);
      FreeingDone(c, s, St(), d);
      Kfree(d);
    }

    method FreeTables(d: nat, ghost s: State)
      requires Inv(c, s) && IsDir(s, d) && Core(c, St()) && Freeing(c, s, St(), d, 0)
      modifies this
      ensures Core(c, St()) && Freeing(c, s, St(), d, c.words)
    {
      var k := 0;
      while k < c.words
        invariant k <= c.words && Core(c, St()) && Freeing(c, s, St(), d, k)
      {
        if mem[d][k].p {
          FreeingStep(c, s, St(), d, k);
          Kfree(mem[d][k].frame);
        } else {
          FreeingSkip(c, s, St(), d, k);
        }
        k := k + 1;
      }
    }

    /** setupkvm: a new directory with the kernel's mappings and no others; or nothing at all, exactly
        when there are not enough pages for the directory and its page tables. */
    method Setupkvm(kmap: seq<Range>) returns (nd: nat)
      requires Inv(c, St()) && WellFormed(c) && KmapOk(c, kmap)
      modifies this
      ensures Inv(c, St())
      ensures nd != 0 ==> nd < |mem| && Cloned(c, old(St()), St(), 0, nd, 1, 0, kmap)
      ensures nd != 0 ==> Took(old(St()), St(), nd, KernelDirs(c, kmap), 1)
      ensures nd == 0 ==> Unchanged(c, old(St()), St(), 0)
      ensures nd == 0 <==> old(|free|) < SpaceNeeds(c, kmap, 1)
    {
      hide Cloned, AllSame, Unchanged, UseOk, PdeOk, PteOk, FreeOk, KernelDirs, Took, Spent, Short, Mapped, SpaceNeeds;
      ghost var s := St();
      NeedsSome(c, kmap);
      if |s.free| > 0 {
        CloneStarts(c, s);
      }
      nd := Kalloc();
      if nd == 0 {
        NothingChanged(c, s);
        return;
      }
      mem := mem[nd := ZeroPage(c)];
      use := use[nd := Dir];
      TookDir(c, s, St(), nd);
      KernelStarts(c, kmap);
      var j := 0;
      while j < |kmap|
        invariant j <= |kmap| && Inv(c, St()) && Cloned(c, s, St(), 0, nd, 1, 0, kmap[..j])
        invariant Took(s, St(), nd, KernelDirs(c, kmap[..j]), 1)
      {
        var ok := MapKernel(nd, kmap, j, s);
        if !ok {
          return 0;
        }
        j := j + 1;
      }
      assert kmap[..|kmap|] == kmap;
      CopiesStart(c, s, St(), nd, kmap);
      ClonedDir(c, s, St(), 0, nd, 1, 0, kmap);
    }

    /** One turn of setupkvm's loop; on failure the directory is freed. */
    method MapKernel(nd: nat, kmap: seq<Range>, j: nat, ghost s: State) returns (ok: bool)
      requires Inv(c, s) && Inv(c, St()) && WellFormed(c) && KmapOk(c, kmap) && j < |kmap|
      requires Cloned(c, s, St(), 0, nd, 1, 0, kmap[..j]) && Took(s, St(), nd, KernelDirs(c, kmap[..j]), 1)
      modifies this
      ensures Inv(c, St())
      ensures ok ==> Cloned(c, s, St(), 0, nd, 1, 0, kmap[..j + 1]) && Took(s, St(), nd, KernelDirs(c, kmap[..j + 1]), 1)
      ensures !ok ==> Unchanged(c, s, St(), 0) && |s.free| < SpaceNeeds(c, kmap, 1)
    {
      hide AllSame, Unchanged, UseOk, PdeOk, PteOk, FreeOk, KernelDirs, Took, Spent, Short, Mapped, SpaceNeeds, CanMap, Freed, CloneUseAt, Dirs;
      ghost var t := St();
      var k := kmap[j];
      assert RangeOk(c, kmap, j);
      KernelCanMap(c, s, t, nd, kmap, j);
      ghost var mid;
      ok, mid := MapWhole(nd, k.first, k.last, k.frame, k.flags);
      CloneKernel(c, s, t, St(), nd, kmap, j, mid);
      if ok {
        TookMore(s, t, St(), nd, KernelDirs(c, kmap[..j]), 1, Dirs(c, k.first, k.last + 1), 0);
        KernelDirsNext(c, kmap, j);
      } else {
        KernelShort(c, s, t, nd, kmap, j);
        ghost var u := St();
        StillDir(c, t, u, nd, k.first, mid, k.frame, k.flags);
        Freevm(nd);
        CloneFreed(c, s, u, St(), nd, 0);
      }
    }

    /** copyuvm: a new address space whose pages from PGSIZE up to vlimit are copies, on pages that
        were free and with the same flags, of d's; or, exactly when there are too few free pages for
        it, the free pages there were before. */
    method Copyuvm(d: nat, vlimit: nat, kmap: seq<Range>) returns (nd: nat)
      requires Inv(c, St()) && WellFormed(c) && KmapOk(c, kmap) && Present(c, St(), d, Pages(c, vlimit))
      modifies this
      ensures Inv(c, St())
      ensures nd != 0 ==> nd < |mem| && Cloned(c, old(St()), St(), d, nd, Max(1, Pages(c, vlimit)), 0, kmap)
      ensures nd == 0 ==> Unchanged(c, old(St()), St(), 0)
      ensures nd == 0 <==> old(|free|) < SpaceNeeds(c, kmap, Pages(c, vlimit))
    {
      hide Cloned, AllSame, Unchanged, KmapOk, Inv, Present, Took, TookCopies, SpaceNeeds, KernelDirs;
      ghost var s := St();
      ghost var hi := Pages(c, vlimit);
      nd := Setupkvm(kmap);
      if nd == 0 {
        NeedsGrow(c, kmap, hi);
        return;
      }
      CloneOf(c, s, St(), d, nd, kmap);
      CopiesStart(c, s, St(), nd, kmap);
      var i := 1;
      PagesIff(c, i, vlimit);
      while i * c.pgsize < vlimit
        invariant 1 <= i <= Max(1, hi) && (i * c.pgsize < vlimit <==> i < hi)
        invariant Inv(c, St()) && Cloned(c, s, St(), d, nd, i, 0, kmap) && TookCopies(c, s, St(), nd, kmap, i)
      {
        PresentBelow(c, s, d, hi, i + 1);
        var g, ok := CopyPage(d, nd, i, kmap, s, hi);
        if !ok {
          GiveUp(nd, g, s, d, i, kmap);
          return 0;
        }
        i := i + 1;
        PagesIff(c, i, vlimit);
      }
      CopiesDone(c, s, St(), nd, kmap, i, hi);
      ClonedDir(c, s, St(), d, nd, i, 0, kmap);
    }

    /** One turn of copyuvm's loop; g is the page that could not be mapped, if any. */
    method CopyPage(d: nat, nd: nat, i: nat, kmap: seq<Range>, ghost s: State, ghost hi: nat) returns (g: nat, ok: bool)
      requires Inv(c, s) && Inv(c, St()) && WellFormed(c) && KmapOk(c, kmap) && 1 <= i < hi && Present(c, s, d, i + 1)
      requires Cloned(c, s, St(), d, nd, i, 0, kmap) && TookCopies(c, s, St(), nd, kmap, i)
      modifies this
      ensures Inv(c, St())
      ensures ok ==> Cloned(c, s, St(), d, nd, i + 1, 0, kmap) && TookCopies(c, s, St(), nd, kmap, i + 1)
      ensures !ok ==> Cloned(c, s, St(), d, nd, i, g, kmap) && |s.free| < SpaceNeeds(c, kmap, hi)
    {
      hide Cloned, AllSame, Present, Grew, LooseKept, Mapped, CanMap, Took, TookCopies, SpaceNeeds, Spent, Short, KernelDirs, KmapOk,
        UseOk, PdeOk, PteOk, FreeOk, Dirs;
      ghost var t := St();
      CloneSource(c, s, t, d, nd, i, 0, kmap);
      CloneDirs(c, s, t, d, nd, i, 0, kmap);
      var table := Walk(d, i, false);
      var pte := mem[table][Ptx(c, i)];
      if |t.free| > 0 {
        ClonePop(c, s, t, d, nd, i, kmap);
        TakeForCopy(c, s, t, nd, kmap, i, t.mem[pte.frame]);
      }
      g := Kalloc();
      if g == 0 {
        NoCopyPage(c, s, t, nd, kmap, i, hi);
        return g, false;
      }
      var page := mem[pte.frame];
      CloneFill(c, s, St(), d, nd, i, g, page, kmap);
      mem := mem[g := page];
      ghost var u := St();
      OneCopy(c, s, u, d, nd, i, g, kmap);
      ghost var mid;
      ok, mid := MapWhole(nd, i, i, g, pte);
      if ok {
        CloneMapped(c, s, u, St(), d, nd, i, g, kmap);
        CopySpends(c, s, u, St(), nd, kmap, i);
      } else {
        CloneUnmappable(c, s, u, St(), d, nd, i, g, pte, kmap);
        NoCopyTable(c, s, u, nd, kmap, i, hi);
      }
    }

    method GiveUp(nd: nat, g: nat, ghost s: State, ghost d: nat, ghost i: nat, ghost kmap: seq<Range>)
      requires Inv(c, s) && Inv(c, St()) && WellFormed(c) && Cloned(c, s, St(), d, nd, i, g, kmap)
      modifies this
      ensures Inv(c, St()) && Unchanged(c, s, St(), 0)
    {
      ghost var t := St();
      if g != 0 {
        LoosePush(c, s, t, d, nd, i, g, kmap);
        Kfree(g);
      }
      t := St();
      Freevm(nd);
      CloneFreed(c, s, t, St(), nd, 0);
    }

    /** clearpteu: the page of va becomes inaccessible to the user; nothing else changes.  Without a
        page table there the kernel panics. */
    method Clearpteu(d: nat, va: nat)
      requires Inv(c, St()) && c.pgsize > 0 && IsDir(St(), d) && Va(c, va / c.pgsize)
      requires HasTable(c, St(), d, va / c.pgsize)
      modifies this
      ensures Inv(c, St()) && use == old(use) && free == old(free)
      ensures SameBut(c, old(St()), St(), d, va / c.pgsize, va / c.pgsize + 1)
      ensures ReflagAt(c, old(St()), St(), d, va / c.pgsize, Entry(c, old(St()), d, va / c.pgsize).(u := false))
    {
      ghost var s := St();
      var v := va / c.pgsize;
      var table := Walk(d, v, false);
      assert PteOk(c, s, d, v);
      var e := mem[table][Ptx(c, v)];
      ReflagOne(c, s, d, v, e.(u := false));
      SetPte(d, v, table, e.(u := false));
    }

    /** mprotect (w false) and munprotect (w true) on len pages from addr: sets the writable flag to w
        on exactly the pages up to the first that the user cannot access, all of them on success.
        faulted: that page has no page table either, and the kernel reads the entry at address 0.
        The sum in the length test is an unsigned 32-bit one. */
    method Protect(d: nat, addr: nat, len: int, vlimit: nat, w: bool) returns (r: int, faulted: bool, ghost mid: nat)
      requires Inv(c, St()) && c.pgsize > 0 && IsDir(St(), d)
      requires forall v: nat :: addr / c.pgsize <= v < addr / c.pgsize + len ==> Va(c, v)
      modifies this
      ensures Inv(c, St()) && (r == 0 || r == -1) && addr / c.pgsize <= mid
      ensures Protected(c, old(St()), St(), d, addr / c.pgsize, mid, w)
      ensures r == 0 <==>
        && !(len <= 0 && (len * c.pgsize + addr) % 0x1_0000_0000 > vlimit) && addr % c.pgsize == 0
        && (len > 0 ==> mid == addr / c.pgsize + len)
      ensures forall v: nat :: addr / c.pgsize <= v < mid ==> Accessible(c, old(St()), d, v)
      ensures r == -1 && len > 0 && addr % c.pgsize == 0 ==>
        mid < addr / c.pgsize + len && !Accessible(c, old(St()), d, mid) && (faulted <==> !HasTable(c, old(St()), d, mid))
      ensures faulted ==> r == -1 && len > 0 && addr % c.pgsize == 0
      ensures len <= 0 || addr % c.pgsize != 0 ==> St() == old(St())
    {
      ghost var s := St();
      mid, faulted := addr / c.pgsize, false;
      if len <= 0 && (len * c.pgsize + addr) % 0x1_0000_0000 > vlimit {
        return -1, false, mid;
      }
      if addr % c.pgsize != 0 {
        return -1, false, mid;
      }
      var lo := addr / c.pgsize;
      var i := lo;
      while i < lo + len
        invariant lo <= i && (i <= lo + len || i == lo) && (len <= 0 ==> St() == s)
        invariant Inv(c, St()) && Protected(c, s, St(), d, lo, i, w) && SameTables(c, s, St(), d)
        invariant forall v: nat :: lo <= v < i ==> Accessible(c, s, d, v)
      {
        var ok;
        ok, faulted := ProtectPage(d, i, w, s, lo);
        if !ok {
          return -1, faulted, i;
        }
        i := i + 1;
      }
      return 0, false, i;
    }

    method ProtectPage(d: nat, i: nat, w: bool, ghost s: State, ghost lo: nat) returns (ok: bool, faulted: bool)
      requires Inv(c, s) && Inv(c, St()) && Protected(c, s, St(), d, lo, i, w) && SameTables(c, s, St(), d) && lo <= i && Va(c, i)
      modifies this
      ensures Inv(c, St()) && ok == Accessible(c, s, d, i) && faulted == !HasTable(c, s, d, i)
      ensures Protected(c, s, St(), d, lo, if ok then i + 1 else i, w) && SameTables(c, s, St(), d)
    {
      ghost var t := St();
      assert SameAt(c, s, t, d, i);
      var table := Walk(d, i, false);
      if table == 0 {
        return false, true;
      }
      var e := mem[table][Ptx(c, i)];
      ok, faulted := e.p && e.u, false;
      if ok {
        ReflagOne(c, t, d, i, e.(w := w));
        SetPte(d, i, table, e.(w := w));
        ProtectStep(c, s, t, St(), d, lo, i, w);
        forall v: nat | Va(c, v) ensures HasTable(c, St(), d, v) <==> HasTable(c, s, d, v) {
          TableStays(c, t, d, i, e.(w := w), v);
        }
      }
    }

    method NewTable(d: nat, k: nat, table: nat)
      requires Inv(c, St()) && IsDir(St(), d) && k < c.words && !mem[d][k].p
      requires 0 < table < |mem| && use[table].Other?
      modifies this
      ensures St() == Attach(c, Fill(old(St()), table, ZeroPage(c)), d, k, table)
      ensures Inv(c, St()) && AllSame(c, old(St()), St())
    {
      ghost var s := St();
      FillKept(c, s, table, ZeroPage(c));
      AttachKept(c, Fill(s, table, ZeroPage(c)), d, k, table);
      AllSameTrans(c, s, Fill(s, table, ZeroPage(c)), Attach(c, Fill(s, table, ZeroPage(c)), d, k, table));
      mem := mem[table := ZeroPage(c)];
      mem := mem[d := mem[d][k := Word(table, true, true, true, 0)]];
      use := use[table := Table(d, k)];
    }
  }
}
