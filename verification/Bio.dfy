/** bio.c as imperative code: the array of buffers threaded on a doubly linked list through
    `prev` and `next`, with the list head as one more node.  Each method is a critical section
    (or a straight-line composition of them) and is proved to take a step of the machine in
    module Cache, so it keeps that machine's invariant. */
module Bio {
  import opened Cache
  import opened Counting
  import opened Options
  import opened Writes

  /** Node `k` of the list: the head, the buffers in order, the head again. */
  function Node(order: seq<nat>, h: nat, k: nat): nat
    requires k <= |order| + 1
  {
    if k == 0 || k == |order| + 1 then h else order[k - 1]
  }

  /** The list through `next` and `prev`, starting and ending at the head node `h`, is `order`. */
  ghost predicate Ring(order: seq<nat>, next: seq<nat>, prev: seq<nat>, h: nat) {
    && |next| == |prev| == h + 1
    && (forall k :: 0 <= k < |order| ==> order[k] < h)
    && NoRepeats(order)
    && (forall k: nat :: k <= |order| ==> next[Node(order, h, k)] == Node(order, h, k + 1))
    && (forall k: nat :: 1 <= k <= |order| + 1 ==> prev[Node(order, h, k)] == Node(order, h, k - 1))
  }

  lemma RingAt(order: seq<nat>, next: seq<nat>, prev: seq<nat>, h: nat, k: nat)
    requires Ring(order, next, prev, h) && k <= |order|
    ensures next[Node(order, h, k)] == Node(order, h, k + 1) <= h
    ensures prev[Node(order, h, k + 1)] == Node(order, h, k) <= h
  {
    assert prev[Node(order, h, k + 1)] == Node(order, h, k + 1 - 1);
  }

  /** Unlinking the node at position `k`. */
  lemma Unlink(order: seq<nat>, next: seq<nat>, prev: seq<nat>, h: nat, k: nat)
    requires Ring(order, next, prev, h) && k < |order|
    ensures var b := order[k];
            && next[b] <= h && prev[b] <= h
            && Ring(order[..k] + order[k + 1..], next[prev[b] := next[b]], prev[next[b] := prev[b]], h)
  {
    var b := order[k];
    RingAt(order, next, prev, h, k);
    RingAt(order, next, prev, h, k + 1);
    var rest := order[..k] + order[k + 1..];
    var next' := next[prev[b] := next[b]];
    var prev' := prev[next[b] := prev[b]];
    forall j: nat | j <= |rest| + 1
      ensures Node(rest, h, j) == Node(order, h, if j <= k then j else j + 1)
    {
    }
    forall j: nat | j <= |rest| ensures next'[Node(rest, h, j)] == Node(rest, h, j + 1) {
      RingAt(order, next, prev, h, if j <= k then j else j + 1);
    }
    forall j: nat | 1 <= j <= |rest| + 1 ensures prev'[Node(rest, h, j)] == Node(rest, h, j - 1) {
      RingAt(order, next, prev, h, if j <= k then j - 1 else j);
    }
  }

  /** Linking the node `b` in at the front. */
  lemma LinkFront(order: seq<nat>, next: seq<nat>, prev: seq<nat>, h: nat, b: nat)
    requires Ring(order, next, prev, h) && b < h && b !in order
    ensures next[h] <= h
    ensures Ring([b] + order, next[b := next[h]][h := b], prev[b := h][next[h] := b], h)
  {
    RingAt(order, next, prev, h, 0);
    var longer := [b] + order;
    var next' := next[b := next[h]][h := b];
    var prev' := prev[b := h][next[h] := b];
    forall j: nat | 2 <= j <= |longer| + 1 ensures Node(longer, h, j) == Node(order, h, j - 1) {
    }
    forall j: nat | j <= |longer| ensures next'[Node(longer, h, j)] == Node(longer, h, j + 1) {
      if j >= 2 { RingAt(order, next, prev, h, j - 1); }
    }
    forall j: nat | 1 <= j <= |longer| + 1 ensures prev'[Node(longer, h, j)] == Node(longer, h, j - 1) {
      if j >= 2 { RingAt(order, next, prev, h, j - 2); }
    }
  }

  /** Every buffer is referenced or pinned. */
  ghost predicate NoneSpare(s: State) {
    forall j :: 0 <= j < |s.buf| ==> s.buf[j].refcnt > 0 || s.buf[j].dirty
  }

  /** What bread of block `blockno` into buffer `i` by process `p` leaves: the buffer is locked
      and shows the view; nothing else has changed. */
  ghost predicate ReadInto(s: State, t: State, p: Pid, i: nat, blockno: nat) {
    && |t.buf| == |s.buf| && i < |t.buf|
    && t.disk == s.disk && t.view == s.view && t.logged == s.logged && t.editing == s.editing
    && (forall j :: 0 <= j < |t.buf| && j != i ==> t.buf[j] == s.buf[j])
    && Holds(t, p, i) && Tagged(t.buf[i], 1, blockno) && t.buf[i].valid && i !in t.editing
    && blockno < |t.view| && t.buf[i].data == t.view[blockno]
    && t.buf[i].dirty == s.buf[i].dirty && (t.buf[i].dirty ==> s.buf[i].blockno == blockno)
    && s.buf[i].holder == None && t.buf[i].refcnt == s.buf[i].refcnt + 1
  }

  /** The block just read is the disk overlaid with the uncommitted writes, whatever other buffers
      are being changed. */
  lemma ReadIsOverlay(s: State, t: State, p: Pid, i: nat, blockno: nat)
    requires Inv(t) && ReadInto(s, t, p, i, blockno) && blockno < |t.disk|
    ensures t.buf[i].data == Overlay(t, blockno)
  {
    forall j | j in t.editing && j < |t.buf| ensures t.buf[j].blockno != blockno {
      assert BufInv(t, j);
      assert i < j || j < i;
    }
    ViewIsOverlay(t, blockno);
  }

  class BufferCache {
    var buf: seq<Buf>
    var prev: seq<nat>
    var next: seq<nat>
    var disk: seq<Block>
    ghost var order: seq<nat>
    ghost var view: seq<Block>
    ghost var logged: set<nat>
    ghost var editing: set<nat>
    ghost const base: Disk                 // the disk at start-up
    ghost var trace: seq<Write>            // every block written since then, in order

    ghost function St(): State
      reads this
    {
      State(buf, order, disk, view, logged, editing)
    }

    ghost predicate Valid()
      reads this
    {
      Inv(St()) && Ring(order, next, prev, |buf|) && disk == Apply(base, trace)
    }

    /** Everything but buffer `i` is as before. */
    twostate predicate OnlyBuffer(i: nat)
      reads this
    {
      && |buf| == old(|buf|) && disk == old(disk) && view == old(view)
      && logged == old(logged) && editing == old(editing) && trace == old(trace)
      && forall j :: 0 <= j < |buf| && j != i ==> buf[j] == old(buf[j])
    }

    constructor (nbuf: nat, blocks: seq<Block>)
      ensures Valid() && St() == Init(nbuf, blocks) && trace == [] && base == blocks
    {
      disk, base := blocks, blocks;
      view, logged, editing, trace := blocks, {}, {}, [];
      var b := seq(nbuf, i => Buf(0, 0, false, false, 0, {}, None, []));
      var nx: seq<nat> := seq(nbuf + 1, i => nbuf);
      var pv: seq<nat> := seq(nbuf + 1, i => nbuf);
      ghost var ord: seq<nat> := [];
      for i := 0 to nbuf
        invariant |nx| == |pv| == nbuf + 1
        invariant ord == seq(i, j requires 0 <= j < i => i - 1 - j)
        invariant Ring(ord, nx, pv, nbuf)
      {
        LinkFront(ord, nx, pv, nbuf, i);
        var first := nx[nbuf];
        nx := nx[i := first];
        pv := pv[i := nbuf];
        pv := pv[first := i];
        nx := nx[nbuf := i];
        ord := [i] + ord;
      }
      buf, next, prev, order := b, nx, pv, ord;
      new;
      assert order == Init(nbuf, blocks).order;
      InitInv(nbuf, blocks);
    }

    /** The forward scan of bget. */
    method Lookup(dev: nat, blockno: nat) returns (b: nat)
      requires Valid()
      ensures b <= |buf|
      ensures b < |buf| ==> Tagged(buf[b], dev, blockno)
      ensures b == |buf| ==> !Cached(St(), dev, blockno)
    {
      RingAt(order, next, prev, |buf|, 0);
      b := next[|buf|];
      ghost var k := 0;
      while b != |buf|
        invariant 0 <= k <= |order|
        invariant b == if k == |order| then |buf| else order[k]
        invariant forall j :: 0 <= j < k ==> !Tagged(buf[order[j]], dev, blockno)
        decreases |order| - k
      {
        if Tagged(buf[b], dev, blockno) {
          return;
        }
        RingAt(order, next, prev, |buf|, k + 1);
        b := next[b];
        k := k + 1;
      }
      forall j | 0 <= j < |buf| ensures !Tagged(buf[j], dev, blockno) {
        Pigeonhole(order, j);
        var l :| 0 <= l < |order| && order[l] == j;
      }
    }

    /** The backward scan of bget. */
    method FindUnused() returns (b: nat)
      requires Valid()
      ensures b <= |buf|
      ensures b < |buf| ==> Recyclable(buf[b]) && LeastRecent(St(), b)
      ensures b == |buf| ==> forall j :: 0 <= j < |buf| ==> !Recyclable(buf[j])
    {
      RingAt(order, next, prev, |buf|, |order|);
      b := prev[|buf|];
      ghost var k := |order|;
      while b != |buf|
        invariant 0 <= k <= |order|
        invariant b == if k == 0 then |buf| else order[k - 1]
        invariant forall j :: k <= j < |order| ==> !Recyclable(buf[order[j]])
        decreases k
      {
        if Recyclable(buf[b]) {
          assert order[k - 1] == b;
          return;
        }
        RingAt(order, next, prev, |buf|, k - 1);
        b := prev[b];
        k := k - 1;
      }
      forall j | 0 <= j < |buf| ensures !Recyclable(buf[j]) {
        Pigeonhole(order, j);
        var l :| 0 <= l < |order| && order[l] == j;
      }
    }

    /** bget, up to the release of bcache.lock.  `None` is the panic "no buffers": nothing is
        cached for the block and every buffer is referenced or pinned. */
    method Bget(p: Pid, dev: nat, blockno: nat) returns (r: Option<nat>)
      requires Valid()
      requires forall j :: 0 <= j < |buf| && Tagged(buf[j], dev, blockno) ==> p !in buf[j].refs
      modifies this
      ensures Valid()
      ensures r.None? ==> St() == old(St()) && trace == old(trace)
      ensures r.None? <==> !Cached(old(St()), dev, blockno) && NoneSpare(old(St()))
      ensures r.Some? ==> r.value < |buf| && OnlyBuffer(r.value) && Tagged(buf[r.value], dev, blockno)
      ensures r.Some? ==> p in buf[r.value].refs && buf[r.value].dirty == old(buf)[r.value].dirty
      ensures r.Some? ==> buf[r.value].holder == old(buf)[r.value].holder
      ensures r.Some? ==> (Next(old(St()), GetHit(p, r.value, dev, blockno), St()) ||
                           Next(old(St()), GetMiss(p, r.value, dev, blockno), St()))
    {
      var b := Lookup(dev, blockno);
      if b != |buf| {
        assert Cached(St(), dev, blockno);
        buf := buf[b := buf[b].(refcnt := buf[b].refcnt + 1, refs := buf[b].refs + {p})];
        StepKeepsInv(old(St()), GetHit(p, b, dev, blockno), St());
        return Some(b);
      }
      b := FindUnused();
      if b != |buf| {
        buf := buf[b := buf[b].(dev := dev, blockno := blockno, valid := false, dirty := false,
                                refcnt := 1, refs := {p})];
        StepKeepsInv(old(St()), GetMiss(p, b, dev, blockno), St());
        return Some(b);
      }
      return None;
    }

    /** iderw with the meaning of memide.c: a dirty buffer is written, an invalid one is read.
        Called between two states of the machine, so it speaks of the fields alone. */
    method Iderw(p: Pid, i: nat)
      requires Holds(St(), p, i) && OnDisk(St(), i) && |view| == |disk|
      requires buf[i].dirty || !buf[i].valid
      modifies this`buf, this`disk, this`view, this`editing, this`trace
      ensures old(buf)[i].dirty ==> St() == BwriteTo(old(St()), i)
      ensures old(buf)[i].dirty ==> trace == old(trace) + [(buf[i].blockno, buf[i].data)]
      ensures !old(buf)[i].dirty ==> St() == FillTo(old(St()), i) && trace == old(trace)
    {
      var b := buf[i];
      if b.dirty {
        buf := buf[i := b.(dirty := false)];
        disk := disk[b.blockno := b.data];
        view := view[b.blockno := b.data];
        editing := editing - {i};
        trace := trace + [(b.blockno, b.data)];
      } else {
        buf := buf[i := b.(data := disk[b.blockno])];
      }
      buf := buf[i := buf[i].(valid := true)];
    }

    /** bread, when nobody else holds the block: the locked buffer shows the view, which is the disk
        overlaid with the uncommitted writes. */
    method Bread(p: Pid, blockno: nat) returns (r: Option<nat>)
      requires Valid() && blockno < |disk|
      requires forall j :: 0 <= j < |buf| && Tagged(buf[j], 1, blockno) ==> p !in buf[j].refs && buf[j].holder == None
      modifies this
      ensures Valid()
      ensures r.None? ==> St() == old(St()) && trace == old(trace)
      ensures r.None? <==> !Cached(old(St()), 1, blockno) && NoneSpare(old(St()))
      ensures r.Some? ==> ReadInto(old(St()), St(), p, r.value, blockno) && trace == old(trace)
      ensures |view| == |disk| == old(|disk|)
      ensures r.Some? ==> buf[r.value].data == Overlay(St(), blockno)
    {
      r := Bget(p, 1, blockno);
      if r.None? {
        return;
      }
      Unheld(old(St()), r.value, 1, blockno);
      LockAndFill(p, r.value);
      ReadIsOverlay(old(St()), St(), p, r.value, blockno);
    }

    /** The rest of bread: acquiresleep, then iderw if the buffer is not valid. */
    method LockAndFill(p: Pid, i: nat)
      requires Valid() && i < |buf| && p in buf[i].refs && buf[i].holder == None && OnDisk(St(), i)
      modifies this
      ensures Valid() && trace == old(trace) && |view| == |disk|
      ensures i !in editing
      ensures |buf| == old(|buf|) && St() == old(St()).(buf := old(buf)[i := buf[i]])
      ensures buf[i].blockno < |view|
      ensures buf[i] == old(buf)[i].(holder := Some(p), valid := true, data := view[buf[i].blockno])
    {
      assert BufInv(St(), i);
      buf := buf[i := buf[i].(holder := Some(p))];
      ghost var s1 := St();
      StepKeepsInv(old(St()), Acquire(p, i), s1);
      assert BufInv(s1, i);
      if !buf[i].valid {
        Iderw(p, i);
        StepKeepsInv(s1, Fill(p, i), St());
        assert BufInv(St(), i);
      }
    }

    /** The holder changes the data of its buffer. */
    method Edit(p: Pid, i: nat, data: Block)
      requires Valid() && Holds(St(), p, i) && buf[i].valid
      modifies this`buf, this`editing
      ensures Valid() && St() == EditTo(old(St()), i, data)
    {
      buf := buf[i := buf[i].(data := data)];
      editing := editing + {i};
      StepKeepsInv(old(St()), Cache.Edit(p, i, data), St());
    }

    /** bwrite: set B_DIRTY, then iderw. */
    method Bwrite(p: Pid, i: nat)
      requires Valid() && Holds(St(), p, i) && buf[i].valid
      modifies this
      ensures Valid()
      ensures OnDisk(old(St()), i) && old(|view|) == old(|disk|) && St() == BwriteTo(old(St()), i)
      ensures trace == old(trace) + [(buf[i].blockno, buf[i].data)]
    {
      assert BufInv(St(), i);
      buf := buf[i := buf[i].(dirty := true)];
      Iderw(p, i);
      WrittenLast(base, old(trace), (buf[i].blockno, buf[i].data));
      StepKeepsInv(old(St()), Cache.Bwrite(p, i), St());
    }

    /** log_write's effect on the cache: record the block in the log header and pin it. */
    method Pin(p: Pid, i: nat)
      requires Valid() && Holds(St(), p, i) && buf[i].valid
      modifies this`buf, this`view, this`logged, this`editing
      ensures Valid()
      ensures old(buf)[i].blockno < |old(view)| && St() == LogWriteTo(old(St()), i)
    {
      assert BufInv(St(), i);
      view := view[buf[i].blockno := buf[i].data];
      logged := logged + {buf[i].blockno};
      editing := editing - {i};
      buf := buf[i := buf[i].(dirty := true)];
      StepKeepsInv(old(St()), Cache.LogWrite(p, i), St());
    }

    /** Clearing the in-memory header once every logged block is installed. */
    ghost method Forget()
      requires Valid() && forall i :: 0 <= i < |buf| ==> !buf[i].dirty
      modifies this`logged
      ensures Valid() && St() == old(St()).(logged := {})
    {
      logged := {};
      StepKeepsInv(old(St()), Cache.ForgetLog, St());
    }

    /** The pointer updates of brelse. */
    method ToFront(i: nat)
      requires Ring(order, next, prev, |buf|) && |order| == |buf| && i < |buf|
      modifies this`next, this`prev, this`order
      ensures Ring(order, next, prev, |buf|)
      ensures order == [i] + Without(old(order), i)
    {
      Pigeonhole(order, i);
      ghost var k :| 0 <= k < |order| && order[k] == i;
      WithoutIs(order, i, k);
      Unlink(order, next, prev, |buf|, k);
      var nb, pb := next[i], prev[i];
      prev := prev[nb := pb];
      next := next[pb := nb];
      order := order[..k] + order[k + 1..];
      LinkFront(order, next, prev, |buf|, i);
      var first := next[|buf|];
      next := next[i := first];
      prev := prev[i := |buf|];
      prev := prev[first := i];
      next := next[|buf| := i];
      order := [i] + order;
    }

    /** brelse: release the lock, drop the reference, and move an unreferenced buffer to the
        front of the list. */
    method Brelse(p: Pid, i: nat)
      requires Valid() && Holds(St(), p, i) && i !in editing
      modifies this
      ensures Valid() && |buf| == old(|buf|)
      ensures old(buf)[i].refcnt > 0 && St() == PutTo(SetHolder(old(St()), i, None), p, i)
      ensures trace == old(trace)
    {
      assert BufInv(St(), i);
      buf := buf[i := buf[i].(holder := None)];
      ghost var s1 := St();
      StepKeepsInv(old(St()), Release(p, i), s1);
      assert p in buf[i].refs;
      buf := buf[i := buf[i].(refcnt := buf[i].refcnt - 1, refs := buf[i].refs - {p})];
      if buf[i].refcnt == 0 {
        ToFront(i);
      }
      StepKeepsInv(s1, Put(p, i), St());
    }
  }

  lemma WrittenLast(d: Disk, ws: seq<Write>, w: Write)
    requires w.0 < |d|
    ensures Apply(d, ws + [w]) == Apply(d, ws)[w.0 := w.1]
  {
    assert (ws + [w])[..|ws|] == ws;
  }

  lemma Unheld(s: State, i: nat, dev: nat, blockno: nat)
    requires Inv(s) && i < |s.buf|
    requires forall j :: 0 <= j < |s.buf| && Tagged(s.buf[j], dev, blockno) ==> s.buf[j].holder == None
    requires Tagged(s.buf[i], dev, blockno) || Recyclable(s.buf[i])
    ensures s.buf[i].holder == None
  {
    assert BufInv(s, i);
  }
}
