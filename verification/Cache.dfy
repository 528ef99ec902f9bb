/** The buffer cache of bio.c as a step machine: every critical section of bcache.lock, every
    acquire and release of a buffer's sleep-lock and every disk transfer is one step, taken by
    any process in any order.

    `view` is a history variable: for each disk block, the contents that the latest log_write
    or bwrite gave it.  The theorems say that the cache never shows anything else. */
module Cache {
  import opened Counting
  import opened Options
  import opened Writes

  type Pid = nat

  datatype Buf = Buf(
    dev: nat,
    blockno: nat,
    valid: bool,             // B_VALID
    dirty: bool,             // B_DIRTY
    refcnt: nat,
    refs: set<Pid>,          // processes between bget and the end of brelse
    holder: Option<Pid>,     // of the sleep-lock
    data: Block)

  datatype State = State(
    buf: seq<Buf>,
    order: seq<nat>,         // the list from head.next to head.prev
    disk: seq<Block>,
    view: seq<Block>,
    logged: set<nat>,        // the block numbers in lh.block
    editing: set<nat>)       // buffers whose holder changed data and has not yet logged or written it

  datatype Action =
    | GetHit(p: Pid, i: nat, dev: nat, blockno: nat)
    | GetMiss(p: Pid, i: nat, dev: nat, blockno: nat)
    | Acquire(p: Pid, i: nat)
    | Fill(p: Pid, i: nat)
    | Edit(p: Pid, i: nat, data: Block)
    | LogWrite(p: Pid, i: nat)
    | Bwrite(p: Pid, i: nat)
    | Release(p: Pid, i: nat)
    | Put(p: Pid, i: nat)
    | ForgetLog

  predicate Tagged(b: Buf, dev: nat, blockno: nat) {
    b.dev == dev && b.blockno == blockno
  }

  predicate Recyclable(b: Buf) {
    b.refcnt == 0 && !b.dirty
  }

  predicate Holds(s: State, p: Pid, i: nat) {
    i < |s.buf| && s.buf[i].holder == Some(p)
  }

  /** iderw panics on any other request. */
  predicate OnDisk(s: State, i: nat)
    requires i < |s.buf|
  {
    s.buf[i].dev == 1 && s.buf[i].blockno < |s.disk|
  }

  predicate Cached(s: State, dev: nat, blockno: nat) {
    exists j :: 0 <= j < |s.buf| && Tagged(s.buf[j], dev, blockno)
  }

  /** The position from the tail at which bget stops: everything less recently used is in use. */
  predicate LeastRecent(s: State, i: nat) {
    exists k :: 0 <= k < |s.order| && s.order[k] == i &&
      forall j :: k < j < |s.order| && s.order[j] < |s.buf| ==> !Recyclable(s.buf[s.order[j]])
  }

  function Without(order: seq<nat>, i: nat): seq<nat> {
    if |order| == 0 then []
    else if order[0] == i then order[1..]
    else [order[0]] + Without(order[1..], i)
  }

  function GetHitTo(s: State, p: Pid, i: nat): State
    requires i < |s.buf|
  {
    var b := s.buf[i];
    s.(buf := s.buf[i := b.(refcnt := b.refcnt + 1, refs := b.refs + {p})])
  }

  function GetMissTo(s: State, p: Pid, i: nat, dev: nat, blockno: nat): State
    requires i < |s.buf|
  {
    var b := s.buf[i];
    s.(buf := s.buf[i := b.(dev := dev, blockno := blockno, valid := false, dirty := false,
                            refcnt := 1, refs := {p})])
  }

  function SetHolder(s: State, i: nat, h: Option<Pid>): State
    requires i < |s.buf|
  {
    s.(buf := s.buf[i := s.buf[i].(holder := h)])
  }

  function FillTo(s: State, i: nat): State
    requires i < |s.buf| && OnDisk(s, i)
  {
    s.(buf := s.buf[i := s.buf[i].(data := s.disk[s.buf[i].blockno], valid := true)])
  }

  function EditTo(s: State, i: nat, data: Block): State
    requires i < |s.buf|
  {
    s.(buf := s.buf[i := s.buf[i].(data := data)], editing := s.editing + {i})
  }

  function LogWriteTo(s: State, i: nat): State
    requires i < |s.buf| && s.buf[i].blockno < |s.view|
  {
    var b := s.buf[i];
    s.(buf := s.buf[i := b.(dirty := true)], logged := s.logged + {b.blockno},
       view := s.view[b.blockno := b.data], editing := s.editing - {i})
  }

  function BwriteTo(s: State, i: nat): State
    requires i < |s.buf| && OnDisk(s, i) && |s.view| == |s.disk|
  {
    var b := s.buf[i];
    s.(buf := s.buf[i := b.(dirty := false, valid := true)], disk := s.disk[b.blockno := b.data],
       view := s.view[b.blockno := b.data], editing := s.editing - {i})
  }

  function PutTo(s: State, p: Pid, i: nat): State
    requires i < |s.buf| && s.buf[i].refcnt > 0
  {
    var b := s.buf[i];
    s.(buf := s.buf[i := b.(refcnt := b.refcnt - 1, refs := b.refs - {p})],
       order := if b.refcnt == 1 then [i] + Without(s.order, i) else s.order)
  }

  /** A step, taken by process `p` under the discipline bio.c asks of its callers: a buffer is
      used only between bget and brelse, changed only under its lock, and logged or written
      before the lock is released. */
  predicate Next(s: State, a: Action, t: State) {
    match a
    case GetHit(p, i, dev, bn) =>
      i < |s.buf| && Tagged(s.buf[i], dev, bn) && p !in s.buf[i].refs && t == GetHitTo(s, p, i)
    case GetMiss(p, i, dev, bn) =>
      i < |s.buf| && !Cached(s, dev, bn) && Recyclable(s.buf[i]) && LeastRecent(s, i) &&
      t == GetMissTo(s, p, i, dev, bn)
    case Acquire(p, i) =>
      i < |s.buf| && p in s.buf[i].refs && s.buf[i].holder == None && t == SetHolder(s, i, Some(p))
    case Fill(p, i) =>
      Holds(s, p, i) && !s.buf[i].valid && OnDisk(s, i) && t == FillTo(s, i)
    case Edit(p, i, data) =>
      Holds(s, p, i) && s.buf[i].valid && t == EditTo(s, i, data)
    case LogWrite(p, i) =>
      Holds(s, p, i) && s.buf[i].valid && s.buf[i].blockno < |s.view| && t == LogWriteTo(s, i)
    case Bwrite(p, i) =>
      Holds(s, p, i) && s.buf[i].valid && OnDisk(s, i) && |s.view| == |s.disk| && t == BwriteTo(s, i)
    case Release(p, i) =>
      Holds(s, p, i) && i !in s.editing && t == SetHolder(s, i, None)
    case Put(p, i) =>
      i < |s.buf| && p in s.buf[i].refs && s.buf[i].holder != Some(p) && s.buf[i].refcnt > 0 &&
      t == PutTo(s, p, i)
    case ForgetLog =>
      (forall i :: 0 <= i < |s.buf| ==> !s.buf[i].dirty) && t == s.(logged := {})
  }

  ghost predicate CanStep(s: State, t: State) {
    exists a :: Next(s, a, t)
  }

  /** binit: every buffer is left on device 0, block 0, in the reverse of array order. */
  function Init(nbuf: nat, disk: seq<Block>): State {
    State(seq(nbuf, i => Buf(0, 0, false, false, 0, {}, None, [])),
          seq(nbuf, i requires 0 <= i < nbuf => nbuf - 1 - i), disk, disk, {}, {})
  }

  ghost predicate IsRun(nbuf: nat, disk: seq<Block>, run: seq<State>) {
    && |run| > 0 && run[0] == Init(nbuf, disk)
    && forall i :: 0 <= i < |run| - 1 ==> CanStep(run[i], run[i + 1])
  }

  // ----- the invariant

  ghost predicate ListInv(s: State) {
    && |s.order| == |s.buf|
    && (forall k :: 0 <= k < |s.order| ==> s.order[k] < |s.buf|)
    && (NoRepeats(s.order))
  }

  /** At most one buffer per block, except for the (0, 0) that binit leaves everywhere. */
  ghost predicate UniqueInv(s: State) {
    forall i, j :: 0 <= i < j < |s.buf| && s.buf[i].dev != 0 ==>
      !(s.buf[i].dev == s.buf[j].dev && s.buf[i].blockno == s.buf[j].blockno)
  }

  ghost predicate BufInv(s: State, i: nat)
    requires i < |s.buf|
  {
    var b := s.buf[i];
    && b.refcnt == |b.refs|
    && (b.holder.Some? ==> b.holder.value in b.refs)
    && (b.valid ==> OnDisk(s, i))
    && (b.valid && i !in s.editing && b.blockno < |s.view| ==> b.data == s.view[b.blockno])
    && (b.dirty ==> b.valid && b.blockno in s.logged)
    && (i in s.editing ==> b.valid && b.holder.Some?)
  }

  predicate PinnedIn(s: State, blockno: nat) {
    exists i :: 0 <= i < |s.buf| && s.buf[i].dirty && s.buf[i].blockno == blockno
  }

  ghost predicate DiskInv(s: State) {
    && |s.view| == |s.disk|
    && forall b :: 0 <= b < |s.disk| && !PinnedIn(s, b) ==> s.disk[b] == s.view[b]
  }

  ghost predicate Inv(s: State) {
    && ListInv(s)
    && UniqueInv(s)
    && (forall i: nat :: i < |s.buf| ==> BufInv(s, i))
    && DiskInv(s)
  }

  lemma InitInv(nbuf: nat, disk: seq<Block>)
    ensures Inv(Init(nbuf, disk))
  {
  }

  lemma {:induction false} WithoutIs(order: seq<nat>, i: nat, k: nat)
    requires k < |order| && order[k] == i
    requires forall j :: 0 <= j < k ==> order[j] != i
    ensures Without(order, i) == order[..k] + order[k + 1..]
  {
    if order[0] != i {
      WithoutIs(order[1..], i, k - 1);
      assert order[1..][..k - 1] == order[1..k] && order[1..][k..] == order[k + 1..];
      assert [order[0]] + order[1..k] == order[..k];
    } else {
      assert k == 0;
    }
  }

  // ----- each step keeps the invariant

  /** A step that changes one buffer and nothing on disk. */
  lemma FrameBuf(s: State, t: State, i: nat)
    requires Inv(s) && i < |s.buf| && |t.buf| == |s.buf|
    requires t.disk == s.disk && t.view == s.view && t.logged == s.logged
    requires forall j :: 0 <= j < |s.buf| && j != i ==> t.buf[j] == s.buf[j]
    requires forall j :: j != i ==> (j in t.editing <==> j in s.editing)
    requires BufInv(t, i) && ListInv(t)
    requires t.buf[i].dirty == s.buf[i].dirty
    requires t.buf[i].blockno == s.buf[i].blockno && t.buf[i].dev == s.buf[i].dev
    ensures Inv(t)
  {
    forall j: nat | j < |t.buf| ensures BufInv(t, j) {
      assert BufInv(s, j);
    }
    forall b | 0 <= b < |t.disk| ensures PinnedIn(t, b) || t.disk[b] == t.view[b] {
      if PinnedIn(s, b) {
        var k :| 0 <= k < |s.buf| && s.buf[k].dirty && s.buf[k].blockno == b;
        assert t.buf[k].dirty && t.buf[k].blockno == b;
      }
    }
  }

  lemma MissKeepsInv(s: State, p: Pid, i: nat, dev: nat, bn: nat, t: State)
    requires Inv(s) && Next(s, GetMiss(p, i, dev, bn), t)
    ensures Inv(t)
  {
    assert BufInv(s, i);
    forall j: nat | j < |t.buf| ensures BufInv(t, j) {
      assert BufInv(s, j);
    }
    forall b | 0 <= b < |t.disk| ensures PinnedIn(t, b) || t.disk[b] == t.view[b] {
      if PinnedIn(s, b) {
        var k :| 0 <= k < |s.buf| && s.buf[k].dirty && s.buf[k].blockno == b;
        assert t.buf[k].dirty && t.buf[k].blockno == b;
      }
    }
  }

  /** log_write and bwrite: one buffer and the contents of its block change. */
  lemma WriteKeepsInv(s: State, i: nat, t: State)
    requires Inv(s) && i < |s.buf| && s.buf[i].valid && s.buf[i].holder.Some?
    requires s.buf[i].blockno < |s.view|
    requires t == LogWriteTo(s, i) || (OnDisk(s, i) && t == BwriteTo(s, i))
    ensures Inv(t)
  {
    assert BufInv(s, i);
    forall j: nat | j < |t.buf| ensures BufInv(t, j) {
      assert BufInv(s, j);
      if j < i || i < j {
        assert t.buf[j] == s.buf[j];
        if s.buf[j].valid {
          assert s.buf[j].blockno != s.buf[i].blockno;
        }
      }
    }
    forall b | 0 <= b < |t.disk| ensures PinnedIn(t, b) || t.disk[b] == t.view[b] {
      if b == s.buf[i].blockno {
        assert t.buf[i].blockno == b;
      } else if PinnedIn(s, b) {
        var k :| 0 <= k < |s.buf| && s.buf[k].dirty && s.buf[k].blockno == b;
        assert t.buf[k] == s.buf[k];
      }
    }
  }

  lemma MoveToFront(order: seq<nat>, k: nat)
    requires k < |order|
    requires forall j, l :: 0 <= j < l < |order| ==> order[j] != order[l]
    ensures var moved := [order[k]] + (order[..k] + order[k + 1..]);
            && |moved| == |order|
            && (forall j, l :: 0 <= j < l < |moved| ==> moved[j] != moved[l])
            && (forall j :: 0 <= j < |moved| ==> moved[j] in order)
  {
    var moved := [order[k]] + (order[..k] + order[k + 1..]);
    forall j | 0 <= j < |moved| ensures moved[j] == order[if j == 0 then k else if j <= k then j - 1 else j] {
    }
  }

  lemma PutKeepsInv(s: State, p: Pid, i: nat, t: State)
    requires Inv(s) && Next(s, Put(p, i), t)
    ensures Inv(t)
  {
    assert BufInv(s, i);
    Pigeonhole(s.order, i);
    var k :| 0 <= k < |s.order| && s.order[k] == i;
    WithoutIs(s.order, i, k);
    if s.buf[i].refcnt == 1 {
      MoveToFront(s.order, k);
    }
    FrameBuf(s, t, i);
  }

  lemma CleanNotPinned(s: State, i: nat)
    requires Inv(s) && i < |s.buf| && OnDisk(s, i) && !s.buf[i].dirty
    ensures !PinnedIn(s, s.buf[i].blockno)
  {
    forall j | 0 <= j < |s.buf| && s.buf[j].dirty ensures s.buf[j].blockno != s.buf[i].blockno {
      assert BufInv(s, j);
      assert j < i || i < j;
    }
  }

  lemma StepKeepsInv(s: State, a: Action, t: State)
    requires Inv(s) && Next(s, a, t)
    ensures Inv(t)
  {
    match a
    case GetHit(p, i, dev, bn) => assert BufInv(s, i); FrameBuf(s, t, i);
    case GetMiss(p, i, dev, bn) => MissKeepsInv(s, p, i, dev, bn, t);
    case Acquire(p, i) => assert BufInv(s, i); FrameBuf(s, t, i);
    case Fill(p, i) => FillKeepsInv(s, p, i, t);
    case Edit(p, i, data) => assert BufInv(s, i); FrameBuf(s, t, i);
    case LogWrite(p, i) => WriteKeepsInv(s, i, t);
    case Bwrite(p, i) => WriteKeepsInv(s, i, t);
    case Release(p, i) => assert BufInv(s, i); FrameBuf(s, t, i);
    case Put(p, i) => PutKeepsInv(s, p, i, t);
    case ForgetLog =>
      forall j: nat | j < |t.buf| ensures BufInv(t, j) { assert BufInv(s, j); }
      assert forall b :: PinnedIn(t, b) == PinnedIn(s, b);
  }

  lemma FillKeepsInv(s: State, p: Pid, i: nat, t: State)
    requires Inv(s) && Next(s, Fill(p, i), t)
    ensures Inv(t)
  {
    assert BufInv(s, i);
    CleanNotPinned(s, i);
    FrameBuf(s, t, i);
  }

  lemma {:induction false} RunInv(nbuf: nat, disk: seq<Block>, run: seq<State>, k: nat)
    requires IsRun(nbuf, disk, run) && k < |run|
    ensures Inv(run[k])
  {
    if k == 0 {
      InitInv(nbuf, disk);
    } else {
      RunInv(nbuf, disk, run, k - 1);
      assert CanStep(run[k - 1], run[k - 1 + 1]);
      var a :| Next(run[k - 1], a, run[k]);
      StepKeepsInv(run[k - 1], a, run[k]);
    }
  }

  // ----- what every reachable state of every run satisfies

  /** The disk overlaid with the pinned (uncommitted) buffers. */
  ghost function Overlay(s: State, b: nat): Block
    requires b < |s.disk|
  {
    if PinnedIn(s, b) then
      var i :| 0 <= i < |s.buf| && s.buf[i].dirty && s.buf[i].blockno == b;
      s.buf[i].data
    else s.disk[b]
  }

  /** The view is that overlay, block by block, wherever nobody is changing the block's buffer. */
  lemma ViewIsOverlay(s: State, b: nat)
    requires Inv(s) && b < |s.disk|
    requires forall i :: i in s.editing && i < |s.buf| ==> s.buf[i].blockno != b
    ensures |s.view| == |s.disk| && Overlay(s, b) == s.view[b]
  {
    if PinnedIn(s, b) {
      forall i: nat | i < |s.buf| && s.buf[i].dirty && s.buf[i].blockno == b ensures s.buf[i].data == s.view[b] {
        assert BufInv(s, i);
      }
    }
  }

  /** Transparency: bread's result is the view, which is the disk overlaid with uncommitted
      writes; a clean buffer that nobody is changing equals its disk block; a pinned one is in
      the log header; and no block other than (0, 0) is cached twice. */
  lemma Transparency(nbuf: nat, disk: seq<Block>, run: seq<State>, k: nat)
    requires IsRun(nbuf, disk, run) && k < |run|
    ensures var s := run[k];
      && |s.view| == |s.disk|
      && (forall i :: 0 <= i < |s.buf| && s.buf[i].valid && i !in s.editing ==>
            s.buf[i].blockno < |s.view| && s.buf[i].data == s.view[s.buf[i].blockno])
      && (forall i :: 0 <= i < |s.buf| && s.buf[i].valid && !s.buf[i].dirty && i !in s.editing ==>
            s.buf[i].blockno < |s.disk| && s.buf[i].data == s.disk[s.buf[i].blockno])
      && (forall i :: 0 <= i < |s.buf| && s.buf[i].dirty ==> s.buf[i].blockno in s.logged)
      && (forall b: nat :: b < |s.disk| && (forall i :: i in s.editing && i < |s.buf| ==> s.buf[i].blockno != b) ==>
            Overlay(s, b) == s.view[b])
      && UniqueInv(s)
      && |s.order| == |s.buf| && forall i :: 0 <= i < |s.buf| ==> i in s.order
  {
    var s := run[k];
    RunInv(nbuf, disk, run, k);
    forall i | 0 <= i < |s.buf| && s.buf[i].valid && i !in s.editing
      ensures s.buf[i].blockno < |s.view| && s.buf[i].data == s.view[s.buf[i].blockno]
    {
      assert BufInv(s, i);
    }
    forall i | 0 <= i < |s.buf| && s.buf[i].dirty
      ensures s.buf[i].blockno in s.logged && s.buf[i].valid
    {
      assert BufInv(s, i);
    }
    forall i | 0 <= i < |s.buf| && s.buf[i].valid && !s.buf[i].dirty && i !in s.editing
      ensures s.buf[i].blockno < |s.disk| && s.buf[i].data == s.disk[s.buf[i].blockno]
    {
      CleanIsDisk(s, i);
    }
    forall i | 0 <= i < |s.buf| ensures i in s.order {
      Pigeonhole(s.order, i);
    }
    forall b: nat | b < |s.disk| && forall i :: i in s.editing && i < |s.buf| ==> s.buf[i].blockno != b
      ensures Overlay(s, b) == s.view[b]
    {
      ViewIsOverlay(s, b);
    }
  }

  lemma CleanIsDisk(s: State, i: nat)
    requires Inv(s) && i < |s.buf| && s.buf[i].valid && !s.buf[i].dirty && i !in s.editing
    ensures s.buf[i].blockno < |s.disk| && s.buf[i].data == s.disk[s.buf[i].blockno]
  {
    assert BufInv(s, i);
    CleanNotPinned(s, i);
  }

  /** Pinning: from a log_write on, the block stays in the same buffer, dirty and unrecycled,
      and its home block on disk is untouched, until some process calls bwrite on it. */
  lemma {:induction false} PinnedUntilWritten(s: State, a: Action, t: State, i: nat)
    requires Inv(s) && Next(s, a, t)
    requires i < |s.buf| && s.buf[i].dirty
    requires forall p :: a != Bwrite(p, i)
    ensures i < |t.buf| && t.buf[i].dirty && t.buf[i].dev == s.buf[i].dev
    ensures t.buf[i].blockno == s.buf[i].blockno
    ensures s.buf[i].blockno < |s.disk| && |t.disk| == |s.disk|
    ensures t.disk[s.buf[i].blockno] == s.disk[s.buf[i].blockno]
  {
    assert BufInv(s, i);
    if a.Bwrite? && a.i != i {
      assert BufInv(s, a.i);
      assert s.buf[a.i].blockno != s.buf[i].blockno;
    }
  }

  /** What another process does never disturbs a buffer that `p` holds: its tag, its flags and
      its data stay as `p` left them, so a bread stays good until the matching brelse. */
  lemma HeldIsStable(s: State, a: Action, t: State, p: Pid, i: nat)
    requires Inv(s) && Next(s, a, t) && Holds(s, p, i)
    requires a.ForgetLog? || a.p != p
    ensures Holds(t, p, i) && t.buf[i].data == s.buf[i].data
    ensures t.buf[i].valid == s.buf[i].valid && t.buf[i].dirty == s.buf[i].dirty
    ensures t.buf[i].dev == s.buf[i].dev && t.buf[i].blockno == s.buf[i].blockno
    ensures s.buf[i].valid ==> s.buf[i].blockno < |s.view| && |t.view| == |s.view| &&
                               t.view[s.buf[i].blockno] == s.view[s.buf[i].blockno]
  {
    assert BufInv(s, i);
    if a.LogWrite? || a.Bwrite? {
      assert BufInv(s, a.i);
      assert a.i != i;
      if s.buf[i].valid {
        assert s.buf[a.i].blockno != s.buf[i].blockno;
      }
    }
  }

  // ----- which buffer is recycled

  /** The last step of the run, up to state k, after which nobody referred to buffer i any more. */
  function LastUse(run: seq<State>, k: nat, i: nat): (r: nat)
    requires k < |run|
    ensures r <= k
  {
    if k == 0 then 0
    else if i < |run[k - 1].buf| == |run[k].buf| && run[k - 1].buf[i].refcnt > 0 && run[k].buf[i].refcnt == 0 then k
    else LastUse(run, k - 1, i)
  }

  function Uses(run: seq<State>, k: nat): (r: seq<nat>)
    requires k < |run|
    ensures |r| == |run[k].buf| && forall i: nat :: i < |r| ==> r[i] == LastUse(run, k, i)
  {
    seq(|run[k].buf|, i requires 0 <= i => LastUse(run, k, i))
  }

  /** Listed by falling keys. */
  ghost predicate ByKey(order: seq<nat>, key: seq<nat>) {
    && (forall a :: 0 <= a < |order| ==> order[a] < |key|)
    && forall a, b :: 0 <= a < b < |order| ==> key[order[a]] >= key[order[b]]
  }

  /** The list is in the order of last use, latest first. */
  ghost predicate RecentFirst(run: seq<State>, k: nat)
    requires k < |run|
  {
    ByKey(run[k].order, Uses(run, k))
  }

  /** Moving an entry to the front is right when its key has become the largest. */
  lemma MovedByKey(order: seq<nat>, m: nat, key: seq<nat>, key': seq<nat>)
    requires ByKey(order, key) && NoRepeats(order) && m < |order| && |key'| == |key|
    requires forall j :: 0 <= j < |key| && j != order[m] ==> key'[j] == key[j]
    requires forall j :: 0 <= j < |key| ==> key'[order[m]] >= key'[j]
    ensures ByKey([order[m]] + (order[..m] + order[m + 1..]), key')
  {
    var moved := [order[m]] + (order[..m] + order[m + 1..]);
    forall a | 0 <= a < |moved| ensures moved[a] == order[if a == 0 then m else if a <= m then a - 1 else a] {
    }
    forall a, b | 0 <= a < b < |moved| ensures key'[moved[a]] >= key'[moved[b]] {
      var b' := if b <= m then b - 1 else b;
      assert order[b'] != order[m];
      if a > 0 {
        var a' := if a <= m then a - 1 else a;
        assert order[a'] != order[m];
      }
    }
  }

  lemma PutRecent(run: seq<State>, k: nat, p: Pid, i: nat)
    requires 0 < k < |run| && Inv(run[k - 1]) && Next(run[k - 1], Put(p, i), run[k]) && run[k - 1].buf[i].refcnt == 1
    requires RecentFirst(run, k - 1)
    ensures RecentFirst(run, k)
  {
    hide ByKey, NoRepeats, BufInv, UniqueInv, DiskInv;
    var s, t := run[k - 1], run[k];
    Pigeonhole(s.order, i);
    var m: nat :| m < |s.order| && s.order[m] == i;
    OnlyOnce(s.order, i, m);
    WithoutIs(s.order, i, m);
    MovedByKey(s.order, m, Uses(run, k - 1), Uses(run, k));
  }

  lemma OnlyOnce(order: seq<nat>, i: nat, m: nat)
    requires NoRepeats(order) && m < |order| && order[m] == i
    ensures forall j :: 0 <= j < m ==> order[j] != i
  {
  }

  lemma OtherRecent(run: seq<State>, k: nat, a: Action)
    requires 0 < k < |run| && Inv(run[k - 1]) && Next(run[k - 1], a, run[k]) && RecentFirst(run, k - 1)
    requires a.Put? ==> a.i < |run[k - 1].buf| && run[k - 1].buf[a.i].refcnt != 1
    ensures RecentFirst(run, k)
  {
    hide ByKey, NoRepeats, BufInv, UniqueInv, DiskInv;
    assert run[k].order == run[k - 1].order;
    assert Uses(run, k) == Uses(run, k - 1);
  }

  lemma {:induction false} OrderIsRecency(nbuf: nat, disk: seq<Block>, run: seq<State>, k: nat)
    requires IsRun(nbuf, disk, run) && k < |run|
    ensures RecentFirst(run, k)
  {
    hide Inv, Next;
    if k > 0 {
      OrderIsRecency(nbuf, disk, run, k - 1);
      RunInv(nbuf, disk, run, k - 1);
      assert CanStep(run[k - 1], run[k - 1 + 1]);
      var a :| Next(run[k - 1], a, run[k]);
      PutTakes(run[k - 1], a, run[k]);
      if a.Put? && run[k - 1].buf[a.i].refcnt == 1 {
        PutRecent(run, k, a.p, a.i);
      } else {
        OtherRecent(run, k, a);
      }
    }
  }

  lemma PutTakes(s: State, a: Action, t: State)
    requires Next(s, a, t)
    ensures a.Put? ==> a.i < |s.buf|
  {
  }

  /** In every run, the buffer that bget recycles for a new block is the one that was out of use longest
      among all that could be recycled. */
  lemma RecyclesOldest(nbuf: nat, disk: seq<Block>, run: seq<State>, k: nat, p: Pid, i: nat, dev: nat, bn: nat, j: nat)
    requires IsRun(nbuf, disk, run) && k + 1 < |run| && Next(run[k], GetMiss(p, i, dev, bn), run[k + 1])
    requires j < |run[k].buf| && Recyclable(run[k].buf[j])
    ensures LastUse(run, k, i) <= LastUse(run, k, j)
  {
    hide NoRepeats, BufInv, UniqueInv, DiskInv;
    RunInv(nbuf, disk, run, k);
    OrderIsRecency(nbuf, disk, run, k);
    OldestFits(run[k], i, j, Uses(run, k));
  }

  lemma OldestFits(s: State, i: nat, j: nat, key: seq<nat>)
    requires ListInv(s) && LeastRecent(s, i) && j < |s.buf| && Recyclable(s.buf[j]) && ByKey(s.order, key) && |key| == |s.buf|
    ensures i < |key| && key[i] <= key[j]
  {
    Pigeonhole(s.order, j);
    var x :| 0 <= x < |s.order| && s.order[x] == j;
    var m :| 0 <= m < |s.order| && s.order[m] == i && forall y :: m < y < |s.order| && s.order[y] < |s.buf| ==> !Recyclable(s.buf[s.order[y]]);
    assert x <= m;
  }
}
