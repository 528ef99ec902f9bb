/** log.c's block-moving code over the buffer cache: write_log, write_head, install_trans,
    read_head, recover_from_log, commit and log_write.  The methods are proved to issue exactly
    the disk writes that module Recovery reasons about, so its crash theorems apply to them.

    A panic ("bget: no buffers") stops the machine; the methods then return false, having
    issued a prefix of those writes.  It happens only when no buffer can be recycled, and never
    when two could be at the start. */
module Log {
  import opened Bio
  import opened Cache
  import opened Counting
  import GroupCommit
  import opened Options
  import opened Recovery
  import opened Writes

  /** Only blocks in `blocks` are pinned. */
  ghost predicate PinnedWithin(st: State, blocks: seq<nat>) {
    forall j :: 0 <= j < |st.buf| && st.buf[j].dirty ==> st.buf[j].blockno in blocks
  }

  /** The cache's record of the logged blocks is the header. */
  ghost predicate LoggedAre(st: State, blocks: seq<nat>) {
    forall b :: b in st.logged <==> b in blocks
  }

  /** Only buffers of blocks in `busy` are locked, and `p` refers to none. */
  ghost predicate Quiet(st: State, p: Pid, busy: set<nat>) {
    forall j :: 0 <= j < |st.buf| ==> QuietBuf(st.buf[j], p, busy)
  }

  predicate QuietBuf(b: Buf, p: Pid, busy: set<nat>) {
    p !in b.refs && b.holder != Some(p) && (b.holder.Some? ==> b.dev == 1 && b.blockno in busy)
  }

  predicate Spare(b: Buf) {
    b.refcnt == 0 && !b.dirty
  }

  /** Two buffers can be recycled: as many as the log holds at a time. */
  ghost predicate TwoSpare(s: State) {
    exists i, j :: 0 <= i < j < |s.buf| && Spare(s.buf[i]) && Spare(s.buf[j])
  }

  /** A buffer that could be recycled still can. */
  ghost predicate SpareKept(s: State, t: State) {
    |t.buf| == |s.buf| && forall k :: 0 <= k < |s.buf| && Spare(s.buf[k]) ==> Spare(t.buf[k])
  }

  lemma StillTwo(s: State, t: State)
    requires SpareKept(s, t) && TwoSpare(s)
    ensures TwoSpare(t)
  {
    var i, j :| 0 <= i < j < |s.buf| && Spare(s.buf[i]) && Spare(s.buf[j]);
    assert Spare(t.buf[i]) && Spare(t.buf[j]);
  }

  lemma NotTwoBefore(s: State, t: State)
    requires SpareKept(s, t) && !TwoSpare(t)
    ensures !TwoSpare(s)
  {
    if TwoSpare(s) {
      StillTwo(s, t);
    }
  }

  /** One buffer was taken, and then there was none left. */
  lemma TookTheLast(s0: State, s1: State, p: Pid, i: nat, b: nat)
    requires ReadInto(s0, s1, p, i, b) && NoneSpare(s1)
    ensures !TwoSpare(s0)
  {
  }

  /** What one copy through the cache does: it writes `data` to block `to` and unpins it. */
  ghost predicate Copied(s: State, t: State, to: nat, data: Block) {
    && to < |s.disk| && |s.view| == |s.disk|
    && t.disk == s.disk[to := data] && t.view == s.view[to := data]
    && t.logged == s.logged && t.editing == s.editing
    && |t.buf| == |s.buf|
    && forall j :: 0 <= j < |t.buf| && t.buf[j].dirty ==>
         s.buf[j].dirty && s.buf[j].blockno == t.buf[j].blockno != to
  }

  /** Process `p` has read block `b` into buffer `i` and block `c` into buffer `j`. */
  ghost predicate BothRead(s0: State, s2: State, p: Pid, busy: set<nat>, i: nat, b: nat, j: nat, c: nat) {
    && i != j && Holds(s2, p, i) && Holds(s2, p, j)
    && s2.buf[i].valid && s2.buf[j].valid && OnDisk(s2, i) && OnDisk(s2, j)
    && s2.buf[i].blockno == b < |s0.view| && s2.buf[j].blockno == c < |s0.view|
    && s2.buf[i].data == s0.view[b] && s2.buf[j].data == s0.view[c]
    && OthersQuiet(s2, p, busy, i, j)
    && s2.disk == s0.disk && s2.view == s0.view && s2.logged == s0.logged && s2.editing == s0.editing
    && |s2.buf| == |s0.buf|
    && (forall k :: 0 <= k < |s2.buf| && s2.buf[k].dirty ==> s0.buf[k].dirty && s0.buf[k].blockno == s2.buf[k].blockno)
    && forall k :: 0 <= k < |s2.buf| ==> s2.buf[k].refcnt == s0.buf[k].refcnt + if k == i || k == j then 1 else 0
  }

  ghost predicate OthersQuiet(s: State, p: Pid, busy: set<nat>, i: nat, j: nat) {
    forall k :: 0 <= k < |s.buf| && k != i && k != j ==> QuietBuf(s.buf[k], p, busy)
  }

  lemma CopySteps(s0: State, s1: State, s2: State, p: Pid, busy: set<nat>, i: nat, b: nat, j: nat, c: nat)
    requires Inv(s0) && Inv(s1) && Inv(s2) && Quiet(s0, p, busy) && s0.editing == {}
    requires ReadInto(s0, s1, p, i, b) && ReadInto(s1, s2, p, j, c) && b != c
    ensures BothRead(s0, s2, p, busy, i, b, j, c)
  {
    assert BufInv(s2, i) && BufInv(s2, j);
  }

  lemma CopiedFrom(s0: State, s2: State, t: State, p: Pid, busy: set<nat>, to: nat, b: nat, from: nat, c: nat)
    requires BothRead(s0, s2, p, busy, to, b, from, c) || BothRead(s0, s2, p, busy, from, c, to, b)
    requires Copied(s2, t, s2.buf[to].blockno, s2.buf[from].data) && Released(s2, t, to, from)
    ensures Copied(s0, t, b, s0.view[c]) && SpareKept(s0, t)
  {
  }

  /** The references to the two buffers have been given up. */
  ghost predicate Released(s: State, t: State, i: nat, j: nat) {
    |t.buf| == |s.buf| && forall k :: 0 <= k < |s.buf| ==> t.buf[k].refcnt + (if k == i || k == j then 1 else 0) == s.buf[k].refcnt
  }

  lemma FreeToRead(s0: State, s1: State, p: Pid, busy: set<nat>, i: nat, b: nat, c: nat)
    requires Quiet(s0, p, busy) && ReadInto(s0, s1, p, i, b) && b != c && c !in busy
    ensures forall j :: 0 <= j < |s1.buf| && Tagged(s1.buf[j], 1, c) ==> p !in s1.buf[j].refs && s1.buf[j].holder == None
  {
  }

  lemma WriteAndRelease(s2: State, p: Pid, busy: set<nat>, to: nat, from: nat, t: State)
    requires Inv(s2) && s2.editing == {} && to != from && Holds(s2, p, to) && Holds(s2, p, from)
    requires s2.buf[to].valid && s2.buf[from].valid && OnDisk(s2, to)
    requires OthersQuiet(s2, p, busy, to, from)
    requires var s4 := BwriteTo(EditTo(s2, to, s2.buf[from].data), to);
             && s4.buf[from].refcnt > 0
             && (var s5 := PutTo(SetHolder(s4, from, None), p, from);
                 s5.buf[to].refcnt > 0 && t == PutTo(SetHolder(s5, to, None), p, to))
    ensures Quiet(t, p, busy) && Copied(s2, t, s2.buf[to].blockno, s2.buf[from].data) && Released(s2, t, to, from)
  {
    assert BufInv(s2, to) && BufInv(s2, from);
    forall k | 0 <= k < |t.buf| && t.buf[k].dirty ensures t.buf[k].blockno != s2.buf[to].blockno {
      assert BufInv(s2, k);
      assert k < to || to < k;
    }
    assert t.editing == s2.editing;
  }

  lemma HeadSteps(s0: State, s1: State, p: Pid, busy: set<nat>, b: nat, bn: nat, data: Block, t: State)
    requires Inv(s0) && Inv(s1) && Quiet(s0, p, busy) && s0.editing == {} && ReadInto(s0, s1, p, b, bn)
    requires OnDisk(s1, b)
    requires var s3 := BwriteTo(EditTo(s1, b, data), b);
             s3.buf[b].refcnt > 0 && t == PutTo(SetHolder(s3, b, None), p, b)
    ensures Quiet(t, p, busy) && Copied(s0, t, bn, data) && SpareKept(s0, t)
  {
    forall k | 0 <= k < |t.buf| && t.buf[k].dirty ensures t.buf[k].blockno != bn {
      assert BufInv(s1, k) && BufInv(s1, b);
      assert k < b || b < k;
    }
    assert t.editing == s0.editing;
  }

  /** The transaction that the cache holds for the logged blocks. */
  ghost predicate IsTxn(s: State, t: Txn) {
    && |t.blocks| == |t.data| && |s.view| == |s.disk|
    && forall i :: 0 <= i < |t.blocks| ==> t.blocks[i] < |s.view| && t.data[i] == s.view[t.blocks[i]]
  }

  /** The first `k` log blocks hold the transaction's data. */
  ghost predicate SlotsHold(view: Disk, l: Layout, t: Txn, k: nat) {
    && k <= |t.data| && l.start + k < |view|
    && forall i {:trigger t.data[i]} :: 0 <= i < k ==> view[l.start + 1 + i] == t.data[i]
  }

  /** After write_log and the header write: what install_trans starts from. */
  lemma Marked(s0: State, s: State, s': State, p: Pid, busy: set<nat>, l: Layout, t: Txn, h: Block)
    requires |t.data| == |t.blocks| && l.start < |s0.disk|
    requires LogProgress(s0, s, p, busy, l, t, |t.blocks|) && Copied(s, s', l.start, h) && SpareKept(s, s')
    ensures SpareKept(s0, s') && s'.editing == {} && PinnedWithin(s', t.blocks) && |s'.view| == |s'.disk| == |s0.disk|
    ensures s'.view[l.start] == h && SlotsHold(s'.view, l, t, |t.blocks|)
  {
    SlotsAfterMark(s.view, l, t, |t.blocks|, h);
  }

  lemma ReadyToMark(s0: State, s: State, p: Pid, busy: set<nat>, l: Layout, t: Txn)
    requires |t.data| == |t.blocks| && l.start < |s0.disk| && LogProgress(s0, s, p, busy, l, t, |t.blocks|)
    ensures Quiet(s, p, busy) && s.editing == {} && |s.view| == |s.disk| == |s0.disk| == |s0.view|
    ensures s.view[l.start] == s0.view[l.start] && SpareKept(s0, s)
  {
  }

  lemma SlotsAfterMark(view: Disk, l: Layout, t: Txn, k: nat, h: Block)
    requires SlotsHold(view, l, t, k)
    ensures SlotsHold(view[l.start := h], l, t, k)
  {
  }

  /** `k` rounds of write_log have been made since state `s0`. */
  ghost predicate LogProgress(s0: State, s: State, p: Pid, busy: set<nat>, l: Layout, t: Txn, k: nat)
    requires |t.blocks| == |t.data| && k <= |t.blocks|
  {
    && Quiet(s, p, busy) && s.editing == {} && s.logged == s0.logged && SpareKept(s0, s)
    && PinnedWithin(s, t.blocks)
    && |s.view| == |s.disk| == |s0.disk| == |s0.view|
    && (forall b: nat :: b < |s.view| && (!InLog(l, b) || b == l.start) ==> s.view[b] == s0.view[b])
    && SlotsHold(s.view, l, t, k)
  }

  lemma LogStart(s0: State, p: Pid, busy: set<nat>, l: Layout, t: Txn)
    requires Quiet(s0, p, busy) && s0.editing == {} && PinnedWithin(s0, t.blocks)
    requires |s0.view| == |s0.disk| && TxnOk(l, s0.disk, t) && l.start < |s0.disk|
    ensures |t.data| == |t.blocks| && LogProgress(s0, s0, p, busy, l, t, 0)
    ensures InstallProgress(s0, s0, p, busy, l, t, 0)
  {
    hide NoRepeats;
    assert t.blocks[0..] == t.blocks;
  }

  lemma NextLogWrite(s0: State, s: State, p: Pid, busy: set<nat>, l: Layout, t: Txn, k: nat)
    requires TxnOk(l, s0.disk, t) && IsTxn(s0, t) && k < |t.blocks| && LogProgress(s0, s, p, busy, l, t, k)
    ensures |t.data| == |t.blocks| && Quiet(s, p, busy) && s.editing == {} && |s.view| == |s.disk|
    ensures t.blocks[k] < |s.view| && !InLog(l, t.blocks[k])
    ensures LogWrites(l, t)[k] == (l.start + 1 + k, s.view[t.blocks[k]])
    ensures s.view[t.blocks[k]] == t.data[k]
  {
    hide NoRepeats;
  }

  lemma LogRound(s0: State, s: State, s': State, p: Pid, busy: set<nat>, l: Layout, t: Txn, k: nat)
    requires |t.blocks| == |t.data| && k < |t.blocks| && k + 1 < l.size && l.start + l.size <= |s0.disk|
    requires LogProgress(s0, s, p, busy, l, t, k)
    requires Quiet(s', p, busy) && Copied(s, s', l.start + 1 + k, t.data[k]) && SpareKept(s, s')
    ensures LogProgress(s0, s', p, busy, l, t, k + 1)
  {
    hide NoRepeats;
  }

  /** `k` rounds of install_trans have been made since state `s0`. */
  ghost predicate InstallProgress(s0: State, s: State, p: Pid, busy: set<nat>, l: Layout, t: Txn, k: nat)
    requires |t.blocks| == |t.data| && k <= |t.blocks|
  {
    && Quiet(s, p, busy) && s.editing == {} && SpareKept(s0, s)
    && PinnedWithin(s, t.blocks[k..])
    && |s.view| == |s.disk| == |s0.disk| == |s0.view|
    && (forall b: nat :: b < |s.view| && InLog(l, b) ==> s.view[b] == s0.view[b])
  }

  lemma NextInstallWrite(s0: State, s: State, p: Pid, busy: set<nat>, l: Layout, t: Txn, k: nat)
    requires TxnOk(l, s0.disk, t) && k < |t.blocks| && InstallProgress(s0, s, p, busy, l, t, k)
    requires SlotsHold(s0.view, l, t, |t.blocks|)
    ensures |t.data| == |t.blocks| && Quiet(s, p, busy) && s.editing == {} && |s.view| == |s.disk|
    ensures l.start + 1 + k < |s.view| && t.blocks[k] < |s.view| && !InLog(l, t.blocks[k])
    ensures InstallWrites(t)[k] == (t.blocks[k], s.view[l.start + 1 + k])
    ensures s.view[l.start + 1 + k] == t.data[k]
  {
    hide NoRepeats;
    assert InLog(l, l.start + 1 + k);
  }

  lemma InstallRound(s0: State, s: State, s': State, p: Pid, busy: set<nat>, l: Layout, t: Txn, k: nat)
    requires |t.blocks| == |t.data| && k < |t.blocks| && TxnOk(l, s0.disk, t)
    requires InstallProgress(s0, s, p, busy, l, t, k)
    requires Quiet(s', p, busy) && Copied(s, s', t.blocks[k], t.data[k]) && SpareKept(s, s')
    ensures InstallProgress(s0, s', p, busy, l, t, k + 1)
  {
    hide NoRepeats;
    UnpinFirst(s, s', t.blocks, t.data[k], k);
  }

  lemma UnpinFirst(s: State, s': State, blocks: seq<nat>, data: Block, k: nat)
    requires k < |blocks| && PinnedWithin(s, blocks[k..]) && Copied(s, s', blocks[k], data)
    ensures PinnedWithin(s', blocks[k + 1..])
  {
    assert blocks[k..] == [blocks[k]] + blocks[k + 1..];
  }

  /** With nothing pinned the view is the disk. */
  lemma NothingPinned(s: State)
    requires Inv(s) && PinnedWithin(s, [])
    ensures s.view == s.disk
  {
    forall b: nat | b < |s.disk| ensures s.disk[b] == s.view[b] {
      assert !PinnedIn(s, b);
    }
  }

  lemma ReadAndRelease(s0: State, s1: State, t: State, p: Pid, busy: set<nat>, b: nat, bn: nat)
    requires Inv(s1) && Quiet(s0, p, busy) && PinnedWithin(s0, []) && ReadInto(s0, s1, p, b, bn)
    requires s1.buf[b].refcnt > 0 && t == PutTo(SetHolder(s1, b, None), p, b)
    ensures Quiet(t, p, busy) && PinnedWithin(t, []) && SpareKept(s0, t)
    ensures t.disk == s0.disk && t.view == s0.view && t.logged == s0.logged && t.editing == s0.editing
  {
  }

  lemma AllInstalled(s: State, blocks: seq<nat>)
    requires PinnedWithin(s, blocks[|blocks|..])
    ensures PinnedWithin(s, []) && forall i :: 0 <= i < |s.buf| ==> !s.buf[i].dirty
  {
    assert blocks[|blocks|..] == [];
  }

  lemma PinnedAreLogged(s: State, blocks: seq<nat>)
    requires Inv(s) && LoggedAre(s, blocks)
    ensures PinnedWithin(s, blocks)
  {
    forall j | 0 <= j < |s.buf| && s.buf[j].dirty ensures s.buf[j].blockno in s.logged {
      assert BufInv(s, j);
    }
  }

  lemma HeaderUnpinned(s: State, b: nat)
    requires Inv(s) && b < |s.disk| && b !in s.logged
    ensures |s.view| == |s.disk| && s.view[b] == s.disk[b]
  {
    forall j | 0 <= j < |s.buf| && s.buf[j].dirty ensures s.buf[j].blockno != b {
      assert BufInv(s, j);
    }
    assert !PinnedIn(s, b);
  }

  lemma EveryCrash(l: Layout, d: Disk, t: Txn, k: nat)
    requires Erased(l, d) && TxnOk(l, d, t)
    ensures forall ks :: var e := Recovered(l, CrashAt(d, CommitWrites(l, d, t), k), ks);
              if k <= |t.blocks| then AllOld(l, d, e) else AllNew(l, d, t, e)
    ensures k == |CommitWrites(l, d, t)| ==> AllNew(l, d, t, CrashAt(d, CommitWrites(l, d, t), k))
  {
    forall ks ensures var e := Recovered(l, CrashAt(d, CommitWrites(l, d, t), k), ks);
                      if k <= |t.blocks| then AllOld(l, d, e) else AllNew(l, d, t, e)
    {
      CrashAtomic(l, d, t, k, ks);
    }
    if k == |CommitWrites(l, d, t)| {
      if |t.blocks| > 0 { CommitAfter(l, d, t, k); } else { CommitBefore(l, d, t, 0); }
    }
  }

  lemma TxnShape(l: Layout, d: Disk, t: Txn)
    requires Erased(l, d) && TxnOk(l, d, t)
    ensures |t.data| == |t.blocks| < l.size && |d[l.start]| > |t.blocks|
    ensures l.start !in t.blocks
  {
    hide NoRepeats;
  }

  lemma TxnOkSame(l: Layout, d: Disk, d': Disk, t: Txn)
    requires TxnOk(l, d, t) && |d'| == |d|
    ensures TxnOk(l, d', t)
  {
    hide NoRepeats;
  }

  lemma NothingLogged(s: State, blocks: seq<nat>)
    requires Inv(s) && blocks == [] && LoggedAre(s, blocks)
    ensures s.logged == {} && s.view == s.disk
  {
    PinnedAreLogged(s, blocks);
    NothingPinned(s);
  }

  lemma CommitLogging(tr0: seq<Write>, tr: seq<Write>, l: Layout, d: Disk, t: Txn, k: nat)
    requires l.start < |d| && |d[l.start]| > |t.blocks| > 0 && |t.blocks| == |t.data|
    requires Wrote(tr0, tr, LogThenMark(l, d, t), k)
    ensures Wrote(tr0, tr, CommitWrites(l, d, t), k)
  {
    WroteFirst(tr0, tr, LogThenMark(l, d, t), InstallThenErase(l, PutHeader(d[l.start], t.blocks), t), k);
  }

  lemma CommitInstalling(tr0: seq<Write>, tr1: seq<Write>, tr2: seq<Write>, l: Layout, d: Disk, t: Txn, k: nat)
    requires l.start < |d| && |d[l.start]| > |t.blocks| > 0 && |t.blocks| == |t.data|
    requires Wrote(tr0, tr1, LogThenMark(l, d, t), |t.blocks| + 1)
    requires Wrote(tr1, tr2, InstallThenErase(l, PutHeader(d[l.start], t.blocks), t), k)
    ensures Wrote(tr0, tr2, CommitWrites(l, d, t), |t.blocks| + 1 + k)
  {
    WroteThen(tr0, tr1, tr2, LogThenMark(l, d, t), InstallThenErase(l, PutHeader(d[l.start], t.blocks), t), k);
  }

  lemma PinNothing(s: State, pin: seq<nat>)
    requires PinnedWithin(s, [])
    ensures PinnedWithin(s, pin)
  {
  }

  lemma Logging(tr0: seq<Write>, tr: seq<Write>, l: Layout, d: Disk, t: Txn, k: nat)
    requires l.start < |d| && |d[l.start]| > |t.blocks| && |t.blocks| == |t.data|
    requires Wrote(tr0, tr, LogWrites(l, t), k)
    ensures Wrote(tr0, tr, LogThenMark(l, d, t), k)
    ensures k == |t.blocks| ==>
      Wrote(tr0, tr + [(l.start, PutHeader(d[l.start], t.blocks))], LogThenMark(l, d, t), k + 1)
  {
    var h: Write := (l.start, PutHeader(d[l.start], t.blocks));
    WroteFirst(tr0, tr, LogWrites(l, t), [h], k);
    if k == |t.blocks| {
      WroteThen(tr0, tr, tr + [h], LogWrites(l, t), [h], 1);
    }
  }

  lemma Installing(tr0: seq<Write>, tr: seq<Write>, l: Layout, head: Block, t: Txn, k: nat)
    requires |head| > 0 && |t.blocks| == |t.data|
    requires Wrote(tr0, tr, InstallWrites(t), k)
    ensures Wrote(tr0, tr, InstallThenErase(l, head, t), k)
    ensures k == |t.blocks| ==>
      Wrote(tr0, tr + [(l.start, PutHeader(head, []))], InstallThenErase(l, head, t), k + 1)
  {
    var h: Write := (l.start, PutHeader(head, []));
    WroteFirst(tr0, tr, InstallWrites(t), [h], k);
    if k == |t.blocks| {
      WroteThen(tr0, tr, tr + [h], InstallWrites(t), [h], 1);
    }
  }

  /** After install_trans: what the erasing header write starts from. */
  lemma Installed(s0: State, s: State, p: Pid, busy: set<nat>, l: Layout, t: Txn)
    requires |t.data| == |t.blocks| && l.start < |s0.disk| && 1 <= l.size
    requires InstallProgress(s0, s, p, busy, l, t, |t.blocks|)
    ensures Quiet(s, p, busy) && s.editing == {} && PinnedWithin(s, []) && |s.view| == |s.disk| == |s0.disk| == |s0.view|
    ensures s.view[l.start] == s0.view[l.start] && SpareKept(s0, s)
  {
    assert InLog(l, l.start);
    AllInstalled(s, t.blocks);
  }

  lemma NoneDirty(s: State)
    requires PinnedWithin(s, [])
    ensures forall i :: 0 <= i < |s.buf| ==> !s.buf[i].dirty
  {
  }

  lemma ErasedClean(s: State, s': State, b: nat, h: Block)
    requires PinnedWithin(s, []) && s.editing == {} && Copied(s, s', b, h) && Inv(s')
    ensures PinnedWithin(s', []) && s'.view == s'.disk && s'.editing == {}
  {
    NothingPinned(s');
  }

  /** The log area, read back, is the transaction that recovery installs. */
  lemma LoggedInSlots(s: State, l: Layout)
    requires HeaderOk(l, s.disk) && s.view == s.disk
    ensures SlotsHold(s.view, l, Logged(l, s.disk), |Logged(l, s.disk).blocks|)
  {
  }

  class LogLayer {
    const bc: BufferCache
    const l: Layout
    var n: nat                 // lh.n
    var block: seq<nat>        // lh.block, LOGSIZE entries
    ghost var busy: set<nat>   // blocks that other processes have locked, such as those of a fileread

    ghost predicate Valid()
      reads this, bc
    {
      && bc.Valid() && |block| == l.logSize && n <= l.logSize
      && l.start + l.size <= |bc.disk| && 1 <= l.size
      && forall b :: b in busy ==> !InLog(l, b)
    }

    /** None of the blocks is locked by another process. */
    ghost predicate Unlocked(blocks: seq<nat>)
      reads this
    {
      forall i :: 0 <= i < |blocks| ==> blocks[i] !in busy
    }

    constructor (bc: BufferCache, l: Layout)
      requires bc.Valid() && l.start + l.size <= |bc.disk| && 1 <= l.size
      ensures Valid() && this.bc == bc && this.l == l && n == 0 && busy == {}
    {
      this.bc, this.l, n, busy := bc, l, 0, {};
      block := seq(l.logSize, i => 0);
    }

    ghost function Blocks(): seq<nat>
      requires n <= |block|
      reads this
    {
      block[..n]
    }

    /** Read two blocks; both buffers stay locked. */
    method ReadBoth(p: Pid, first: nat, second: nat) returns (ok: bool, i: nat, j: nat)
      requires bc.Valid() && Quiet(bc.St(), p, busy) && bc.editing == {}
      requires first < |bc.disk| && second < |bc.disk| && first != second && first !in busy && second !in busy
      modifies bc
      ensures bc.Valid() && bc.disk == old(bc.disk) && bc.trace == old(bc.trace)
      ensures ok ==> BothRead(old(bc.St()), bc.St(), p, busy, i, first, j, second)
      ensures !ok ==> NoneSpare(bc.St()) && !TwoSpare(old(bc.St()))
    {
      i, j := 0, 0;
      ghost var s0 := bc.St();
      var r := bc.Bread(p, first);
      if r.None? {
        return false, i, j;
      }
      ghost var s1 := bc.St();
      FreeToRead(s0, s1, p, busy, r.value, first, second);
      var q := bc.Bread(p, second);
      if q.None? {
        TookTheLast(s0, s1, p, r.value, first);
        return false, i, j;
      }
      CopySteps(s0, s1, bc.St(), p, busy, r.value, first, q.value, second);
      return true, r.value, q.value;
    }

    /** Copy one locked buffer to the other, write it, release both. */
    method WriteBack(p: Pid, from: nat, to: nat)
      requires bc.Valid() && bc.editing == {} && to != from && Holds(bc.St(), p, to) && Holds(bc.St(), p, from)
      requires bc.buf[to].valid && bc.buf[from].valid && OnDisk(bc.St(), to)
      requires OthersQuiet(bc.St(), p, busy, to, from)
      modifies bc
      ensures bc.Valid() && Quiet(bc.St(), p, busy)
      ensures Copied(old(bc.St()), bc.St(), old(bc.buf)[to].blockno, old(bc.buf)[from].data)
      ensures Released(old(bc.St()), bc.St(), to, from)
      ensures bc.trace == old(bc.trace) + [(old(bc.buf)[to].blockno, old(bc.buf)[from].data)]
    {
      ghost var s2 := bc.St();
      bc.Edit(p, to, bc.buf[from].data);
      bc.Bwrite(p, to);
      bc.Brelse(p, from);
      bc.Brelse(p, to);
      WriteAndRelease(s2, p, busy, to, from, bc.St());
    }

    /** One round of write_log: log block first, then the cached block. */
    method LogBlock(p: Pid, logNo: nat, homeNo: nat) returns (ok: bool)
      requires bc.Valid() && Quiet(bc.St(), p, busy) && bc.editing == {}
      requires logNo < |bc.disk| && homeNo < |bc.disk| && logNo != homeNo && logNo !in busy && homeNo !in busy
      modifies bc
      ensures bc.Valid() && |old(bc.view)| == |old(bc.disk)|
      ensures ok ==> Quiet(bc.St(), p, busy) && Copied(old(bc.St()), bc.St(), logNo, old(bc.view)[homeNo])
      ensures ok ==> SpareKept(old(bc.St()), bc.St())
      ensures !ok ==> NoneSpare(bc.St()) && !TwoSpare(old(bc.St()))
      ensures ok ==> bc.trace == old(bc.trace) + [(logNo, old(bc.view)[homeNo])]
      ensures !ok ==> bc.disk == old(bc.disk) && bc.trace == old(bc.trace)
    {
      var to, from;
      ghost var s0 := bc.St();
      ok, to, from := ReadBoth(p, logNo, homeNo);
      if ok {
        ghost var s2 := bc.St();
        WriteBack(p, from, to);
        CopiedFrom(s0, s2, bc.St(), p, busy, to, logNo, from, homeNo);
      }
    }

    /** One round of install_trans: log block first, then the destination. */
    method InstallBlock(p: Pid, logNo: nat, homeNo: nat) returns (ok: bool)
      requires bc.Valid() && Quiet(bc.St(), p, busy) && bc.editing == {}
      requires logNo < |bc.disk| && homeNo < |bc.disk| && logNo != homeNo && logNo !in busy && homeNo !in busy
      modifies bc
      ensures bc.Valid() && |old(bc.view)| == |old(bc.disk)|
      ensures ok ==> Quiet(bc.St(), p, busy) && Copied(old(bc.St()), bc.St(), homeNo, old(bc.view)[logNo])
      ensures ok ==> SpareKept(old(bc.St()), bc.St())
      ensures !ok ==> NoneSpare(bc.St()) && !TwoSpare(old(bc.St()))
      ensures ok ==> bc.trace == old(bc.trace) + [(homeNo, old(bc.view)[logNo])]
      ensures !ok ==> bc.disk == old(bc.disk) && bc.trace == old(bc.trace)
    {
      var to, from;
      ghost var s0 := bc.St();
      ok, from, to := ReadBoth(p, logNo, homeNo);
      if ok {
        ghost var s2 := bc.St();
        WriteBack(p, from, to);
        CopiedFrom(s0, s2, bc.St(), p, busy, to, homeNo, from, logNo);
      }
    }

    /** write_head: overlay the in-memory header on the header block and write it. */
    method WriteHead(p: Pid) returns (ok: bool)
      requires Valid() && Quiet(bc.St(), p, busy) && bc.editing == {}
      requires |bc.view| == |bc.disk| && |bc.view[l.start]| > n
      modifies bc
      ensures Valid() && |old(bc.view)| == |old(bc.disk)|
      ensures var data := PutHeader(old(bc.view)[l.start], Blocks());
              && (ok ==> Quiet(bc.St(), p, busy) && Copied(old(bc.St()), bc.St(), l.start, data))
              && (ok ==> bc.trace == old(bc.trace) + [(l.start, data)])
      ensures ok ==> SpareKept(old(bc.St()), bc.St())
      ensures !ok ==> NoneSpare(bc.St()) && !TwoSpare(old(bc.St()))
      ensures !ok ==> bc.disk == old(bc.disk) && bc.trace == old(bc.trace)
    {
      ghost var s0 := bc.St();
      var r := bc.Bread(p, l.start);
      if r.None? {
        return false;
      }
      ghost var s1 := bc.St();
      var b := r.value;
      var data := bc.buf[b].data;
      ghost var was := data;
      data := data[0 := n];
      for i := 0 to n
        invariant data == [n] + block[..i] + was[1 + i..]
      {
        data := data[1 + i := block[i]];
        assert block[..i + 1] == block[..i] + [block[i]];
      }
      assert data == PutHeader(was, Blocks());
      bc.Edit(p, b, data);
      bc.Bwrite(p, b);
      bc.Brelse(p, b);
      HeadSteps(s0, s1, p, busy, b, l.start, data, bc.St());
      ok := true;
    }

    method LogStep(p: Pid, ghost t: Txn, ghost s0: State, tail: nat) returns (ok: bool)
      requires Valid() && n < l.size && tail < n && |s0.disk| == |bc.disk|
      requires IsTxn(s0, t) && t.blocks == Blocks() && TxnOk(l, s0.disk, t) && Unlocked(t.blocks)
      requires LogProgress(s0, bc.St(), p, busy, l, t, tail)
      modifies bc
      ensures Valid()
      ensures ok ==> LogProgress(s0, bc.St(), p, busy, l, t, tail + 1)
      ensures ok ==> bc.trace == old(bc.trace) + [LogWrites(l, t)[tail]]
      ensures !ok ==> NoneSpare(bc.St()) && !TwoSpare(old(bc.St()))
      ensures !ok ==> bc.disk == old(bc.disk) && bc.trace == old(bc.trace)
    {
      hide NoRepeats;
      ghost var s := bc.St();
      var home := block[tail];
      assert t.blocks[tail] == home;
      NextLogWrite(s0, s, p, busy, l, t, tail);
      ok := LogBlock(p, l.start + 1 + tail, home);
      if ok {
        LogRound(s0, s, bc.St(), p, busy, l, t, tail);
      }
    }

    /** write_log: copy every logged block from the cache to its log block. */
    method WriteLog(p: Pid, ghost t: Txn) returns (ok: bool, ghost k: nat)
      requires Valid() && Quiet(bc.St(), p, busy) && bc.editing == {} && n < l.size
      requires |bc.view| == |bc.disk|
      requires IsTxn(bc.St(), t) && t.blocks == Blocks() && TxnOk(l, bc.disk, t) && Unlocked(t.blocks)
      requires PinnedWithin(bc.St(), t.blocks)
      modifies bc
      ensures Valid() && k <= n && (ok ==> k == n)
      ensures Wrote(old(bc.trace), bc.trace, LogWrites(l, t), k)
      ensures ok ==> LogProgress(old(bc.St()), bc.St(), p, busy, l, t, n)
      ensures !ok ==> NoneSpare(bc.St()) && !TwoSpare(old(bc.St()))
    {
      hide NoRepeats;
      k := 0;
      ghost var s0 := bc.St();
      LogStart(s0, p, busy, l, t);
      WroteNone(bc.trace, LogWrites(l, t));
      for tail := 0 to n
        invariant Valid() && k == tail
        invariant LogProgress(s0, bc.St(), p, busy, l, t, tail)
        invariant Wrote(old(bc.trace), bc.trace, LogWrites(l, t), tail)
      {
        WroteOne(old(bc.trace), bc.trace, LogWrites(l, t), tail);
        ghost var s := bc.St();
        var done := LogStep(p, t, s0, tail);
        if !done {
          NotTwoBefore(s0, s);
          return false, k;
        }
        k := k + 1;
      }
      ok := true;
    }

    method InstallStep(p: Pid, ghost t: Txn, ghost s0: State, tail: nat) returns (ok: bool)
      requires Valid() && n < l.size && tail < n && |s0.disk| == |bc.disk| == |s0.view|
      requires t.blocks == Blocks() && TxnOk(l, s0.disk, t) && Unlocked(t.blocks)
      requires SlotsHold(s0.view, l, t, n)
      requires InstallProgress(s0, bc.St(), p, busy, l, t, tail)
      modifies bc
      ensures Valid()
      ensures ok ==> InstallProgress(s0, bc.St(), p, busy, l, t, tail + 1)
      ensures ok ==> bc.trace == old(bc.trace) + [InstallWrites(t)[tail]]
      ensures !ok ==> NoneSpare(bc.St()) && !TwoSpare(old(bc.St()))
      ensures !ok ==> bc.disk == old(bc.disk) && bc.trace == old(bc.trace)
    {
      hide NoRepeats;
      ghost var s := bc.St();
      var home := block[tail];
      assert t.blocks[tail] == home;
      NextInstallWrite(s0, s, p, busy, l, t, tail);
      ok := InstallBlock(p, l.start + 1 + tail, home);
      if ok {
        InstallRound(s0, s, bc.St(), p, busy, l, t, tail);
      }
    }

    /** install_trans: copy every log block to its home. */
    method InstallTrans(p: Pid, ghost t: Txn) returns (ok: bool, ghost k: nat)
      requires Valid() && Quiet(bc.St(), p, busy) && bc.editing == {} && n < l.size
      requires |bc.view| == |bc.disk|
      requires t.blocks == Blocks() && TxnOk(l, bc.disk, t) && Unlocked(t.blocks)
      requires SlotsHold(bc.view, l, t, n)
      requires PinnedWithin(bc.St(), t.blocks)
      modifies bc
      ensures Valid() && k <= n && (ok ==> k == n)
      ensures Wrote(old(bc.trace), bc.trace, InstallWrites(t), k)
      ensures ok ==> InstallProgress(old(bc.St()), bc.St(), p, busy, l, t, n)
      ensures !ok ==> NoneSpare(bc.St()) && !TwoSpare(old(bc.St()))
    {
      hide NoRepeats;
      k := 0;
      ghost var s0 := bc.St();
      LogStart(s0, p, busy, l, t);
      WroteNone(bc.trace, InstallWrites(t));
      for tail := 0 to n
        invariant Valid() && k == tail
        invariant InstallProgress(s0, bc.St(), p, busy, l, t, tail)
        invariant Wrote(old(bc.trace), bc.trace, InstallWrites(t), tail)
      {
        WroteOne(old(bc.trace), bc.trace, InstallWrites(t), tail);
        ghost var s := bc.St();
        var done := InstallStep(p, t, s0, tail);
        if !done {
          NotTwoBefore(s0, s);
          return false, k;
        }
        k := k + 1;
      }
      ok := true;
    }

    /** read_head: load the header block into memory. */
    method ReadHead(p: Pid) returns (ok: bool)
      requires Valid() && Quiet(bc.St(), p, busy) && bc.editing == {}
      requires HeaderOk(l, bc.disk) && PinnedWithin(bc.St(), [])
      modifies bc, this`n, this`block
      ensures Valid() && bc.disk == old(bc.disk) && bc.trace == old(bc.trace)
      ensures ok ==> Blocks() == Logged(l, bc.disk).blocks
      ensures ok ==> Quiet(bc.St(), p, busy) && bc.editing == {} && PinnedWithin(bc.St(), [])
      ensures ok ==> bc.logged == old(bc.logged) && SpareKept(old(bc.St()), bc.St())
      ensures !ok ==> NoneSpare(bc.St()) && !TwoSpare(old(bc.St()))
    {
      ghost var s0 := bc.St();
      NothingPinned(s0);
      var r := bc.Bread(p, l.start);
      if r.None? {
        return false;
      }
      var b := r.value;
      var data := bc.buf[b].data;
      assert data == s0.disk[l.start];
      n := data[0];
      for i := 0 to n
        modifies this`block
        invariant |block| == l.logSize
        invariant forall j :: 0 <= j < i ==> block[j] == data[1 + j]
      {
        assert Header(data)[i] == data[1 + i];
        block := block[i := data[1 + i]];
      }
      ghost var s1 := bc.St();
      bc.Brelse(p, b);
      ReadAndRelease(s0, s1, bc.St(), p, busy, b, l.start);
      assert Blocks() == Logged(l, bc.disk).blocks;
      ok := true;
    }

    /** install_trans and the erasing write_head, the common tail of commit and recovery. */
    method InstallAndErase(p: Pid, ghost t: Txn) returns (ok: bool, ghost k: nat)
      requires Valid() && Quiet(bc.St(), p, busy) && bc.editing == {} && n < l.size
      requires |bc.view| == |bc.disk| && |bc.view[l.start]| > 0
      requires t.blocks == Blocks() && TxnOk(l, bc.disk, t) && Unlocked(t.blocks)
      requires SlotsHold(bc.view, l, t, n)
      requires PinnedWithin(bc.St(), t.blocks)
      modifies bc, this`n
      ensures bc.Valid()
      ensures k <= |t.blocks| + 1 && (ok ==> k == |t.blocks| + 1)
      ensures Wrote(old(bc.trace), bc.trace, InstallThenErase(l, old(bc.view)[l.start], t), k)
      ensures ok ==> Valid() && n == 0 && Quiet(bc.St(), p, busy) && bc.logged == {} && bc.view == bc.disk
      ensures !ok ==> NoneSpare(bc.St()) && !TwoSpare(old(bc.St()))
    {
      hide NoRepeats;
      ghost var s0, tr0 := bc.St(), bc.trace;
      LogStart(s0, p, busy, l, t);
      ok, k := InstallTrans(p, t);
      Installing(tr0, bc.trace, l, s0.view[l.start], t, k);
      if ok {
        Installed(s0, bc.St(), p, busy, l, t);
        ghost var s := bc.St();
        ok := EraseHead(p);
        if ok {
          k := k + 1;
        } else {
          NotTwoBefore(s0, s);
        }
      }
    }

    /** `log.lh.n = 0; write_head()` once everything is installed. */
    method EraseHead(p: Pid) returns (ok: bool)
      requires Valid() && Quiet(bc.St(), p, busy) && bc.editing == {} && PinnedWithin(bc.St(), [])
      requires |bc.view| == |bc.disk| && |bc.view[l.start]| > 0
      modifies bc, this`n
      ensures Valid() && n == 0
      ensures !ok ==> NoneSpare(bc.St()) && !TwoSpare(old(bc.St()))
      ensures !ok ==> bc.trace == old(bc.trace)
      ensures ok ==> Quiet(bc.St(), p, busy) && bc.editing == {} && bc.logged == {} && bc.view == bc.disk
      ensures ok ==> bc.trace == old(bc.trace) + [(l.start, PutHeader(old(bc.view)[l.start], []))]
    {
      NoneDirty(bc.St());
      bc.Forget();
      n := 0;
      ghost var s := bc.St();
      ok := WriteHead(p);
      assert Blocks() == [];
      if ok {
        ErasedClean(s, bc.St(), l.start, PutHeader(old(bc.view)[l.start], []));
      }
    }

    /** write_log and the committing write_head. */
    method LogAndMark(p: Pid, ghost t: Txn) returns (ok: bool, ghost k: nat)
      requires |bc.view| == |bc.disk| && l.start < |bc.disk| && bc.disk[l.start] == bc.view[l.start]
      requires |t.data| == |t.blocks| && |bc.disk[l.start]| > |t.blocks|
      requires Valid() && Quiet(bc.St(), p, busy) && bc.editing == {} && n < l.size
      requires IsTxn(bc.St(), t) && t.blocks == Blocks() && TxnOk(l, bc.disk, t) && Unlocked(t.blocks)
      requires PinnedWithin(bc.St(), t.blocks)
      modifies bc
      ensures Valid()
      ensures k <= |t.blocks| + 1 && (ok ==> k == |t.blocks| + 1)
      ensures Wrote(old(bc.trace), bc.trace, LogThenMark(l, old(bc.disk), t), k)
      ensures ok ==> Quiet(bc.St(), p, busy) && bc.editing == {} && PinnedWithin(bc.St(), t.blocks)
      ensures ok ==> SpareKept(old(bc.St()), bc.St())
      ensures !ok ==> NoneSpare(bc.St()) && !TwoSpare(old(bc.St()))
      ensures ok ==> |bc.view| == |bc.disk| == |old(bc.disk)|
      ensures ok ==> bc.view[l.start] == PutHeader(old(bc.disk)[l.start], t.blocks)
      ensures ok ==> SlotsHold(bc.view, l, t, n)
    {
      hide NoRepeats;
      ghost var s0, tr0 := bc.St(), bc.trace;
      LogStart(s0, p, busy, l, t);
      ok, k := WriteLog(p, t);
      Logging(tr0, bc.trace, l, s0.disk, t, k);
      if ok {
        ReadyToMark(s0, bc.St(), p, busy, l, t);
        ghost var s := bc.St();
        ok := MarkHead(p, t, s0);
        if ok {
          k := k + 1;
        } else {
          NotTwoBefore(s0, s);
        }
      }
    }

    /** The committing write_head, once every log block is written. */
    method MarkHead(p: Pid, ghost t: Txn, ghost s0: State) returns (ok: bool)
      requires Valid() && Quiet(bc.St(), p, busy) && bc.editing == {} && |t.data| == |t.blocks| && t.blocks == Blocks()
      requires LogProgress(s0, bc.St(), p, busy, l, t, |t.blocks|) && |s0.view| == |s0.disk| == |bc.view| == |bc.disk|
      requires bc.view[l.start] == s0.view[l.start] && |s0.view[l.start]| > |t.blocks|
      modifies bc
      ensures Valid()
      ensures !ok ==> bc.trace == old(bc.trace)
      ensures ok ==> bc.trace == old(bc.trace) + [(l.start, PutHeader(s0.view[l.start], t.blocks))]
      ensures ok ==> SpareKept(s0, bc.St())
      ensures !ok ==> NoneSpare(bc.St()) && !TwoSpare(old(bc.St()))
      ensures ok ==> Quiet(bc.St(), p, busy) && bc.editing == {} && PinnedWithin(bc.St(), t.blocks)
      ensures ok ==> |bc.view| == |bc.disk| == |s0.disk| && bc.view[l.start] == PutHeader(s0.view[l.start], t.blocks)
      ensures ok ==> SlotsHold(bc.view, l, t, n)
    {
      hide NoRepeats;
      ghost var s := bc.St();
      ok := WriteHead(p);
      if ok {
        Marked(s0, s, bc.St(), p, busy, l, t, PutHeader(s0.view[l.start], t.blocks));
      }
    }

    /** recover_from_log: the writes issued are RecoverWrites, or a prefix if the machine panics. */
    method Recover(p: Pid) returns (ok: bool, ghost k: nat)
      requires Valid() && Quiet(bc.St(), p, busy) && bc.editing == {} && PinnedWithin(bc.St(), [])
      requires HeaderOk(l, bc.disk) && TxnOk(l, bc.disk, Logged(l, bc.disk)) && Unlocked(Logged(l, bc.disk).blocks)
      modifies bc, this`n, this`block
      ensures bc.Valid() && k <= |RecoverWrites(l, old(bc.disk))|
      ensures bc.trace == old(bc.trace) + RecoverWrites(l, old(bc.disk))[..k]
      ensures bc.disk == CrashAt(old(bc.disk), RecoverWrites(l, old(bc.disk)), k)
      ensures ok ==> Valid() && k == |RecoverWrites(l, old(bc.disk))| && n == 0 && bc.view == bc.disk
      ensures ok ==> bc.disk == Recovered(l, old(bc.disk), [])
      ensures !ok ==> NoneSpare(bc.St()) && !TwoSpare(old(bc.St()))
    {
      hide NoRepeats;
      k := 0;
      ghost var d, tr0 := bc.disk, bc.trace;
      WroteNone(tr0, RecoverWrites(l, d));
      ok := ReadHead(p);
      if ok {
        NothingPinned(bc.St());
        LoggedInSlots(bc.St(), l);
        PinNothing(bc.St(), Logged(l, d).blocks);
        ghost var s := bc.St();
        ok, k := InstallAndErase(p, Logged(l, d));
        if !ok {
          NotTwoBefore(old(bc.St()), s);
        }
      }
      WroteAll(bc.base, tr0, bc.trace, RecoverWrites(l, d), k);
      assert RecoverWrites(l, d)[..|RecoverWrites(l, d)|] == RecoverWrites(l, d);
    }

    /** commit.  `t` names the transaction: the logged blocks with their cached contents.  The
        writes issued are CommitWrites, or a prefix of length `k` if the machine panics; and
        wherever among them a crash comes, recovery leaves all of the transaction or none. */
    method Commit(p: Pid, ghost t: Txn) returns (ok: bool, ghost k: nat)
      requires Valid() && Quiet(bc.St(), p, busy) && bc.editing == {}
      requires Erased(l, bc.disk) && IsTxn(bc.St(), t) && t.blocks == Blocks() && TxnOk(l, bc.disk, t) && Unlocked(t.blocks)
      requires LoggedAre(bc.St(), t.blocks)
      modifies bc, this`n
      ensures bc.Valid() && k <= |CommitWrites(l, old(bc.disk), t)|
      ensures bc.trace == old(bc.trace) + CommitWrites(l, old(bc.disk), t)[..k]
      ensures bc.disk == CrashAt(old(bc.disk), CommitWrites(l, old(bc.disk), t), k)
      ensures ok ==> Valid() && k == |CommitWrites(l, old(bc.disk), t)| && n == 0
      ensures ok ==> bc.logged == {} && bc.view == bc.disk && AllNew(l, old(bc.disk), t, bc.disk)
      ensures !ok ==> NoneSpare(bc.St()) && !TwoSpare(old(bc.St()))
      ensures forall ks :: var e := Recovered(l, bc.disk, ks);
                if k <= |t.blocks| then AllOld(l, old(bc.disk), e) else AllNew(l, old(bc.disk), t, e)
    {
      hide NoRepeats;
      ghost var d, tr0 := bc.disk, bc.trace;
      TxnShape(l, d, t);
      ghost var ws := CommitWrites(l, d, t);
      PinnedAreLogged(bc.St(), t.blocks);
      HeaderUnpinned(bc.St(), l.start);
      k := 0;
      ok := true;
      WroteNone(tr0, ws);
      if n > 0 {
        ok, k := LogAndMark(p, t);
        CommitLogging(tr0, bc.trace, l, d, t, k);
        if ok {
          ghost var tr1, k2 := bc.trace, 0;
          TxnOkSame(l, d, bc.disk, t);
          ghost var s := bc.St();
          ok, k2 := InstallAndErase(p, t);
          if !ok {
            NotTwoBefore(old(bc.St()), s);
          }
          CommitInstalling(tr0, tr1, bc.trace, l, d, t, k2);
          k := k + k2;
        }
      } else {
        NothingLogged(bc.St(), t.blocks);
      }
      WroteAll(bc.base, tr0, bc.trace, ws, k);
      EveryCrash(l, d, t, k);
    }

    /** log_write: absorb the block into the header and pin its buffer.  False is the panic
        "too big a transaction"; the other panic, an operation outside a transaction, belongs to
        the protocol in module GroupCommit. */
    method LogWrite(p: Pid, i: nat) returns (ok: bool)
      requires Valid() && Holds(bc.St(), p, i) && bc.buf[i].valid && LoggedAre(bc.St(), Blocks())
      modifies bc, this`n, this`block
      ensures Valid() && ok == (old(n) < l.logSize && old(n) < l.size - 1)
      ensures !ok ==> bc.St() == old(bc.St()) && Blocks() == old(Blocks())
      ensures ok ==> old(bc.buf)[i].blockno < |old(bc.view)| && bc.St() == LogWriteTo(old(bc.St()), i)
      ensures ok ==> Blocks() == GroupCommit.Absorb(old(Blocks()), old(bc.buf)[i].blockno)
      ensures LoggedAre(bc.St(), Blocks())
      ensures NoRepeats(old(Blocks())) ==> NoRepeats(Blocks())
      ensures bc.trace == old(bc.trace)
    {
      if n >= l.logSize || n >= l.size - 1 {
        return false;
      }
      var b := bc.buf[i].blockno;
      var j := 0;
      while j < n && block[j] != b
        invariant 0 <= j <= n
        invariant b !in block[..j]
      {
        j := j + 1;
      }
      ghost var was := Blocks();
      assert b in was <==> j < n;
      block := block[j := b];
      if j == n {
        n := n + 1;
      }
      assert Blocks() == if j < |was| then was else was + [b];
      bc.Pin(p, i);
      ok := true;
    }
  }
}
