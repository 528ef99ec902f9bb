/** Crash atomicity of the redo log of log.c.

    Disk blocks are sequences of words, because write_head and read_head overlay the header
    block with `struct logheader { int n; int block[LOGSIZE]; }`.  One block write is atomic
    and synchronous; a crash may come after any number of them, and recovery may itself crash,
    any number of times. */
module Recovery {
  import opened Counting
  import opened Writes

  /** log.start, log.size and LOGSIZE. */
  datatype Layout = Layout(start: nat, size: nat, logSize: nat)

  /** A transaction: the logged block numbers and, for each, its new contents. */
  datatype Txn = Txn(blocks: seq<nat>, data: seq<Block>)

  // ----- the header block

  function Header(b: Block): seq<int>
    requires |b| > 0 && 0 <= b[0] < |b|
  {
    b[1..1 + b[0]]
  }

  /** What write_head leaves in the header block: words past the last entry keep their old value. */
  function PutHeader(b: Block, blocks: seq<nat>): (h: Block)
    requires |b| > |blocks|
    ensures |h| == |b|
  {
    [|blocks|] + blocks + b[1 + |blocks|..]
  }

  lemma HeaderRoundTrip(b: Block, blocks: seq<nat>)
    requires |b| > |blocks|
    ensures var h := PutHeader(b, blocks);
            |h| == |b| && h[0] == |blocks| && Header(h) == blocks
  {
    var h := PutHeader(b, blocks);
    assert h[1..1 + |blocks|] == blocks;
  }

  // ----- what commit and recovery write

  /** write_log */
  function LogWrites(l: Layout, t: Txn): (ws: seq<Write>)
    requires |t.blocks| == |t.data|
    ensures |ws| == |t.blocks|
    ensures forall i :: 0 <= i < |ws| ==> ws[i] == (l.start + 1 + i, t.data[i])
  {
    seq(|t.blocks|, i requires 0 <= i < |t.blocks| =>
      var w: Write := (l.start + 1 + i, t.data[i]); w)
  }

  /** install_trans */
  function InstallWrites(t: Txn): (ws: seq<Write>)
    requires |t.blocks| == |t.data|
    ensures |ws| == |t.blocks|
    ensures forall i :: 0 <= i < |ws| ==> ws[i] == (t.blocks[i], t.data[i])
  {
    seq(|t.blocks|, i requires 0 <= i < |t.blocks| => (t.blocks[i], t.data[i]))
  }

  predicate HeaderOk(l: Layout, d: Disk) {
    && l.start + l.size <= |d| && 1 <= l.size
    && |d[l.start]| > l.logSize
    && 0 <= d[l.start][0] <= l.logSize && d[l.start][0] < l.size
    && forall i :: 0 <= i < d[l.start][0] ==> 0 <= Header(d[l.start])[i]
  }

  /** The writes that make a transaction durable: the log blocks, then the header. */
  function LogThenMark(l: Layout, d: Disk, t: Txn): (ws: seq<Write>)
    requires l.start < |d| && |d[l.start]| > |t.blocks| && |t.blocks| == |t.data|
    ensures |ws| == |t.blocks| + 1
  {
    LogWrites(l, t) + [(l.start, PutHeader(d[l.start], t.blocks))]
  }

  /** The writes that move it home and erase the log, given the header block `h` on disk. */
  function InstallThenErase(l: Layout, h: Block, t: Txn): (ws: seq<Write>)
    requires |h| > 0 && |t.blocks| == |t.data|
    ensures |ws| == |t.blocks| + 1
  {
    InstallWrites(t) + [(l.start, PutHeader(h, []))]
  }

  /** commit: log, header, install, erase; nothing at all for an empty transaction. */
  function CommitWrites(l: Layout, d: Disk, t: Txn): seq<Write>
    requires l.start < |d| && |d[l.start]| > |t.blocks| && |t.blocks| == |t.data|
  {
    if |t.blocks| == 0 then []
    else LogThenMark(l, d, t) + InstallThenErase(l, PutHeader(d[l.start], t.blocks), t)
  }

  /** The transaction that the log area describes. */
  function Logged(l: Layout, d: Disk): (t: Txn)
    requires HeaderOk(l, d)
    ensures |t.blocks| == |t.data| == d[l.start][0]
  {
    var n := d[l.start][0];
    Txn(seq(n, i requires 0 <= i < n => Header(d[l.start])[i]),
        seq(n, i requires 0 <= i < n => d[l.start + 1 + i]))
  }

  /** recover_from_log */
  function RecoverWrites(l: Layout, d: Disk): seq<Write>
    requires HeaderOk(l, d)
  {
    InstallThenErase(l, d[l.start], Logged(l, d))
  }

  // ----- crashes

  function Clip(k: nat, n: nat): (r: nat)
    ensures r <= n
  {
    if k < n then k else n
  }

  /** Crash after the first `k` writes. */
  function CrashAt(d: Disk, ws: seq<Write>, k: nat): (r: Disk)
    ensures |r| == |d|
  {
    Apply(d, ws[..Clip(k, |ws|)])
  }

  /** Recovery interrupted after ks[0] writes, tried again and interrupted after ks[1], and so
      on; the last attempt completes. */
  function Recovered(l: Layout, d: Disk, ks: seq<nat>): Disk
    decreases |ks|
  {
    if !HeaderOk(l, d) then d
    else if |ks| == 0 then Apply(d, RecoverWrites(l, d))
    else Recovered(l, CrashAt(d, RecoverWrites(l, d), ks[0]), ks[1..])
  }

  // ----- the three kinds of disk a crash can leave

  predicate InLog(l: Layout, b: nat) {
    l.start <= b < l.start + l.size
  }

  /** The new contents of block `b` if it is in the transaction, else its old contents. */
  ghost predicate IsNew(old_: Disk, t: Txn, b: nat, x: Block)
    requires b < |old_| && |t.blocks| == |t.data|
  {
    && (forall i :: 0 <= i < |t.blocks| && t.blocks[i] == b ==> x == t.data[i])
    && (b !in t.blocks ==> x == old_[b])
  }

  ghost predicate Erased(l: Layout, d: Disk) {
    HeaderOk(l, d) && d[l.start][0] == 0
  }

  /** Wholly old: an empty log and every home block as before. */
  ghost predicate AllOld(l: Layout, old_: Disk, d: Disk) {
    && |d| == |old_| && Erased(l, d)
    && forall b: nat :: b < |d| && !InLog(l, b) ==> d[b] == old_[b]
  }

  /** Committed but not erased: the log holds the transaction; home blocks outside it are old. */
  ghost predicate Durable(l: Layout, old_: Disk, t: Txn, d: Disk) {
    && |d| == |old_| && HeaderOk(l, d) && Logged(l, d) == t
    && forall b: nat :: b < |d| && !InLog(l, b) && b !in t.blocks ==> d[b] == old_[b]
  }

  /** Wholly new. */
  ghost predicate AllNew(l: Layout, old_: Disk, t: Txn, d: Disk)
    requires |t.blocks| == |t.data|
  {
    && |d| == |old_| && Erased(l, d)
    && forall b: nat :: b < |d| && !InLog(l, b) ==> IsNew(old_, t, b, d[b])
  }

  /** What log_write guarantees of a transaction: block numbers are distinct (absorption), fit
      the header and the log, and lie outside the log area. */
  ghost predicate TxnOk(l: Layout, d: Disk, t: Txn) {
    && |t.blocks| == |t.data|
    && |t.blocks| <= l.logSize && |t.blocks| < l.size
    && NoRepeats(t.blocks)
    && forall i :: 0 <= i < |t.blocks| ==> t.blocks[i] < |d| && !InLog(l, t.blocks[i])
  }

  lemma EraseHeader(l: Layout, d: Disk, ws: seq<Write>)
    requires HeaderOk(l, d)
    requires forall i :: 0 <= i < |ws| ==> ws[i].0 != l.start
    ensures Erased(l, Apply(d, ws + [(l.start, PutHeader(d[l.start], []))]))
  {
    HeaderRoundTrip(d[l.start], []);
    ApplyAppend(d, ws, [(l.start, PutHeader(d[l.start], []))]);
    assert ([(l.start, PutHeader(d[l.start], []))])[..0] == [];
  }

  /** Any prefix of install_trans leaves the log area and the other home blocks alone. */
  lemma InstallPrefix(l: Layout, old_: Disk, t: Txn, d: Disk, k: nat)
    requires HeaderOk(l, old_) && TxnOk(l, old_, t) && Durable(l, old_, t, d) && k <= |t.blocks|
    ensures Durable(l, old_, t, Apply(d, InstallWrites(t)[..k]))
  {
    hide NoRepeats;
    var ws := InstallWrites(t)[..k];
    var e := Apply(d, ws);
    forall b: nat | b < |d| && (InLog(l, b) || b !in t.blocks) ensures e[b] == d[b] {
      ApplyOther(d, ws, b);
    }
    assert e[l.start] == d[l.start];
    forall i | 0 <= i < |t.blocks| ensures Logged(l, e).data[i] == t.data[i] {
      assert InLog(l, l.start + 1 + i);
    }
    assert Logged(l, e).data == Logged(l, d).data;
    assert Logged(l, e).blocks == Logged(l, d).blocks;
  }

  /** The whole of install_trans followed by the erasing header write is wholly new. */
  lemma InstallAll(l: Layout, old_: Disk, t: Txn, d: Disk)
    requires HeaderOk(l, old_) && TxnOk(l, old_, t) && Durable(l, old_, t, d)
    ensures AllNew(l, old_, t, Apply(d, InstallThenErase(l, d[l.start], t)))
  {
    var iw := InstallWrites(t);
    var hw := [(l.start, PutHeader(d[l.start], []))];
    var e := Apply(d, iw + hw);
    EraseHeader(l, d, iw);
    forall b: nat | b < |d| && !InLog(l, b) ensures IsNew(old_, t, b, e[b]) {
      ApplyAppend(d, iw, hw);
      ApplyOther(Apply(d, iw), hw, b);
      if b in t.blocks {
        forall i | 0 <= i < |t.blocks| && t.blocks[i] == b ensures e[b] == t.data[i] {
          ApplyHit(d, iw, i);
        }
      } else {
        ApplyOther(d, iw, b);
      }
    }
  }

  /** One attempt at recovery, cut short anywhere, from a committed state. */
  lemma RecoverStepDurable(l: Layout, old_: Disk, t: Txn, d: Disk, k: nat)
    requires HeaderOk(l, old_) && TxnOk(l, old_, t) && Durable(l, old_, t, d)
    ensures var e := CrashAt(d, RecoverWrites(l, d), k);
            if k <= |t.blocks| then Durable(l, old_, t, e) else AllNew(l, old_, t, e)
  {
    hide NoRepeats;
    var ws := RecoverWrites(l, d);
    if k <= |t.blocks| {
      assert ws[..k] == InstallWrites(t)[..k];
      InstallPrefix(l, old_, t, d, k);
    } else {
      assert ws[..|ws|] == ws;
      InstallAll(l, old_, t, d);
    }
  }

  /** Recovery of an empty log changes no home block, wherever it is cut. */
  lemma RecoverStepErased(l: Layout, d: Disk, k: nat)
    requires Erased(l, d)
    ensures var e := CrashAt(d, RecoverWrites(l, d), k);
            Erased(l, e) && forall b: nat :: b < |d| && !InLog(l, b) ==> e[b] == d[b]
  {
    var ws := RecoverWrites(l, d);
    var c := Clip(k, |ws|);
    var e := Apply(d, ws[..c]);
    assert ws == [(l.start, PutHeader(d[l.start], []))];
    if c == 1 {
      EraseHeader(l, d, []);
      assert ws[..1] == [] + [(l.start, PutHeader(d[l.start], []))];
    } else {
      assert ws[..c] == [];
    }
    forall b: nat | b < |d| && !InLog(l, b) ensures e[b] == d[b] {
      ApplyOther(d, ws[..c], b);
    }
  }

  lemma {:induction false} RecoveredErased(l: Layout, d: Disk, ks: seq<nat>)
    requires Erased(l, d)
    ensures var e := Recovered(l, d, ks);
            |e| == |d| && Erased(l, e) && forall b: nat :: b < |d| && !InLog(l, b) ==> e[b] == d[b]
    decreases |ks|
  {
    var ws := RecoverWrites(l, d);
    if |ks| == 0 {
      RecoverStepErased(l, d, |ws|);
      assert ws[..|ws|] == ws;
    } else {
      RecoverStepErased(l, d, ks[0]);
      RecoveredErased(l, CrashAt(d, ws, ks[0]), ks[1..]);
    }
  }

  lemma {:induction false} RecoveredDurable(l: Layout, old_: Disk, t: Txn, d: Disk, ks: seq<nat>)
    requires HeaderOk(l, old_) && TxnOk(l, old_, t) && Durable(l, old_, t, d)
    ensures AllNew(l, old_, t, Recovered(l, d, ks))
    decreases |ks|
  {
    hide NoRepeats;
    var ws := RecoverWrites(l, d);
    if |ks| == 0 {
      RecoverStepDurable(l, old_, t, d, |ws|);
      assert ws[..|ws|] == ws;
    } else {
      var e := CrashAt(d, ws, ks[0]);
      RecoverStepDurable(l, old_, t, d, ks[0]);
      if ks[0] <= |t.blocks| {
        RecoveredDurable(l, old_, t, e, ks[1..]);
      } else {
        RecoveredErased(l, e, ks[1..]);
      }
    }
  }

  // ----- commit

  /** Before the header write: only log blocks have changed. */
  lemma CommitBefore(l: Layout, d: Disk, t: Txn, k: nat)
    requires Erased(l, d) && TxnOk(l, d, t) && k <= |t.blocks|
    ensures AllOld(l, d, CrashAt(d, CommitWrites(l, d, t), k))
  {
    hide NoRepeats;
    var ws := CommitWrites(l, d, t);
    var e := CrashAt(d, ws, k);
    if |t.blocks| > 0 {
      assert ws[..k] == LogWrites(l, t)[..k];
      forall b: nat | b < |d| && (!InLog(l, b) || b == l.start) ensures e[b] == d[b] {
        ApplyOther(d, LogWrites(l, t)[..k], b);
      }
    }
  }

  /** After the log and the header are written the transaction is durable. */
  lemma CommitPoint(l: Layout, d: Disk, t: Txn)
    requires Erased(l, d) && TxnOk(l, d, t)
    ensures Durable(l, d, t, Apply(d, LogThenMark(l, d, t)))
  {
    hide NoRepeats;
    var lw := LogWrites(l, t);
    var h := PutHeader(d[l.start], t.blocks);
    var e := Apply(d, lw + [(l.start, h)]);
    HeaderRoundTrip(d[l.start], t.blocks);
    ApplyAppend(d, lw, [(l.start, h)]);
    assert [(l.start, h)][..0] == [];
    assert e == Apply(d, lw)[l.start := h];
    forall i | 0 <= i < |t.blocks| ensures e[l.start + 1 + i] == t.data[i] {
      ApplyHit(d, lw, i);
      assert lw[i].0 == l.start + 1 + i;
    }
    forall b: nat | b < |d| && !InLog(l, b) ensures e[b] == d[b] {
      ApplyOther(d, lw, b);
    }
    assert Logged(l, e).blocks == t.blocks;
    assert Logged(l, e).data == t.data;
  }

  lemma CommitTail(l: Layout, d: Disk, t: Txn, k: nat)
    requires l.start < |d| && |d[l.start]| > |t.blocks| > 0 && |t.blocks| == |t.data| && k <= |t.blocks| + 1
    ensures var first := LogThenMark(l, d, t);
            var rest := InstallThenErase(l, PutHeader(d[l.start], t.blocks), t);
            && |CommitWrites(l, d, t)| == |first| + |rest|
            && CommitWrites(l, d, t)[..|first| + k] == first + rest[..k]
            && Apply(d, CommitWrites(l, d, t)[..|first| + k]) == Apply(Apply(d, first), rest[..k])
  {
    var first := LogThenMark(l, d, t);
    var rest := InstallThenErase(l, PutHeader(d[l.start], t.blocks), t);
    assert (first + rest)[..|first| + k] == first + rest[..k];
    ApplyAppend(d, first, rest[..k]);
  }

  /** A crash after the header write, seen from the durable disk. */
  lemma CrashInTail(l: Layout, d: Disk, t: Txn, k: nat)
    requires l.start < |d| && |d[l.start]| > |t.blocks| > 0 && |t.blocks| == |t.data|
    requires |t.blocks| < k <= 2 * |t.blocks| + 1
    ensures CrashAt(d, CommitWrites(l, d, t), k) ==
            Apply(Apply(d, LogThenMark(l, d, t)), InstallWrites(t)[..k - |t.blocks| - 1])
  {
    var rest := InstallThenErase(l, PutHeader(d[l.start], t.blocks), t);
    CommitTail(l, d, t, k - |t.blocks| - 1);
    assert rest[..k - |t.blocks| - 1] == InstallWrites(t)[..k - |t.blocks| - 1];
  }

  lemma CrashAtEnd(l: Layout, d: Disk, t: Txn, k: nat)
    requires l.start < |d| && |d[l.start]| > |t.blocks| > 0 && |t.blocks| == |t.data|
    requires k > 2 * |t.blocks| + 1
    ensures var e1 := Apply(d, LogThenMark(l, d, t));
            && |e1[l.start]| > 0
            && CrashAt(d, CommitWrites(l, d, t), k) == Apply(e1, InstallThenErase(l, e1[l.start], t))
  {
    var n := |t.blocks|;
    MarkIsHeader(l, d, t);
    var rest := InstallThenErase(l, PutHeader(d[l.start], t.blocks), t);
    CommitTail(l, d, t, n + 1);
    assert rest[..n + 1] == rest;
    assert Clip(k, |CommitWrites(l, d, t)|) == n + 1 + (n + 1);
  }

  /** From the header write on: durable, or wholly new once the header is erased. */
  lemma CommitAfter(l: Layout, d: Disk, t: Txn, k: nat)
    requires Erased(l, d) && TxnOk(l, d, t) && |t.blocks| > 0 && k > |t.blocks|
    ensures k <= 2 * |t.blocks| + 1 ==> Durable(l, d, t, CrashAt(d, CommitWrites(l, d, t), k))
    ensures k > 2 * |t.blocks| + 1 ==> AllNew(l, d, t, CrashAt(d, CommitWrites(l, d, t), k))
  {
    hide NoRepeats;
    var e1 := Apply(d, LogThenMark(l, d, t));
    CommitPoint(l, d, t);
    if k <= 2 * |t.blocks| + 1 {
      CrashInTail(l, d, t, k);
      InstallPrefix(l, d, t, e1, k - |t.blocks| - 1);
    } else {
      CrashAtEnd(l, d, t, k);
      InstallAll(l, d, t, e1);
    }
  }

  lemma MarkIsHeader(l: Layout, d: Disk, t: Txn)
    requires l.start < |d| && |d[l.start]| > |t.blocks| && |t.blocks| == |t.data|
    ensures Apply(d, LogThenMark(l, d, t))[l.start] == PutHeader(d[l.start], t.blocks)
  {
    ApplyHit(d, LogThenMark(l, d, t), |t.blocks|);
  }

  /** Crash atomicity.  Crash a commit after any number of block writes and then recover, with
      any number of crashes during recovery: the home blocks end up wholly old if the crash
      came before the header write and wholly new otherwise, and the log ends up empty. */
  lemma CrashAtomic(l: Layout, d: Disk, t: Txn, k: nat, ks: seq<nat>)
    requires Erased(l, d) && TxnOk(l, d, t)
    ensures var e := Recovered(l, CrashAt(d, CommitWrites(l, d, t), k), ks);
            if k <= |t.blocks| then AllOld(l, d, e) else AllNew(l, d, t, e)
  {
    hide NoRepeats;
    var c := CrashAt(d, CommitWrites(l, d, t), k);
    if k <= |t.blocks| || |t.blocks| == 0 {
      CommitBefore(l, d, t, Clip(k, |t.blocks|));
      assert |t.blocks| == 0 ==> CommitWrites(l, d, t) == [];
      RecoveredErased(l, c, ks);
    } else {
      CommitAfter(l, d, t, k);
      if k <= 2 * |t.blocks| + 1 {
        RecoveredDurable(l, d, t, c, ks);
      } else {
        RecoveredErased(l, c, ks);
      }
    }
  }

  // ----- whole histories of transactions and crashes

  /** A transaction that commits undisturbed, or one that is cut after `k` writes and followed
      by recovery with the crashes `ks`. */
  datatype Event = Commits(t: Txn) | Crashes(t: Txn, k: nat, ks: seq<nat>)

  function After(l: Layout, d: Disk, ev: Event): Disk
    requires l.start < |d| && |d[l.start]| > |ev.t.blocks| && |ev.t.blocks| == |ev.t.data|
  {
    match ev
    case Commits(t) => Apply(d, CommitWrites(l, d, t))
    case Crashes(t, k, ks) => Recovered(l, CrashAt(d, CommitWrites(l, d, t), k), ks)
  }

  /** Did the transaction take effect? */
  predicate Effective(ev: Event) {
    ev.Commits? || ev.k > |ev.t.blocks|
  }

  /** The file system's own picture: effective transactions are applied in order and at once. */
  function Install(d: Disk, t: Txn): (r: Disk)
    requires |t.blocks| == |t.data|
    ensures |r| == |d|
  {
    Apply(d, InstallWrites(t))
  }

  ghost predicate HistoryOk(l: Layout, d: Disk, evs: seq<Event>) {
    forall i :: 0 <= i < |evs| ==> TxnOk(l, d, evs[i].t)
  }

  function Replay(l: Layout, d: Disk, evs: seq<Event>): (r: Disk)
    requires HistoryOk(l, d, evs)
    ensures |r| == |d|
  {
    if |evs| == 0 then d
    else
      var m := |evs| - 1;
      var e := Replay(l, d, evs[..m]);
      if Effective(evs[m]) then Install(e, evs[m].t) else e
  }

  lemma EventIsAtomic(l: Layout, d: Disk, ev: Event)
    requires Erased(l, d) && TxnOk(l, d, ev.t)
    ensures if Effective(ev) then AllNew(l, d, ev.t, After(l, d, ev)) else AllOld(l, d, After(l, d, ev))
  {
    hide NoRepeats;
    match ev
    case Commits(t) =>
      var ws := CommitWrites(l, d, t);
      assert ws[..|ws|] == ws;
      if |t.blocks| > 0 { CommitAfter(l, d, t, |ws|); }
    case Crashes(t, k, ks) => CrashAtomic(l, d, t, k, ks);
  }

  /** Every history of commits and crashes leaves the home blocks as the effective transactions
      alone would, applied one after another. */
  lemma {:induction false} HistoryIsSerial(l: Layout, d: Disk, evs: seq<Event>, states: seq<Disk>)
    requires Erased(l, d) && HistoryOk(l, d, evs)
    requires |states| == |evs| + 1 && states[0] == d
    requires forall i :: 0 <= i < |evs| ==>
      l.start < |states[i]| && |states[i][l.start]| > |evs[i].t.blocks| && states[i + 1] == After(l, states[i], evs[i])
    ensures var e := states[|evs|];
            && |e| == |d| && Erased(l, e)
            && forall b: nat :: b < |d| && !InLog(l, b) ==> e[b] == Replay(l, d, evs)[b]
  {
    hide NoRepeats, After, Apply, InstallWrites, IsNew, HeaderOk;
    if |evs| > 0 {
      var m := |evs| - 1;
      HistoryIsSerial(l, d, evs[..m], states[..m + 1]);
      var before, ev := states[m], evs[m];
      EventIsAtomic(l, before, ev);
      var want := Replay(l, d, evs[..m]);
      if Effective(ev) {
        forall b: nat | b < |d| && !InLog(l, b) ensures states[m + 1][b] == Install(want, ev.t)[b] {
          InstallIsNew(l, before, want, ev.t, b, states[m + 1][b]);
        }
      }
    }
  }

  lemma InstallIsNew(l: Layout, before: Disk, want: Disk, t: Txn, b: nat, x: Block)
    requires TxnOk(l, before, t) && |want| == |before| && b < |before| && want[b] == before[b]
    requires IsNew(before, t, b, x)
    ensures Install(want, t)[b] == x
  {
    var ws := InstallWrites(t);
    if b in t.blocks {
      var i :| 0 <= i < |t.blocks| && t.blocks[i] == b;
      ApplyHit(want, ws, i);
    } else {
      ApplyOther(want, ws, b);
    }
  }
}
