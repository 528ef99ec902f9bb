/** Pipes (pipe.c): a ring buffer whose uint counters wrap, shared by any number of readers and
    writers that sleep on two channels.

    The step machine is as fine as single bytes.  Going to sleep and releasing the pipe's lock is
    one step; module Sleep shows why that is what sleep amounts to. */
module Pipe {
  import opened Arith
  import opened Options

  const U32: nat := 0x1_0000_0000

  type Byte = int

  /** p->data, p->nread and p->nwrite. */
  datatype Ring = Ring(data: seq<Byte>, nread: nat, nwrite: nat)

  predicate Sized(n: nat, r: Ring) {
    0 < n < U32 && U32 % n == 0 && |r.data| == n
  }

  predicate Full(n: nat, r: Ring) {
    r.nwrite == (r.nread + n) % U32
  }

  predicate Empty(r: Ring) {
    r.nread == r.nwrite
  }

  function Put(n: nat, r: Ring, b: Byte): Ring
    requires Sized(n, r)
  {
    Ring(r.data[r.nwrite % n := b], r.nread, (r.nwrite + 1) % U32)
  }

  function Head(n: nat, r: Ring): Byte
    requires Sized(n, r)
  {
    r.data[r.nread % n]
  }

  function Get(r: Ring): Ring {
    r.(nread := (r.nread + 1) % U32)
  }

  // ----- the ring is a queue

  ghost predicate Holds(n: nat, r: Ring, stored: seq<Byte>, taken: nat) {
    && Sized(n, r)
    && taken <= |stored| <= taken + n
    && r.nread == taken % U32 && r.nwrite == |stored| % U32
    && forall k: nat :: taken <= k < |stored| ==> r.data[k % n] == stored[k]
  }

  lemma ModMod(w: nat, m: nat, n: nat)
    requires 0 < n && 0 < m && m % n == 0
    ensures (w % m) % n == w % n
  {
    var d, q, r := m / n, w / m, w % m;
    DivMod(m, n);
    DivMod(w, m);
    DivMod(r, n);
    Regroup(q, d, n);
    Distribute(q * d, r / n, n);
    Quotient(w, q * d + r / n, r % n, n);
  }

  lemma Regroup(q: nat, d: nat, n: nat)
    ensures q * (d * n) == (q * d) * n
  {
  }

  lemma SameQuotient(a: nat, b: nat, m: nat)
    requires a * m <= b * m < a * m + m
    ensures a == b
  {
    OneMore(a, m);
    OneMore(b, m);
    Cancel(a, b + 1, m);
    Cancel(b, a + 1, m);
  }

  /** Two numbers less than m apart with the same residue are equal. */
  lemma SameMod(a: nat, b: nat, m: nat)
    requires 0 < m && a <= b < a + m && a % m == b % m
    ensures a == b
  {
    DivMod(a, m);
    DivMod(b, m);
    SameQuotient(a / m, b / m, m);
  }

  lemma WrapAdd(a: nat, b: nat)
    ensures (a % U32 + b) % U32 == (a + b) % U32
  {
  }

  /** The wrapping comparison in pipewrite is true exactly when n bytes are waiting, and the one in
      piperead exactly when none are. */
  lemma FullIff(n: nat, r: Ring, stored: seq<Byte>, taken: nat)
    requires Holds(n, r, stored, taken)
    ensures Full(n, r) <==> |stored| == taken + n
    ensures Empty(r) <==> |stored| == taken
  {
    WrapAdd(taken, n);
    if Full(n, r) {
      SameMod(|stored|, taken + n, U32);
    }
    if Empty(r) {
      SameMod(taken, |stored|, U32);
    }
  }

  lemma PutOk(n: nat, r: Ring, stored: seq<Byte>, taken: nat, b: Byte)
    requires Holds(n, r, stored, taken) && !Full(n, r)
    ensures Holds(n, Put(n, r, b), stored + [b], taken)
  {
    FullIff(n, r, stored, taken);
    var w := |stored|;
    ModMod(w, U32, n);
    WrapAdd(w, 1);
    forall k: nat | taken <= k < w + 1 ensures Put(n, r, b).data[k % n] == (stored + [b])[k] {
      if k < w && k % n == w % n {
        SameMod(k, w, n);
        assert false;
      }
    }
  }

  lemma GetOk(n: nat, r: Ring, stored: seq<Byte>, taken: nat)
    requires Holds(n, r, stored, taken) && !Empty(r)
    ensures taken < |stored| && Head(n, r) == stored[taken]
    ensures Holds(n, Get(r), stored, taken + 1)
  {
    FullIff(n, r, stored, taken);
    ModMod(taken, U32, n);
    WrapAdd(taken, 1);
  }

  // ----- readers and writers

  datatype Pc =
    | Idle
    | WTop(buf: seq<Byte>, i: nat, owes: bool) // holds the lock, about to store buf[i]; owes: has stored since it took the lock
    | WAsleep(buf: seq<Byte>, i: nat)
    | WWoken(buf: seq<Byte>, i: nat)
    | RTop(n: int)                             // holds the lock, testing for an empty pipe
    | RAsleep(n: int)
    | RWoken(n: int)
    | RCopy(n: int, got: seq<Byte>)            // holds the lock, copying out

  /** The calls so far.  given: what each call of pipewrite was given, and owner: the process that made
      it; origin: for each stored byte, the call that stored it; call: the latest pipewrite call of each
      process; finished: the calls that have returned n; asked: the n of each process's latest
      piperead. */
  datatype Calls = Calls(given: seq<seq<Byte>>, owner: seq<nat>, origin: seq<nat>, call: seq<nat>, finished: set<nat>, asked: seq<int>)

  /** stored and taken are the histories of all bytes put into and got out of the pipe. */
  datatype State = State(ring: Ring, readopen: bool, writeopen: bool, lock: Option<nat>, pcs: seq<Pc>,
                         killed: set<nat>, stored: seq<Byte>, taken: seq<Byte>, calls: Calls)

  datatype Action =
    | StartWrite(p: nat, buf: seq<Byte>)
    | Store(p: nat)
    | WSleep(p: nat)
    | WResume(p: nat)
    | WAbort(p: nat)
    | WFinish(p: nat)
    | StartRead(p: nat, n: int)
    | RSleep(p: nat)
    | RResume(p: nat)
    | RAbort(p: nat)
    | RProceed(p: nat)
    | Take(p: nat)
    | RFinish(p: nat)
    | Kill(p: nat)
    | CloseWrite(p: nat)
    | CloseRead(p: nat)

  predicate IsWriter(pc: Pc) { pc.WTop? || pc.WAsleep? || pc.WWoken? }

  predicate IsReader(pc: Pc) { pc.RTop? || pc.RAsleep? || pc.RWoken? || pc.RCopy? }

  predicate HoldsLock(pc: Pc) { pc.WTop? || pc.RTop? || pc.RCopy? }

  /** What wakeup does to one process. */
  function Woken(pc: Pc, readers: bool, writers: bool): Pc {
    if pc.RAsleep? && readers then RWoken(pc.n)
    else if pc.WAsleep? && writers then WWoken(pc.buf, pc.i)
    else pc
  }

  function WakeReaders(pcs: seq<Pc>): (r: seq<Pc>)
    ensures |r| == |pcs| && forall q :: 0 <= q < |pcs| ==> r[q] == Woken(pcs[q], true, false)
  {
    seq(|pcs|, q requires 0 <= q < |pcs| => Woken(pcs[q], true, false))
  }

  function WakeWriters(pcs: seq<Pc>): (r: seq<Pc>)
    ensures |r| == |pcs| && forall q :: 0 <= q < |pcs| ==> r[q] == Woken(pcs[q], false, true)
  {
    seq(|pcs|, q requires 0 <= q < |pcs| => Woken(pcs[q], false, true))
  }

  predicate NoneIs(pcs: seq<Pc>, writers: bool) {
    forall q :: 0 <= q < |pcs| ==> !(if writers then IsWriter(pcs[q]) else IsReader(pcs[q]))
  }

  /** A process inside a call keeps its end of the pipe open, so an end is closed only when no
      process is in a call on it. */
  predicate Enabled(n: nat, s: State, a: Action) {
    Sized(n, s.ring) && a.p < |s.pcs| == |s.calls.call| == |s.calls.asked| &&
    var pc := s.pcs[a.p];
    match a
    case StartWrite(p, buf) => pc.Idle? && s.lock == None && s.writeopen
    case Store(p) => pc.WTop? && pc.i < |pc.buf| && !Full(n, s.ring)
    case WSleep(p) => pc.WTop? && pc.i < |pc.buf| && Full(n, s.ring) && s.readopen && p !in s.killed
    case WAbort(p) => pc.WTop? && pc.i < |pc.buf| && Full(n, s.ring) && (!s.readopen || p in s.killed)
    case WResume(p) => pc.WWoken? && s.lock == None
    case WFinish(p) => pc.WTop? && pc.i >= |pc.buf|
    case StartRead(p, k) => pc.Idle? && s.lock == None && s.readopen
    case RSleep(p) => pc.RTop? && Empty(s.ring) && s.writeopen && p !in s.killed
    case RAbort(p) => pc.RTop? && Empty(s.ring) && s.writeopen && p in s.killed
    case RResume(p) => pc.RWoken? && s.lock == None
    case RProceed(p) => pc.RTop? && !(Empty(s.ring) && s.writeopen)
    case Take(p) => pc.RCopy? && |pc.got| < pc.n && !Empty(s.ring)
    case RFinish(p) => pc.RCopy? && (|pc.got| >= pc.n || Empty(s.ring))
    case Kill(p) => true
    case CloseWrite(p) => s.lock == None && s.writeopen && NoneIs(s.pcs, true)
    case CloseRead(p) => s.lock == None && s.readopen && NoneIs(s.pcs, false)
  }

  function CallsWrite(c: Calls, p: nat, buf: seq<Byte>): Calls
    requires p < |c.call|
  {
    c.(given := c.given + [buf], owner := c.owner + [p], call := c.call[p := |c.given|])
  }

  function Step(n: nat, s: State, a: Action): State
    requires Enabled(n, s, a)
  {
    var pc := s.pcs[a.p];
    match a
    case StartWrite(p, buf) => s.(lock := Some(p), pcs := s.pcs[p := WTop(buf, 0, false)], calls := CallsWrite(s.calls, p, buf))
    case Store(p) => s.(ring := Put(n, s.ring, pc.buf[pc.i]), stored := s.stored + [pc.buf[pc.i]],
                        pcs := s.pcs[p := WTop(pc.buf, pc.i + 1, true)], calls := s.calls.(origin := s.calls.origin + [s.calls.call[p]]))
    case WSleep(p) => s.(lock := None, pcs := WakeReaders(s.pcs)[p := WAsleep(pc.buf, pc.i)])
    case WAbort(p) => s.(lock := None, pcs := s.pcs[p := Idle])
    case WResume(p) => s.(lock := Some(p), pcs := s.pcs[p := WTop(pc.buf, pc.i, false)])
    case WFinish(p) => s.(lock := None, pcs := WakeReaders(s.pcs)[p := Idle],
                          calls := s.calls.(finished := s.calls.finished + {s.calls.call[p]}))
    case StartRead(p, k) => s.(lock := Some(p), pcs := s.pcs[p := RTop(k)], calls := s.calls.(asked := s.calls.asked[p := k]))
    case RSleep(p) => s.(lock := None, pcs := s.pcs[p := RAsleep(pc.n)])
    case RAbort(p) => s.(lock := None, pcs := s.pcs[p := Idle])
    case RResume(p) => s.(lock := Some(p), pcs := s.pcs[p := RTop(pc.n)])
    case RProceed(p) => s.(pcs := s.pcs[p := RCopy(pc.n, [])])
    case Take(p) => s.(ring := Get(s.ring), taken := s.taken + [Head(n, s.ring)],
                       pcs := s.pcs[p := RCopy(pc.n, pc.got + [Head(n, s.ring)])])
    case RFinish(p) => s.(lock := None, pcs := WakeWriters(s.pcs)[p := Idle])
    case Kill(p) => s.(killed := s.killed + {p}, pcs := s.pcs[p := Woken(pc, true, true)])
    case CloseWrite(p) => s.(writeopen := false, pcs := WakeReaders(s.pcs))
    case CloseRead(p) => s.(readopen := false, pcs := WakeWriters(s.pcs))
  }

  predicate Init(n: nat, s: State) {
    && 0 < n < U32 && U32 % n == 0 && |s.ring.data| == n && s.ring.nread == 0 && s.ring.nwrite == 0
    && s.readopen && s.writeopen && s.lock == None && s.killed == {} && s.stored == [] && s.taken == []
    && s.calls.given == [] && s.calls.owner == [] && s.calls.origin == [] && s.calls.finished == {}
    && |s.calls.call| == |s.calls.asked| == |s.pcs|
    && forall q :: 0 <= q < |s.pcs| ==> s.pcs[q] == Idle
  }

  predicate Follows(n: nat, s: State, a: Action, t: State) {
    Enabled(n, s, a) && t == Step(n, s, a)
  }

  predicate IsRun(n: nat, run: seq<State>, acts: seq<Action>) {
    && |run| == |acts| + 1 && Init(n, run[0])
    && forall i: nat :: i < |acts| ==> Follows(n, run[i], acts[i], run[i + 1])
  }

  // ----- the queue over whole runs

  ghost predicate ProcOk(s: State, p: nat)
    requires p < |s.pcs|
  {
    var pc := s.pcs[p];
    && (HoldsLock(pc) <==> s.lock == Some(p))
    && (IsReader(pc) ==> s.readopen) && (IsWriter(pc) ==> s.writeopen)
    && (pc.RCopy? ==> pc.got == [] || (|pc.got| <= pc.n && EndsWith(s.taken, pc.got)))
    && (pc.WAsleep? ==> pc.i < |pc.buf|)
  }

  predicate EndsWith(s: seq<Byte>, suffix: seq<Byte>) {
    |suffix| <= |s| && s[|s| - |suffix|..] == suffix
  }

  ghost predicate Inv(n: nat, s: State) {
    && Holds(n, s.ring, s.stored, |s.taken|)
    && |s.taken| <= |s.stored| && s.taken == s.stored[..|s.taken|]
    && (s.lock.Some? ==> s.lock.value < |s.pcs|)
    && forall p: nat :: p < |s.pcs| ==> ProcOk(s, p)
  }

  lemma EndsWithMore(s: seq<Byte>, suffix: seq<Byte>, b: Byte)
    requires EndsWith(s, suffix)
    ensures EndsWith(s + [b], suffix + [b])
  {
  }

  lemma QueueKept(n: nat, s: State, a: Action)
    requires Inv(n, s) && Enabled(n, s, a)
    ensures var t := Step(n, s, a);
      Holds(n, t.ring, t.stored, |t.taken|) && |t.taken| <= |t.stored| && t.taken == t.stored[..|t.taken|]
  {
    hide ProcOk;
    if a.Store? {
      PutOk(n, s.ring, s.stored, |s.taken|, s.pcs[a.p].buf[s.pcs[a.p].i]);
    } else if a.Take? {
      GetOk(n, s.ring, s.stored, |s.taken|);
    }
  }

  lemma StepKeepsInv(n: nat, s: State, a: Action)
    requires Inv(n, s) && Enabled(n, s, a)
    ensures Inv(n, Step(n, s, a))
  {
    QueueKept(n, s, a);
    hide Holds, EndsWith, Put, Get, Head, Full, Empty;
    var t := Step(n, s, a);
    assert ProcOk(s, a.p);
    if a.Take? {
      TakeEnds(s, Head(n, s.ring), s.pcs[a.p].got);
    }
    forall q: nat | q < |t.pcs| ensures ProcOk(t, q) {
      assert ProcOk(s, q);
    }
  }

  lemma TakeEnds(s: State, b: Byte, got: seq<Byte>)
    requires got == [] || EndsWith(s.taken, got)
    ensures EndsWith(s.taken + [b], got + [b])
  {
    if got == [] {
      assert EndsWith(s.taken, []);
    }
    EndsWithMore(s.taken, got, b);
  }

  lemma {:induction false} RunInv(n: nat, run: seq<State>, acts: seq<Action>, k: nat)
    requires IsRun(n, run, acts) && k < |run|
    ensures Inv(n, run[k])
  {
    if k > 0 {
      RunInv(n, run, acts, k - 1);
      assert Follows(n, run[k - 1], acts[k - 1], run[k - 1 + 1]);
      StepKeepsInv(n, run[k - 1], acts[k - 1]);
    }
  }

  /** The pipe is a bounded FIFO, also when the counters wrap: in every reachable state the bytes
      read are a prefix of the bytes stored and at most n bytes are waiting. */
  lemma BoundedFifo(n: nat, run: seq<State>, acts: seq<Action>, k: nat)
    requires IsRun(n, run, acts) && k < |run|
    ensures run[k].taken <= run[k].stored
    ensures |run[k].stored| - |run[k].taken| <= n
  {
    RunInv(n, run, acts, k);
  }

  /** The bytes got are the piece of the stream that ends at the last byte taken. */
  predicate LastPiece(s: State, got: seq<Byte>) {
    var end := |s.taken|;
    |got| <= end <= |s.stored| && got == s.stored[end - |got|..end]
  }

  /** One piperead returns one contiguous piece of the stream, no longer than asked for. */
  lemma ReadIsContiguous(n: nat, run: seq<State>, acts: seq<Action>, k: nat, p: nat)
    requires IsRun(n, run, acts) && k < |run| && p < |run[k].pcs| && run[k].pcs[p].RCopy?
    ensures LastPiece(run[k], run[k].pcs[p].got)
    ensures run[k].pcs[p].got == [] || |run[k].pcs[p].got| <= run[k].pcs[p].n
  {
    RunInv(n, run, acts, k);
    var s := run[k];
    assert ProcOk(s, p);
    var got := s.pcs[p].got;
    if got != [] {
      assert s.taken[|s.taken| - |got|..] == s.stored[|s.taken| - |got|..|s.taken|];
    }
  }

  // ----- every call writes its own bytes, in order and once

  /** The bytes that call c has stored. */
  function StoredBy(stored: seq<Byte>, origin: seq<nat>, c: nat): seq<Byte>
    requires |stored| == |origin|
  {
    if |stored| == 0 then []
    else
      var m := |stored| - 1;
      StoredBy(stored[..m], origin[..m], c) + if origin[m] == c then [stored[m]] else []
  }

  lemma StoredMore(stored: seq<Byte>, origin: seq<nat>, c: nat, b: Byte, d: nat)
    requires |stored| == |origin|
    ensures StoredBy(stored + [b], origin + [d], c) == StoredBy(stored, origin, c) + if c == d then [b] else []
  {
    assert (stored + [b])[..|stored|] == stored && (origin + [d])[..|origin|] == origin;
  }

  lemma {:induction false} StoredNone(stored: seq<Byte>, origin: seq<nat>, c: nat)
    requires |stored| == |origin| && c !in origin
    ensures StoredBy(stored, origin, c) == []
    decreases |stored|
  {
    if |stored| > 0 {
      StoredNone(stored[..|stored| - 1], origin[..|origin| - 1], c);
    }
  }

  predicate CallOk(s: State, c: nat)
    requires |s.calls.origin| == |s.stored| && c < |s.calls.given|
  {
    var mine := StoredBy(s.stored, s.calls.origin, c);
    mine <= s.calls.given[c] && (c in s.calls.finished ==> mine == s.calls.given[c])
  }

  /** A process in pipewrite has stored the first i bytes of what it was given. */
  predicate WriterOk(s: State, p: nat)
    requires |s.calls.origin| == |s.stored| && p < |s.pcs| == |s.calls.call|
  {
    var pc, c := s.pcs[p], s.calls.call[p];
    IsWriter(pc) ==>
      && c < |s.calls.given| == |s.calls.owner| && s.calls.owner[c] == p && c !in s.calls.finished
      && pc.buf == s.calls.given[c] && pc.i <= |pc.buf| && StoredBy(s.stored, s.calls.origin, c) == pc.buf[..pc.i]
  }

  /** One in piperead still wants what it asked for, and begins to copy only when there is a byte or the
      write end is closed. */
  predicate ReaderOk(s: State, p: nat)
    requires p < |s.pcs| == |s.calls.asked|
  {
    && (IsReader(s.pcs[p]) ==> s.pcs[p].n == s.calls.asked[p])
    && (s.pcs[p].RCopy? && s.pcs[p].got == [] ==> !(Empty(s.ring) && s.writeopen))
  }

  ghost predicate CallsOk(s: State) {
    && |s.calls.origin| == |s.stored| && |s.calls.owner| == |s.calls.given| && |s.pcs| == |s.calls.call| == |s.calls.asked|
    && (forall k :: 0 <= k < |s.calls.origin| ==> s.calls.origin[k] < |s.calls.given|)
    && (forall c :: c in s.calls.finished ==> c < |s.calls.given|)
    && (forall c: nat :: c < |s.calls.given| ==> CallOk(s, c))
    && (forall p: nat :: p < |s.pcs| ==> WriterOk(s, p))
    && (forall p: nat :: p < |s.pcs| ==> ReaderOk(s, p))
  }

  lemma CallKept(n: nat, s: State, a: Action, c: nat)
    requires CallsOk(s) && Enabled(n, s, a) && c < |Step(n, s, a).calls.given|
    ensures |Step(n, s, a).calls.origin| == |Step(n, s, a).stored| && CallOk(Step(n, s, a), c)
  {
    hide ReaderOk, Put, Get, Head, Full, Empty;
    assert WriterOk(s, a.p);
    if c < |s.calls.given| {
      assert CallOk(s, c);
    } else {
      StoredNone(s.stored, s.calls.origin, c);
    }
    if a.Store? {
      StoredMore(s.stored, s.calls.origin, c, s.pcs[a.p].buf[s.pcs[a.p].i], s.calls.call[a.p]);
    }
  }

  lemma WriterKept(n: nat, s: State, a: Action, p: nat)
    requires CallsOk(s) && Enabled(n, s, a) && p < |s.pcs|
    ensures |Step(n, s, a).calls.origin| == |Step(n, s, a).stored| && WriterOk(Step(n, s, a), p)
  {
    hide Put, Get, Head, Full, Empty, ReaderOk, CallOk, StoredBy;
    assert WriterOk(s, a.p) && WriterOk(s, p);
    if a.Store? && IsWriter(s.pcs[p]) {
      StoredMore(s.stored, s.calls.origin, s.calls.call[p], s.pcs[a.p].buf[s.pcs[a.p].i], s.calls.call[a.p]);
    }
    if a.StartWrite? && p == a.p {
      StoredNone(s.stored, s.calls.origin, |s.calls.given|);
    }
  }

  lemma ReaderKept(n: nat, s: State, a: Action, p: nat)
    requires Inv(n, s) && CallsOk(s) && Enabled(n, s, a) && p < |s.pcs|
    ensures ReaderOk(Step(n, s, a), p)
  {
    hide Holds, Put, Get, Head, Full, CallOk, WriterOk, EndsWith;
    assert ReaderOk(s, p) && ProcOk(s, p) && ProcOk(s, a.p);
  }

  lemma StepKeepsCalls(n: nat, s: State, a: Action)
    requires Inv(n, s) && CallsOk(s) && Enabled(n, s, a)
    ensures CallsOk(Step(n, s, a))
  {
    hide StoredBy, CallOk, ReaderOk, Put, Get, Head, Full, Empty, Inv;
    var t := Step(n, s, a);
    assert WriterOk(s, a.p);
    forall c: nat | c < |t.calls.given| ensures |t.calls.origin| == |t.stored| && CallOk(t, c) {
      CallKept(n, s, a, c);
    }
    forall p: nat | p < |t.pcs| ensures |t.calls.origin| == |t.stored| && WriterOk(t, p) && ReaderOk(t, p) {
      WriterKept(n, s, a, p);
      ReaderKept(n, s, a, p);
    }
  }

  lemma {:induction false} RunCalls(n: nat, run: seq<State>, acts: seq<Action>, k: nat)
    requires IsRun(n, run, acts) && k < |run|
    ensures CallsOk(run[k])
  {
    hide CallsOk, Inv, Step;
    if k > 0 {
      RunCalls(n, run, acts, k - 1);
      RunInv(n, run, acts, k - 1);
      assert Follows(n, run[k - 1], acts[k - 1], run[k - 1 + 1]);
      StepKeepsCalls(n, run[k - 1], acts[k - 1]);
    } else {
      InitCalls(n, run[0]);
    }
  }

  lemma InitCalls(n: nat, s: State)
    requires Init(n, s)
    ensures CallsOk(s)
  {
  }

  /** In every state of every run, what a call of pipewrite has put into the stream is an initial piece
      of what it was given, however often it slept and whatever others wrote in between; it is all of
      it once the call has returned n, and the first i bytes while it is at byte i. */
  lemma WritesInOrder(n: nat, run: seq<State>, acts: seq<Action>, k: nat, c: nat)
    requires IsRun(n, run, acts) && k < |run| && c < |run[k].calls.given|
    ensures |run[k].calls.origin| == |run[k].stored|
    ensures StoredBy(run[k].stored, run[k].calls.origin, c) <= run[k].calls.given[c]
    ensures c in run[k].calls.finished ==> StoredBy(run[k].stored, run[k].calls.origin, c) == run[k].calls.given[c]
    ensures |run[k].pcs| == |run[k].calls.call| && forall p: nat :: p < |run[k].pcs| ==> WriterOk(run[k], p)
  {
    RunCalls(n, run, acts, k);
    assert CallOk(run[k], c);
  }

  /** When piperead returns it has as many bytes as were asked for, or has emptied the pipe; and it has
      none although some were asked for only at the end of the stream: the write end is closed and
      every byte was read. */
  lemma ReadReturns(n: nat, run: seq<State>, acts: seq<Action>, k: nat)
    requires IsRun(n, run, acts) && k < |acts| && acts[k].RFinish?
    ensures acts[k].p < |run[k].pcs| == |run[k].calls.asked| && run[k].pcs[acts[k].p].RCopy?
    ensures var s := run[k]; var got, asked := s.pcs[acts[k].p].got, s.calls.asked[acts[k].p];
      && (|got| == (if asked > 0 then asked else 0) || s.taken == s.stored)
      && (asked > 0 && got == [] ==> !s.writeopen && s.taken == s.stored)
  {
    RunInv(n, run, acts, k);
    RunCalls(n, run, acts, k);
    assert Follows(n, run[k], acts[k], run[k + 1]);
    var s, p := run[k], acts[k].p;
    assert ProcOk(s, p) && ReaderOk(s, p);
    FullIff(n, s.ring, s.stored, |s.taken|);
  }

  // ----- nobody is left asleep

  predicate WillWakeReaders(s: State) {
    s.lock.Some? && s.lock.value < |s.pcs| && s.pcs[s.lock.value].WTop? && s.pcs[s.lock.value].owes
  }

  predicate WillWakeWriters(s: State) {
    s.lock.Some? && s.lock.value < |s.pcs| && s.pcs[s.lock.value].RCopy?
  }

  predicate SleepOk(n: nat, s: State, p: nat)
    requires p < |s.pcs|
  {
    && (s.pcs[p].RAsleep? ==> (Empty(s.ring) && s.writeopen) || WillWakeReaders(s))
    && (s.pcs[p].WAsleep? ==> (Full(n, s.ring) && s.readopen) || WillWakeWriters(s))
  }

  /** No reader is asleep on a pipe it could read from and no writer on one it could write to,
      unless the process inside the lock is going to wake it. */
  ghost predicate NobodyStranded(n: nat, s: State) {
    forall p: nat :: p < |s.pcs| ==> SleepOk(n, s, p)
  }

  /** A writer killed after storing bytes leaves pipewrite without waking the readers. */
  predicate Strands(s: State, a: Action) {
    a.WAbort? && a.p < |s.pcs| && s.pcs[a.p].WTop? && s.pcs[a.p].owes &&
    exists q :: 0 <= q < |s.pcs| && s.pcs[q].RAsleep?
  }

  lemma FillKept(n: nat, s: State, a: Action)
    requires Inv(n, s) && Enabled(n, s, a)
    ensures !a.Store? && !a.Take? ==> Step(n, s, a).ring == s.ring
    ensures Full(n, s.ring) ==> !Empty(s.ring)
  {
    hide ProcOk;
    FullIff(n, s.ring, s.stored, |s.taken|);
  }

  lemma StepKeepsAwake(n: nat, s: State, a: Action)
    requires Inv(n, s) && NobodyStranded(n, s) && Enabled(n, s, a) && !Strands(s, a)
    ensures NobodyStranded(n, Step(n, s, a))
  {
    FillKept(n, s, a);
    hide Holds, EndsWith, Put, Get, Head, Full, Empty;
    var t := Step(n, s, a);
    assert ProcOk(s, a.p);
    forall q: nat | q < |t.pcs| ensures SleepOk(n, t, q) {
      assert ProcOk(s, q) && SleepOk(n, s, q);
    }
  }

  /** In the step machine stranding has exactly one cause: a writer that gives up because it was
      killed, after storing bytes since it last took the lock, while a reader is asleep. */
  lemma StrandedIff(n: nat, s: State, a: Action)
    requires Inv(n, s) && NobodyStranded(n, s) && Enabled(n, s, a)
    ensures NobodyStranded(n, Step(n, s, a)) <==> !Strands(s, a)
  {
    if Strands(s, a) {
      var q: nat :| q < |s.pcs| && s.pcs[q].RAsleep?;
      FillKept(n, s, a);
      assert !SleepOk(n, Step(n, s, a), q);
    } else {
      StepKeepsAwake(n, s, a);
    }
  }

  lemma {:induction false} RunAwake(n: nat, run: seq<State>, acts: seq<Action>, k: nat)
    requires IsRun(n, run, acts) && k < |run|
    requires forall i: nat :: i < k ==> !Strands(run[i], acts[i])
    ensures NobodyStranded(n, run[k])
  {
    if k > 0 {
      RunAwake(n, run, acts, k - 1);
      RunInv(n, run, acts, k - 1);
      assert Follows(n, run[k - 1], acts[k - 1], run[k - 1 + 1]);
      StepKeepsAwake(n, run[k - 1], acts[k - 1]);
    }
  }

  /** In a run in which no writer gives up that way, whenever the lock is free no reader is
      asleep on a pipe that has bytes or whose write end is closed, and no writer on a pipe that
      has room or whose read end is closed. */
  lemma NoStrandedSleeper(n: nat, run: seq<State>, acts: seq<Action>, k: nat, p: nat)
    requires IsRun(n, run, acts) && k < |run| && p < |run[k].pcs| && run[k].lock == None
    requires forall i: nat :: i < k ==> !Strands(run[i], acts[i])
    ensures var s := run[k];
      && (s.pcs[p].RAsleep? ==> s.taken == s.stored && s.writeopen)
      && (s.pcs[p].WAsleep? ==> |s.stored| - |s.taken| == n && s.readopen)
  {
    RunAwake(n, run, acts, k);
    RunInv(n, run, acts, k);
    assert SleepOk(n, run[k], p);
    FullIff(n, run[k].ring, run[k].stored, |run[k].taken|);
  }

  /** A reader sleeps on an empty one-byte pipe; a writer fills it and, killed while the pipe is
      full, returns. */
  function Stranding(k: nat): State {
    var s0 := State(Ring([0], 0, 0), true, true, None, [Idle, Idle], {}, [], [], Calls([], [], [], [0, 0], {}, [0, 0]));
    var s1 := s0.(calls := s0.calls.(asked := [1, 0]));
    var s3 := s1.(calls := s1.calls.(given := [[7, 8]], owner := [1]));
    var full := s3.(ring := Ring([7], 0, 1), stored := [7], calls := s3.calls.(origin := [0]));
    if k == 0 then s0
    else if k == 1 then s1.(lock := Some(0), pcs := [RTop(1), Idle])
    else if k == 2 then s1.(pcs := [RAsleep(1), Idle])
    else if k == 3 then s3.(lock := Some(1), pcs := [RAsleep(1), WTop([7, 8], 0, false)])
    else if k == 4 then full.(lock := Some(1), pcs := [RAsleep(1), WTop([7, 8], 1, true)])
    else if k == 5 then full.(lock := Some(1), pcs := [RAsleep(1), WTop([7, 8], 1, true)], killed := {1})
    else full.(pcs := [RAsleep(1), Idle], killed := {1})
  }

  lemma StrandingStarts()
    ensures Init(1, Stranding(0))
    ensures Follows(1, Stranding(0), StartRead(0, 1), Stranding(1))
    ensures Follows(1, Stranding(1), RSleep(0), Stranding(2))
    ensures Follows(1, Stranding(2), StartWrite(1, [7, 8]), Stranding(3))
  {
  }

  lemma StrandingStores()
    ensures Follows(1, Stranding(3), Store(1), Stranding(4))
  {
  }

  lemma StrandingEnds()
    ensures Follows(1, Stranding(4), Kill(1), Stranding(5))
    ensures Follows(1, Stranding(5), WAbort(1), Stranding(6))
  {
  }

  /** The promise does fail without the condition: the lock is free, a byte is waiting, and the
      reader sleeps on. */
  lemma KilledWriterStrandsReader() returns (run: seq<State>, acts: seq<Action>)
    ensures IsRun(1, run, acts)
    ensures var s := run[|acts|]; |s.pcs| == 2 && s.lock == None && s.pcs[0].RAsleep? && s.stored == [7] && s.taken == []
  {
    StrandingStarts();
    StrandingStores();
    StrandingEnds();
    acts := [StartRead(0, 1), RSleep(0), StartWrite(1, [7, 8]), Store(1), Kill(1), WAbort(1)];
    run := seq(7, (k: nat) => Stranding(k));
    assert Stranding(6).pcs == [RAsleep(1), Idle];
  }

  // ----- the two copying loops

  class Buffer {
    const n: nat
    const data: array<Byte>
    var nread: nat
    var nwrite: nat
    ghost var stored: seq<Byte>
    ghost var taken: nat

    ghost predicate Valid()
      reads this, data
    {
      Holds(n, Ring(data[..], nread, nwrite), stored, taken)
    }

    /** The bytes waiting in the pipe. */
    ghost function Contents(): seq<Byte>
      requires Valid()
      reads this, data
    {
      stored[taken..]
    }

    constructor (size: nat)
      requires 0 < size < U32 && U32 % size == 0
      ensures Valid() && n == size && Contents() == [] && fresh(data)
    {
      n := size;
      data := new Byte[size](_ => 0);
      nread, nwrite, stored, taken := 0, 0, [], 0;
    }

    method StoreByte(b: Byte)
      requires Valid() && nwrite != (nread + n) % U32
      modifies data, `nwrite, `stored
      ensures Valid() && stored == old(stored) + [b]
    {
      ghost var r := Ring(data[..], nread, nwrite);
      PutOk(n, r, stored, taken, b);
      data[nwrite % n] := b;
      nwrite := (nwrite + 1) % U32;
      stored := stored + [b];
      assert Ring(data[..], nread, nwrite) == Put(n, r, b);
    }

    /** pipewrite between taking the lock and sleeping or returning: stores bytes of addr from i on
        until they are all stored or the pipe is full. */
    method Fill(addr: seq<Byte>, i: nat) returns (j: nat)
      requires Valid() && i <= |addr|
      modifies data, `nwrite, `stored
      ensures Valid() && i <= j <= |addr|
      ensures Contents() == old(Contents()) + addr[i..j]
      ensures j == |addr| || |Contents()| == n
    {
      j := i;
      ghost var was := stored;
      while j < |addr| && nwrite != (nread + n) % U32
        invariant Valid() && i <= j <= |addr| && stored == was + addr[i..j] && taken == old(taken)
      {
        StoreByte(addr[j]);
        j := j + 1;
      }
      FullIff(n, Ring(data[..], nread, nwrite), stored, taken);
    }

    /** The copying loop of piperead: takes the first k waiting bytes, or all when there are fewer. */
    method Drain(k: int) returns (got: seq<Byte>)
      requires Valid()
      modifies `nread, `taken
      ensures Valid()
      ensures got + Contents() == old(Contents())
      ensures |got| == if k <= 0 then 0 else if k <= |old(Contents())| then k else |old(Contents())|
    {
      got := [];
      var i := 0;
      ghost var was := taken;
      while i < k
        invariant Valid() && 0 <= i && (k <= 0 ==> i == 0) && (k > 0 ==> i <= k)
        invariant taken == was + i && |got| == i && got == stored[was..taken]
      {
        ghost var r := Ring(data[..], nread, nwrite);
        FullIff(n, r, stored, taken);
        if nread == nwrite {
          break;
        }
        GetOk(n, r, stored, taken);
        got := got + [data[nread % n]];
        nread := (nread + 1) % U32;
        taken := taken + 1;
        i := i + 1;
      }
    }
  }
}
