/** sleep and wakeup (proc.c) over all interleavings, one lock operation per step, and the
    sleep-locks (sleeplock.c) built on them.

    A process waits for a condition that is protected by a spin-lock lk.  sleep takes
    ptable.lock before it gives up lk; wakeup takes ptable.lock while its caller holds lk.
    The machine below is any mix of such waiters and signallers on one channel. */
module Sleep {
  import opened Options

  datatype Pc =
    | Out                    // not using the channel
    | Inside(owes: bool)     // holds lk; owes: has made the condition true and not yet called wakeup
    | WantPt                 // in sleep: holds lk, acquiring ptable.lock
    | Both                   // in sleep: holds both locks
    | OnlyPt                 // in sleep: has released lk, about to become SLEEPING
    | Asleep
    | Runnable               // woken, not yet scheduled
    | Resumed                // scheduled again, still holding ptable.lock
    | Again                  // in sleep: ptable.lock released, acquiring lk again
    | WakeWantPt             // in wakeup: holds lk, acquiring ptable.lock
    | WakeHasPt              // in wakeup: holds both locks

  datatype State = State(cond: bool, lk: Option<nat>, pt: Option<nat>, pcs: seq<Pc>)

  datatype Action =
    | Enter(p: nat)          // acquire(lk), first time or after a wakeup
    | Change(p: nat, cond: bool)
    | Leave(p: nat)
    | StartSleep(p: nat)
    | TakePt(p: nat)
    | DropLk(p: nat)
    | FallAsleep(p: nat)
    | Schedule(p: nat)
    | DropPt(p: nat)
    | StartWake(p: nat)
    | WakeTakePt(p: nat)
    | WakeAll(p: nat)
    | Kill(p: nat)           // kill makes a sleeping process runnable

  function Set(s: State, p: nat, pc: Pc): State
    requires p < |s.pcs|
  {
    s.(pcs := s.pcs[p := pc])
  }

  /** wakeup1 */
  function WakeUp(pcs: seq<Pc>): (r: seq<Pc>)
    ensures |r| == |pcs| && forall i :: 0 <= i < |r| ==> r[i] == if pcs[i] == Asleep then Runnable else pcs[i]
  {
    seq(|pcs|, i requires 0 <= i < |pcs| => if pcs[i] == Asleep then Runnable else pcs[i])
  }

  /** The condition is changed only under lk, a process sleeps only when it has just seen the
      condition false, and one that has made it true calls wakeup before it leaves or sleeps. */
  predicate Next(s: State, a: Action, t: State) {
    a.p < |s.pcs| &&
    var pc := s.pcs[a.p];
    match a
    case Enter(p) => (pc.Out? || pc.Again?) && s.lk == None && t == Set(s, p, Inside(false)).(lk := Some(p))
    case Change(p, c) => pc.Inside? && t == Set(s, p, Inside(pc.owes || c)).(cond := c)
    case Leave(p) => pc == Inside(false) && t == Set(s, p, Out).(lk := None)
    case StartSleep(p) => pc == Inside(false) && !s.cond && t == Set(s, p, WantPt)
    case TakePt(p) => pc.WantPt? && s.pt == None && t == Set(s, p, Both).(pt := Some(p))
    case DropLk(p) => pc.Both? && t == Set(s, p, OnlyPt).(lk := None)
    case FallAsleep(p) => pc.OnlyPt? && t == Set(s, p, Asleep).(pt := None)
    case Schedule(p) => pc.Runnable? && s.pt == None && t == Set(s, p, Resumed).(pt := Some(p))
    case DropPt(p) => pc.Resumed? && t == Set(s, p, Again).(pt := None)
    case StartWake(p) => pc.Inside? && t == Set(s, p, WakeWantPt)
    case WakeTakePt(p) => pc.WakeWantPt? && s.pt == None && t == Set(s, p, WakeHasPt).(pt := Some(p))
    case WakeAll(p) => pc.WakeHasPt? && t == s.(pt := None, pcs := WakeUp(s.pcs[p := Inside(false)]))
    case Kill(p) => pc.Asleep? && s.pt == None && t == Set(s, p, Runnable)
  }

  ghost predicate CanStep(s: State, t: State) {
    exists a :: Next(s, a, t)
  }

  function Init(n: nat, cond: bool): State {
    State(cond, None, None, seq(n, i => Out))
  }

  ghost predicate IsRun(run: seq<State>) {
    && |run| > 0 && run[0] == Init(|run[0].pcs|, run[0].cond)
    && forall i :: 0 <= i < |run| - 1 ==> CanStep(run[i], run[i + 1])
  }

  // ----- the invariant

  predicate HoldsLk(pc: Pc) {
    pc.Inside? || pc.WantPt? || pc.Both? || pc.WakeWantPt? || pc.WakeHasPt?
  }

  predicate HoldsPt(pc: Pc) {
    pc.Both? || pc.OnlyPt? || pc.Resumed? || pc.WakeHasPt?
  }

  /** Will call wakeup before it gives up lk. */
  predicate WillWake(pc: Pc) {
    pc == Inside(true) || pc.WakeWantPt? || pc.WakeHasPt?
  }

  predicate SomeoneWillWake(s: State) {
    s.lk.Some? && s.lk.value < |s.pcs| && WillWake(s.pcs[s.lk.value])
  }

  predicate ProcOk(s: State, p: nat)
    requires p < |s.pcs|
  {
    && (HoldsLk(s.pcs[p]) <==> s.lk == Some(p))
    && (HoldsPt(s.pcs[p]) <==> s.pt == Some(p))
    && (s.pcs[p].WantPt? || s.pcs[p].Both? ==> !s.cond)
    && (s.cond && (s.pcs[p].OnlyPt? || s.pcs[p].Asleep?) ==> SomeoneWillWake(s))
  }

  ghost predicate Inv(s: State) {
    && (s.lk.Some? ==> s.lk.value < |s.pcs|)
    && forall p: nat :: p < |s.pcs| ==> ProcOk(s, p)
  }

  lemma StepKeepsInv(s: State, a: Action, t: State)
    requires Inv(s) && Next(s, a, t)
    ensures Inv(t) && |t.pcs| == |s.pcs|
  {
    assert ProcOk(s, a.p);
    forall q: nat | q < |t.pcs| ensures ProcOk(t, q) {
      assert ProcOk(s, q);
    }
  }

  lemma {:induction false} RunInv(run: seq<State>, k: nat)
    requires IsRun(run) && k < |run|
    ensures Inv(run[k])
  {
    if k > 0 {
      RunInv(run, k - 1);
      assert CanStep(run[k - 1], run[k - 1 + 1]);
      var a :| Next(run[k - 1], a, run[k]);
      StepKeepsInv(run[k - 1], a, run[k]);
    }
  }

  /** No wakeup is lost: whenever lk is free, no process is asleep, or committed to falling
      asleep, while the condition holds. */
  lemma NoLostWakeup(run: seq<State>, k: nat, p: nat)
    requires IsRun(run) && k < |run| && p < |run[k].pcs| && run[k].lk == None
    requires run[k].pcs[p].Asleep? || run[k].pcs[p].OnlyPt?
    ensures !run[k].cond
  {
    RunInv(run, k);
    assert ProcOk(run[k], p);
  }

  /** At most one process is inside lk, and at most one inside ptable.lock. */
  lemma LocksExclude(run: seq<State>, k: nat, p: nat, q: nat)
    requires IsRun(run) && k < |run| && p < |run[k].pcs| && q < |run[k].pcs| && p != q
    ensures !(HoldsLk(run[k].pcs[p]) && HoldsLk(run[k].pcs[q]))
    ensures !(HoldsPt(run[k].pcs[p]) && HoldsPt(run[k].pcs[q]))
  {
    RunInv(run, k);
    assert ProcOk(run[k], p) && ProcOk(run[k], q);
  }
}

/** Sleep-locks: acquiresleep, releasesleep and holdingsleep as a client of module Sleep. */
module SleepLock {
  import opened Options
  import opened Sleep

  datatype Phase =
    | Idle
    | Acquiring(pc: Pc)      // in acquiresleep, somewhere in its use of lk
    | Got                    // has set locked, still holds lk
    | Holder                 // owns the sleep-lock
    | Releasing              // in releasesleep, holds lk, before `locked = 0`
    | Waking(pc: Pc)         // in releasesleep, after `locked = 0`

  datatype LState = LState(locked: bool, owner: Option<nat>, lk: Option<nat>, pt: Option<nat>, procs: seq<Phase>)

  function PcOf(ph: Phase): Pc {
    match ph
    case Idle => Out
    case Acquiring(pc) => pc
    case Got => Inside(false)
    case Holder => Out
    case Releasing => Inside(false)
    case Waking(pc) => pc
  }

  /** The waiting protocol underneath: the condition is that the lock is not held. */
  function Abs(s: LState): State {
    State(!s.locked, s.lk, s.pt, seq(|s.procs|, i requires 0 <= i < |s.procs| => PcOf(s.procs[i])))
  }

  datatype LAction =
    | Wait(a: Action)        // a step of sleep, wakeup, acquire(lk) or kill
    | Take(p: nat)           // `lk->locked = 1; lk->pid = ...`
    | Finish(p: nat)         // release(lk), the lock acquired
    | StartRelease(p: nat)   // releasesleep: acquire(lk)
    | Unlock(p: nat)         // `lk->locked = 0; lk->pid = 0`
    | Done(p: nat)           // releasesleep: release(lk)

  /** The steps that acquiresleep and releasesleep share with every user of sleep. */
  predicate WaitStep(s: LState, a: Action, t: LState) {
    && Next(Abs(s), a, Abs(t)) && t.locked == s.locked && t.owner == s.owner && |t.procs| == |s.procs|
    && (a.Enter? ==> s.procs[a.p].Idle? || s.procs[a.p].Acquiring?)
    && (a.StartWake? ==> s.procs[a.p].Waking?) && !a.Change? && !a.Leave?
    && (a.StartSleep? ==> s.procs[a.p].Acquiring?)
    && (forall q :: 0 <= q < |s.procs| ==>
          t.procs[q] == if PcOf(t.procs[q]) == PcOf(s.procs[q]) then s.procs[q]
                        else if s.procs[q].Waking? then Waking(PcOf(t.procs[q]))
                        else Acquiring(PcOf(t.procs[q])))
  }

  predicate LNext(s: LState, a: LAction, t: LState) {
    match a
    case Wait(b) => b.p < |s.procs| && WaitStep(s, b, t)
    case Take(p) =>
      p < |s.procs| && s.procs[p] == Acquiring(Inside(false)) && !s.locked &&
      t == s.(locked := true, owner := Some(p), procs := s.procs[p := Got])
    case Finish(p) =>
      p < |s.procs| && s.procs[p].Got? && t == s.(lk := None, procs := s.procs[p := Holder])
    case StartRelease(p) =>
      p < |s.procs| && s.procs[p].Holder? && s.lk == None &&
      t == s.(lk := Some(p), procs := s.procs[p := Releasing])
    case Unlock(p) =>
      p < |s.procs| && s.procs[p].Releasing? &&
      t == s.(locked := false, owner := None, procs := s.procs[p := Waking(Inside(true))])
    case Done(p) =>
      p < |s.procs| && s.procs[p] == Waking(Inside(false)) && t == s.(lk := None, procs := s.procs[p := Idle])
  }

  ghost predicate LCanStep(s: LState, t: LState) {
    exists a :: LNext(s, a, t)
  }

  function LInit(n: nat): LState {
    LState(false, None, None, None, seq(n, i => Idle))
  }

  ghost predicate LIsRun(run: seq<LState>) {
    && |run| > 0 && run[0] == LInit(|run[0].procs|)
    && forall i :: 0 <= i < |run| - 1 ==> LCanStep(run[i], run[i + 1])
  }

  /** Between `locked = 1` and `locked = 0`. */
  predicate Owns(ph: Phase) {
    ph.Got? || ph.Holder? || ph.Releasing?
  }

  ghost predicate LInv(s: LState) {
    && Inv(Abs(s))
    && (forall p: nat :: p < |s.procs| ==> (Owns(s.procs[p]) <==> s.locked && s.owner == Some(p)))
    && (s.locked <==> s.owner.Some?) && (s.locked ==> s.owner.value < |s.procs|)
  }

  function AbsAction(a: LAction): Action {
    match a
    case Wait(b) => b
    case Take(p) => Change(p, false)
    case Finish(p) => Leave(p)
    case StartRelease(p) => Enter(p)
    case Unlock(p) => Change(p, true)
    case Done(p) => Leave(p)
  }

  /** Every step of a sleep-lock is a step of the waiting protocol. */
  lemma Refines(s: LState, a: LAction, t: LState)
    requires LNext(s, a, t)
    ensures Next(Abs(s), AbsAction(a), Abs(t))
  {
    if !a.Wait? {
      var p := AbsAction(a).p;
      assert Abs(t).pcs == Abs(s).pcs[p := PcOf(t.procs[p])];
    }
  }

  lemma LStepKeepsInv(s: LState, a: LAction, t: LState)
    requires LInv(s) && LNext(s, a, t)
    ensures LInv(t)
  {
    Refines(s, a, t);
    StepKeepsInv(Abs(s), AbsAction(a), Abs(t));
    if a.Wait? {
      forall p: nat | p < |t.procs| ensures Owns(t.procs[p]) <==> t.locked && t.owner == Some(p) {
        OwnsSame(s, a.a, t, p);
      }
    }
  }

  lemma OwnsSame(s: LState, a: Action, t: LState, p: nat)
    requires LInv(s) && a.p < |s.procs| && WaitStep(s, a, t) && p < |t.procs|
    ensures Owns(t.procs[p]) <==> Owns(s.procs[p])
  {
    assert Abs(t).pcs[p] == PcOf(t.procs[p]) && Abs(s).pcs[p] == PcOf(s.procs[p]);
    assert t.procs[p] == if PcOf(t.procs[p]) == PcOf(s.procs[p]) then s.procs[p]
                         else if s.procs[p].Waking? then Waking(PcOf(t.procs[p])) else Acquiring(PcOf(t.procs[p]));
  }

  lemma {:induction false} LRunInv(run: seq<LState>, k: nat)
    requires LIsRun(run) && k < |run|
    ensures LInv(run[k])
  {
    if k == 0 {
      var n := |run[0].procs|;
      assert Abs(LInit(n)).pcs == seq(n, i => Out);
    } else {
      LRunInv(run, k - 1);
      assert LCanStep(run[k - 1], run[k - 1 + 1]);
      var a :| LNext(run[k - 1], a, run[k]);
      LStepKeepsInv(run[k - 1], a, run[k]);
    }
  }

  /** In every reachable state the lock has at most one owner, the one its pid field names, and
      none when it is not locked; and whenever lk is free a waiter asleep means it is locked. */
  lemma SleepLockSafe(run: seq<LState>, k: nat)
    requires LIsRun(run) && k < |run|
    ensures var s := run[k];
      && (forall p: nat :: p < |s.procs| ==> (Owns(s.procs[p]) <==> s.locked && s.owner == Some(p)))
      && (s.lk == None ==> forall p: nat :: p < |s.procs| && s.procs[p] == Acquiring(Asleep) ==> s.locked)
  {
    LRunInv(run, k);
    var s := run[k];
    forall p: nat | p < |s.procs| && s.procs[p] == Acquiring(Asleep) && s.lk == None ensures s.locked {
      assert Abs(s).pcs[p] == Asleep;
      assert ProcOk(Abs(s), p);
    }
  }
}
