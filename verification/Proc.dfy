/** The process table (proc.c) as a step machine: fork, exit, wait, the per-CPU schedulers,
    sleep, wakeup, yield and kill over all interleavings.

    One critical section of ptable.lock is one step.  sched hands the lock to the CPU's scheduler,
    and the scheduler hands it to the process it picks, so the lock's holder is a CPU. */
module Proc {
  import opened Options

  datatype RunState = Unused | Embryo | Sleeping | Runnable | Running | Zombie

  /** wait sleeps on the address of the caller's own slot. */
  datatype Chan = NoChan | WaitChan(slot: nat) | Other(id: int)

  datatype Slot = Slot(state: RunState, pid: nat, parent: Option<nat>, chan: Chan, killed: bool)

  /** What a process inside fork has done so far: allocated a child, and made itself its parent. */
  datatype Fork = NotForking | Forking(child: nat, linked: bool)

  /** The last four fields are histories: the CPU that last picked each slot, the process that last
      allocated it, the slot that was given each pid (indexed by pid), and the pids that wait has
      returned. */
  datatype State = State(procs: seq<Slot>, cpus: seq<Option<nat>>, lock: Option<nat>, nextpid: nat, init: nat,
                         forks: seq<Fork>,
                         lastCpu: seq<nat>, forkedBy: seq<nat>, issued: seq<nat>, reaped: multiset<nat>)

  // ----- table scans

  /** wakeup1 */
  function Wake1(procs: seq<Slot>, chan: Chan): (r: seq<Slot>)
    ensures |r| == |procs|
    ensures forall q {:trigger r[q]} :: 0 <= q < |procs| ==> r[q] == WakeSlot(procs[q], chan)
  {
    seq(|procs|, q requires 0 <= q < |procs| => WakeSlot(procs[q], chan))
  }

  function WakeSlot(s: Slot, chan: Chan): Slot {
    if s.state == Sleeping && s.chan == chan then s.(state := Runnable) else s
  }

  predicate ZombieChild(procs: seq<Slot>, p: nat, q: nat)
    requires q < |procs|
  {
    procs[q].parent == Some(p) && procs[q].state == Zombie
  }

  predicate AnyZombieChild(procs: seq<Slot>, p: nat) {
    exists q: nat :: q < |procs| && ZombieChild(procs, p, q)
  }

  predicate AnyChild(procs: seq<Slot>, p: nat) {
    exists q: nat :: q < |procs| && procs[q].parent == Some(p)
  }

  /** Children of p passed to init. */
  function Reparent(procs: seq<Slot>, p: nat, init: nat): (r: seq<Slot>)
    ensures |r| == |procs|
    ensures forall q {:trigger r[q]} :: 0 <= q < |procs| ==>
      r[q] == if procs[q].parent == Some(p) then procs[q].(parent := Some(init)) else procs[q]
  {
    seq(|procs|, q requires 0 <= q < |procs| =>
      if procs[q].parent == Some(p) then procs[q].(parent := Some(init)) else procs[q])
  }

  function ParentChan(s: Slot): Chan {
    if s.parent.Some? then WaitChan(s.parent.value) else NoChan
  }

  /** The table after exit by process p: its parent woken, its children init's, init woken when one
      of them is a zombie, and p a zombie. */
  function ExitTable(procs: seq<Slot>, p: nat, init: nat): (r: seq<Slot>)
    requires p < |procs|
    ensures |r| == |procs|
  {
    var a := Wake1(procs, ParentChan(procs[p]));
    var b := Reparent(a, p, init);
    var c := if AnyZombieChild(procs, p) then Wake1(b, WaitChan(init)) else b;
    c[p := c[p].(state := Zombie)]
  }

  predicate SleepsOn(x: Slot, chan: Chan) {
    x.state == Sleeping && x.chan == chan
  }

  /** What wakeup promises: nobody sleeps on the channel any more, those who did can run and are
      otherwise as they were, and nothing else has changed. */
  predicate AllWoken(was: seq<Slot>, now: seq<Slot>, chan: Chan) {
    && |now| == |was|
    && (forall q :: 0 <= q < |now| ==> !SleepsOn(now[q], chan))
    && (forall q :: 0 <= q < |now| && SleepsOn(was[q], chan) ==>
          now[q].state == Runnable && now[q].pid == was[q].pid && now[q].parent == was[q].parent && now[q].killed == was[q].killed)
    && (forall q :: 0 <= q < |now| && !SleepsOn(was[q], chan) ==> now[q] == was[q])
  }

  lemma Wake1Wakes(procs: seq<Slot>, chan: Chan)
    ensures AllWoken(procs, Wake1(procs, chan), chan)
  {
  }

  // ----- steps

  datatype Action =
    | AllocProc(c: nat, q: nat)
    | ForkFail(c: nat)
    | SetParent(c: nat)
    | ForkDone(c: nat)
    | Exit(c: nat)
    | WaitReap(c: nat, q: nat)
    | WaitFail(c: nat)
    | WaitSleep(c: nat)
    | SleepOn(c: nat, id: int)
    | Yield(c: nat)
    | SchedReturn(c: nat)
    | Pick(c: nat, q: nat)
    | SchedLock(c: nat)
    | SchedUnlock(c: nat)
    | Resume(c: nat)
    | WakeupOn(c: nat, id: int)
    | Kill(c: nat, q: nat)

  predicate Shape(s: State) {
    && |s.forks| == |s.procs| == |s.lastCpu| == |s.forkedBy| && s.init < |s.procs| && |s.issued| == s.nextpid
    && forall c :: 0 <= c < |s.cpus| && s.cpus[c].Some? ==> s.cpus[c].value < |s.procs|
  }

  /** CPU c is executing process p. */
  predicate Executes(s: State, c: nat, p: nat) {
    c < |s.cpus| && s.cpus[c] == Some(p) && p < |s.procs| && s.procs[p].state == Running
  }

  /** The process of CPU c is at the top of wait's scan: it has just taken the lock, or sched has
      returned to it there, still holding it. */
  predicate AtWait(s: State, c: nat, p: nat) {
    && Executes(s, c, p) && p < |s.forks| && s.forks[p] == NotForking
    && (s.lock == None || (s.lock == Some(c) && s.procs[p].chan == WaitChan(p)))
  }

  predicate Enabled(s: State, a: Action) {
    Shape(s) && a.c < |s.cpus| &&
    var c := a.c;
    match a
    case AllocProc(_, q) =>
      && s.cpus[c].Some? && Executes(s, c, s.cpus[c].value) && s.lock == None
      && s.forks[s.cpus[c].value] == NotForking
      && q < |s.procs| && s.procs[q].state == Unused && forall r :: 0 <= r < q ==> s.procs[r].state != Unused
    case ForkFail(_) =>
      s.cpus[c].Some? && Executes(s, c, s.cpus[c].value) && s.lock != Some(c) &&
      s.forks[s.cpus[c].value].Forking? && !s.forks[s.cpus[c].value].linked &&
      s.forks[s.cpus[c].value].child < |s.procs|
    case SetParent(_) =>
      s.cpus[c].Some? && Executes(s, c, s.cpus[c].value) && s.lock != Some(c) &&
      s.forks[s.cpus[c].value].Forking? && !s.forks[s.cpus[c].value].linked &&
      s.forks[s.cpus[c].value].child < |s.procs|
    case ForkDone(_) =>
      s.cpus[c].Some? && Executes(s, c, s.cpus[c].value) && s.lock == None &&
      s.forks[s.cpus[c].value].Forking? && s.forks[s.cpus[c].value].linked &&
      s.forks[s.cpus[c].value].child < |s.procs|
    case Exit(_) =>
      s.cpus[c].Some? && Executes(s, c, s.cpus[c].value) && s.lock == None && s.cpus[c].value != s.init &&
      s.forks[s.cpus[c].value] == NotForking
    case WaitReap(_, q) =>
      && s.cpus[c].Some? && AtWait(s, c, s.cpus[c].value)
      && q < |s.procs| && ZombieChild(s.procs, s.cpus[c].value, q)
      && forall r: nat :: r < q ==> !ZombieChild(s.procs, s.cpus[c].value, r)
    case WaitFail(_) =>
      s.cpus[c].Some? && AtWait(s, c, s.cpus[c].value) && !AnyZombieChild(s.procs, s.cpus[c].value) &&
      (!AnyChild(s.procs, s.cpus[c].value) || s.procs[s.cpus[c].value].killed)
    case WaitSleep(_) =>
      s.cpus[c].Some? && AtWait(s, c, s.cpus[c].value) && !AnyZombieChild(s.procs, s.cpus[c].value) &&
      AnyChild(s.procs, s.cpus[c].value) && !s.procs[s.cpus[c].value].killed
    case SleepOn(_, _) => s.cpus[c].Some? && Executes(s, c, s.cpus[c].value) && s.lock == None
    case Yield(_) => s.cpus[c].Some? && Executes(s, c, s.cpus[c].value) && s.lock == None
    case SchedReturn(_) =>
      s.cpus[c].Some? && s.lock == Some(c) && s.procs[s.cpus[c].value].state != Running
    case Pick(_, q) =>
      s.cpus[c] == None && s.lock == Some(c) && q < |s.procs| && s.procs[q].state == Runnable
    case SchedLock(_) => s.cpus[c] == None && s.lock == None
    case SchedUnlock(_) => s.cpus[c] == None && s.lock == Some(c)
    case Resume(_) =>
      s.cpus[c].Some? && Executes(s, c, s.cpus[c].value) && s.lock == Some(c) &&
      s.procs[s.cpus[c].value].chan != WaitChan(s.cpus[c].value)
    case WakeupOn(_, _) => s.lock == None
    case Kill(_, q) => s.lock == None && q < |s.procs| && s.procs[q].state != Unused
  }

  function Set(s: State, p: nat, slot: Slot): State
    requires p < |s.procs|
  {
    s.(procs := s.procs[p := slot])
  }

  function Step(s: State, a: Action): State
    requires Enabled(s, a)
  {
    var c := a.c;
    var p := if s.cpus[c].Some? then s.cpus[c].value else 0;
    match a
    case AllocProc(_, q) =>
      Set(s, q, s.procs[q].(state := Embryo, pid := s.nextpid))
      .(nextpid := s.nextpid + 1, issued := s.issued + [q], forkedBy := s.forkedBy[q := p],
        forks := s.forks[p := Forking(q, false)])
    case ForkFail(_) =>
      var q := s.forks[p].child;
      Set(s, q, s.procs[q].(state := Unused)).(forks := s.forks[p := NotForking])
    case SetParent(_) =>
      var q := s.forks[p].child;
      Set(s, q, s.procs[q].(parent := Some(p))).(forks := s.forks[p := Forking(q, true)])
    case ForkDone(_) =>
      var q := s.forks[p].child;
      Set(s, q, s.procs[q].(state := Runnable)).(forks := s.forks[p := NotForking])
    case Exit(_) => s.(procs := ExitTable(s.procs, p, s.init), lock := Some(c))
    case WaitReap(_, q) =>
      Set(Set(s, p, s.procs[p].(chan := NoChan)), q, Slot(Unused, 0, None, s.procs[q].chan, false))
      .(lock := None, reaped := s.reaped + multiset{s.procs[q].pid})
    case WaitFail(_) => Set(s, p, s.procs[p].(chan := NoChan)).(lock := None)
    case WaitSleep(_) => Set(s, p, s.procs[p].(chan := WaitChan(p), state := Sleeping)).(lock := Some(c))
    case SleepOn(_, id) => Set(s, p, s.procs[p].(chan := Other(id), state := Sleeping)).(lock := Some(c))
    case Yield(_) => Set(s, p, s.procs[p].(state := Runnable)).(lock := Some(c))
    case SchedReturn(_) => s.(cpus := s.cpus[c := None])
    case Pick(_, q) =>
      Set(s, q, s.procs[q].(state := Running)).(cpus := s.cpus[c := Some(q)], lastCpu := s.lastCpu[q := c])
    case SchedLock(_) => s.(lock := Some(c))
    case SchedUnlock(_) => s.(lock := None)
    case Resume(_) => Set(s, p, s.procs[p].(chan := NoChan)).(lock := None)
    case WakeupOn(_, id) => s.(procs := Wake1(s.procs, Other(id)))
    case Kill(_, q) =>
      Set(s, q, s.procs[q].(killed := true,
                            state := if s.procs[q].state == Sleeping then Runnable else s.procs[q].state))
  }

  /** userinit has made init RUNNABLE with pid 1; nothing else exists and no CPU runs anything. */
  predicate Init(s: State) {
    && Shape(s) && s.lock == None && s.nextpid == 2 && s.issued == [s.init, s.init] && s.reaped == multiset{}
    && s.procs[s.init] == Slot(Runnable, 1, None, NoChan, false)
    && (forall q :: 0 <= q < |s.procs| ==> s.forks[q] == NotForking)
    && (forall q :: 0 <= q < |s.procs| && q != s.init ==> s.procs[q] == Slot(Unused, 0, None, NoChan, false))
    && forall c :: 0 <= c < |s.cpus| ==> s.cpus[c] == None
  }

  ghost predicate CanStep(s: State, t: State) {
    exists a :: Enabled(s, a) && t == Step(s, a)
  }

  ghost predicate IsRun(run: seq<State>) {
    && |run| > 0 && Init(run[0])
    && forall i :: 0 <= i < |run| - 1 ==> CanStep(run[i], run[i + 1])
  }

  // ----- the invariant

  predicate Alive(r: RunState) {
    r == Sleeping || r == Runnable || r == Running
  }

  /** A process that fork has finished with and wait has not reaped. */
  predicate Exists(r: RunState) {
    Alive(r) || r == Zombie
  }

  /** Its parent is there to reap it. */
  predicate HasParent(s: State, q: nat)
    requires q < |s.procs|
  {
    var r := s.procs[q].parent;
    r.Some? && r.value < |s.procs| && r.value != q && Alive(s.procs[r.value].state)
  }

  predicate FamilyOk(s: State, q: nat)
    requires q < |s.procs| == |s.forks|
  {
    var x := s.procs[q];
    && (Exists(x.state) && q != s.init ==> HasParent(s, q))
    && (x.state == Unused ==> x.parent == None)
    && (x.state == Embryo && x.parent.Some? ==>
          x.parent.value < |s.procs| && s.forks[x.parent.value] == Forking(q, true))
  }

  /** A process asleep in wait has no zombie among its children q. */
  predicate WaitOk(s: State, q: nat)
    requires q < |s.procs|
  {
    var x := s.procs[q];
    && (x.chan.WaitChan? ==> x.chan.slot == q)
    && (x.state == Zombie && x.parent.Some? && x.parent.value < |s.procs| ==>
          !(s.procs[x.parent.value].state == Sleeping && s.procs[x.parent.value].chan == WaitChan(x.parent.value)))
    && (x.state == Embryo || x.state == Unused || x.state == Zombie ==> x.chan == NoChan)
  }

  predicate CpuOk(s: State, c: nat)
    requires c < |s.cpus|
  {
    s.cpus[c].Some? ==>
      var p := s.cpus[c].value;
      && p < |s.procs| == |s.lastCpu| && s.lastCpu[p] == c
      && (s.lock != Some(c) ==> s.procs[p].state == Running && s.procs[p].chan == NoChan)
      && Exists(s.procs[p].state)
  }

  predicate RunOk(s: State, q: nat)
    requires q < |s.procs| == |s.lastCpu|
  {
    s.procs[q].state == Running ==> s.lastCpu[q] < |s.cpus| && s.cpus[s.lastCpu[q]] == Some(q)
  }

  predicate ForkOk(s: State, p: nat)
    requires p < |s.procs| == |s.forks| == |s.forkedBy|
  {
    s.forks[p].Forking? ==>
      var q := s.forks[p].child;
      && q < |s.procs| && q != p && s.procs[q].state == Embryo && Alive(s.procs[p].state)
      && s.procs[q].parent == (if s.forks[p].linked then Some(p) else None)
      && s.forkedBy[q] == p
  }

  predicate PidOk(s: State, q: nat)
    requires q < |s.procs|
  {
    s.procs[q].state != Unused ==>
      var pid := s.procs[q].pid;
      0 < pid < |s.issued| && s.issued[pid] == q && s.reaped[pid] == 0
  }

  predicate InitAlive(s: State) {
    s.init < |s.procs| && Alive(s.procs[s.init].state) && s.procs[s.init].parent == None
  }

  ghost predicate Inv(s: State) {
    && Shape(s) && s.nextpid > 0 && (s.lock.Some? ==> s.lock.value < |s.cpus|)
    && InitAlive(s)
    && (forall q: nat :: q < |s.procs| ==> FamilyOk(s, q))
    && (forall q: nat :: q < |s.procs| ==> WaitOk(s, q))
    && (forall c: nat :: c < |s.cpus| ==> CpuOk(s, c))
    && (forall q: nat :: q < |s.procs| ==> RunOk(s, q))
    && (forall p: nat :: p < |s.procs| ==> ForkOk(s, p))
    && (forall q: nat :: q < |s.procs| ==> PidOk(s, q))
    && (forall pid: nat :: s.reaped[pid] <= 1 && (pid >= s.nextpid ==> s.reaped[pid] == 0))
  }

  // ----- every step keeps it

  lemma ExitAt(procs: seq<Slot>, p: nat, init: nat, q: nat)
    requires p < |procs| && q < |procs|
    ensures var x := procs[q]; var r := ExitTable(procs, p, init)[q];
      && r.pid == x.pid && r.chan == x.chan && r.killed == x.killed
      && r.parent == (if x.parent == Some(p) then Some(init) else x.parent)
      && (q == p ==> r.state == Zombie)
      && (q != p ==> r.state == x.state || (x.state == Sleeping && r.state == Runnable))
      && (q != p && x.state == Sleeping && x.chan == ParentChan(procs[p]) ==> r.state == Runnable)
      && (q != p && x.state == Sleeping && x.chan == WaitChan(init) && AnyZombieChild(procs, p) ==> r.state == Runnable)
  {
  }

  /** The steps that start or end no process. */
  predicate Quiet(a: Action) {
    a.WaitFail? || a.WaitSleep? || a.SleepOn? || a.Yield? || a.SchedReturn? || a.Pick? || a.SchedLock? ||
    a.SchedUnlock? || a.Resume? || a.WakeupOn? || a.Kill?
  }

  predicate SameKind(x: Slot, y: Slot) {
    x.parent == y.parent && x.pid == y.pid && (x.state == y.state || (Alive(x.state) && Alive(y.state)))
  }

  predicate SameFamily(s: State, t: State) {
    && |t.procs| == |s.procs| && t.init == s.init && t.forks == s.forks && t.forkedBy == s.forkedBy
    && t.issued == s.issued && t.reaped == s.reaped && t.nextpid == s.nextpid
    && forall i :: 0 <= i < |s.procs| ==> SameKind(s.procs[i], t.procs[i])
  }

  /** The quiet steps of the process that is running. */
  predicate OwnStep(a: Action) {
    a.WaitFail? || a.WaitSleep? || a.SleepOn? || a.Yield? || a.Resume?
  }

  lemma OwnSame(s: State, a: Action)
    requires Inv(s) && Enabled(s, a) && OwnStep(a)
    ensures SameFamily(s, Step(s, a))
  {
    hide FamilyOk, WaitOk, RunOk, PidOk, ForkOk, AnyChild, AnyZombieChild;
    assert CpuOk(s, a.c);
  }

  lemma QuietSame(s: State, a: Action)
    requires Inv(s) && Enabled(s, a) && Quiet(a)
    ensures SameFamily(s, Step(s, a))
  {
    hide FamilyOk, WaitOk, RunOk, PidOk, ForkOk, AnyChild, AnyZombieChild, CpuOk;
    if OwnStep(a) {
      OwnSame(s, a);
    }
  }

  lemma QuietFamily(s: State, t: State, q: nat)
    requires Inv(s) && SameFamily(s, t) && q < |s.procs|
    ensures FamilyOk(t, q) && |t.forks| == |t.forkedBy| == |t.procs| && ForkOk(t, q) && PidOk(t, q)
  {
    hide WaitOk, RunOk, CpuOk;
    assert FamilyOk(s, q) && ForkOk(s, q) && PidOk(s, q);
    assert SameKind(s.procs[q], t.procs[q]);
    if s.procs[q].parent.Some? && s.procs[q].parent.value < |s.procs| {
      assert SameKind(s.procs[s.procs[q].parent.value], t.procs[s.procs[q].parent.value]);
    }
    if s.forks[q].Forking? {
      assert SameKind(s.procs[s.forks[q].child], t.procs[s.forks[q].child]);
    }
  }

  /** fork allocates a slot. */
  lemma AllocKept(s: State, a: Action, q: nat)
    requires Inv(s) && Enabled(s, a) && a.AllocProc? && q < |s.procs|
    ensures var t := Step(s, a); FamilyOk(t, q) && ForkOk(t, q) && PidOk(t, q)
  {
    hide WaitOk, RunOk;
    var p := s.cpus[a.c].value;
    assert CpuOk(s, a.c) && FamilyOk(s, q) && ForkOk(s, q) && PidOk(s, q) && FamilyOk(s, a.q);
  }

  lemma ForkFailKept(s: State, a: Action, q: nat)
    requires Inv(s) && Enabled(s, a) && a.ForkFail? && q < |s.procs|
    ensures var t := Step(s, a); FamilyOk(t, q) && ForkOk(t, q) && PidOk(t, q)
  {
    hide WaitOk, RunOk;
    var p := s.cpus[a.c].value;
    var k := s.forks[p].child;
    assert CpuOk(s, a.c) && ForkOk(s, p) && FamilyOk(s, q) && ForkOk(s, q) && PidOk(s, q);
  }

  lemma SetParentKept(s: State, a: Action, q: nat)
    requires Inv(s) && Enabled(s, a) && a.SetParent? && q < |s.procs|
    ensures var t := Step(s, a); FamilyOk(t, q) && ForkOk(t, q) && PidOk(t, q)
  {
    hide WaitOk, RunOk;
    var p := s.cpus[a.c].value;
    var k := s.forks[p].child;
    assert CpuOk(s, a.c) && ForkOk(s, p) && FamilyOk(s, q) && ForkOk(s, q) && PidOk(s, q);
  }

  lemma ForkDoneKept(s: State, a: Action, q: nat)
    requires Inv(s) && Enabled(s, a) && a.ForkDone? && q < |s.procs|
    ensures var t := Step(s, a); FamilyOk(t, q) && ForkOk(t, q) && PidOk(t, q)
  {
    hide WaitOk, RunOk;
    var p := s.cpus[a.c].value;
    var k := s.forks[p].child;
    assert CpuOk(s, a.c) && ForkOk(s, p) && FamilyOk(s, q) && ForkOk(s, q) && PidOk(s, q);
  }

  /** Exit by process p, which is running and not forking. */
  predicate Exits(s: State, p: nat, t: State) {
    && Shape(s) && p < |s.procs| && s.procs[p].state == Running && s.procs[p].chan == NoChan
    && p != s.init && s.forks[p] == NotForking
    && t == s.(procs := ExitTable(s.procs, p, s.init), lock := t.lock)
  }

  lemma ExitStep(s: State, a: Action)
    requires Inv(s) && Enabled(s, a) && a.Exit?
    ensures Exits(s, s.cpus[a.c].value, Step(s, a))
  {
    assert CpuOk(s, a.c);
  }

  lemma ExitFamily(s: State, p: nat, t: State, q: nat)
    requires Inv(s) && Exits(s, p, t) && q < |s.procs|
    ensures FamilyOk(t, q) && ForkOk(t, q) && PidOk(t, q)
  {
    hide ExitTable;
    assert FamilyOk(s, q) && ForkOk(s, q) && PidOk(s, q) && FamilyOk(s, p);
    ExitAt(s.procs, p, s.init, q);
    ExitAt(s.procs, p, s.init, s.init);
    if s.procs[q].parent.Some? && s.procs[q].parent.value < |s.procs| {
      ExitAt(s.procs, p, s.init, s.procs[q].parent.value);
    }
    if s.forks[q].Forking? {
      ExitAt(s.procs, p, s.init, s.forks[q].child);
      assert FamilyOk(s, s.forks[q].child);
    }
  }

  lemma ReapFamily(s: State, a: Action, q: nat)
    requires Inv(s) && Enabled(s, a) && a.WaitReap? && q < |s.procs|
    ensures var t := Step(s, a); FamilyOk(t, q) && ForkOk(t, q) && PidOk(t, q)
  {
    hide WaitOk, RunOk;
    var p := s.cpus[a.c].value;
    assert CpuOk(s, a.c) && FamilyOk(s, q) && ForkOk(s, q) && PidOk(s, q) && PidOk(s, a.q) && FamilyOk(s, a.q);
  }

  lemma ShapeKept(s: State, a: Action)
    requires Inv(s) && Enabled(s, a)
    ensures var t := Step(s, a);
      && Shape(t) && t.nextpid > 0 && (t.lock.Some? ==> t.lock.value < |t.cpus|)
      && |t.procs| == |s.procs| && |t.cpus| == |s.cpus| && t.init == s.init
  {
    hide FamilyOk, WaitOk, RunOk, PidOk, ForkOk, CpuOk, AnyChild, AnyZombieChild;
  }

  /** Parents, children being forked and pids. */
  lemma FamilyKept(s: State, a: Action, q: nat)
    requires Inv(s) && Enabled(s, a) && q < |s.procs|
    ensures var t := Step(s, a);
      |t.forks| == |t.forkedBy| == |t.procs| == |s.procs| && FamilyOk(t, q) && ForkOk(t, q) && PidOk(t, q)
  {
    ShapeKept(s, a);
    hide Inv, Step, FamilyOk, ForkOk, PidOk;
    match a
    case AllocProc(_, _) => AllocKept(s, a, q);
    case ForkFail(_) => ForkFailKept(s, a, q);
    case SetParent(_) => SetParentKept(s, a, q);
    case ForkDone(_) => ForkDoneKept(s, a, q);
    case Exit(_) =>
      ExitStep(s, a);
      ExitFamily(s, s.cpus[a.c].value, Step(s, a), q);
    case WaitReap(_, _) => ReapFamily(s, a, q);
    case _ =>
      QuietSame(s, a);
      QuietFamily(s, Step(s, a), q);
  }

  /** A zombie's parent is not asleep in wait: exit wakes the parent of the new zombie, and init
      when it inherits an old one; wait sleeps only after a scan that found no zombie. */
  lemma ExitWait(s: State, p: nat, t: State, q: nat)
    requires Inv(s) && Exits(s, p, t) && q < |s.procs|
    ensures WaitOk(t, q)
  {
    hide ExitTable;
    assert FamilyOk(s, q) && FamilyOk(s, p) && WaitOk(s, q);
    ExitAt(s.procs, p, s.init, q);
    if s.procs[q].parent.Some? && s.procs[q].parent.value < |s.procs| {
      ExitAt(s.procs, p, s.init, s.procs[q].parent.value);
      if s.procs[q].parent.value == p && s.procs[q].state == Zombie {
        assert ZombieChild(s.procs, p, q);
      }
    }
    ExitAt(s.procs, p, s.init, s.init);
  }

  lemma ScanFound(s: State, p: nat, q: nat)
    requires q < |s.procs| && !AnyZombieChild(s.procs, p)
    ensures !ZombieChild(s.procs, p, q)
  {
  }

  lemma OwnWait(s: State, a: Action, q: nat)
    requires Inv(s) && Enabled(s, a) && OwnStep(a) && q < |s.procs|
    ensures q < |Step(s, a).procs| && WaitOk(Step(s, a), q)
  {
    hide FamilyOk, ForkOk, RunOk, PidOk, AnyChild, AnyZombieChild;
    assert WaitOk(s, q);
    var p := s.cpus[a.c].value;
    assert CpuOk(s, a.c) && WaitOk(s, p);
    if a.WaitSleep? {
      ScanFound(s, p, q);
    }
  }

  lemma OtherWait(s: State, a: Action, q: nat)
    requires Inv(s) && Enabled(s, a) && Quiet(a) && !OwnStep(a) && q < |s.procs|
    ensures q < |Step(s, a).procs| && WaitOk(Step(s, a), q)
  {
    hide FamilyOk, ForkOk, RunOk, PidOk, CpuOk, AnyChild, AnyZombieChild;
    assert WaitOk(s, q);
  }

  lemma LifeWait(s: State, a: Action, q: nat)
    requires Inv(s) && Enabled(s, a) && !Quiet(a) && !a.Exit? && q < |s.procs|
    ensures q < |Step(s, a).procs| && WaitOk(Step(s, a), q)
  {
    hide RunOk, PidOk, FamilyOk, AnyChild, AnyZombieChild;
    assert WaitOk(s, q);
    var p := s.cpus[a.c].value;
    assert CpuOk(s, a.c) && WaitOk(s, p) && ForkOk(s, p);
    if s.forks[p].Forking? {
      assert WaitOk(s, s.forks[p].child);
    }
    if a.WaitReap? {
      assert WaitOk(s, a.q);
    }
  }

  lemma WaitKept(s: State, a: Action, q: nat)
    requires Inv(s) && Enabled(s, a) && q < |s.procs|
    ensures q < |Step(s, a).procs| && WaitOk(Step(s, a), q)
  {
    hide Inv, Step, WaitOk;
    if a.Exit? {
      ExitStep(s, a);
      ExitWait(s, s.cpus[a.c].value, Step(s, a), q);
    } else if OwnStep(a) {
      OwnWait(s, a, q);
    } else if Quiet(a) {
      OtherWait(s, a, q);
    } else {
      LifeWait(s, a, q);
    }
  }

  lemma ExitCpu(s: State, a: Action, c: nat)
    requires Inv(s) && Enabled(s, a) && a.Exit? && c < |s.cpus|
    ensures c < |Step(s, a).cpus| && CpuOk(Step(s, a), c)
  {
    hide FamilyOk, PidOk, ForkOk, AnyChild, AnyZombieChild, ExitTable;
    assert CpuOk(s, c) && CpuOk(s, a.c);
    if s.cpus[c].Some? {
      ExitAt(s.procs, s.cpus[a.c].value, s.init, s.cpus[c].value);
    }
  }

  lemma QuietCpu(s: State, a: Action, c: nat)
    requires Inv(s) && Enabled(s, a) && Quiet(a) && c < |s.cpus|
    ensures c < |Step(s, a).cpus| && CpuOk(Step(s, a), c)
  {
    hide FamilyOk, PidOk, ForkOk, AnyChild, AnyZombieChild, ExitTable;
    assert CpuOk(s, c) && CpuOk(s, a.c);
  }

  lemma LifeCpu(s: State, a: Action, c: nat)
    requires Inv(s) && Enabled(s, a) && !Quiet(a) && !a.Exit? && c < |s.cpus|
    ensures c < |Step(s, a).cpus| && CpuOk(Step(s, a), c)
  {
    hide FamilyOk, PidOk, RunOk, AnyChild, AnyZombieChild, ExitTable;
    assert CpuOk(s, c) && CpuOk(s, a.c) && ForkOk(s, s.cpus[a.c].value);
  }

  lemma CpuKept(s: State, a: Action, c: nat)
    requires Inv(s) && Enabled(s, a) && c < |s.cpus|
    ensures c < |Step(s, a).cpus| && CpuOk(Step(s, a), c)
  {
    hide Inv, Enabled, Step, CpuOk;
    if a.Exit? {
      ExitCpu(s, a, c);
    } else if Quiet(a) {
      QuietCpu(s, a, c);
    } else {
      LifeCpu(s, a, c);
    }
  }

  lemma QuietRun(s: State, a: Action, q: nat)
    requires Inv(s) && Enabled(s, a) && Quiet(a) && q < |s.procs|
    ensures q < |Step(s, a).procs| == |Step(s, a).lastCpu| && RunOk(Step(s, a), q)
  {
    hide FamilyOk, PidOk, ForkOk, WaitOk, AnyChild, AnyZombieChild, ExitTable;
    assert RunOk(s, q) && CpuOk(s, a.c);
  }

  lemma LifeRun(s: State, a: Action, q: nat)
    requires Inv(s) && Enabled(s, a) && !Quiet(a) && q < |s.procs|
    ensures q < |Step(s, a).procs| == |Step(s, a).lastCpu| && RunOk(Step(s, a), q)
  {
    hide FamilyOk, PidOk, ForkOk, WaitOk, AnyChild, AnyZombieChild, ExitTable;
    assert RunOk(s, q) && CpuOk(s, a.c);
    if a.Exit? {
      ExitAt(s.procs, s.cpus[a.c].value, s.init, q);
    }
  }

  lemma RunKept(s: State, a: Action, q: nat)
    requires Inv(s) && Enabled(s, a) && q < |s.procs|
    ensures q < |Step(s, a).procs| == |Step(s, a).lastCpu| && RunOk(Step(s, a), q)
  {
    hide Inv, Enabled, Step, RunOk;
    if Quiet(a) {
      QuietRun(s, a, q);
    } else {
      LifeRun(s, a, q);
    }
  }

  lemma LifeInit(s: State, a: Action)
    requires Inv(s) && Enabled(s, a) && !Quiet(a)
    ensures InitAlive(Step(s, a))
  {
    hide FamilyOk, WaitOk, RunOk, PidOk, AnyChild, AnyZombieChild, ExitTable;
    var p := s.cpus[a.c].value;
    assert CpuOk(s, a.c) && ForkOk(s, p);
    if a.Exit? {
      ExitAt(s.procs, p, s.init, s.init);
    }
  }

  lemma InitKept(s: State, a: Action)
    requires Inv(s) && Enabled(s, a)
    ensures InitAlive(Step(s, a))
  {
    hide Step, Enabled, FamilyOk, ForkOk, PidOk, WaitOk, RunOk, CpuOk;
    if Quiet(a) {
      QuietSame(s, a);
      assert SameKind(s.procs[s.init], Step(s, a).procs[s.init]);
    } else {
      LifeInit(s, a);
    }
  }

  lemma ReapedKept(s: State, a: Action, pid: nat)
    requires Inv(s) && Enabled(s, a)
    ensures var t := Step(s, a); t.reaped[pid] <= 1 && (pid >= t.nextpid ==> t.reaped[pid] == 0)
  {
    hide WaitOk, RunOk, FamilyOk, ForkOk, CpuOk;
    if a.WaitReap? {
      assert PidOk(s, a.q);
    }
  }

  lemma StepKeepsInv(s: State, a: Action)
    requires Inv(s) && Enabled(s, a)
    ensures Inv(Step(s, a))
  {
    hide Step, Enabled, FamilyOk, ForkOk, PidOk, WaitOk, RunOk, CpuOk;
    var t := Step(s, a);
    ShapeKept(s, a);
    InitKept(s, a);
    forall q: nat | q < |t.procs| ensures FamilyOk(t, q) && ForkOk(t, q) && PidOk(t, q) {
      FamilyKept(s, a, q);
    }
    forall q: nat | q < |t.procs| ensures WaitOk(t, q) {
      WaitKept(s, a, q);
    }
    forall q: nat | q < |t.procs| ensures RunOk(t, q) {
      RunKept(s, a, q);
    }
    forall c: nat | c < |t.cpus| ensures CpuOk(t, c) {
      CpuKept(s, a, c);
    }
    forall pid: nat ensures t.reaped[pid] <= 1 && (pid >= t.nextpid ==> t.reaped[pid] == 0) {
      ReapedKept(s, a, pid);
    }
  }

  lemma {:induction false} RunInv(run: seq<State>, k: nat)
    requires IsRun(run) && k < |run|
    ensures Inv(run[k])
  {
    hide Inv, Step, Enabled, Init;
    if k > 0 {
      RunInv(run, k - 1);
      assert CanStep(run[k - 1], run[k - 1 + 1]);
      var a :| Enabled(run[k - 1], a) && run[k] == Step(run[k - 1], a);
      StepKeepsInv(run[k - 1], a);
    } else {
      InitInv(run[0]);
    }
  }

  lemma InitInv(s: State)
    requires Init(s)
    ensures Inv(s)
  {
  }

  // ----- what holds of every run

  /** A wakeup on the channel of slot q: wakeup itself, or exit for a parent asleep in wait. */
  predicate WakesUp(s: State, a: Action, q: nat)
    requires Enabled(s, a) && q < |s.procs|
  {
    var chan, me := s.procs[q].chan, s.cpus[a.c];
    || (a.WakeupOn? && chan == Other(a.id))
    || (a.Exit? && chan.WaitChan? && me.Some? && (s.procs[me.value].parent == Some(chan.slot) || chan.slot == s.init))
  }

  /** The states of a process and who moves it from one to the next. */
  predicate Moves(s: State, a: Action, q: nat, to: RunState)
    requires Enabled(s, a) && q < |s.procs|
  {
    var me := s.cpus[a.c];
    match s.procs[q].state
    case Unused => to == Embryo && a.AllocProc? && a.q == q
    case Embryo =>
      || (to == Runnable && a.ForkDone? && s.procs[q].parent == me)
      || (to == Unused && a.ForkFail? && me.Some? && s.forks[me.value].Forking? && s.forks[me.value].child == q)
    case Runnable => to == Running && a.Pick? && a.q == q
    case Running =>
      && me == Some(q)
      && ((to == Runnable && a.Yield?) || (to == Sleeping && (a.SleepOn? || a.WaitSleep?)) || (to == Zombie && a.Exit?))
    case Sleeping =>
      to == Runnable && (WakesUp(s, a, q) || (a.Kill? && a.q == q))
    case Zombie => to == Unused && a.WaitReap? && a.q == q && s.procs[q].parent == me
  }

  /** A step changes the state of a slot only along the life cycle of a process, by the process whose
      turn it is. */
  lemma LifeCycle(s: State, a: Action, q: nat)
    requires Inv(s) && Enabled(s, a) && q < |s.procs|
    ensures q < |Step(s, a).procs|
    ensures Step(s, a).procs[q].state != s.procs[q].state ==> Moves(s, a, q, Step(s, a).procs[q].state)
  {
    hide Inv, Enabled, Step, Moves;
    if a.Exit? {
      ExitLife(s, a, q);
    } else if Quiet(a) {
      QuietLife(s, a, q);
    } else {
      ForkLife(s, a, q);
    }
  }

  lemma ExitLife(s: State, a: Action, q: nat)
    requires Inv(s) && Enabled(s, a) && a.Exit? && q < |s.procs|
    ensures q < |Step(s, a).procs|
    ensures Step(s, a).procs[q].state != s.procs[q].state ==> Moves(s, a, q, Step(s, a).procs[q].state)
  {
    hide WaitOk, RunOk, PidOk, ForkOk, CpuOk, AnyChild, AnyZombieChild, ExitTable;
    assert FamilyOk(s, s.cpus[a.c].value);
    ExitMoves(s.procs, s.cpus[a.c].value, s.init, q);
  }

  lemma QuietLife(s: State, a: Action, q: nat)
    requires Inv(s) && Enabled(s, a) && Quiet(a) && q < |s.procs|
    ensures q < |Step(s, a).procs|
    ensures Step(s, a).procs[q].state != s.procs[q].state ==> Moves(s, a, q, Step(s, a).procs[q].state)
  {
    hide FamilyOk, WaitOk, RunOk, PidOk, ForkOk, CpuOk, AnyChild, AnyZombieChild;
  }

  lemma ForkLife(s: State, a: Action, q: nat)
    requires Inv(s) && Enabled(s, a) && !Quiet(a) && !a.Exit? && q < |s.procs|
    ensures q < |Step(s, a).procs|
    ensures Step(s, a).procs[q].state != s.procs[q].state ==> Moves(s, a, q, Step(s, a).procs[q].state)
  {
    hide FamilyOk, WaitOk, RunOk, PidOk, CpuOk, AnyChild, AnyZombieChild;
    assert ForkOk(s, s.cpus[a.c].value);
  }

  lemma ExitMoves(procs: seq<Slot>, p: nat, init: nat, q: nat)
    requires p < |procs| && q < |procs|
    ensures q != p && ExitTable(procs, p, init)[q].state != procs[q].state ==>
      && procs[q].state == Sleeping && ExitTable(procs, p, init)[q].state == Runnable
      && (procs[q].chan == ParentChan(procs[p]) || procs[q].chan == WaitChan(init))
    ensures ExitTable(procs, p, init)[p].state == Zombie
  {
  }

  /** What each step is for. */
  predicate Did(s: State, a: Action, t: State)
    requires Shape(s) && a.c < |s.cpus| == |t.cpus| && |t.procs| == |s.procs|
  {
    var me := if s.cpus[a.c].Some? then s.cpus[a.c].value else s.init;
    match a
    case AllocProc(_, q) => q < |t.procs| && t.procs[q].state == Embryo && t.procs[q].pid == s.nextpid && t.nextpid == s.nextpid + 1
    case ForkFail(_) => s.forks[me].Forking? && s.forks[me].child < |t.procs| && t.procs[s.forks[me].child].state == Unused
    case SetParent(_) => s.forks[me].Forking? && s.forks[me].child < |t.procs| && t.procs[s.forks[me].child].parent == Some(me)
    case ForkDone(_) => s.forks[me].Forking? && s.forks[me].child < |t.procs| && t.procs[s.forks[me].child].state == Runnable
    case Exit(_) => t.procs[me].state == Zombie
    case WaitReap(_, q) =>
      && q < |t.procs| && t.procs[q].state == Unused && t.procs[q].pid == 0 && t.procs[q].parent == None && !t.procs[q].killed
      && t.reaped == s.reaped + multiset{s.procs[q].pid}
    case WaitFail(_) => t.procs == s.procs[me := t.procs[me]] && t.procs[me].state == Running
    case WaitSleep(_) => SleepsOn(t.procs[me], WaitChan(me))
    case SleepOn(_, id) => SleepsOn(t.procs[me], Other(id))
    case Yield(_) => t.procs[me].state == Runnable
    case SchedReturn(_) => t.cpus[a.c] == None
    case Pick(_, q) => q < |t.procs| && t.procs[q].state == Running && t.cpus[a.c] == Some(q)
    case SchedLock(_) => t.lock == Some(a.c)
    case SchedUnlock(_) => t.lock == None
    case Resume(_) => t.lock == None && t.procs[me].state == Running
    case WakeupOn(_, id) => AllWoken(s.procs, t.procs, Other(id)) && t == s.(procs := t.procs)
    case Kill(_, q) => q < |t.procs| && t.procs[q].killed && t.procs[q].state != Sleeping && t.procs == s.procs[q := t.procs[q]]
  }

  /** And every step does what it is for. */
  lemma StepMoves(s: State, a: Action)
    requires Inv(s) && Enabled(s, a)
    ensures |Step(s, a).procs| == |s.procs| && |Step(s, a).cpus| == |s.cpus| && Did(s, a, Step(s, a))
  {
    ShapeKept(s, a);
    hide FamilyOk, WaitOk, RunOk, PidOk, ForkOk, CpuOk, AnyChild, AnyZombieChild, ExitTable, AllWoken, Wake1;
    if a.Exit? {
      ExitMoves(s.procs, s.cpus[a.c].value, s.init, s.cpus[a.c].value);
    } else if a.WakeupOn? {
      Wake1Wakes(s.procs, Other(a.id));
    }
  }

  /** Every process but init that fork has finished and wait has not reaped has a parent that is
      alive, so that someone is there to reap it; and a parent asleep in wait has no zombie child. */
  lemma NobodyOrphaned(run: seq<State>, k: nat, q: nat)
    requires IsRun(run) && k < |run| && q < |run[k].procs|
    requires Exists(run[k].procs[q].state) && q != run[k].init
    ensures HasParent(run[k], q)
    ensures var r := run[k].procs[run[k].procs[q].parent.value];
      run[k].procs[q].state == Zombie ==> !(r.state == Sleeping && r.chan == WaitChan(run[k].procs[q].parent.value))
  {
    RunInv(run, k);
    assert FamilyOk(run[k], q) && WaitOk(run[k], q);
  }

  /** wait never returns a pid twice, and no two processes have the same one. */
  lemma PidsUnique(run: seq<State>, k: nat, p: nat, q: nat, pid: nat)
    requires IsRun(run) && k < |run| && p < |run[k].procs| && q < |run[k].procs|
    ensures run[k].reaped[pid] <= 1
    ensures run[k].procs[p].state != Unused ==> run[k].reaped[run[k].procs[p].pid] == 0
    ensures p != q && run[k].procs[p].state != Unused && run[k].procs[q].state != Unused ==>
      run[k].procs[p].pid != run[k].procs[q].pid
  {
    RunInv(run, k);
    assert PidOk(run[k], p) && PidOk(run[k], q);
  }

  /** Each RUNNING process is current on exactly one CPU; and a CPU whose scheduler is not in the
      middle of a switch runs a RUNNING process or none. */
  lemma RunningOnOneCpu(run: seq<State>, k: nat, p: nat)
    requires IsRun(run) && k < |run| && p < |run[k].procs|
    ensures run[k].procs[p].state == Running ==>
      exists c: nat :: c < |run[k].cpus| && run[k].cpus[c] == Some(p)
    ensures forall c: nat, d: nat ::
      c < |run[k].cpus| && d < |run[k].cpus| && run[k].cpus[c] == Some(p) && run[k].cpus[d] == Some(p) ==> c == d
    ensures forall c: nat ::
      c < |run[k].cpus| && run[k].cpus[c] == Some(p) && run[k].lock != Some(c) ==> run[k].procs[p].state == Running
  {
    RunInv(run, k);
    var s := run[k];
    assert RunOk(s, p);
    forall c: nat | c < |s.cpus| && s.cpus[c] == Some(p)
      ensures c == s.lastCpu[p] && (s.lock != Some(c) ==> s.procs[p].state == Running)
    {
      assert CpuOk(s, c);
    }
  }

  /** What wait does is determined: it reaps the first zombie child if there is one; otherwise it
      fails exactly when there is no child or the caller was killed, and sleeps in the other case. */
  lemma WaitAnswers(s: State, c: nat, p: nat)
    requires Shape(s) && c < |s.cpus| && s.cpus[c] == Some(p) && AtWait(s, c, p)
    ensures AnyZombieChild(s.procs, p) <==> exists q: nat :: Enabled(s, WaitReap(c, q))
    ensures forall q: nat, r: nat :: Enabled(s, WaitReap(c, q)) && Enabled(s, WaitReap(c, r)) ==> q == r
    ensures Enabled(s, WaitFail(c)) <==> !AnyZombieChild(s.procs, p) && (!AnyChild(s.procs, p) || s.procs[p].killed)
    ensures Enabled(s, WaitSleep(c)) <==> !AnyZombieChild(s.procs, p) && !Enabled(s, WaitFail(c))
  {
    if AnyZombieChild(s.procs, p) {
      var q: nat :| q < |s.procs| && ZombieChild(s.procs, p, q);
      var first := FirstZombie(s.procs, p, q);
      assert Enabled(s, WaitReap(c, first));
    }
    forall q: nat, r: nat | Enabled(s, WaitReap(c, q)) && Enabled(s, WaitReap(c, r)) ensures q == r {
      assert ZombieChild(s.procs, p, q) && ZombieChild(s.procs, p, r);
    }
  }

  lemma {:induction false} FirstZombie(procs: seq<Slot>, p: nat, q: nat) returns (first: nat)
    requires q < |procs| && ZombieChild(procs, p, q)
    ensures first <= q && ZombieChild(procs, p, first) && forall r: nat :: r < first ==> !ZombieChild(procs, p, r)
  {
    first := q;
    if r: nat :| r < q && ZombieChild(procs, p, r) {
      first := FirstZombie(procs, p, r);
    }
  }
}
