/** The group-commit protocol of log.c (begin_op, end_op, log_write) over every
    interleaving of any number of processes.

    A step is one critical section of log.lock, or one unlocked access to the log: the
    panic checks of log_write read `lh.n` before taking the lock, and commit clears `lh.n`
    without it.  `sleep` releases the lock and marks the process asleep in one step. */
module GroupCommit {
  import opened Arith
  import opened Counting

  /** LOGSIZE, MAXOPBLOCKS and `log.size` (the header block included). */
  datatype Params = Params(logSize: nat, maxOp: nat, size: int)

  datatype Pc =
    | Idle
    | Asleep                               // in begin_op, on &log
    | Woken                                // in begin_op, about to test again
    | InOp(spent: nat)                     // between begin_op and end_op; new blocks logged so far
    | Writing(spent: nat, block: int)      // past log_write's panic checks, before its lock
    | Committing                           // in commit()
    | Finishing                            // commit() returned, before the lock is retaken

  datatype State = State(
    outstanding: int,
    committing: bool,
    blocks: seq<int>,                      // lh.block[..lh.n]
    procs: seq<Pc>)

  datatype Action =
    | BeginOp(p: nat)
    | Sleep(p: nat)
    | CheckWrite(p: nat, block: int)
    | Record(p: nat)
    | EndOp(p: nat)
    | Clear(p: nat)
    | Finish(p: nat)

  predicate Known(s: State, p: nat) {
    p < |s.procs|
  }

  function Set(s: State, p: nat, pc: Pc): State
    requires Known(s, p)
  {
    s.(procs := s.procs[p := pc])
  }

  /** wakeup(&log) */
  function Wake(procs: seq<Pc>): (r: seq<Pc>)
    ensures |r| == |procs|
    ensures forall i :: 0 <= i < |r| ==> r[i] == if procs[i] == Asleep then Woken else procs[i]
  {
    seq(|procs|, i requires 0 <= i < |procs| => if procs[i] == Asleep then Woken else procs[i])
  }

  /** Log absorption: a block that is already in the header keeps its place. */
  function Absorb<T(==)>(blocks: seq<T>, b: T): seq<T> {
    if b in blocks then blocks else blocks + [b]
  }

  /** n blocks are logged and out operations open: another operation's worth would not fit. */
  predicate Crowded(k: Params, n: nat, out: int) {
    n + (out + 1) * k.maxOp > k.logSize
  }

  predicate MustWait(k: Params, s: State) {
    s.committing || Crowded(k, |s.blocks|, s.outstanding)
  }

  predicate WantsBegin(s: State, p: nat)
    requires Known(s, p)
  {
    s.procs[p].Idle? || s.procs[p].Woken?
  }

  /** The three conditions under which log_write panics. */
  predicate WritePanics(k: Params, s: State) {
    |s.blocks| >= k.logSize || |s.blocks| >= k.size - 1 || s.outstanding < 1
  }

  /** An operation keeps to its promise to add at most MAXOPBLOCKS new blocks: it logs a block
      while it has logged fewer new ones, or one that is in the log already. */
  predicate KeepsPromise(k: Params, s: State, p: nat, b: int) {
    Known(s, p) && s.procs[p].InOp? && (s.procs[p].spent < k.maxOp || b in s.blocks)
  }

  /** A step is enabled only when the code does not panic in it; when the panics can happen is
      stated below. */
  predicate Next(k: Params, s: State, a: Action, t: State) {
    match a
    case BeginOp(p) =>
      Known(s, p) && WantsBegin(s, p) && !MustWait(k, s) &&
      t == Set(s, p, InOp(0)).(outstanding := s.outstanding + 1)
    case Sleep(p) =>
      Known(s, p) && WantsBegin(s, p) && MustWait(k, s) &&
      t == Set(s, p, Asleep)
    case CheckWrite(p, b) =>
      KeepsPromise(k, s, p, b) && !WritePanics(k, s) &&
      t == Set(s, p, Writing(s.procs[p].spent, b))
    case Record(p) =>
      Known(s, p) && s.procs[p].Writing? &&
      (var b := s.procs[p].block;
       var added := if b in s.blocks then 0 else 1;
       t == Set(s, p, InOp(s.procs[p].spent + added)).(blocks := Absorb(s.blocks, b)))
    case EndOp(p) =>
      Known(s, p) && s.procs[p].InOp? && !s.committing &&
      (if s.outstanding == 1 then
         t == Set(s, p, Committing).(outstanding := 0, committing := true)
       else
         t == Set(s, p, Idle).(outstanding := s.outstanding - 1, procs := Wake(s.procs[p := Idle])))
    case Clear(p) =>
      Known(s, p) && s.procs[p].Committing? &&
      t == Set(s, p, Finishing).(blocks := [])
    case Finish(p) =>
      Known(s, p) && s.procs[p].Finishing? &&
      t == s.(committing := false, procs := Wake(s.procs[p := Idle]))
  }

  function Init(n: nat): State {
    State(0, false, [], seq(n, i => Idle))
  }

  /** Some process takes a step. */
  ghost predicate CanStep(k: Params, s: State, t: State) {
    exists a :: Next(k, s, a, t)
  }

  ghost predicate IsRun(k: Params, n: nat, run: seq<State>) {
    && |run| > 0 && run[0] == Init(n)
    && forall i :: 0 <= i < |run| - 1 ==> CanStep(k, run[i], run[i + 1])
  }

  ghost predicate Reachable(k: Params, n: nat, s: State) {
    exists run :: IsRun(k, n, run) && run[|run| - 1] == s
  }

  // ----- sums over the processes

  /** What is counted: open operations, committers, or the blocks an open operation may
      still add (MAXOPBLOCKS less the new ones it has logged). */
  datatype Measure = Active | Commits | Unspent(maxOp: nat)

  function Weight(w: Measure, pc: Pc): nat {
    match w
    case Active => if pc.InOp? || pc.Writing? then 1 else 0
    case Commits => if pc.Committing? || pc.Finishing? then 1 else 0
    case Unspent(m) => if (pc.InOp? || pc.Writing?) && pc.spent <= m then m - pc.spent else 0
  }

  function Total(procs: seq<Pc>, w: Measure): nat {
    if |procs| == 0 then 0 else Weight(w, procs[|procs| - 1]) + Total(procs[..|procs| - 1], w)
  }

  lemma {:induction false} TotalSet(procs: seq<Pc>, w: Measure, p: nat, pc: Pc)
    requires p < |procs|
    ensures Total(procs[p := pc], w) == Total(procs, w) - Weight(w, procs[p]) + Weight(w, pc)
    ensures Total(procs, w) >= Weight(w, procs[p])
  {
    var last := |procs| - 1;
    if p < last {
      TotalSet(procs[..last], w, p, pc);
      assert procs[p := pc][..last] == procs[..last][p := pc];
    } else {
      assert procs[p := pc][..last] == procs[..last];
    }
  }

  lemma {:induction false} TotalWake(procs: seq<Pc>, w: Measure)
    ensures Total(Wake(procs), w) == Total(procs, w)
  {
    if |procs| > 0 {
      var last := |procs| - 1;
      TotalWake(procs[..last], w);
      assert Wake(procs)[..last] == Wake(procs[..last]);
    }
  }

  lemma {:induction false} TotalTwo(procs: seq<Pc>, w: Measure, p: nat, q: nat)
    requires p < |procs| && q < |procs| && p != q
    ensures Total(procs, w) >= Weight(w, procs[p]) + Weight(w, procs[q])
  {
    TotalSet(procs, w, p, Idle);
    TotalSet(procs[p := Idle], w, q, Idle);
    assert procs[p := Idle][q] == procs[q];
  }

  lemma {:induction false} TotalZero(n: nat, w: Measure)
    ensures Total(seq(n, i => Idle), w) == 0
  {
    if n > 0 {
      TotalZero(n - 1, w);
      var procs: seq<Pc> := seq(n, i => Idle);
      assert procs[..n - 1] == seq(n - 1, i => Idle);
    }
  }

  // ----- the invariant

  /** The largest number of blocks the log ever holds: with LOGSIZE below two operations'
      worth, begin_op never lets a second operation in. */
  function Peak(k: Params): nat {
    if k.logSize < 2 * k.maxOp then k.maxOp else k.logSize
  }

  ghost predicate Inv(k: Params, s: State) {
    && s.outstanding == Total(s.procs, Active)
    && Total(s.procs, Commits) == (if s.committing then 1 else 0)
    && (s.committing ==> s.outstanding == 0)
    && (!s.committing && s.outstanding == 0 ==> s.blocks == [])
    && (forall p :: 0 <= p < |s.procs| && s.procs[p].Finishing? ==> s.blocks == [])
    && (forall p :: 0 <= p < |s.procs| && s.procs[p].Asleep? ==> MustWait(k, s))
    && (forall p :: 0 <= p < |s.procs| && s.procs[p].InOp? ==> s.procs[p].spent <= k.maxOp)
    && (forall p :: 0 <= p < |s.procs| && s.procs[p].Writing? ==>
          s.procs[p].spent < k.maxOp || (s.procs[p].spent == k.maxOp && s.procs[p].block in s.blocks))
    && |s.blocks| + Total(s.procs, Unspent(k.maxOp)) <= Peak(k)
    && NoRepeats(s.blocks)
  }

  ghost predicate Sane(k: Params) {
    1 <= k.maxOp <= k.logSize
  }

  lemma InitInv(k: Params, n: nat)
    requires Sane(k)
    ensures Inv(k, Init(n))
  {
    TotalZero(n, Active);
    TotalZero(n, Commits);
    TotalZero(n, Unspent(k.maxOp));
  }

  lemma SetTotals(k: Params, s: State, p: nat, pc: Pc)
    requires Known(s, p)
    ensures var t := s.procs[p := pc];
            && Total(t, Active) == Total(s.procs, Active) - Weight(Active, s.procs[p]) + Weight(Active, pc)
            && Total(t, Commits) == Total(s.procs, Commits) - Weight(Commits, s.procs[p]) + Weight(Commits, pc)
            && Total(t, Unspent(k.maxOp)) == Total(s.procs, Unspent(k.maxOp)) - Weight(Unspent(k.maxOp), s.procs[p]) + Weight(Unspent(k.maxOp), pc)
            && Total(s.procs, Active) >= Weight(Active, s.procs[p])
            && Total(s.procs, Commits) >= Weight(Commits, s.procs[p])
            && Total(s.procs, Unspent(k.maxOp)) >= Weight(Unspent(k.maxOp), s.procs[p])
            && Total(Wake(t), Active) == Total(t, Active)
            && Total(Wake(t), Commits) == Total(t, Commits)
            && Total(Wake(t), Unspent(k.maxOp)) == Total(t, Unspent(k.maxOp))
  {
    TotalSet(s.procs, Active, p, pc);
    TotalSet(s.procs, Commits, p, pc);
    TotalSet(s.procs, Unspent(k.maxOp), p, pc);
    TotalWake(s.procs[p := pc], Active);
    TotalWake(s.procs[p := pc], Commits);
    TotalWake(s.procs[p := pc], Unspent(k.maxOp));
  }

  lemma NobodyCommits(k: Params, s: State)
    requires Inv(k, s) && !s.committing
    ensures forall q :: 0 <= q < |s.procs| ==> Weight(Commits, s.procs[q]) == 0
  {
    hide NoRepeats;
    forall q | 0 <= q < |s.procs| ensures Weight(Commits, s.procs[q]) == 0 {
      TotalSet(s.procs, Commits, q, Idle);
    }
  }

  lemma ReservationFits(k: Params, s: State)
    requires Sane(k) && Inv(k, s) && !MustWait(k, s)
    ensures |s.blocks| + Total(s.procs, Unspent(k.maxOp)) + k.maxOp <= Peak(k)
  {
    hide NoRepeats, Total;
    var open := Total(s.procs, Active);
    UnspentBound(k, s.procs);
    OneMore(open, k.maxOp);
    if open > 0 {
      Monotone(1, open, k.maxOp);
    }
  }

  lemma BeginKeepsInv(k: Params, s: State, p: nat, t: State)
    requires Sane(k) && Inv(k, s) && Next(k, s, BeginOp(p), t)
    ensures Inv(k, t)
  {
    hide NoRepeats, Total, Crowded, Peak;
    SetTotals(k, s, p, InOp(0));
    ReservationFits(k, s);
    NobodyCommits(k, s);
  }

  lemma {:induction false} UnspentBound(k: Params, procs: seq<Pc>)
    ensures Total(procs, Unspent(k.maxOp)) <= Total(procs, Active) * k.maxOp
  {
    if |procs| > 0 {
      var last := |procs| - 1;
      UnspentBound(k, procs[..last]);
      OneMore(Total(procs[..last], Active), k.maxOp);
    }
  }

  lemma AbsorbDistinct(blocks: seq<int>, b: int)
    requires NoRepeats(blocks)
    ensures NoRepeats(Absorb(blocks, b))
  {
  }

  lemma StillCrowded(k: Params, n: nat, n': nat, out: int)
    requires n <= n'
    ensures Crowded(k, n, out) ==> Crowded(k, n', out)
  {
  }

  lemma RecordKeepsInv(k: Params, s: State, p: nat, t: State)
    requires Sane(k) && Inv(k, s) && Next(k, s, Record(p), t)
    ensures Inv(k, t)
  {
    hide NoRepeats, Total, Crowded, Peak;
    AbsorbDistinct(s.blocks, s.procs[p].block);
    StillCrowded(k, |s.blocks|, |t.blocks|, s.outstanding);
    SetTotals(k, s, p, t.procs[p]);
    NobodyCommits(k, s);
  }

  lemma SleepKeepsInv(k: Params, s: State, p: nat, t: State)
    requires Sane(k) && Inv(k, s) && Next(k, s, Sleep(p), t)
    ensures Inv(k, t)
  {
    hide NoRepeats;
    SetTotals(k, s, p, Asleep);
    assert 1 * k.maxOp == k.maxOp;
  }

  lemma CheckKeepsInv(k: Params, s: State, p: nat, b: int, t: State)
    requires Sane(k) && Inv(k, s) && Next(k, s, CheckWrite(p, b), t)
    ensures Inv(k, t)
  {
    hide NoRepeats, Total, Crowded, Peak;
    SetTotals(k, s, p, t.procs[p]);
  }

  lemma NoneRepeats()
    ensures NoRepeats<int>([])
  {
  }

  lemma ClearKeepsInv(k: Params, s: State, p: nat, t: State)
    requires Sane(k) && Inv(k, s) && Next(k, s, Clear(p), t)
    ensures Inv(k, t)
  {
    hide NoRepeats;
    NoneRepeats();
    SetTotals(k, s, p, Finishing);
    FinisherAlone(k, s, p);
  }

  lemma FinishKeepsInv(k: Params, s: State, p: nat, t: State)
    requires Sane(k) && Inv(k, s) && Next(k, s, Finish(p), t)
    ensures Inv(k, t)
  {
    hide NoRepeats;
    SetTotals(k, s, p, Idle);
    FinisherAlone(k, s, p);
  }

  lemma FinisherAlone(k: Params, s: State, p: nat)
    requires Inv(k, s) && Known(s, p) && Weight(Commits, s.procs[p]) == 1
    ensures s.committing
    ensures forall q :: 0 <= q < |s.procs| && q != p ==> Weight(Commits, s.procs[q]) == 0
    ensures forall q :: 0 <= q < |s.procs| ==> Weight(Active, s.procs[q]) == 0
  {
    hide NoRepeats;
    TotalSet(s.procs, Commits, p, Idle);
    forall q | 0 <= q < |s.procs| && q != p ensures Weight(Commits, s.procs[q]) == 0 {
      TotalTwo(s.procs, Commits, p, q);
    }
    forall q | 0 <= q < |s.procs| ensures Weight(Active, s.procs[q]) == 0 {
      TotalSet(s.procs, Active, q, Idle);
    }
  }

  lemma LastEndKeepsInv(k: Params, s: State, p: nat, t: State)
    requires Sane(k) && Inv(k, s) && Next(k, s, EndOp(p), t) && s.outstanding == 1
    ensures Inv(k, t)
  {
    hide NoRepeats;
    NobodyCommits(k, s);
    SetTotals(k, s, p, Committing);
    NobodyElse(k, s, p);
  }

  /** With one operation outstanding nobody else is inside one. */
  lemma NobodyElse(k: Params, s: State, p: nat)
    requires Inv(k, s) && s.outstanding == 1 && Known(s, p) && s.procs[p].InOp?
    ensures forall q :: 0 <= q < |s.procs| && q != p ==> Weight(Active, s.procs[q]) == 0
  {
    hide NoRepeats, MustWait;
    forall q | 0 <= q < |s.procs| && q != p ensures Weight(Active, s.procs[q]) == 0 {
      TotalTwo(s.procs, Active, p, q);
    }
  }

  lemma EndOpKeepsInv(k: Params, s: State, p: nat, t: State)
    requires Sane(k) && Inv(k, s) && Next(k, s, EndOp(p), t) && s.outstanding != 1
    ensures Inv(k, t)
  {
    hide NoRepeats, MustWait;
    NobodyCommits(k, s);
    SetTotals(k, s, p, Idle);
  }

  lemma StepKeepsInv(k: Params, s: State, a: Action, t: State)
    requires Sane(k) && Inv(k, s) && Next(k, s, a, t)
    ensures Inv(k, t) && |t.procs| == |s.procs|
  {
    match a
    case BeginOp(p) => BeginKeepsInv(k, s, p, t);
    case Sleep(p) => SleepKeepsInv(k, s, p, t);
    case CheckWrite(p, b) => CheckKeepsInv(k, s, p, b, t);
    case Record(p) => RecordKeepsInv(k, s, p, t);
    case EndOp(p) =>
      if s.outstanding == 1 {
        LastEndKeepsInv(k, s, p, t);
      } else {
        EndOpKeepsInv(k, s, p, t);
      }
    case Clear(p) => ClearKeepsInv(k, s, p, t);
    case Finish(p) => FinishKeepsInv(k, s, p, t);
  }

  lemma {:induction false} RunInv(k: Params, n: nat, run: seq<State>)
    requires Sane(k) && IsRun(k, n, run)
    ensures Inv(k, run[|run| - 1]) && |run[|run| - 1].procs| == n
  {
    var last := |run| - 1;
    if last == 0 {
      InitInv(k, n);
    } else {
      assert IsRun(k, n, run[..last]);
      RunInv(k, n, run[..last]);
      var a :| Next(k, run[last - 1], a, run[last]);
      StepKeepsInv(k, run[last - 1], a, run[last]);
    }
  }

  // ----- what the protocol promises in every reachable state

  /** The protocol facts, and that the panic in end_op is unreachable.  Nobody sleeps in begin_op
      who could proceed; in particular a sleeper means a commit or an open operation. */
  lemma GroupCommitSafe(k: Params, n: nat, s: State)
    requires Sane(k) && Reachable(k, n, s)
    ensures s.committing ==> s.outstanding == 0
    ensures !s.committing && s.outstanding == 0 ==> s.blocks == []
    ensures forall p :: 0 <= p < n && Known(s, p) && s.procs[p].Asleep? ==>
      MustWait(k, s) && (s.committing || s.outstanding > 0)
    ensures |s.blocks| + Total(s.procs, Unspent(k.maxOp)) <= k.logSize
    ensures forall p :: 0 <= p < n && Known(s, p) && s.procs[p].InOp? ==> !s.committing && s.outstanding >= 1
    ensures NoRepeats(s.blocks)
  {
    var run :| IsRun(k, n, run) && run[|run| - 1] == s;
    RunInv(k, n, run);
    assert 1 * k.maxOp == k.maxOp;
    forall p | 0 <= p < n && Known(s, p) && s.procs[p].InOp? ensures !s.committing && s.outstanding >= 1 {
      TotalSet(s.procs, Active, p, Idle);
    }
  }

  /** Between its unlocked checks and the locked append, other processes may add blocks; when
      log_write does append, it still stays inside `lh.block[LOGSIZE]`. */
  lemma AppendInBounds(k: Params, n: nat, s: State, p: nat)
    requires Sane(k) && Reachable(k, n, s) && Known(s, p) && s.procs[p].Writing? && s.procs[p].block !in s.blocks
    ensures |s.blocks| < k.logSize
  {
    var run :| IsRun(k, n, run) && run[|run| - 1] == s;
    RunInv(k, n, run);
    TotalSet(s.procs, Unspent(k.maxOp), p, Idle);
  }

  /** A step never takes a block out of the log, except for the commit, when no operation is open; and
      the block that log_write was given is then in the log. */
  lemma LogGrows(k: Params, s: State, a: Action, t: State)
    requires Inv(k, s) && Next(k, s, a, t)
    ensures a.Record? ==> Known(s, a.p) && s.procs[a.p].Writing? && s.procs[a.p].block in t.blocks
    ensures a.Clear? ==> s.committing && forall q :: 0 <= q < |s.procs| ==> Weight(Active, s.procs[q]) == 0
    ensures !a.Clear? ==> s.blocks <= t.blocks
  {
    hide NoRepeats, MustWait, Total;
    if a.Clear? {
      FinisherAlone(k, s, a.p);
    }
  }

  /** What was in the log at some moment of an operation, its own blocks among them, is there as long as
      the operation is open: the commit that follows gets all of it. */
  lemma {:induction false} OperationStays(k: Params, n: nat, run: seq<State>, i: nat, j: nat, p: nat)
    requires Sane(k) && IsRun(k, n, run) && i <= j < |run|
    requires forall m :: i <= m < j ==> Known(run[m], p) && Weight(Active, run[m].procs[p]) == 1
    ensures run[i].blocks <= run[j].blocks
    decreases j
  {
    hide Inv, Next, Weight;
    if i < j {
      OperationStays(k, n, run, i, j - 1, p);
      assert CanStep(k, run[j - 1], run[j - 1 + 1]);
      var a :| Next(k, run[j - 1], a, run[j]);
      assert IsRun(k, n, run[..j]);
      RunInv(k, n, run[..j]);
      LogGrows(k, run[j - 1], a, run[j]);
    }
  }

  /** A process that may still log a new block and is about to call log_write. */
  predicate MayWrite(k: Params, s: State, p: nat) {
    Known(s, p) && s.procs[p].InOp? && s.procs[p].spent < k.maxOp
  }

  lemma NoWritePanic(k: Params, n: nat, s: State, p: nat)
    requires Sane(k) && k.size - 1 >= Peak(k)
    requires Reachable(k, n, s) && MayWrite(k, s, p)
    ensures !WritePanics(k, s)
  {
    var run :| IsRun(k, n, run) && run[|run| - 1] == s;
    RunInv(k, n, run);
    TotalSet(s.procs, Active, p, Idle);
    TotalSet(s.procs, Unspent(k.maxOp), p, Idle);
  }

  // ----- the converse: a log one block too short does panic

  lemma Extend(k: Params, n: nat, s: State, a: Action, t: State)
    requires Reachable(k, n, s) && Next(k, s, a, t)
    ensures Reachable(k, n, t)
  {
    var run :| IsRun(k, n, run) && run[|run| - 1] == s;
    var longer := run + [t];
    forall i | 0 <= i < |longer| - 1 ensures CanStep(k, longer[i], longer[i + 1]) {
      if i < |run| - 1 {
        assert longer[i] == run[i] && longer[i + 1] == run[i + 1];
      } else {
        assert Next(k, longer[i], a, longer[i + 1]);
      }
    }
    assert IsRun(k, n, longer);
  }

  function Upto(t: nat): (r: seq<int>)
    ensures |r| == t && forall i :: 0 <= i < t ==> r[i] == i
  {
    seq(t, i => i)
  }

  function Procs(n: nat, a: Pc, b: Pc): (r: seq<Pc>)
    requires n >= 2
    ensures |r| == n && r[0] == a && r[1] == b
  {
    [a, b] + seq(n - 2, i => Idle)
  }

  /** Process 0 holds an operation open while process 1 fills the log; `t` blocks are logged. */
  function Filling(k: Params, n: nat, t: nat): State
    requires n >= 2 && Sane(k)
  {
    if k.logSize < 2 * k.maxOp then State(1, false, Upto(t), Procs(n, InOp(t), Idle))
    else
      var a := if t <= k.logSize - k.maxOp then 0 else t - (k.logSize - k.maxOp);
      var room := k.logSize - 2 * k.maxOp;
      if t <= room then State(1, false, Upto(t), Procs(n, InOp(a), Idle))
      else State(2, false, Upto(t), Procs(n, InOp(a), InOp(if t - room < k.maxOp then t - room else k.maxOp)))
  }

  /** One block more: the process `p` passes the checks and records block `|s.blocks|`. */
  lemma LogOne(k: Params, n: nat, s: State, p: nat, t: State)
    requires Reachable(k, n, s) && MayWrite(k, s, p) && !WritePanics(k, s)
    requires s.blocks == Upto(|s.blocks|)
    requires t == Set(s, p, InOp(s.procs[p].spent + 1)).(blocks := Upto(|s.blocks| + 1))
    ensures Reachable(k, n, t)
  {
    var m := Set(s, p, Writing(s.procs[p].spent, |s.blocks|));
    Extend(k, n, s, CheckWrite(p, |s.blocks|), m);
    assert m.blocks + [|s.blocks|] == Upto(|s.blocks| + 1);
    assert m.procs[p := t.procs[p]] == t.procs;
    assert Next(k, m, Record(p), t);
    Extend(k, n, m, Record(p), t);
  }

  lemma FillOneRound(k: Params, n: nat, t: nat)
    requires Sane(k) && n >= 2 && 2 * k.maxOp <= k.logSize && t < k.logSize - 2 * k.maxOp && t < k.size - 1
    requires Reachable(k, n, Filling(k, n, t))
    ensures Reachable(k, n, Filling(k, n, t + 1))
  {
    var s := Filling(k, n, t);
    var s1 := Set(s, 1, InOp(0)).(outstanding := 2);
    Extend(k, n, s, BeginOp(1), s1);
    var s2 := Set(s1, 1, InOp(1)).(blocks := Upto(t + 1));
    LogOne(k, n, s1, 1, s2);
    var s3 := State(1, false, Upto(t + 1), Wake(s2.procs[1 := Idle]));
    assert Next(k, s2, EndOp(1), s3);
    Extend(k, n, s2, EndOp(1), s3);
    assert s3.procs == Filling(k, n, t + 1).procs;
  }

  lemma FillSecond(k: Params, n: nat, t: nat)
    requires Sane(k) && n >= 2 && 2 * k.maxOp <= k.logSize && t == k.logSize - 2 * k.maxOp && t < k.size - 1
    requires Reachable(k, n, Filling(k, n, t))
    ensures Reachable(k, n, Filling(k, n, t + 1))
  {
    hide Reachable;
    var s := Filling(k, n, t);
    var goal := Filling(k, n, t + 1);
    var s1 := Set(s, 1, InOp(0)).(outstanding := 2);
    Extend(k, n, s, BeginOp(1), s1);
    assert s1.procs[1 := InOp(1)] == goal.procs;
    LogOne(k, n, s1, 1, goal);
  }

  lemma FillStep(k: Params, n: nat, t: nat)
    requires Sane(k) && n >= 2 && t < Peak(k) && t < k.size - 1
    requires Reachable(k, n, Filling(k, n, t))
    ensures Reachable(k, n, Filling(k, n, t + 1))
  {
    hide Reachable, Next;
    var s := Filling(k, n, t);
    var goal := Filling(k, n, t + 1);
    if k.logSize < 2 * k.maxOp {
      assert s.procs[0 := InOp(t + 1)] == goal.procs;
      LogOne(k, n, s, 0, goal);
    } else if t < k.logSize - 2 * k.maxOp {
      FillOneRound(k, n, t);
    } else if t == k.logSize - 2 * k.maxOp {
      FillSecond(k, n, t);
    } else if t < k.logSize - k.maxOp {
      assert s.procs[1 := goal.procs[1]] == goal.procs;
      LogOne(k, n, s, 1, goal);
    } else {
      assert s.procs[0 := goal.procs[0]] == goal.procs;
      LogOne(k, n, s, 0, goal);
    }
  }

  lemma {:induction false} FillReachable(k: Params, n: nat, t: nat)
    requires Sane(k) && n >= 2 && t <= Peak(k) && (t == 0 || t <= k.size - 1)
    ensures Reachable(k, n, Filling(k, n, t))
  {
    if t == 0 {
      assert IsRun(k, n, [Init(n)]);
      assert Reachable(k, n, Init(n)) by { assert [Init(n)][|[Init(n)]| - 1] == Init(n); }
      var s := Filling(k, n, 0);
      assert 1 * k.maxOp == k.maxOp;
      assert Init(n).procs[0 := InOp(0)] == s.procs;
      assert Next(k, Init(n), BeginOp(0), s);
      Extend(k, n, Init(n), BeginOp(0), s);
    } else {
      FillReachable(k, n, t - 1);
      FillStep(k, n, t - 1);
    }
  }

  /** log_write cannot panic on an operation with unspent reservation if and only if the on-disk
      log has room for the peak besides its header. */
  lemma WritePanicIff(k: Params, n: nat)
    requires Sane(k) && n >= 2
    ensures (forall s, p :: Reachable(k, n, s) && MayWrite(k, s, p) ==> !WritePanics(k, s)) <==>
            k.size - 1 >= Peak(k)
  {
    if k.size - 1 >= Peak(k) {
      forall s, p | Reachable(k, n, s) && MayWrite(k, s, p) ensures !WritePanics(k, s) {
        NoWritePanic(k, n, s, p);
      }
    } else {
      var t: nat := if k.size < 1 then 0 else k.size - 1;
      FillReachable(k, n, t);
      assert MayWrite(k, Filling(k, n, t), 0);
      assert WritePanics(k, Filling(k, n, t));
    }
  }

  /** An operation that has spent its reservation may log one of its blocks again, and the size
      test comes before the search for it.  So log_write cannot panic on any operation that keeps
      its promise if and only if the log is never full, in memory or on disk. */
  lemma PromisePanicIff(k: Params, n: nat)
    requires Sane(k) && n >= 2
    ensures (forall s, p, b :: Reachable(k, n, s) && KeepsPromise(k, s, p, b) ==> !WritePanics(k, s)) <==>
            Peak(k) < k.logSize && Peak(k) < k.size - 1
  {
    if Peak(k) < k.logSize && Peak(k) < k.size - 1 {
      forall s, p, b | Reachable(k, n, s) && KeepsPromise(k, s, p, b) ensures !WritePanics(k, s) {
        BelowPeak(k, n, s, p);
      }
    } else {
      var t: nat := if k.size < 1 then 0 else if k.size - 1 < Peak(k) then k.size - 1 else Peak(k);
      FillReachable(k, n, t);
      assert t > 0 ==> Filling(k, n, t).blocks[0] == 0;
      assert KeepsPromise(k, Filling(k, n, t), 0, 0);
      assert WritePanics(k, Filling(k, n, t));
    }
  }

  lemma BelowPeak(k: Params, n: nat, s: State, p: nat)
    requires Sane(k) && Reachable(k, n, s) && Known(s, p) && s.procs[p].InOp?
    ensures |s.blocks| <= Peak(k) && s.outstanding >= 1
  {
    var run :| IsRun(k, n, run) && run[|run| - 1] == s;
    RunInv(k, n, run);
    TotalSet(s.procs, Active, p, Idle);
  }

  /** mkfs sets `nlog = LOGSIZE`, one block short of the condition: with the shipped constants
      (LOGSIZE 30, MAXOPBLOCKS 10) two processes can drive log_write into its panic. */
  lemma ShippedLogTooShort(n: nat)
    requires n >= 2
    ensures var k := Params(30, 10, 30);
            exists s, p :: Reachable(k, n, s) && MayWrite(k, s, p) && WritePanics(k, s)
  {
    WritePanicIff(Params(30, 10, 30), n);
  }

  /** And whatever the size of the on-disk log, an operation that logs a block again can: with these
      constants the log fills up before begin_op makes anybody wait. */
  lemma ShippedRelogPanics(n: nat, size: int)
    requires n >= 2
    ensures var k := Params(30, 10, size);
            exists s, p, b :: Reachable(k, n, s) && KeepsPromise(k, s, p, b) && WritePanics(k, s)
  {
    PromisePanicIff(Params(30, 10, size), n);
  }
}
