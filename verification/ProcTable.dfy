/** The loops over the process table (proc.c), each proved against the step machine's function of
    the whole table or against what the scan is for. */
module ProcTable {
  import opened Options
  import opened Proc

  /** Slot q after exit by p has woken p's parent and passed on the children below i; z says whether
      one of those was a zombie. */
  function ExitSlot(x: Slot, below: bool, p: nat, init: nat, z: bool): Slot {
    var b := if below && x.parent == Some(p) then x.(parent := Some(init)) else x;
    if z then WakeSlot(b, WaitChan(init)) else b
  }

  predicate ZombieBelow(procs: seq<Slot>, p: nat, i: nat)
    requires i <= |procs|
  {
    exists q: nat :: q < i && ZombieChild(procs, p, q)
  }

  lemma ExitScanDone(was: seq<Slot>, a: seq<Slot>, now: seq<Slot>, p: nat, init: nat)
    requires p < |was| && |now| == |a| && a == Wake1(was, ParentChan(was[p]))
    requires forall q :: 0 <= q < |a| ==> now[q] == ExitSlot(a[q], true, p, init, ZombieBelow(a, p, |a|))
    ensures now[p := now[p].(state := Zombie)] == ExitTable(was, p, init)
  {
    assert ZombieBelow(a, p, |a|) <==> AnyZombieChild(was, p) by {
      forall q: nat | q < |a| ensures ZombieChild(a, p, q) <==> ZombieChild(was, p, q) {
      }
      if ZombieBelow(a, p, |a|) {
        var q: nat :| q < |a| && ZombieChild(a, p, q);
        assert ZombieChild(was, p, q);
      }
      if AnyZombieChild(was, p) {
        var q: nat :| q < |was| && ZombieChild(was, p, q);
        assert ZombieChild(a, p, q);
      }
    }
  }

  lemma {:induction false} BelowNext(procs: seq<Slot>, p: nat, i: nat)
    requires i < |procs|
    ensures ZombieBelow(procs, p, i + 1) <==> ZombieBelow(procs, p, i) || ZombieChild(procs, p, i)
  {
    if ZombieBelow(procs, p, i + 1) {
      var q: nat :| q < i + 1 && ZombieChild(procs, p, q);
      assert q < i || q == i;
    }
  }

  class Table {
    const procs: array<Slot>

    constructor (n: nat)
      ensures procs.Length == n && fresh(procs)
      ensures forall q :: 0 <= q < n ==> procs[q] == Slot(Unused, 0, None, NoChan, false)
    {
      procs := new Slot[n](_ => Slot(Unused, 0, None, NoChan, false));
    }

    method Wakeup1(chan: Chan)
      modifies procs
      ensures procs[..] == Wake1(old(procs[..]), chan) && AllWoken(old(procs[..]), procs[..], chan)
    {
      Wake1Wakes(procs[..], chan);
      var i := 0;
      while i < procs.Length
        invariant 0 <= i <= procs.Length
        invariant forall q :: 0 <= q < i ==> procs[q] == WakeSlot(old(procs[q]), chan)
        invariant forall q :: i <= q < procs.Length ==> procs[q] == old(procs[q])
      {
        if procs[i].state == Sleeping && procs[i].chan == chan {
          procs[i] := procs[i].(state := Runnable);
        }
        i := i + 1;
      }
    }

    /** The critical section of exit. */
    method Exit(p: nat, init: nat)
      requires p < procs.Length
      modifies procs
      ensures procs[..] == ExitTable(old(procs[..]), p, init)
    {
      ghost var was := procs[..];
      Wakeup1(ParentChan(procs[p]));
      ghost var a := procs[..];
      var i := 0;
      while i < procs.Length
        invariant 0 <= i <= procs.Length == |a|
        invariant forall q :: 0 <= q < procs.Length ==> procs[q] == ExitSlot(a[q], q < i, p, init, ZombieBelow(a, p, i))
      {
        BelowNext(a, p, i);
        PassOn(i, p, init);
        i := i + 1;
      }
      ExitScanDone(was, a, procs[..], p, init);
      procs[p] := procs[p].(state := Zombie);
    }

    /** One turn of exit's loop. */
    method PassOn(i: nat, p: nat, init: nat)
      requires i < procs.Length
      modifies procs
      ensures forall q :: 0 <= q < procs.Length ==>
        procs[q] == ExitSlot(old(procs[q]), q == i, p, init, ZombieChild(old(procs[..]), p, i))
    {
      if procs[i].parent == Some(p) {
        procs[i] := procs[i].(parent := Some(init));
        if procs[i].state == Zombie {
          ghost var b := procs[..];
          Wakeup1(WaitChan(init));
          assert forall q :: 0 <= q < procs.Length ==> procs[..][q] == WakeSlot(b[q], WaitChan(init));
        }
      }
    }

    /** wait's scan: the first zombie child, or whether there are children at all. */
    method WaitScan(p: nat) returns (havekids: bool, found: Option<nat>)
      ensures found.Some? ==> found.value < procs.Length && ZombieChild(procs[..], p, found.value)
      ensures found.Some? ==> forall r: nat :: r < found.value ==> !ZombieChild(procs[..], p, r)
      ensures found == None ==> !AnyZombieChild(procs[..], p) && havekids == AnyChild(procs[..], p)
    {
      havekids, found := false, None;
      var i := 0;
      while i < procs.Length
        invariant 0 <= i <= procs.Length
        invariant forall r: nat :: r < i ==> !ZombieChild(procs[..], p, r)
        invariant havekids <==> exists r: nat :: r < i && procs[r].parent == Some(p)
      {
        if procs[i].parent == Some(p) {
          havekids := true;
          if procs[i].state == Zombie {
            found := Some(i);
            return;
          }
        }
        i := i + 1;
      }
    }

    /** Reaping: the slot is UNUSED, its pid, parent and killed flag cleared. */
    method Reap(q: nat) returns (pid: nat)
      requires q < procs.Length
      modifies procs
      ensures procs[..] == old(procs[..])[q := Slot(Unused, 0, None, old(procs[q]).chan, false)]
      ensures pid == old(procs[q]).pid
    {
      pid := procs[q].pid;
      procs[q] := procs[q].(pid := 0);
      procs[q] := procs[q].(parent := None);
      procs[q] := procs[q].(killed := false);
      procs[q] := procs[q].(state := Unused);
    }

    /** allocproc's scan: the first UNUSED slot, or none when every slot is in use. */
    method FindUnused() returns (found: Option<nat>)
      ensures found.Some? ==> found.value < procs.Length && procs[found.value].state == Unused
      ensures found.Some? ==> forall r :: 0 <= r < found.value ==> procs[r].state != Unused
      ensures found == None ==> forall r :: 0 <= r < procs.Length ==> procs[r].state != Unused
    {
      var i := 0;
      while i < procs.Length
        invariant 0 <= i <= procs.Length
        invariant forall r :: 0 <= r < i ==> procs[r].state != Unused
      {
        if procs[i].state == Unused {
          return Some(i);
        }
        i := i + 1;
      }
      return None;
    }

    /** kill marks the first slot with that pid and wakes it when it sleeps; nothing else changes. */
    method Kill(pid: nat) returns (ok: bool)
      modifies procs
      ensures ok <==> exists q :: 0 <= q < procs.Length && old(procs[q].pid) == pid
      ensures !ok ==> procs[..] == old(procs[..])
      ensures ok ==> exists q: nat :: q < procs.Length && KilledAt(old(procs[..]), procs[..], q, pid)
    {
      var i := 0;
      while i < procs.Length
        invariant 0 <= i <= procs.Length
        invariant procs[..] == old(procs[..])
        invariant forall q :: 0 <= q < i ==> procs[q].pid != pid
      {
        if procs[i].pid == pid {
          var x := procs[i];
          assert x == old(procs[..])[i];
          procs[i] := x.(killed := true);
          if procs[i].state == Sleeping {
            procs[i] := procs[i].(state := Runnable);
          }
          assert KilledAt(old(procs[..]), procs[..], i, pid);
          return true;
        }
        i := i + 1;
      }
      return false;
    }
  }

  predicate KilledAt(was: seq<Slot>, now: seq<Slot>, q: nat, pid: nat) {
    && q < |was| && was[q].pid == pid && (forall r :: 0 <= r < q ==> was[r].pid != pid)
    && now == was[q := was[q].(killed := true, state := if was[q].state == Sleeping then Runnable else was[q].state)]
  }
}
