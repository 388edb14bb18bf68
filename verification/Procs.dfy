/** The process table in place: fork, exit, wait, sleep, wakeup, kill and the
    scheduler.

    On the single processor a process keeps running in the kernel until it calls
    sched, so each method is one stretch of kernel code under the table's lock.
    `current` is the process that runs; the scheduler runs when it is null. */
module Procs {
  import opened Collections
  import opened ProcTable
  import S = Sched

  datatype Waited = Reaped(pid: nat) | NoChild | Slept

  // ---- the loop of exit ------------------------------------------------------------

  ghost predicate ZombieBelow(ps: seq<Proc>, me: nat, n: nat) {
    exists j :: 0 <= j < n && j < |ps| && ps[j].parent == At(me) && ps[j].state == ZOMBIE
  }

  /** Exit has woken its parent and passed its children in the first `n` slots on. */
  ghost predicate Passing(ps: seq<Proc>, me: nat, init: nat, n: nat, ps': seq<Proc>)
    requires me < |ps|
  {
    |ps'| == |ps| && forall j | 0 <= j < |ps| :: PassingSlot(ps, me, init, n, j, ps'[j])
  }

  ghost predicate PassingSlot(ps: seq<Proc>, me: nat, init: nat, n: nat, j: nat, p: Proc)
    requires me < |ps| && j < |ps|
  {
    var q := ps[j];
    && p.pid == q.pid && p.killed == q.killed && p.chan == q.chan
    && p.parent == (if j < n && q.parent == At(me) then At(init) else q.parent)
    && p.state == (if q.state == SLEEPING && ((ps[me].parent.At? && q.chan == OfProc(ps[me].parent.i))
                                              || (q.chan == OfProc(init) && ZombieBelow(ps, me, n))) then RUNNABLE
                   else q.state)
  }

  lemma PassingDone(ps: seq<Proc>, me: nat, init: nat, ps': seq<Proc>)
    requires me < |ps| && Passing(ps, me, init, |ps|, ps') && ps[me].state == RUNNING
    ensures ExitStep(ps, me, init, ps'[me := ps'[me].(state := ZOMBIE)])
  {
    assert ZombieBelow(ps, me, |ps|) <==> HasZombieChild(ps, me);
    var ps'' := ps'[me := ps'[me].(state := ZOMBIE)];
    forall j: nat | j < |ps| ensures ExitSlot(ps, me, init, j, ps''[j]) {
      assert PassingSlot(ps, me, init, |ps|, j, ps'[j]);
    }
  }

  function Woken(ps: seq<Proc>, chan: Chan): (r: seq<Proc>)
    ensures |r| == |ps| && forall j | 0 <= j < |ps| :: r[j] == Wakes(ps[j], chan)
  {
    seq(|ps|, j requires 0 <= j < |ps| => Wakes(ps[j], chan))
  }

  lemma PassingStart(ps: seq<Proc>, me: nat, init: nat)
    requires me < |ps| && ps[me].parent.At?
    ensures Passing(ps, me, init, 0, Woken(ps, OfProc(ps[me].parent.i)))
  {
  }

  /** The `n`-th slot: a child is passed on, and init woken if it is a zombie. */
  ghost function PassOne(ps: seq<Proc>, me: nat, init: nat, n: nat): seq<Proc>
    requires n < |ps|
  {
    if ps[n].parent != At(me) then ps
    else
      var ps1 := ps[n := ps[n].(parent := At(init))];
      if ps[n].state == ZOMBIE then Woken(ps1, OfProc(init)) else ps1
  }

  lemma PassingNext(ps: seq<Proc>, me: nat, init: nat, n: nat, ps': seq<Proc>)
    requires me < |ps| && n < |ps| && Passing(ps, me, init, n, ps') && me != init
    ensures Passing(ps, me, init, n + 1, PassOne(ps', me, init, n))
  {
    assert PassingSlot(ps, me, init, n, n, ps'[n]);
    ZombieNext(ps, me, n);
    hide ZombieBelow;
    var after := PassOne(ps', me, init, n);
    forall j | 0 <= j < |ps| ensures PassingSlot(ps, me, init, n + 1, j, after[j]) {
      assert PassingSlot(ps, me, init, n, j, ps'[j]);
    }
  }

  lemma ZombieNext(ps: seq<Proc>, me: nat, n: nat)
    requires n < |ps|
    ensures ZombieBelow(ps, me, n + 1) <==> ZombieBelow(ps, me, n) || (ps[n].parent == At(me) && ps[n].state == ZOMBIE)
  {
  }

  /** The first zombie child's slot has been freed; nothing else changed. */
  ghost predicate ChildReaped(ps: seq<Proc>, ps': seq<Proc>, me: nat, pid: nat) {
    exists j :: 0 <= j < |ps| && ps[j].parent == At(me) && ps[j].state == ZOMBIE && ps[j].pid == pid
      && (forall i | 0 <= i < j :: !(ps[i].parent == At(me) && ps[i].state == ZOMBIE))
      && ps' == ps[j := Proc(UNUSED, 0, Null, ps[j].chan, false)]
  }

  /** A process with children, none of them a zombie, sleeps in wait. */
  ghost predicate FellAsleep(ps: seq<Proc>, ps': seq<Proc>, me: nat) {
    && me < |ps| && !Childless(ps, me) && !HasZombieChild(ps, me)
    && ps' == ps[me := ps[me].(state := SLEEPING, chan := OfProc(me))]
  }

  /** An unused slot has become a runnable child; nothing else changed. */
  ghost predicate Born(ps: seq<Proc>, ps': seq<Proc>, pid: nat, parent: Ref) {
    exists i :: 0 <= i < |ps| && ps[i].state == UNUSED &&
      ps' == ps[i := ps[i].(state := RUNNABLE, pid := pid, parent := parent)]
  }

  function Killed(p: Proc): Proc { p.(killed := true, state := if p.state == SLEEPING then RUNNABLE else p.state) }

  /** `n` is the first slot with the pid, in use or not. */
  ghost predicate FirstWith(ps: seq<Proc>, pid: nat, n: nat) {
    n < |ps| && ps[n].pid == pid && forall j | 0 <= j < n :: ps[j].pid != pid
  }

  // ---- the table ----------------------------------------------------------------------

  class Kernel {
    const proc: array<Proc>
    var current: Ref
    var init: nat
    var nextpid: nat
    /** The slot the scheduler looks at next. */
    var cursor: nat
    /** The pids that exited, those reaped in order, the slots dispatched, and how
        many slots the scheduler looked at. */
    ghost var exited: set<nat>
    ghost var reaped: seq<nat>
    ghost var history: seq<nat>
    ghost var scans: nat

    ghost function T(): Table
      reads this, proc
    {
      Table(proc[..], current, init, nextpid, exited, reaped)
    }

    ghost function V(): S.View
      reads this, proc
    {
      S.View(proc[..], cursor, history, scans)
    }

    ghost predicate Valid()
      reads this, proc
    {
      Inv(T()) && cursor < NPROC && 0 < nextpid
    }

    /** userinit, after the table was zeroed. */
    constructor ()
      ensures Valid() && fresh(proc) && current == Null && reaped == [] && exited == {} && nextpid == 2
      ensures init < NPROC && proc[init].state == RUNNABLE && proc[init].pid == 1 && !proc[init].killed
      ensures forall j | 0 <= j < NPROC && j != init :: proc[j].state == UNUSED
    {
      proc := new Proc[NPROC](_ => FREE_SLOT);
      current, init, nextpid, cursor := Null, 0, 2, 0;
      exited, reaped, history, scans := {}, [], [], 0;
      new;
      proc[0] := Proc(RUNNABLE, 1, Null, NoChan, false);
      assert forall j | 0 < j < NPROC :: proc[j] == FREE_SLOT;
      Boot(T());
    }

    /** Every process sleeping on `chan` becomes runnable. */
    method Wakeup1(chan: Chan)
      requires proc.Length == NPROC
      modifies proc
      ensures proc[..] == Woken(old(proc[..]), chan)
    {
      for n := 0 to NPROC
        invariant forall j | 0 <= j < n :: proc[j] == Wakes(old(proc[j]), chan)
        invariant forall j | n <= j < NPROC :: proc[j] == old(proc[j])
      {
        if proc[n].state == SLEEPING && proc[n].chan == chan {
          proc[n] := proc[n].(state := RUNNABLE);
        }
      }
    }

    method Wakeup(chan: Chan)
      requires Valid()
      modifies proc
      ensures Valid() && proc[..] == Woken(old(proc[..]), chan) && S.Runs(old(V()), V())
      ensures forall j | 0 <= j < NPROC :: var p := old(proc[j]);
        proc[j] == if p.state == SLEEPING && p.chan == chan then p.(state := RUNNABLE) else p
      ensures forall j | 0 <= j < NPROC :: proc[j].state == SLEEPING ==> proc[j].chan != chan
    {
      hide Inv;
      LengthIs(T());
      ghost var t := T();
      Wakeup1(chan);
      WokenKeeps(t, proc[..]);
    }

    /** An unused slot becomes an embryo, unless there is none or its kernel stack
        cannot be had. */
    method AllocProc(kstack: bool) returns (r: Ref)
      requires Valid()
      modifies proc, this`nextpid
      ensures Valid() && S.Runs(old(V()), V()) && nextpid >= old(nextpid)
      ensures r.Null? <==> !kstack || forall j | 0 <= j < NPROC :: old(proc[j]).state != UNUSED
      ensures match r
        case At(i) => i < NPROC && old(proc[i]).state == UNUSED &&
          (forall j | 0 <= j < i :: old(proc[j]).state != UNUSED) && nextpid == old(nextpid) + 1
          && proc[..] == old(proc[..])[i := old(proc[i]).(state := EMBRYO, pid := old(nextpid))]
        case Null => forall j | 0 <= j < NPROC && old(proc[j]).state != UNUSED :: proc[j] == old(proc[j])
      ensures forall j | 0 <= j < NPROC && old(proc[j]).state == UNUSED && r != At(j) ::
        proc[j].state == UNUSED && proc[j].parent == old(proc[j]).parent
    {
      hide Inv;
      LengthIs(T());
      var n := 0;
      while n < NPROC && proc[n].state != UNUSED
        invariant n <= NPROC && forall j | 0 <= j < n :: proc[j].state != UNUSED
      {
        n := n + 1;
      }
      if n == NPROC { return Null; }
      ghost var t := T();
      Unused(t, n);
      SlotKeeps(t, n, t.ps[n].(state := EMBRYO, pid := nextpid), nextpid + 1);
      proc[n] := proc[n].(state := EMBRYO, pid := nextpid);
      nextpid := nextpid + 1;
      if !kstack {
        SlotKeeps(T(), n, proc[n].(state := UNUSED), nextpid);
        proc[n] := proc[n].(state := UNUSED);
        return Null;
      }
      return At(n);
    }

    /** The current process makes a child; `kstack` and `copied` say whether memory
        could be had. */
    method Fork(kstack: bool, copied: bool) returns (pid: int)
      requires Valid() && current.At?
      modifies proc, this`nextpid
      ensures Valid() && S.Runs(old(V()), V())
      ensures pid == -1 <==> !kstack || !copied || forall j | 0 <= j < NPROC :: old(proc[j]).state != UNUSED
      ensures forall j | 0 <= j < NPROC && old(proc[j]).state != UNUSED :: proc[j] == old(proc[j])
      ensures pid == -1 ==> forall j | 0 <= j < NPROC && old(proc[j]).state == UNUSED :: proc[j].state == UNUSED
      ensures pid != -1 ==> pid == old(nextpid) && Born(old(proc[..]), proc[..], pid, current)
    {
      hide Inv;
      LengthIs(T());
      ghost var t0 := T();
      var r := AllocProc(kstack);
      if r.Null? { return -1; }
      var np := r.i;
      ghost var t := T();
      CurrentRuns(t0);
      Unused(t0, np);
      if !copied {
        SlotKeeps(t, np, t.ps[np].(state := UNUSED), nextpid);
        proc[np] := proc[np].(state := UNUSED);
        return -1;
      }
      SlotKeeps(t, np, t.ps[np].(parent := current, state := RUNNABLE), nextpid);
      proc[np] := proc[np].(parent := current);
      pid := proc[np].pid;
      proc[np] := proc[np].(state := RUNNABLE);
      assert proc[..] == t.ps[np := t.ps[np].(parent := current, state := RUNNABLE)];
      assert t0.ps[np].state == UNUSED &&
        proc[..] == t0.ps[np := t0.ps[np].(state := RUNNABLE, pid := pid, parent := current)];
    }

    /** The current process ends; init may not. */
    method Exit()
      requires Valid() && current.At? && current.i != init
      modifies proc, this`current, this`exited
      ensures Valid() && current == Null && exited == old(exited) + {old(T()).ps[old(current).i].pid}
      ensures ExitStep(old(proc[..]), old(current).i, init, proc[..]) && S.Runs(old(V()), V())
    {
      hide Inv, Passing, ExitStep;
      LengthIs(T());
      CurrentRuns(T());
      ghost var t := T();
      var me := current.i;
      PassingStart(t.ps, me, init);
      Wakeup1(OfProc(proc[me].parent.i));
      for n := 0 to NPROC
        invariant Passing(t.ps, me, init, n, proc[..]) && exited == t.exited && current == t.current
      {
        PassingNext(t.ps, me, init, n, proc[..]);
        ghost var before := proc[..];
        if proc[n].parent == At(me) {
          proc[n] := proc[n].(parent := At(init));
          assert proc[..] == before[n := before[n].(parent := At(init))];
          if proc[n].state == ZOMBIE {
            Wakeup1(OfProc(init));
          }
        }
        assert proc[..] == PassOne(before, me, init, n);
      }
      PassingDone(t.ps, me, init, proc[..]);
      ghost var before := proc[..];
      proc[me] := proc[me].(state := ZOMBIE);
      assert proc[..] == before[me := before[me].(state := ZOMBIE)];
      exited := exited + {t.ps[me].pid};
      current := Null;
      ExitKeeps(t, me, proc[..]);
      ExitRuns(t.ps, me, init, proc[..]);
    }

    /** The current process reaps a zombie child, finds that it has none to wait
        for, or sleeps. */
    method Wait() returns (r: Waited)
      requires Valid() && current.At?
      modifies proc, this`current, this`reaped
      ensures Valid() && S.Runs(old(V()), V())
      ensures var me := old(current).i;
        match r
        case Reaped(pid) => current == old(current) && reaped == old(reaped) + [pid] &&
          ChildReaped(old(proc[..]), proc[..], me, pid)
        case NoChild => current == old(current) && reaped == old(reaped) && proc[..] == old(proc[..])
          && !HasZombieChild(old(proc[..]), me) && (Childless(proc[..], me) || proc[me].killed)
        case Slept => current == Null && reaped == old(reaped) && FellAsleep(old(proc[..]), proc[..], me)
      ensures r.Slept? ==> !old(proc[..])[old(current).i].killed
      ensures var me := old(current).i;
        && (r.Reaped? <==> HasZombieChild(old(proc[..]), me))
        && (r.NoChild? <==> !HasZombieChild(old(proc[..]), me)
                            && (Childless(old(proc[..]), me) || old(proc[..])[me].killed))
    {
      hide Inv;
      LengthIs(T());
      CurrentRuns(T());
      ghost var t := T();
      var me := current.i;
      var havekids := false;
      for n := 0 to NPROC
        invariant T() == t
        invariant havekids <==> exists j :: 0 <= j < n && t.ps[j].parent == At(me)
        invariant forall j | 0 <= j < n :: !(t.ps[j].parent == At(me) && t.ps[j].state == ZOMBIE)
      {
        if proc[n].parent == At(me) {
          havekids := true;
          if proc[n].state == ZOMBIE {
            var pid := proc[n].pid;
            ReapKeeps(t, me, n);
            proc[n] := Proc(UNUSED, 0, Null, proc[n].chan, false);
            reaped := reaped + [pid];
            assert proc[..] == t.ps[n := Proc(UNUSED, 0, Null, t.ps[n].chan, false)];
            return Reaped(pid);
          }
        }
      }
      if !havekids || proc[me].killed { return NoChild; }
      LeaveKeeps(t, me, SLEEPING, OfProc(me));
      proc[me] := proc[me].(state := SLEEPING, chan := OfProc(me));
      current := Null;
      assert proc[..] == t.ps[me := t.ps[me].(state := SLEEPING, chan := OfProc(me))];
      return Slept;
    }

    /** The current process sleeps on an address that is not a slot of the table. */
    method Sleep(addr: nat)
      requires Valid() && current.At?
      modifies proc, this`current
      ensures Valid() && current == Null && S.Runs(old(V()), V())
      ensures proc[..] == old(proc[..])[old(current).i := old(proc[current.i]).(state := SLEEPING, chan := Other(addr))]
    {
      hide Inv;
      LengthIs(T());
      CurrentRuns(T());
      ghost var t := T();
      var me := current.i;
      LeaveKeeps(t, me, SLEEPING, Other(addr));
      proc[me] := proc[me].(state := SLEEPING, chan := Other(addr));
      current := Null;
    }

    method Yield()
      requires Valid() && current.At?
      modifies proc, this`current
      ensures Valid() && current == Null && S.Runs(old(V()), V())
      ensures proc[..] == old(proc[..])[old(current).i := old(proc[current.i]).(state := RUNNABLE)]
    {
      hide Inv;
      LengthIs(T());
      CurrentRuns(T());
      ghost var t := T();
      var me := current.i;
      LeaveKeeps(t, me, RUNNABLE, t.ps[me].chan);
      proc[me] := proc[me].(state := RUNNABLE);
      current := Null;
    }

    /** The first slot with the pid is marked, and woken if it sleeps. */
    method Kill(pid: nat) returns (ok: bool)
      requires Valid()
      modifies proc
      ensures Valid() && S.Runs(old(V()), V())
      ensures ok <==> exists j :: 0 <= j < NPROC && old(proc[j]).pid == pid
      ensures !ok ==> proc[..] == old(proc[..])
      ensures ok ==> exists n | 0 <= n < NPROC ::
        FirstWith(old(proc[..]), pid, n) && proc[..] == old(proc[..])[n := Killed(old(proc[n]))]
      ensures forall j | 0 <= j < NPROC && old(proc[j]).pid == pid && old(proc[j]).state != UNUSED ::
        proc[j] == Killed(old(proc[j])) && proc[j].killed && proc[j].state != SLEEPING
      ensures forall j | 0 <= j < NPROC :: var p := old(proc[j]); var q := proc[j];
        && q.pid == p.pid && q.parent == p.parent && q.chan == p.chan && (p.killed ==> q.killed)
        && q.state == if p.state == SLEEPING && q != p then RUNNABLE else p.state
    {
      hide Inv;
      LengthIs(T());
      ghost var t := T();
      for n := 0 to NPROC
        invariant T() == t && forall j | 0 <= j < n :: proc[j].pid != pid
      {
        if proc[n].pid == pid {
          PidOnce(t, n);
          KilledKeeps(t, n);
          proc[n] := proc[n].(killed := true);
          if proc[n].state == SLEEPING {
            proc[n] := proc[n].(state := RUNNABLE);
          }
          assert proc[..] == t.ps[n := Killed(t.ps[n])];
          assert FirstWith(t.ps, pid, n);
          return true;
        }
      }
      return false;
    }

    /** One turn of the scheduler's loop: the next slot, dispatched if runnable.
        The process continues after its call of sched, where sleep clears the
        channel. */
    method Scan()
      requires Valid() && current == Null
      modifies this, proc
      ensures Valid() && S.Scans(old(V()), V())
      ensures current == if old(proc[cursor]).state == RUNNABLE then At(old(cursor)) else Null
      ensures proc[..] == if current == Null then old(proc[..])
                          else old(proc[..])[old(cursor) := old(proc[cursor]).(state := RUNNING, chan := NoChan)]
    {
      hide Inv;
      LengthIs(T());
      ghost var t := T();
      if proc[cursor].state == RUNNABLE {
        DispatchKeeps(t, cursor);
        proc[cursor] := proc[cursor].(state := RUNNING, chan := NoChan);
        current := At(cursor);
        history := history + [cursor];
      }
      scans := scans + 1;
      cursor := (cursor + 1) % NPROC;
    }
  }

  lemma PidOnce(t: Table, n: nat)
    requires Inv(t) && n < NPROC
    ensures forall j | 0 <= j < NPROC && j != n && t.ps[j].state != UNUSED :: t.ps[j].pid != t.ps[n].pid
  {
  }

  lemma Unused(t: Table, n: nat)
    requires Inv(t) && n < NPROC && t.ps[n].state == UNUSED
    ensures t.ps[n].parent == Null
  {
  }

  lemma CurrentRuns(t: Table)
    requires Inv(t) && t.current.At?
    ensures t.current.i < NPROC && t.ps[t.current.i].state == RUNNING
    ensures (t.current.i != t.init ==> t.ps[t.current.i].parent.At?)
  {
  }

  lemma ExitRuns(ps: seq<Proc>, me: nat, init: nat, ps': seq<Proc>)
    requires me < |ps| && ps[me].state == RUNNING && ExitStep(ps, me, init, ps')
    ensures forall q | 0 <= q < |ps| && ps[q].state == RUNNABLE :: ps'[q].state == RUNNABLE
  {
    forall q: nat | q < |ps| && ps[q].state == RUNNABLE ensures ps'[q].state == RUNNABLE {
      assert ExitSlot(ps, me, init, q, ps'[q]);
    }
  }

  lemma LengthIs(t: Table)
    requires Inv(t)
    ensures |t.ps| == NPROC
  {
  }

  lemma Boot(t: Table)
    requires |t.ps| == NPROC && t.ps[0] == Proc(RUNNABLE, 1, Null, NoChan, false)
    requires forall j | 0 < j < NPROC :: t.ps[j] == FREE_SLOT
    requires t.current == Null && t.init == 0 && t.nextpid == 2 && t.exited == {} && t.reaped == []
    ensures Inv(t)
  {
    forall pid: nat ensures !Zombie(t.ps, pid) { }
  }
}
