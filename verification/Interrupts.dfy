/** Interrupt disabling by nesting, across context switches.

    The nesting depth and the remembered flag belong to the processor, but the
    critical sections belong to threads that switch in the middle of them.
    Thread 0 is the scheduler.  A trap or an interrupt handler runs on the thread
    it interrupts, so it appears as that thread changing the flag outside any
    critical section. */
module Interrupts {

  const SCHEDULER: nat := 0
  const PTABLE: nat := 0

  /** One thread: how many critical sections it is in, the flag before the outermost
      one, and what sched keeps on its stack while it is switched out. */
  datatype Thread = Thread(depth: nat, base: bool, saved: Saved)

  /** A thread that never ran has saved nothing. */
  datatype Saved = Unborn | Kept(intena: bool)

  datatype State = State(ncli: int, intena: bool, enabled: bool, running: nat, threads: map<nat, Thread>)

  // ---- the steps ---------------------------------------------------------------------

  ghost predicate Here(s: State) { s.running in s.threads && SCHEDULER in s.threads }

  function Depth(s: State): nat
    requires s.running in s.threads
  {
    s.threads[s.running].depth
  }

  /** Entering the kernel, an interrupt, returning from either, or the scheduler's sti. */
  function SetFlag(s: State, on: bool): State { s.(enabled := on) }

  function Acquired(s: State): State
    requires s.running in s.threads
  {
    var me := s.threads[s.running];
    State(s.ncli + 1, if s.ncli == 0 then s.enabled else s.intena, false, s.running,
          s.threads[s.running := me.(depth := me.depth + 1, base := if me.depth == 0 then s.enabled else me.base)])
  }

  function Released(s: State): State
    requires s.running in s.threads && s.threads[s.running].depth > 0
  {
    var me := s.threads[s.running];
    State(s.ncli - 1, s.intena, s.enabled || (s.ncli == 1 && s.intena), s.running,
      s.threads[s.running := me.(depth := me.depth - 1)])
  }

  /** A thread leaves through sched. */
  function Left(s: State): State
    requires s.running in s.threads
  {
    s.(running := SCHEDULER, threads := s.threads[s.running := s.threads[s.running].(saved := Kept(s.intena))])
  }

  /** The scheduler switches to a thread, which restores what it kept. */
  function Entered(s: State, t: nat): State
    requires t in s.threads
  {
    match s.threads[t].saved
    case Kept(intena) => s.(running := t, intena := intena)
    case Unborn => s.(running := t, threads := s.threads[t := s.threads[t].(base := s.intena)])
  }

  /** A new thread starts as if it had just been switched to. */
  function Born(s: State, t: nat): State { s.(threads := s.threads[t := Thread(1, false, Unborn)]) }

  ghost predicate Next(s: State, s': State) {
    && Here(s)
    && (|| (Depth(s) == 0 && exists on :: s' == SetFlag(s, on))
        || s' == Acquired(s)
        || (Depth(s) > 0 && s' == Released(s))
        || (s.running != SCHEDULER && Depth(s) == 1 && s' == Left(s))
        || (s.running == SCHEDULER && Depth(s) == 1 && exists t | t in s.threads && t != SCHEDULER ::
            s' == Entered(s, t))
        || (exists t | t !in s.threads :: s' == Born(s, t)))
  }

  /** The depth is that of the running thread, interrupts are off inside a critical
      section, and the remembered flag is that thread's own; every other thread is
      in exactly one critical section and has its own flag in safe keeping. */
  ghost predicate Inv(s: State) {
    && Here(s) && s.ncli == Depth(s) && (Depth(s) > 0 ==> !s.enabled)
    && (s.running != SCHEDULER && Depth(s) > 0 ==> s.intena == s.threads[s.running].base)
    && (forall t | t in s.threads && t != s.running :: s.threads[t].depth == 1)
    && (forall t | t in s.threads && t != s.running && t != SCHEDULER && s.threads[t].saved.Kept? ::
          s.threads[t].saved.intena == s.threads[t].base)
  }

  lemma AcquireKeeps(s: State)
    requires Inv(s)
    ensures Inv(Acquired(s))
  {
  }

  lemma ReleaseKeeps(s: State)
    requires Inv(s) && Depth(s) > 0
    ensures Inv(Released(s))
  {
  }

  lemma LeaveKeeps(s: State)
    requires Inv(s) && s.running != SCHEDULER && Depth(s) == 1
    ensures Inv(Left(s))
  {
  }

  lemma EnterKeeps(s: State, t: nat)
    requires Inv(s) && s.running == SCHEDULER && Depth(s) == 1 && t in s.threads && t != SCHEDULER
    ensures Inv(Entered(s, t)) && Entered(s, t).ncli == 1 && Entered(s, t).intena == Entered(s, t).threads[t].base
  {
  }

  lemma NextKeeps(s: State, s': State)
    requires Inv(s) && Next(s, s')
    ensures Inv(s')
  {
    hide Acquired, Released, Left, Entered;
    if s' == Acquired(s) {
      AcquireKeeps(s);
    } else if Depth(s) > 0 && s' == Released(s) {
      ReleaseKeeps(s);
    } else if s.running != SCHEDULER && Depth(s) == 1 && s' == Left(s) {
      LeaveKeeps(s);
    } else if t :| t in s.threads && t != SCHEDULER && s.running == SCHEDULER && Depth(s) == 1 && s' == Entered(s, t) {
      EnterKeeps(s, t);
    }
  }

  // ---- whole runs ---------------------------------------------------------------------

  ghost predicate Run(run: seq<State>) {
    run != [] && Inv(run[0]) && forall i | 0 <= i < |run| - 1 :: Next(run[i], run[i + 1])
  }

  /** From its first acquire on, thread `t` stays inside until the last state. */
  ghost predicate Inside(run: seq<State>, t: nat) {
    forall i | 0 < i < |run| :: t in run[i].threads && run[i].threads[t].depth > 0
  }

  lemma {:induction false} BaseStays(run: seq<State>, t: nat)
    requires Run(run) && |run| > 1 && run[0].running == t != SCHEDULER && Depth(run[0]) == 0
    requires run[1] == Acquired(run[0])
    requires Inside(run, t)
    ensures var last := run[|run| - 1];
      Inv(last) && last.threads[t].base == run[0].enabled && (last.running != t ==> last.threads[t].saved.Kept?)
  {
    hide Next, Inv;
    var n := |run|;
    assert Next(run[n - 2], run[n - 1]);
    if n == 2 {
      NextKeeps(run[0], run[1]);
    } else {
      var front := run[..n - 1];
      assert Run(front) by {
        forall i | 0 <= i < n - 2 ensures Next(front[i], front[i + 1]) { assert Next(run[i], run[i + 1]); }
      }
      assert Inside(front, t);
      BaseStays(front, t);
      NextKeeps(run[n - 2], run[n - 1]);
      BaseStep(run[n - 2], run[n - 1], t);
    }
  }

  lemma BaseStep(s: State, s': State, t: nat)
    requires Inv(s) && Next(s, s') && t in s.threads && t != SCHEDULER && s.threads[t].depth > 0
    requires s.running != t ==> s.threads[t].saved.Kept?
    ensures t in s'.threads && s'.threads[t].base == s.threads[t].base
    ensures (s'.running != t ==> s'.threads[t].saved.Kept?)
  {
  }

  lemma {:induction false} BaseKept(run: seq<State>, t: nat, n: nat)
    requires Run(run) && n < |run| && run[0].running == t != SCHEDULER && t in run[0].threads
    requires forall i | 0 <= i < |run| :: t in run[i].threads && run[i].threads[t].depth > 0
    ensures Inv(run[n]) && run[n].threads[t].base == run[0].threads[t].base
    ensures run[n].running != t ==> run[n].threads[t].saved.Kept?
  {
    hide Next, Inv;
    if n > 0 {
      BaseKept(run, t, n - 1);
      assert Next(run[n - 1], run[n]);
      NextKeeps(run[n - 1], run[n]);
      BaseStep(run[n - 1], run[n], t);
    }
  }

  /** A new thread starts inside the scheduler's section.  However often it is switched out
      before it first leaves that section, its release sets the flag that the scheduler
      had remembered when it first switched to it. */
  lemma FirstRelease(run: seq<State>, t: nat)
    requires Run(run) && |run| > 1 && run[0].running == SCHEDULER && run[1].running == t != SCHEDULER
    requires t in run[0].threads && run[0].threads[t].saved.Unborn?
    requires Inside(run, t) && run[|run| - 1].running == t && run[|run| - 1].threads[t].depth == 1
    ensures Released(run[|run| - 1]).enabled == run[0].intena && Released(run[|run| - 1]).ncli == 0
  {
    var part, n := run[1..], |run| - 1;
    assert Next(run[0], run[0 + 1]);
    RunPart(run, 1, |run|);
    assert run[1..|run|] == part;
    BaseKept(part, t, n - 1);
    assert part[n - 1] == run[n];
    NextKeeps(run[0], run[1]);
  }

  /** However often it was switched out in between and whatever other threads did,
      a thread's outermost release puts the flag back to what it was before its
      outermost acquire. */
  lemma FlagRestored(run: seq<State>, t: nat)
    requires Run(run) && |run| > 1 && run[0].running == t != SCHEDULER && Depth(run[0]) == 0
    requires run[1] == Acquired(run[0])
    requires Inside(run, t) && run[|run| - 1].running == t && run[|run| - 1].threads[t].depth == 1
    ensures Released(run[|run| - 1]).enabled == run[0].enabled && Released(run[|run| - 1]).ncli == 0
  {
    BaseStays(run, t);
  }

  lemma {:induction false} RunInv(run: seq<State>, i: nat)
    requires Run(run) && i < |run|
    ensures Inv(run[i])
  {
    if i > 0 {
      RunInv(run, i - 1);
      assert Next(run[i - 1], run[i]);
      NextKeeps(run[i - 1], run[i]);
    }
  }

  lemma RunPart(run: seq<State>, a: nat, b: nat)
    requires Run(run) && a < b <= |run|
    ensures Run(run[a..b])
  {
    hide Next, Inv;
    RunInv(run, a);
    forall i | 0 <= i < b - a - 1 ensures Next(run[a..b][i], run[a..b][i + 1]) {
      assert Next(run[a + i], run[a + i + 1]);
    }
  }

  /** From state `a` to state `b` the thread is inside one outermost section, which it
      entered at `a` and leaves after `b`. */
  ghost predicate Section(run: seq<State>, t: nat, a: nat, b: nat) {
    && a < b < |run| && run[a].running == run[b].running == t && t in run[a].threads && t in run[b].threads
    && run[a].threads[t].depth == 0 && run[a + 1] == Acquired(run[a]) && run[b].threads[t].depth == 1
    && forall i | a < i <= b :: t in run[i].threads && run[i].threads[t].depth > 0
  }

  lemma SectionRestores(run: seq<State>, t: nat, a: nat, b: nat)
    requires Run(run) && t != SCHEDULER && Section(run, t, a, b)
    ensures Released(run[b]).enabled == run[a].enabled
  {
    hide Next, Inv, Released;
    var part := run[a..b + 1];
    RunPart(run, a, b + 1);
    assert part[|part| - 1] == run[b];
    forall i | 0 < i < |part| ensures t in part[i].threads && part[i].threads[t].depth > 0 {
      assert part[i] == run[a + i];
    }
    FlagRestored(part, t);
  }

  /** The sections of one thread, one after the other: each ends with its release, and
      whatever came between, the flag is the same when the next begins.  That is what
      sleep does, which leaves the table's lock before it takes its own again, with
      any interrupt in the gap returning to the flag it found. */
  ghost predicate Sections(run: seq<State>, t: nat, cuts: seq<(nat, nat)>) {
    && (forall k | 0 <= k < |cuts| :: Section(run, t, cuts[k].0, cuts[k].1))
    && forall k | 0 <= k < |cuts| - 1 ::
      && cuts[k].1 + 1 <= cuts[k + 1].0 && run[cuts[k].1 + 1] == Released(run[cuts[k].1])
      && run[cuts[k + 1].0].enabled == run[cuts[k].1 + 1].enabled
  }

  /** Through any number of such gaps the last release restores the flag from before the
      first acquire. */
  lemma {:induction false} FlagRestoredThroughGaps(run: seq<State>, t: nat, cuts: seq<(nat, nat)>)
    requires Run(run) && t != SCHEDULER && cuts != [] && Sections(run, t, cuts)
    ensures Released(run[cuts[|cuts| - 1].1]).enabled == run[cuts[0].0].enabled
    decreases |cuts|
  {
    hide Next, Inv, Released, Section;
    var n := |cuts| - 1;
    SectionRestores(run, t, cuts[n].0, cuts[n].1);
    if n > 0 {
      FlagRestoredThroughGaps(run, t, cuts[..n]);
      assert cuts[..n][n - 1] == cuts[n - 1];
    }
  }

  // ---- the processor ---------------------------------------------------------------------

  class Processor {
    var ncli: int
    var intena: bool
    var enabled: bool
    var running: nat
    /** The lock words; a lock absent from the map is free. */
    var locked: map<nat, bool>
    /** What sched keeps on each thread's stack. */
    var saved: map<nat, bool>
    ghost var threads: map<nat, Thread>

    ghost function S(): State
      reads this
    {
      State(ncli, intena, enabled, running, threads)
    }

    ghost predicate Valid()
      reads this
    {
      Inv(S()) && forall t | t in threads ::
        (t in saved <==> threads[t].saved.Kept?) && (t in saved ==> saved[t] == threads[t].saved.intena)
    }

    /** The scheduler alone, outside any critical section, interrupts off. */
    constructor ()
      ensures Valid() && running == SCHEDULER && threads == map[SCHEDULER := Thread(0, false, Unborn)] && !enabled
    {
      ncli, intena, enabled, running, locked, saved := 0, false, false, SCHEDULER, map[], map[];
      threads := map[SCHEDULER := Thread(0, false, Unborn)];
    }

    method PushCli()
      requires Valid()
      modifies this
      ensures Valid() && S() == Acquired(old(S())) && locked == old(locked) && saved == old(saved)
    {
      ghost var s := S();
      var was := enabled;
      enabled := false;
      if ncli == 0 { intena := was; }
      ncli := ncli + 1;
      threads := Acquired(s).threads;
      NextKeeps(s, S());
    }

    /** Fails, as a panic, only outside every critical section. */
    method PopCli() returns (ok: bool)
      requires Valid()
      modifies this
      ensures ok <==> old(Depth(S())) > 0
      ensures ok ==> Valid() && S() == Released(old(S())) && locked == old(locked) && saved == old(saved)
    {
      ghost var s := S();
      if enabled { return false; }
      ncli := ncli - 1;
      if ncli < 0 { return false; }
      if ncli == 0 && intena { enabled := true; }
      threads := Released(s).threads;
      NextKeeps(s, S());
      return true;
    }

    method Acquire(l: nat)
      requires Valid()
      modifies this
      ensures Valid() && S() == Acquired(old(S())) && locked == old(locked)[l := true] && saved == old(saved)
    {
      PushCli();
      locked := locked[l := true];
    }

    method Release(l: nat) returns (ok: bool)
      requires Valid()
      modifies this
      ensures ok <==> old(Depth(S())) > 0
      ensures ok ==> Valid() && S() == Released(old(S())) && locked == old(locked)[l := false] && saved == old(saved)
    {
      locked := locked[l := false];
      ok := PopCli();
    }

    predicate Holding(l: nat)
      reads this
    {
      l in locked && locked[l]
    }

    /** The half of sched before the switch; it panics unless the table's lock is the
        only one held and the process no longer counts as running. */
    method Sched(stillRunning: bool) returns (ok: bool)
      requires Valid() && running != SCHEDULER
      modifies this
      ensures ok <==> old(Holding(PTABLE)) && old(Depth(S())) == 1 && !stillRunning
      ensures if ok then Valid() && S() == Left(old(S())) else S() == old(S())
      ensures locked == old(locked)
    {
      ghost var s := S();
      if !Holding(PTABLE) { return false; }
      if ncli != 1 { return false; }
      if stillRunning { return false; }
      if enabled { return false; }
      saved := saved[running := intena];
      threads := Left(s).threads;
      running := SCHEDULER;
      NextKeeps(s, S());
      return true;
    }

    /** The scheduler switches to `t`, which goes on after its own switch, or in
        forkret the first time.  It finds the depth it left, one. */
    method Dispatch(t: nat)
      requires Valid() && running == SCHEDULER && Depth(S()) == 1 && t in threads && t != SCHEDULER
      modifies this
      ensures Valid() && S() == Entered(old(S()), t) && ncli == 1 && intena == threads[t].base && locked == old(locked)
      ensures intena == (if t in old(saved) then old(saved)[t] else old(intena)) && running == t
      ensures enabled == old(enabled)
    {
      ghost var s := S();
      running := t;
      if t in saved { intena := saved[t]; }
      threads := Entered(s, t).threads;
      NextKeeps(s, S());
    }

    method Fork(t: nat)
      requires Valid() && t !in threads
      modifies this
      ensures Valid() && S() == Born(old(S()), t) && locked == old(locked)
    {
      ghost var s := S();
      saved := saved - {t};
      threads := threads[t := Thread(1, false, Unborn)];
      NextKeeps(s, S());
    }

    /** A trap, an interrupt, a return from either, or sti. */
    method Flag(on: bool)
      requires Valid() && Depth(S()) == 0
      modifies this
      ensures Valid() && S() == SetFlag(old(S()), on) && locked == old(locked) && saved == old(saved)
    {
      ghost var s := S();
      enabled := on;
      assert S() == SetFlag(s, on);
      NextKeeps(s, S());
    }

    /** The end of sleep with a lock other than the table's: the thread comes back
        inside that lock with the flag it had before it ever took it. */
    method SleepEnd(l: nat)
      requires Valid() && running != SCHEDULER && Depth(S()) == 1
      modifies this
      ensures Valid() && running == old(running) && threads == old(threads) && ncli == 1 && intena == old(intena)
      ensures locked == old(locked)[PTABLE := false][l := true]
    {
      var ok := Release(PTABLE);
      Acquire(l);
    }
  }

  /** The scheduler itself does not keep the flag: a thread that was switched out
      inside a section entered with interrupts off leaves that flag behind, and the
      scheduler's release then leaves interrupts off, although they were on before
      its acquire.  It turns them on again at the top of its loop. */
  lemma SchedulerLosesFlag() returns (run: seq<State>)
    ensures Run(run) && |run| > 2 && run[1] == Acquired(run[0])
    ensures var before := run[|run| - 2];
      before.running in before.threads && Depth(before) > 0 && run[|run| - 1] == Released(before)
    ensures run[0].running == run[|run| - 1].running == SCHEDULER && run[|run| - 1].ncli == Depth(run[0]) == 0
    ensures run[0].enabled && !run[|run| - 1].enabled
  {
    var s0 := State(0, false, true, SCHEDULER,
      map[SCHEDULER := Thread(0, false, Unborn), 1 := Thread(1, false, Unborn)]);
    var s1 := State(1, true, false, SCHEDULER,
      map[SCHEDULER := Thread(1, true, Unborn), 1 := Thread(1, false, Unborn)]);
    assert s1 == Acquired(s0);
    var s2 := State(1, true, false, 1, map[SCHEDULER := Thread(1, true, Unborn), 1 := Thread(1, true, Unborn)]);
    assert s2 == Entered(s1, 1);
    var s3 := State(0, true, true, 1, map[SCHEDULER := Thread(1, true, Unborn), 1 := Thread(0, true, Unborn)]);
    assert s3 == Released(s2);
    var s4 := SetFlag(s3, false);
    var s5 := State(1, false, false, 1, map[SCHEDULER := Thread(1, true, Unborn), 1 := Thread(1, false, Unborn)]);
    assert s5 == Acquired(s4);
    var s6 := State(1, false, false, SCHEDULER,
      map[SCHEDULER := Thread(1, true, Unborn), 1 := Thread(1, false, Kept(false))]);
    assert s6 == Left(s5);
    var s7 := State(0, false, false, SCHEDULER,
      map[SCHEDULER := Thread(0, true, Unborn), 1 := Thread(1, false, Kept(false))]);
    assert s7 == Released(s6);
    assert Inv(s0);
    run := [s0, s1, s2, s3, s4, s5, s6, s7];
  }

  /** A thread leaves through sched at step `i`. */
  ghost predicate Leaves(run: seq<State>, i: nat) {
    i + 1 < |run| && run[i].running != SCHEDULER && run[i + 1].running == SCHEDULER
  }

  /** The flag the leaving thread had before its outermost section. */
  ghost function LeaverFlag(run: seq<State>, i: nat): bool
    requires i < |run|
  {
    run[i].running in run[i].threads && run[i].threads[run[i].running].base
  }

  /** The scheduler acquires in the first step and stays inside to the last state. */
  ghost predicate SchedulerInside(run: seq<State>) {
    && Run(run) && |run| > 1 && run[0].running == SCHEDULER && Depth(run[0]) == 0 && run[1] == Acquired(run[0])
    && Inside(run, SCHEDULER)
  }

  /** Whose flag the scheduler would restore: its own, or the last leaver's. */
  ghost predicate FlagIs(run: seq<State>, n: nat, flag: bool)
    requires n < |run|
  {
    || ((forall i: nat | i < n :: !Leaves(run, i)) && flag == run[0].enabled)
    || (exists i: nat | i < n && Leaves(run, i) && (forall k: nat | i < k < n :: !Leaves(run, k)) ::
        LeaverFlag(run, i) == flag)
  }

  /** While the scheduler is inside, it runs on with the flag it finds; that changes only
      when a thread leaves, to that thread's own. */
  lemma SchedulerStep(s: State, s': State)
    requires Inv(s) && Next(s, s') && s.threads[SCHEDULER].depth > 0 && s'.running == SCHEDULER
    ensures if s.running == SCHEDULER then s'.intena == s.intena else s'.intena == s.threads[s.running].base
  {
  }

  lemma {:induction false} SchedulerRemembers(run: seq<State>, n: nat)
    requires SchedulerInside(run) && 0 < n < |run|
    ensures run[n].running == SCHEDULER ==> FlagIs(run, n, run[n].intena)
  {
    RunInv(run, n - 1);
    assert run[0].running == SCHEDULER && run[1].intena == run[0].enabled;
    hide Next, Inv, FlagIs, Acquired;
    var s, s' := run[n - 1], run[n];
    assert Next(s, s');
    if n == 1 {
      FirstFlag(run);
    } else if s'.running == SCHEDULER {
      SchedulerRemembers(run, n - 1);
      assert s.threads[SCHEDULER].depth > 0 && s.running in s.threads by { HereNow(s); }
      SchedulerStep(s, s');
      if s.running == SCHEDULER {
        FlagStays(run, n - 1, s.intena);
      } else {
        LastFlag(run, n - 1);
      }
    }
  }

  lemma HereNow(s: State)
    requires Inv(s)
    ensures s.running in s.threads
  {
  }

  lemma FirstFlag(run: seq<State>)
    requires |run| > 1 && run[0].running == SCHEDULER
    ensures FlagIs(run, 1, run[0].enabled)
  {
    assert !Leaves(run, 0);
  }

  lemma LastFlag(run: seq<State>, n: nat)
    requires Leaves(run, n)
    ensures FlagIs(run, n + 1, LeaverFlag(run, n))
  {
    hide Leaves, LeaverFlag;
  }

  lemma FlagStays(run: seq<State>, n: nat, flag: bool)
    requires n + 1 < |run| && FlagIs(run, n, flag) && !Leaves(run, n)
    ensures FlagIs(run, n + 1, flag)
  {
    hide Leaves, LeaverFlag;
    if exists i: nat | i < n && Leaves(run, i) && (forall k: nat | i < k < n :: !Leaves(run, k)) ::
        LeaverFlag(run, i) == flag
    {
      assert forall k: nat | k < n + 1 && k >= n :: !Leaves(run, k);
    }
  }

  /** Exactly when the scheduler's release restores the flag from before its acquire: no
      thread left through sched in between, or the last one that did had entered its
      own outermost section with that flag. */
  lemma SchedulerFlag(run: seq<State>)
    requires SchedulerInside(run) && run[|run| - 1].running == SCHEDULER && run[|run| - 1].threads[SCHEDULER].depth == 1
    ensures Released(run[|run| - 1]).enabled == run[0].enabled <==>
      || (forall i: nat | i < |run| - 1 :: !Leaves(run, i))
      || (exists i: nat | i < |run| - 1 && Leaves(run, i) && (forall k: nat | i < k < |run| - 1 :: !Leaves(run, k)) ::
            LeaverFlag(run, i) == run[0].enabled)
  {
    var n := |run| - 1;
    RunInv(run, n);
    SchedulerRemembers(run, n);
    assert Released(run[n]).enabled == run[n].intena;
    OneLast(run, n);
  }

  lemma OneLast(run: seq<State>, n: nat)
    requires n < |run|
    ensures forall i: nat, j: nat | i < n && j < n && Leaves(run, i) && Leaves(run, j)
      && (forall k: nat | i < k < n :: !Leaves(run, k)) && (forall k: nat | j < k < n :: !Leaves(run, k)) :: i == j
  {
    hide Leaves;
  }

  /** The leaver's flag is the one from before the acquire that opened its section. */
  lemma LeaverEntered(run: seq<State>, t: nat, a: nat, i: nat)
    requires Run(run) && Leaves(run, i) && a < i && run[a].running == run[i].running == t && t in run[a].threads
    requires run[a].threads[t].depth == 0 && run[a + 1] == Acquired(run[a])
    requires forall k | a < k <= i :: t in run[k].threads && run[k].threads[t].depth > 0
    ensures LeaverFlag(run, i) == run[a].enabled
  {
    hide Next, Inv;
    var part := run[a..i + 1];
    RunPart(run, a, i + 1);
    assert part[|part| - 1] == run[i];
    forall k | 0 < k < |part| ensures t in part[k].threads && part[k].threads[t].depth > 0 {
      assert part[k] == run[a + k];
    }
    BaseStays(part, t);
  }
}
