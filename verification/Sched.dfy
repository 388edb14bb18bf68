/** Round-robin dispatch: how long a runnable process can be passed over. */
module Sched {
  import opened Collections
  import opened ProcTable

  /** The table, the slot the scheduler looks at next, and the slots dispatched
      and looked at so far. */
  datatype View = View(ps: seq<Proc>, cursor: nat, history: seq<nat>, scans: nat)

  predicate Ready(v: View, q: nat) { q < |v.ps| && v.ps[q].state == RUNNABLE }

  /** A step of a process or an interrupt: runnable processes stay runnable. */
  ghost predicate Runs(v: View, v': View) {
    && v'.cursor == v.cursor && v'.history == v.history && v'.scans == v.scans
    && forall q: nat | Ready(v, q) :: Ready(v', q)
  }

  /** The scheduler looks at one slot and dispatches it if it is runnable. */
  ghost predicate Scans(v: View, v': View) {
    && v.cursor < NPROC && |v.ps| == NPROC
    && v'.cursor == (v.cursor + 1) % NPROC && v'.scans == v.scans + 1
    && v'.history == (if Ready(v, v.cursor) then v.history + [v.cursor] else v.history)
    && forall q: nat | Ready(v, q) && q != v.cursor :: Ready(v', q)
  }

  ghost predicate Next(v: View, v': View) { Runs(v, v') || Scans(v, v') }

  ghost predicate Run(run: seq<View>) {
    && run != [] && run[0].cursor < NPROC
    && forall i | 0 <= i < |run| - 1 :: Next(run[i], run[i + 1])
  }

  /** How many slots the scheduler looks at before it comes to `q`. */
  function Ahead(cursor: nat, q: nat): nat { (q + NPROC - cursor % NPROC) % NPROC }

  /** Slot looked at after `k` others. */
  function Later(cursor: nat, k: nat): nat { (cursor + k) % NPROC }

  /** `k` slots after the first state's cursor have been looked at, each was
      dispatched at most once, and `q` is still waiting. */
  ghost predicate Waiting(v0: View, v: View, q: nat, k: nat) {
    && k <= Ahead(v0.cursor, q) && v.scans == v0.scans + k && v.cursor == Later(v0.cursor, k) && Ready(v, q)
    && v0.history <= v.history && Passed(v0, v.history[|v0.history|..], k)
  }

  ghost predicate Passed(v0: View, since: seq<nat>, k: nat) {
    && |since| <= k && Distinct(since)
    && forall x | x in since :: exists m: nat :: m < k && x == Later(v0.cursor, m)
  }

  lemma LaterDiffers(cursor: nat, m: nat, k: nat)
    requires m < k < m + NPROC
    ensures Later(cursor, m) != Later(cursor, k)
  {
  }

  lemma LaterNext(cursor: nat, k: nat)
    ensures (Later(cursor, k) + 1) % NPROC == Later(cursor, k + 1)
  {
  }

  lemma LaterReaches(cursor: nat, q: nat)
    requires cursor < NPROC && q < NPROC
    ensures Ahead(cursor, q) < NPROC && Later(cursor, Ahead(cursor, q)) == q
  {
    assert cursor % NPROC == cursor;
  }

  lemma PassOne(v0: View, since: seq<nat>, k: nat, x: nat)
    requires Passed(v0, since, k) && k < NPROC && x == Later(v0.cursor, k)
    ensures Passed(v0, since, k + 1) && Passed(v0, since + [x], k + 1)
  {
    hide Later;
    forall y | y in since ensures y != x && exists m: nat :: m < k + 1 && y == Later(v0.cursor, m) {
      var m: nat :| m < k && y == Later(v0.cursor, m);
      LaterDiffers(v0.cursor, m, k);
    }
    assert Distinct(since + [x]) by { assert forall i | 0 <= i < |since| :: since[i] in since; }
    forall y | y in since + [x] ensures exists m: nat :: m < k + 1 && y == Later(v0.cursor, m) {
      if y == x { assert k < k + 1 && y == Later(v0.cursor, k); }
    }
  }

  lemma StepWaits(v0: View, v: View, v': View, q: nat, k: nat)
    requires v0.cursor < NPROC && q < NPROC && Waiting(v0, v, q, k) && Next(v, v')
    ensures
      || (Scans(v, v') && v.cursor == q && v'.history == v.history + [q])
      || Waiting(v0, v', q, k) || Waiting(v0, v', q, k + 1)
  {
    hide Later, Ahead, Passed;
    LaterReaches(v0.cursor, q);
    if !Runs(v, v') && v.cursor != q {
      LaterNext(v0.cursor, k);
      var since := v.history[|v0.history|..];
      PassOne(v0, since, k, v.cursor);
      assert (v.history + [v.cursor])[|v0.history|..] == since + [v.cursor];
    }
  }

  /** The scheduler has reached `q` and dispatched it between two states. */
  ghost predicate Dispatches(v: View, v': View, q: nat) {
    Scans(v, v') && v.cursor == q && v'.history == v.history + [q]
  }

  ghost predicate DispatchedIn(run: seq<View>, q: nat) {
    exists i :: 0 <= i < |run| - 1 && Dispatches(run[i], run[i + 1], q)
  }

  lemma {:induction false} StillWaits(run: seq<View>, q: nat) returns (k: nat)
    requires Run(run) && q < NPROC && Ready(run[0], q) && !DispatchedIn(run, q)
    ensures Waiting(run[0], run[|run| - 1], q, k)
  {
    if |run| == 1 {
      assert run[0].history[|run[0].history|..] == [];
      assert run[0].cursor == Later(run[0].cursor, 0);
      k := 0;
    } else {
      var front := run[..|run| - 1];
      assert !DispatchedIn(front, q) by {
        forall i | 0 <= i < |front| - 1 ensures !Dispatches(front[i], front[i + 1], q) {
          assert front[i] == run[i] && front[i + 1] == run[i + 1];
        }
      }
      assert Run(front) by {
        forall i | 0 <= i < |front| - 1 ensures Next(front[i], front[i + 1]) { assert Next(run[i], run[i + 1]); }
      }
      k := StillWaits(front, q);
      assert Next(run[|run| - 2], run[|run| - 1]) && !Dispatches(run[|run| - 2], run[|run| - 1], q);
      StepWaits(run[0], run[|run| - 2], run[|run| - 1], q, k);
      if !Waiting(run[0], run[|run| - 1], q, k) { k := k + 1; }
    }
  }

  /** Once a process is runnable, it stays runnable until it is dispatched.  Until
      then the scheduler looks at no more than the slots ahead of it, fewer than
      NPROC, and dispatches each of them at most once. */
  lemma BoundedWaiting(run: seq<View>, q: nat)
    requires Run(run) && q < NPROC && Ready(run[0], q) && !DispatchedIn(run, q)
    ensures var v0, v := run[0], run[|run| - 1];
      && Ready(v, q) && v.scans - v0.scans <= Ahead(v0.cursor, q) < NPROC
      && v0.history <= v.history && Distinct(v.history[|v0.history|..]) && q !in v.history[|v0.history|..]
  {
    hide Later, Ahead;
    var v0, v := run[0], run[|run| - 1];
    var k := StillWaits(run, q);
    LaterReaches(v0.cursor, q);
    forall x | x in v.history[|v0.history|..] ensures x != q {
      var m: nat :| m < k && x == Later(v0.cursor, m);
      LaterDiffers(v0.cursor, m, Ahead(v0.cursor, q));
    }
  }
}
