/** Taking turns at the log.

    begin_trans and commit_trans of any number of threads: each step is what a thread
    does while it holds the log's lock, up to the point where it sleeps or returns. */
module LogTurns {

  /** A thread outside, about to look at the busy flag, asleep on it, or in a transaction. */
  datatype Phase = Outside | Looking | Asleep | Open

  datatype State = State(busy: bool, at: map<nat, Phase>)

  ghost predicate Is(s: State, t: nat, p: Phase) { t in s.at && s.at[t] == p }

  ghost predicate Enters(s: State, s': State, t: nat) {
    Is(s, t, Outside) && s' == s.(at := s.at[t := Looking])
  }

  /** The loop of begin_trans: sleep while busy, otherwise take the turn. */
  ghost predicate Looks(s: State, s': State, t: nat) {
    && Is(s, t, Looking)
    && s' == if s.busy then s.(at := s.at[t := Asleep]) else State(true, s.at[t := Open])
  }

  /** wakeup makes every sleeper look again. */
  function Awake(at: map<nat, Phase>): (r: map<nat, Phase>)
    ensures r.Keys == at.Keys
  {
    map t | t in at :: if at[t] == Asleep then Looking else at[t]
  }

  /** The end of commit_trans. */
  ghost predicate Commits(s: State, s': State, t: nat) {
    Is(s, t, Open) && s' == State(false, Awake(s.at[t := Outside]))
  }

  ghost predicate Next(s: State, s': State) {
    exists t :: Enters(s, s', t) || Looks(s, s', t) || Commits(s, s', t)
  }

  ghost predicate Init(s: State) { !s.busy && forall t | t in s.at :: s.at[t] == Outside }

  ghost predicate Run(run: seq<State>) {
    run != [] && Init(run[0]) && forall i | 0 <= i < |run| - 1 :: Next(run[i], run[i + 1])
  }

  /** The flag is set exactly while someone has the turn, one thread at most has it, and
      nobody sleeps without there being someone to wake them. */
  ghost predicate Inv(s: State) {
    && (s.busy <==> exists t :: Is(s, t, Open))
    && (forall t, u :: Is(s, t, Open) && Is(s, u, Open) ==> t == u)
    && (forall t :: Is(s, t, Asleep) ==> s.busy)
  }

  lemma NextKeeps(s: State, s': State)
    requires Inv(s) && Next(s, s')
    ensures Inv(s')
  {
    var t :| Enters(s, s', t) || Looks(s, s', t) || Commits(s, s', t);
    if Enters(s, s', t) {
      assert forall u | u != t, p :: Is(s', u, p) <==> Is(s, u, p);
      if u :| Is(s, u, Open) { assert Is(s', u, Open); }
    } else if Looks(s, s', t) {
      assert forall u | u != t, p :: Is(s', u, p) <==> Is(s, u, p);
      if s.busy {
        var u :| Is(s, u, Open);
        assert Is(s', u, Open);
      } else {
        assert Is(s', t, Open);
      }
    } else {
      assert forall u :: Is(s', u, Open) ==> Is(s, u, Open) && u != t;
    }
  }

  lemma {:induction false} RunInv(run: seq<State>, i: nat)
    requires Run(run) && i < |run|
    ensures Inv(run[i])
  {
    if i > 0 {
      RunInv(run, i - 1);
      assert Next(run[i - 1], run[i]);
      NextKeeps(run[i - 1], run[i]);
    }
  }

  /** In every run: two transactions are never open at once, and a log_write inside one
      finds the flag set. */
  lemma OneAtATime(run: seq<State>, i: nat, t: nat)
    requires Run(run) && i < |run| && Is(run[i], t, Open)
    ensures run[i].busy && forall u :: Is(run[i], u, Open) ==> u == t
  {
    RunInv(run, i);
  }

  /** In every run, whoever sleeps in begin_trans sleeps on an open transaction of someone
      else, and its commit wakes them. */
  lemma SleepersAreWoken(run: seq<State>, i: nat, t: nat)
    requires Run(run) && i < |run| && Is(run[i], t, Asleep)
    ensures exists u :: u != t && Is(run[i], u, Open)
    ensures forall s', u :: Commits(run[i], s', u) ==> Is(s', t, Looking)
  {
    RunInv(run, i);
    var u :| Is(run[i], u, Open);
    assert u != t;
  }

  /** No run gets stuck: as long as someone is in begin_trans or has the turn, someone has
      it or can take it at once. */
  lemma SomeoneGoesOn(run: seq<State>, i: nat, t: nat)
    requires Run(run) && i < |run| && t in run[i].at && run[i].at[t] != Outside
    ensures (exists u :: Is(run[i], u, Open)) || exists s', u :: Looks(run[i], s', u) && Is(s', u, Open)
  {
    RunInv(run, i);
    var s := run[i];
    if !s.busy {
      assert Is(s, t, s.at[t]);
      assert !Is(s, t, Open) && !Is(s, t, Asleep);
      var s' := State(true, s.at[t := Open]);
      assert Looks(s, s', t) && Is(s', t, Open);
    }
  }
}
