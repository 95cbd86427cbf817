/** When one window of a dedup key writes more than one primary record: exactly when two
    masters share the key and ask for different counts. */
module PipelineWindows {
  import opened Text
  import opened Cluster
  import opened Event
  import opened LockKeys
  import opened Pipeline
  import opened PipelineWrites
  import opened PipelineRuns
  import opened PipelineConflicts
  import PipelineCounting
  import Locks = PipelineLocks

  /** Two failovers that share a dedup key while their clusters ask for different counts. */
  predicate ShareKey(c: Config, a: FailoverEvent, b: FailoverEvent) {
    && a.eventType.Failover? && b.eventType.Failover? && RawKey(a) == RawKey(b)
    && a.masterName in c.clusters && Handled(c, a) && b.masterName in c.clusters && Handled(c, b)
    && TargetCount(c, a) >= 1 && TargetCount(c, b) >= 1 && TargetCount(c, a) != TargetCount(c, b)
  }

  /** A call of each event has written a primary record, with counts of one generation. */
  ghost predicate TwoInOneWindow(c: Config, states: seq<State>, steps: seq<Step>, a: FailoverEvent, b: FailoverEvent,
                                 j: nat, k: nat)
  {
    && Run(c, states, steps)
    && var s := Last(states);
      && j < |s.writes| && k < |s.writes| && j != k && s.writes[j].primary && s.writes[k].primary
      && s.writes[j].pid in s.procs && s.procs[s.writes[j].pid].event == a
      && s.writes[k].pid in s.procs && s.procs[s.writes[k].pid].event == b
      && s.procs[s.writes[j].pid].gen == s.procs[s.writes[k].pid].gen
  }

  lemma TwoInOneWindowShareKey(c: Config, states: seq<State>, steps: seq<Step>, a: FailoverEvent, b: FailoverEvent,
                               j: nat, k: nat)
    requires TwoInOneWindow(c, states, steps, a, b, j, k)
    ensures ShareKey(c, a, b)
  {
    var i := |states| - 1;
    var s := states[i];
    OneWritePerWindow(c, states, steps, i, if j < k then j else k, if j < k then k else j);
    WritesAlways(c, states, steps, i);
    assert Justified(c, s, s.writes[j]) && Justified(c, s, s.writes[k]);
  }

  // ----- a run with two such writes -----

  lemma DecidesToWait(c: Config, s: State, pid: nat)
    requires At(s, pid, Counted) && Triggered(c, s.procs[pid])
    ensures Enabled(c, s, Decide(pid, true))
    ensures Apply(c, s, Decide(pid, true)) == s.(procs := s.procs[pid := s.procs[pid].(stage := Waiting)])
  {
  }

  lemma DecidesAndEnters(c: Config, states: seq<State>, steps: seq<Step>, pid: nat)
    returns (states': seq<State>, steps': seq<Step>)
    requires Run(c, states, steps) && Instant(states) && At(Last(states), pid, Counted)
    requires Triggered(c, Last(states).procs[pid]) && Last(states).locks == map[]
    ensures Run(c, states', steps') && Instant(states')
    ensures var s := Last(states);
      Last(states') == s.(procs := s.procs[pid := s.procs[pid].(stage := Holding, acquiredAt := 0)],
                          locks := map[LockKey(c, s.procs[pid].event) := Lock(LOCK_TTL, pid)])
  {
    DecidesToWait(c, Last(states), pid);
    StillInstant(states, Apply(c, Last(states), Decide(pid, true)));
    var states1, steps1 := Extend(c, states, steps, Decide(pid, true));
    states', steps' := Enters(c, states1, steps1, pid);
  }

  lemma Enters(c: Config, states: seq<State>, steps: seq<Step>, pid: nat)
    returns (states': seq<State>, steps': seq<Step>)
    requires Run(c, states, steps) && Instant(states) && At(Last(states), pid, Waiting)
    requires Triggered(c, Last(states).procs[pid]) && Last(states).locks == map[]
    ensures Run(c, states', steps') && Instant(states')
    ensures var s := Last(states);
      Last(states') == s.(procs := s.procs[pid := s.procs[pid].(stage := Holding, acquiredAt := 0)],
                          locks := map[LockKey(c, s.procs[pid].event) := Lock(LOCK_TTL, pid)])
  {
    var s := Last(states);
    assert AtOnce(s);
    EntersEffect(c, s, pid);
    StillInstant(states, Apply(c, s, Acquire(pid)));
    states', steps' := Extend(c, states, steps, Acquire(pid));
  }

  lemma EntersEffect(c: Config, s: State, pid: nat)
    requires At(s, pid, Waiting) && Triggered(c, s.procs[pid]) && s.locks == map[] && s.now == 0
    ensures Enabled(c, s, Acquire(pid))
    ensures Apply(c, s, Acquire(pid))
         == s.(procs := s.procs[pid := s.procs[pid].(stage := Holding, acquiredAt := 0)],
               locks := map[LockKey(c, s.procs[pid].event) := Lock(LOCK_TTL, pid)])
  {
  }

  /** The primary record is written; the replica step fails and the lock is given back. */
  lemma UpdatesAndLeaves(c: Config, states: seq<State>, steps: seq<Step>, pid: nat)
    returns (states': seq<State>, steps': seq<Step>)
    requires Run(c, states, steps) && Instant(states) && At(Last(states), pid, Holding)
    requires IsKnownFailover(c, Last(states).procs[pid].event) && Triggered(c, Last(states).procs[pid])
    ensures Run(c, states', steps') && Instant(states')
    ensures var s, s' := Last(states), Last(states');
      && s'.locks == s.locks - {LockKey(c, s.procs[pid].event)} && s'.writes == s.writes + [PrimaryWrite(c, s, pid)]
      && s'.procs == s.procs[pid := s.procs[pid].(stage := Finished)]
  {
    var s := Last(states);
    UpdatePrimaryEffect(c, s, pid);
    StillInstant(states, Apply(c, s, UpdatePrimary(pid)));
    var states1, steps1 := Extend(c, states, steps, UpdatePrimary(pid));
    states', steps' := Leaves(c, states1, steps1, pid);
  }

  lemma Leaves(c: Config, states: seq<State>, steps: seq<Step>, pid: nat)
    returns (states': seq<State>, steps': seq<Step>)
    requires Run(c, states, steps) && Instant(states) && At(Last(states), pid, Updated)
    requires Triggered(c, Last(states).procs[pid])
    ensures Run(c, states', steps') && Instant(states')
    ensures var s := Last(states);
      Last(states') == s.(procs := s.procs[pid := s.procs[pid].(stage := Finished)],
                          locks := s.locks - {LockKey(c, s.procs[pid].event)})
  {
    var s := Last(states);
    GivesUp(c, s, pid);
    StillInstant(states, Apply(c, s, ChooseFails(pid)));
    states', steps' := Extend(c, states, steps, ChooseFails(pid));
    s := Last(states');
    ReleaseEffect(c, s, pid);
    StillInstant(states', Apply(c, s, Release(pid, true)));
    states', steps' := Extend(c, states', steps', Release(pid, true));
  }

  lemma GivesUp(c: Config, s: State, pid: nat)
    requires At(s, pid, Updated)
    ensures Enabled(c, s, ChooseFails(pid))
    ensures Apply(c, s, ChooseFails(pid)) == s.(procs := s.procs[pid := s.procs[pid].(stage := Leaving)])
  {
  }

  /** A triggered failover call all the way, in one instant. */
  lemma Finishes(c: Config, states: seq<State>, steps: seq<Step>, pid: nat)
    returns (states': seq<State>, steps': seq<Step>)
    requires Run(c, states, steps) && Instant(states) && At(Last(states), pid, Counted)
    requires Triggered(c, Last(states).procs[pid]) && Last(states).procs[pid].event.eventType.Failover?
    requires Last(states).locks == map[]
    ensures Run(c, states', steps') && Instant(states')
    ensures var s, s' := Last(states), Last(states');
      && s'.locks == map[] && s'.writes == s.writes + [PrimaryWrite(c, s, pid)]
      && s'.procs == s.procs[pid := s.procs[pid].(stage := Finished, acquiredAt := 0)]
  {
    var states1, steps1 := DecidesAndEnters(c, states, steps, pid);
    states', steps' := UpdatesAndLeaves(c, states1, steps1, pid);
  }

  /** The two calls that will trigger have their counts. */
  ghost predicate BothCounted(c: Config, s: State, a: FailoverEvent, b: FailoverEvent, m: nat, n: nat) {
    && m < n && At(s, m, Counted) && At(s, n, Counted) && s.locks == map[] && s.writes == []
    && s.procs[m].event == a && s.procs[n].event == b && s.procs[m].gen == s.procs[n].gen == 0
    && s.procs[m].count == m && s.procs[n].count == n
  }

  lemma BothCountedRun(c: Config, a: FailoverEvent, b: FailoverEvent, m: nat, n: nat)
    returns (states: seq<State>, steps: seq<Step>)
    requires RawKey(a) == RawKey(b) && 1 <= m < n
    ensures Run(c, states, steps) && Instant(states) && BothCounted(c, Last(states), a, b, m, n)
  {
    var events := seq(n, k => if k < m then a else b);
    states, steps := CountsAll(c, events);
    var s := Last(states);
    assert s.procs[m] == CountedCall(events[m - 1], m) && s.procs[n] == CountedCall(events[n - 1], n);
    if m == 1 {
      var states1, steps1 := RecordsEvent(c, states, steps, 1);
      StillPeaceful(states, states1);
      assert states1[0] == states[0];
      states, steps := states1, steps1;
    }
    InstantWhenPeaceful(c, states, steps);
  }

  /** In a run from the start where everyone is on time, the first target is reached by a
      call of one event and the second, higher one by a call of the other. */
  lemma TwoInOneWindowRun(c: Config, a: FailoverEvent, b: FailoverEvent)
    returns (states: seq<State>, steps: seq<Step>)
    requires ShareKey(c, a, b) && TargetCount(c, a) < TargetCount(c, b)
    ensures TwoInOneWindow(c, states, steps, a, b, 0, 1) && AllTimely(states)
  {
    var m: nat, n: nat := TargetCount(c, a), TargetCount(c, b);
    states, steps := BothCountedRun(c, a, b, m, n);
    states, steps := Finishes(c, states, steps, m);
    states, steps := Finishes(c, states, steps, n);
    InstantIsTimely(states);
  }

  /** Some run, even a timely one, has two primary writes of one window by calls of these
      two events if and only if the events share a dedup key and their clusters ask for
      different counts. */
  lemma TwoInOneWindowExactly(c: Config, a: FailoverEvent, b: FailoverEvent)
    ensures (exists states, steps, j, k :: TwoInOneWindow(c, states, steps, a, b, j, k)) <==> ShareKey(c, a, b)
    ensures ShareKey(c, a, b) ==>
              exists states, steps, j, k :: TwoInOneWindow(c, states, steps, a, b, j, k) && AllTimely(states)
  {
    if states, steps, j, k :| TwoInOneWindow(c, states, steps, a, b, j, k) {
      TwoInOneWindowShareKey(c, states, steps, a, b, j, k);
    }
    if ShareKey(c, a, b) {
      if TargetCount(c, a) < TargetCount(c, b) {
        var states, steps := TwoInOneWindowRun(c, a, b);
        assert TwoInOneWindow(c, states, steps, a, b, 0, 1);
      } else {
        var states, steps := TwoInOneWindowRun(c, b, a);
        assert TwoInOneWindow(c, states, steps, a, b, 1, 0);
      }
    }
  }
}
