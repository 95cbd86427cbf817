/** Reachable conflicts of the pipeline machine: runs from its start in which the locks do
    not protect what they seem to. */
module PipelineConflicts {
  import opened Text
  import opened Cluster
  import opened Event
  import opened RecordSet
  import opened LockKeys
  import opened Replicas
  import opened Pipeline
  import opened PipelineRuns
  import Locks = PipelineLocks

  type Records = map<RecordKey, seq<string>>

  predicate Waits(c: Config, s: State, pid: nat, e: FailoverEvent) {
    At(s, pid, Waiting) && s.procs[pid].event == e && Triggered(c, s.procs[pid])
  }

  /** Two first-come events, reported once each and waiting for their locks. */
  lemma TwoWaiting(c: Config, records: Records, e1: FailoverEvent, e2: FailoverEvent)
    returns (states: seq<State>, steps: seq<Step>)
    requires FirstCome(c, e1) && FirstCome(c, e2) && RawKey(e1) != RawKey(e2)
    ensures Run(c, states, steps) && states[0] == Start(0, records) && Peaceful(states)
    ensures var s := Last(states);
      && s.procs.Keys == {1, 2} && Waits(c, s, 1, e1) && Waits(c, s, 2, e2)
      && s.now == 0 && s.locks == map[] && s.records == records && s.writes == []
      && s.counters.Keys == {RawKey(e1), RawKey(e2)}
  {
    states, steps := [Start(0, records)], [];
    var states1, steps1 := GetsReady(c, states, steps, 1, e1);
    StillPeaceful(states, states1);
    states, steps := GetsReady(c, states1, steps1, 2, e2);
    StillPeaceful(states1, states);
  }

  lemma ThreeWaiting(c: Config, e1: FailoverEvent, e2: FailoverEvent, e3: FailoverEvent)
    returns (states: seq<State>, steps: seq<Step>)
    requires FirstCome(c, e1) && FirstCome(c, e2) && FirstCome(c, e3)
    requires RawKey(e1) != RawKey(e2) && RawKey(e3) != RawKey(e1) && RawKey(e3) != RawKey(e2)
    ensures Run(c, states, steps) && states[0] == Start(0, map[]) && Peaceful(states)
    ensures var s := Last(states);
      && s.procs.Keys == {1, 2, 3} && Waits(c, s, 1, e1) && Waits(c, s, 2, e2) && Waits(c, s, 3, e3)
      && s.now == 0 && s.locks == map[]
  {
    var states2, steps2 := TwoWaiting(c, map[], e1, e2);
    states, steps := GetsReady(c, states2, steps2, 3, e3);
    StillPeaceful(states2, states);
  }

  // ----- single steps -----

  /** What the steps under a lock do, when they succeed. */
  lemma ReleaseEffect(c: Config, s: State, pid: nat)
    requires At(s, pid, Leaving) && Triggered(c, s.procs[pid])
    ensures Enabled(c, s, Release(pid, true))
    ensures Apply(c, s, Release(pid, true))
         == s.(procs := s.procs[pid := s.procs[pid].(stage := Finished)],
               locks := s.locks - {LockKey(c, s.procs[pid].event)})
  {
  }

  lemma UpdateFailsEffect(c: Config, s: State, pid: nat)
    requires At(s, pid, Holding) && IsKnownFailover(c, s.procs[pid].event)
    ensures Enabled(c, s, UpdateFails(pid, false))
    ensures Apply(c, s, UpdateFails(pid, false)) == s.(procs := s.procs[pid := s.procs[pid].(stage := Leaving)])
  {
  }

  lemma UpdatePrimaryEffect(c: Config, s: State, pid: nat)
    requires At(s, pid, Holding) && IsKnownFailover(c, s.procs[pid].event)
    ensures Enabled(c, s, UpdatePrimary(pid))
    ensures var e := s.procs[pid].event; var key := PrimaryRecord(c, e.masterName);
      Apply(c, s, UpdatePrimary(pid))
      == s.(records := s.records[key := [e.toIP]], writes := s.writes + [Write(pid, true, key, [e.toIP])],
            procs := s.procs[pid := s.procs[pid].(stage := Updated)])
  {
  }

  lemma ChooseEffect(c: Config, s: State, pid: nat, op: Op)
    requires AtReplicaStep(s, pid) && HasReplicaRecord(c, s.procs[pid].event.masterName)
    requires var read := ValuesOf(s.records, ReplicaRecord(c, s.procs[pid].event.masterName));
      ListAfter(read, op) != read
    ensures Enabled(c, s, ChooseReplica(pid, Some(op)))
    ensures var read := ValuesOf(s.records, ReplicaRecord(c, s.procs[pid].event.masterName));
      Apply(c, s, ChooseReplica(pid, Some(op)))
      == s.(procs := s.procs[pid := s.procs[pid].(stage := Chosen, pending := ListAfter(read, op))])
  {
  }

  lemma WriteReplicaEffect(c: Config, s: State, pid: nat)
    requires At(s, pid, Chosen) && HasReplicaRecord(c, s.procs[pid].event.masterName)
    ensures Enabled(c, s, WriteReplica(pid, true))
    ensures var p := s.procs[pid]; var key := ReplicaRecord(c, p.event.masterName);
      Apply(c, s, WriteReplica(pid, true))
      == s.(records := s.records[key := p.pending], writes := s.writes + [Write(pid, false, key, p.pending)],
            procs := s.procs[pid := p.(stage := Leaving)])
  {
  }

  // ----- a late release -----

  /** Everyone but the given call is on time. */
  predicate OthersOnTime(s: State, late: nat) {
    forall pid <- s.procs :: pid != late ==> Locks.OnTime(s.now, s.procs[pid])
  }

  ghost predicate OnlyLate(states: seq<State>, late: nat) {
    forall k | 0 <= k < |states| :: OthersOnTime(states[k], late)
  }

  lemma ExtendLate(c: Config, states: seq<State>, steps: seq<Step>, step: Step, late: nat)
    returns (states': seq<State>, steps': seq<Step>)
    requires Run(c, states, steps) && OnlyLate(states, late) && !step.ChooseReplica?
    requires Enabled(c, Last(states), step) && OthersOnTime(Apply(c, Last(states), step), late)
    ensures states' == states + [Apply(c, Last(states), step)] && steps' == steps + [step]
    ensures Run(c, states', steps') && OnlyLate(states', late)
  {
    states', steps' := Extend(c, states, steps, step);
  }

  lemma PeacefulOnTime(states: seq<State>, late: nat)
    requires Peaceful(states)
    ensures OnlyLate(states, late)
  {
    forall k | 0 <= k < |states| ensures OthersOnTime(states[k], late) {
      assert NoneActive(states[k]);
    }
  }

  /** Three first-come events for one lock, with different keys. */
  predicate ThreeForOneLock(c: Config, e1: FailoverEvent, e2: FailoverEvent, e3: FailoverEvent) {
    && FirstCome(c, e1) && FirstCome(c, e2) && FirstCome(c, e3)
    && RawKey(e1) != RawKey(e2) && RawKey(e3) != RawKey(e1) && RawKey(e3) != RawKey(e2)
    && LockKey(c, e1) == LockKey(c, e2) == LockKey(c, e3)
  }

  /** The first holder stays until its lock has run out. */
  lemma FirstOverstays(c: Config, e1: FailoverEvent, e2: FailoverEvent, e3: FailoverEvent)
    returns (states: seq<State>, steps: seq<Step>)
    requires ThreeForOneLock(c, e1, e2, e3)
    ensures Run(c, states, steps) && states[0] == Start(0, map[]) && OnlyLate(states, 1)
    ensures var s := Last(states);
      && s.now == LOCK_TTL && s.procs.Keys == {1, 2, 3} && At(s, 1, Holding) && s.procs[1].event == e1
      && Triggered(c, s.procs[1]) && Waits(c, s, 2, e2) && Waits(c, s, 3, e3)
      && s.locks == map[LockKey(c, e1) := Lock(LOCK_TTL, 1)]
  {
    states, steps := ThreeWaiting(c, e1, e2, e3);
    PeacefulOnTime(states, 1);
    Locks.AcquireEffect(c, Last(states), 1);
    states, steps := ExtendLate(c, states, steps, Acquire(1), 1);
    TickEffect(c, Last(states), LOCK_TTL);
    states, steps := ExtendLate(c, states, steps, Tick(LOCK_TTL), 1);
  }

  /** And a second call enters beside it. */
  lemma SecondEnters(c: Config, e1: FailoverEvent, e2: FailoverEvent, e3: FailoverEvent)
    returns (states: seq<State>, steps: seq<Step>)
    requires ThreeForOneLock(c, e1, e2, e3)
    ensures Run(c, states, steps) && states[0] == Start(0, map[]) && OnlyLate(states, 1)
    ensures var s := Last(states);
      && s.now == LOCK_TTL && s.procs.Keys == {1, 2, 3} && Locks.Together(c, s, 1, 2) && Waits(c, s, 3, e3)
      && At(s, 1, Holding) && At(s, 2, Holding) && s.procs[1].event == e1 && s.procs[2].event == e2
      && s.procs[2].acquiredAt == LOCK_TTL
  {
    states, steps := FirstOverstays(c, e1, e2, e3);
    Locks.AcquireEffect(c, Last(states), 2);
    states, steps := ExtendLate(c, states, steps, Acquire(2), 1);
  }

  /** The first call gives up and frees the lock, which is no longer its own. */
  lemma FirstReleases(c: Config, e1: FailoverEvent, e2: FailoverEvent, e3: FailoverEvent,
                      states: seq<State>, steps: seq<Step>)
    returns (states': seq<State>, steps': seq<Step>)
    requires ThreeForOneLock(c, e1, e2, e3) && e1.eventType.Failover?
    requires Run(c, states, steps) && OnlyLate(states, 1)
    requires var s := Last(states);
      && s.now == LOCK_TTL && s.procs.Keys == {1, 2, 3} && Locks.Together(c, s, 1, 2) && Waits(c, s, 3, e3)
      && At(s, 1, Holding) && At(s, 2, Holding) && s.procs[1].event == e1 && s.procs[2].event == e2
      && s.procs[2].acquiredAt == LOCK_TTL
    ensures Run(c, states', steps') && OnlyLate(states', 1) && states <= states'
    ensures var s := Last(states');
      && s.now == LOCK_TTL && s.procs.Keys == {1, 2, 3} && At(s, 1, Finished) && At(s, 2, Holding)
      && s.procs[2] == Last(states).procs[2] && Waits(c, s, 3, e3) && LockKey(c, e1) !in s.locks
  {
    UpdateFailsEffect(c, Last(states), 1);
    states', steps' := ExtendLate(c, states, steps, UpdateFails(1, false), 1);
    ReleaseEffect(c, Last(states'), 1);
    states', steps' := ExtendLate(c, states', steps', Release(1, true), 1);
  }

  /** Mutual exclusion fails in a run from the start, for any configuration with three
      first-come failovers of one cluster: the first holder overstays and a second call
      enters; the first one's late release frees the second one's lock, and a third call
      enters beside the second, who is on time like everyone else. */
  lemma LateReleaseRun(c: Config, e1: FailoverEvent, e2: FailoverEvent, e3: FailoverEvent)
    returns (states: seq<State>, steps: seq<Step>, i: nat)
    requires ThreeForOneLock(c, e1, e2, e3) && e1.eventType.Failover?
    ensures Run(c, states, steps) && states[0] == Start(0, map[]) && OnlyLate(states, 1)
    ensures i < |states| && Locks.Together(c, states[i], 1, 2)
    ensures Locks.Together(c, Last(states), 2, 3) && At(Last(states), 1, Finished)
  {
    var states2, steps2 := SecondEnters(c, e1, e2, e3);
    i := |states2| - 1;
    states, steps := FirstReleases(c, e1, e2, e3, states2, steps2);
    Locks.AcquireEffect(c, Last(states), 3);
    states, steps := ExtendLate(c, states, steps, Acquire(3), 1);
  }

  /** Such events exist for every first-come cluster: three promotions to different ports. */
  lemma LateReleaseOfAnyCluster(c: Config, e: FailoverEvent)
    returns (states: seq<State>, steps: seq<Step>, i: nat)
    requires FirstCome(c, e) && e.eventType.Failover?
    ensures Run(c, states, steps) && states[0] == Start(0, map[]) && OnlyLate(states, 1)
    ensures i < |states| && Locks.Together(c, states[i], 1, 2) && Locks.Together(c, Last(states), 2, 3)
  {
    OtherPortOtherKey(e, 1, 2);
    OtherPortOtherKey(e, 1, 3);
    OtherPortOtherKey(e, 2, 3);
    states, steps, i := LateReleaseRun(c, e.(toPort := 1), e.(toPort := 2), e.(toPort := 3));
  }

  lemma OtherPortOtherKey(e: FailoverEvent, m: int, n: int)
    requires e.eventType.Failover? && m != n
    ensures RawKey(e.(toPort := m)) != RawKey(e.(toPort := n))
  {
    var head := e.groupName + ":" + e.masterName + ":" + e.toIP + ":";
    assert RawKey(e.(toPort := m))[|head|..] == IntString(m);
    assert RawKey(e.(toPort := n))[|head|..] == IntString(n);
    if IntString(m) == IntString(n) {
      IntStringInjective(m, n);
      assert false;
    }
  }

  // ----- conflicting writes while everyone is on time -----

  /** No time has passed, so nobody can be late. */
  predicate AtOnce(s: State) {
    s.now == 0 && forall pid <- s.procs :: Locks.Active(s.procs[pid]) ==> s.procs[pid].acquiredAt == 0
  }

  ghost predicate Instant(states: seq<State>) { forall k | 0 <= k < |states| :: AtOnce(states[k]) }

  ghost predicate AllTimely(states: seq<State>) { forall k | 0 <= k < |states| :: Locks.Timely(states[k]) }

  lemma InstantIsTimely(states: seq<State>)
    requires Instant(states)
    ensures AllTimely(states)
  {
    forall k | 0 <= k < |states| ensures Locks.Timely(states[k]) {
      assert AtOnce(states[k]);
    }
  }

  lemma StillInstant(states: seq<State>, s: State)
    requires Instant(states) && AtOnce(s)
    ensures Instant(states + [s])
  {
  }

  /** Two calls that wait for different locks both take them. */
  lemma TwoInside(c: Config, records: Records, e1: FailoverEvent, e2: FailoverEvent)
    returns (states: seq<State>, steps: seq<Step>)
    requires FirstCome(c, e1) && FirstCome(c, e2) && RawKey(e1) != RawKey(e2) && LockKey(c, e1) != LockKey(c, e2)
    ensures Run(c, states, steps) && states[0] == Start(0, records) && Instant(states)
    ensures var s := Last(states);
      && s.procs.Keys == {1, 2} && At(s, 1, Holding) && At(s, 2, Holding)
      && s.procs[1].event == e1 && s.procs[2].event == e2
      && Triggered(c, s.procs[1]) && Triggered(c, s.procs[2]) && s.records == records && s.writes == []
  {
    states, steps := TwoWaiting(c, records, e1, e2);
    InstantWhenPeaceful(c, states, steps);
    var s := Last(states);
    Locks.AcquireEffect(c, s, 1);
    StillInstant(states, Apply(c, s, Acquire(1)));
    states, steps := Extend(c, states, steps, Acquire(1));
    s := Last(states);
    assert Enabled(c, s, Acquire(2));
    Locks.AcquireEffect(c, s, 2);
    StillInstant(states, Apply(c, s, Acquire(2)));
    states, steps := Extend(c, states, steps, Acquire(2));
  }

  lemma {:induction false} ClockMonotone(c: Config, states: seq<State>, steps: seq<Step>, i: nat, j: nat)
    requires Run(c, states, steps) && i <= j < |states|
    ensures states[i].now <= states[j].now
  {
    if i < j {
      ClockMonotone(c, states, steps, i, j - 1);
      Locks.LocksShape(c, states[j - 1], steps[j - 1]);
    }
  }

  lemma InstantWhenPeaceful(c: Config, states: seq<State>, steps: seq<Step>)
    requires Run(c, states, steps) && Peaceful(states) && states[0].now == Last(states).now == 0
    ensures Instant(states)
  {
    forall k | 0 <= k < |states| ensures AtOnce(states[k]) {
      ClockMonotone(c, states, steps, 0, k);
      ClockMonotone(c, states, steps, k, |states| - 1);
      assert NoneActive(states[k]);
    }
  }

  /** When the primary records of two clusters are one record, their locks do not serialise
      its writes: in a run where everyone is on time, a second call overwrites the record
      while the first is still under its own lock. */
  lemma SharedRecordRun(c: Config, e1: FailoverEvent, e2: FailoverEvent)
    returns (states: seq<State>, steps: seq<Step>)
    requires FirstCome(c, e1) && FirstCome(c, e2) && e1.eventType.Failover? && e2.eventType.Failover?
    requires RawKey(e1) != RawKey(e2) && LockKey(c, e1) != LockKey(c, e2)
    requires PrimaryRecord(c, e1.masterName) == PrimaryRecord(c, e2.masterName)
    ensures Run(c, states, steps) && AllTimely(states)
    ensures var s, key := Last(states), PrimaryRecord(c, e1.masterName);
      && At(s, 1, Updated) && s.procs[1].event == e1 && Locks.Active(s.procs[1])
      && s.writes == [Write(1, true, key, [e1.toIP]), Write(2, true, key, [e2.toIP])]
      && ValuesOf(s.records, key) == [e2.toIP]
  {
    states, steps := TwoInside(c, map[], e1, e2);
    var s := Last(states);
    UpdatePrimaryEffect(c, s, 1);
    StillInstant(states, Apply(c, s, UpdatePrimary(1)));
    states, steps := Extend(c, states, steps, UpdatePrimary(1));
    s := Last(states);
    UpdatePrimaryEffect(c, s, 2);
    StillInstant(states, Apply(c, s, UpdatePrimary(2)));
    states, steps := Extend(c, states, steps, UpdatePrimary(2));
    InstantIsTimely(states);
  }

  /** Nor when the primary record of one cluster is the replica record of another, or of
      the same: a replica_up writes it while the failover is under its lock. */
  lemma SharedWithReplicaRun(c: Config, f: FailoverEvent, u: FailoverEvent)
    returns (states: seq<State>, steps: seq<Step>)
    requires FirstCome(c, f) && FirstCome(c, u) && RawKey(f) != RawKey(u)
    requires f.eventType.Failover? && u.eventType.ReplicaUp? && u.fromIP != f.toIP
    requires ReplicaRecord(c, u.masterName) == PrimaryRecord(c, f.masterName)
    ensures Run(c, states, steps) && AllTimely(states)
    ensures var s, key := Last(states), PrimaryRecord(c, f.masterName);
      && At(s, 1, Updated) && s.procs[1].event == f && Locks.Active(s.procs[1])
      && s.writes == [Write(1, true, key, [f.toIP]), Write(2, false, key, UpAlone(c, u, f.toIP))]
      && ValuesOf(s.records, key) == UpAlone(c, u, f.toIP)
  {
    KindsDiffer(LockFor(c.clusters[f.masterName], f), LockFor(c.clusters[u.masterName], u));
    states, steps := TwoInside(c, map[], f, u);
    var s := Last(states);
    UpdatePrimaryEffect(c, s, 1);
    StillInstant(states, Apply(c, s, UpdatePrimary(1)));
    states, steps := Extend(c, states, steps, UpdatePrimary(1));
    states, steps := UpOverwrites(c, f, u, states, steps);
    InstantIsTimely(states);
  }

  /** What replica_up makes of a record that lists only n, without an answer of Sentinel. */
  function UpAlone(c: Config, u: FailoverEvent, n: string): seq<string>
    requires u.masterName in c.clusters
  {
    if c.clusters[u.masterName].multiReplica then [n, u.fromIP] else [u.fromIP]
  }

  lemma UpChoosesAlone(c: Config, s: State, u: FailoverEvent, n: string) returns (op: Op)
    requires HasReplicaRecord(c, u.masterName) && u.eventType.ReplicaUp? && u.fromIP != n
    requires At(s, 2, Holding) && s.procs[2].event == u && AtOnce(s)
    requires ValuesOf(s.records, ReplicaRecord(c, u.masterName)) == [n]
    ensures Enabled(c, s, ChooseReplica(2, Some(op))) && Sensible(c, s, ChooseReplica(2, Some(op)))
    ensures var s' := Apply(c, s, ChooseReplica(2, Some(op)));
      && s' == s.(procs := s.procs[2 := s.procs[2].(stage := Chosen, pending := UpAlone(c, u, n))]) && AtOnce(s')
  {
    op := if c.clusters[u.masterName].multiReplica then Op.Add(u.fromIP) else Op.Update(u.fromIP);
    assert ReplicaWrite(c, u, None) == Some(op);
    assert ListAfter([n], op) == UpAlone(c, u, n) != [n];
    ChooseEffect(c, s, 2, op);
  }

  lemma UpOverwrites(c: Config, f: FailoverEvent, u: FailoverEvent, states: seq<State>, steps: seq<Step>)
    returns (states': seq<State>, steps': seq<Step>)
    requires HasReplicaRecord(c, u.masterName) && u.eventType.ReplicaUp? && u.fromIP != f.toIP
    requires Run(c, states, steps) && Instant(states)
    requires At(Last(states), 2, Holding) && Last(states).procs[2].event == u
    requires ValuesOf(Last(states).records, ReplicaRecord(c, u.masterName)) == [f.toIP] && 1 in Last(states).procs
    ensures Run(c, states', steps') && Instant(states')
    ensures var s, s' := Last(states), Last(states');
      var key, values := ReplicaRecord(c, u.masterName), UpAlone(c, u, f.toIP);
      && 1 in s'.procs && s'.procs[1] == s.procs[1]
      && s'.writes == s.writes + [Write(2, false, key, values)] && ValuesOf(s'.records, key) == values
  {
    var op := UpChoosesAlone(c, Last(states), u, f.toIP);
    StillInstant(states, Apply(c, Last(states), ChooseReplica(2, Some(op))));
    states', steps' := Extend(c, states, steps, ChooseReplica(2, Some(op)));
    states', steps' := WritesChosen(c, states', steps', 2);
  }

  /** Replica locks are per group, so a replica record shared by two groups loses updates
      too: both add their slave to the list they read, and the second write drops the first. */
  lemma SharedReplicaRun(c: Config, u: FailoverEvent, v: FailoverEvent)
    returns (states: seq<State>, steps: seq<Step>)
    requires FirstCome(c, u) && FirstCome(c, v) && RawKey(u) != RawKey(v) && LockKey(c, u) != LockKey(c, v)
    requires u.eventType.ReplicaUp? && v.eventType.ReplicaUp? && u.fromIP != v.fromIP
    requires c.clusters[u.masterName].multiReplica && c.clusters[v.masterName].multiReplica
    requires ReplicaRecord(c, u.masterName) == ReplicaRecord(c, v.masterName)
    ensures Run(c, states, steps) && AllTimely(states)
    ensures var s, key := Last(states), ReplicaRecord(c, u.masterName);
      && s.writes == [Write(1, false, key, [u.fromIP]), Write(2, false, key, [v.fromIP])]
      && ValuesOf(s.records, key) == [v.fromIP]
    ensures ListAfter(ListAfter([], Op.Add(u.fromIP)), Op.Add(v.fromIP)) == [u.fromIP, v.fromIP]
  {
    states, steps := TwoInside(c, map[], u, v);
    states, steps := ChoosesToAdd(c, states, steps, 1, u);
    states, steps := ChoosesToAdd(c, states, steps, 2, v);
    states, steps := WritesChosen(c, states, steps, 1);
    states, steps := WritesChosen(c, states, steps, 2);
    InstantIsTimely(states);
  }

  lemma WritesChosen(c: Config, states: seq<State>, steps: seq<Step>, pid: nat)
    returns (states': seq<State>, steps': seq<Step>)
    requires Run(c, states, steps) && Instant(states) && At(Last(states), pid, Chosen)
    requires HasReplicaRecord(c, Last(states).procs[pid].event.masterName)
    ensures Run(c, states', steps') && Instant(states')
    ensures var s, p := Last(states), Last(states).procs[pid]; var key := ReplicaRecord(c, p.event.masterName);
      Last(states')
      == s.(records := s.records[key := p.pending], writes := s.writes + [Write(pid, false, key, p.pending)],
            procs := s.procs[pid := p.(stage := Leaving)])
  {
    WriteReplicaEffect(c, Last(states), pid);
    StillInstant(states, Apply(c, Last(states), WriteReplica(pid, true)));
    states', steps' := Extend(c, states, steps, WriteReplica(pid, true));
  }

  lemma ChoosesToAdd(c: Config, states: seq<State>, steps: seq<Step>, pid: nat, u: FailoverEvent)
    returns (states': seq<State>, steps': seq<Step>)
    requires HasReplicaRecord(c, u.masterName) && u.eventType.ReplicaUp? && c.clusters[u.masterName].multiReplica
    requires Run(c, states, steps) && Instant(states) && At(Last(states), pid, Holding)
    requires Last(states).procs[pid].event == u && ValuesOf(Last(states).records, ReplicaRecord(c, u.masterName)) == []
    ensures Run(c, states', steps') && Instant(states')
    ensures var s := Last(states);
      Last(states') == s.(procs := s.procs[pid := s.procs[pid].(stage := Chosen, pending := [u.fromIP])])
  {
    var s, step := Last(states), ChooseReplica(pid, Some(Op.Add(u.fromIP)));
    assert ReplicaWrite(c, u, None) == Some(Op.Add(u.fromIP));
    assert ListAfter([], Op.Add(u.fromIP)) == [u.fromIP];
    ChooseEffect(c, s, pid, Op.Add(u.fromIP));
    StillInstant(states, Apply(c, s, step));
    states', steps' := Extend(c, states, steps, step);
  }

  /** A replica record that lists the slaves x and n; n is promoted while z comes back. */
  ghost predicate LostUpdateSetting(c: Config, f: FailoverEvent, u: FailoverEvent, x: string) {
    && FirstCome(c, f) && FirstCome(c, u) && RawKey(f) != RawKey(u)
    && f.eventType.Failover? && u.eventType.ReplicaUp? && f.masterName == u.masterName
    && HasReplicaRecord(c, f.masterName) && c.clusters[f.masterName].multiReplica
    && PrimaryRecord(c, f.masterName) != ReplicaRecord(c, f.masterName)
    && x != f.toIP && u.fromIP != x && u.fromIP != f.toIP
  }

  /** Sentinel names the slaves x and n with n as their master. */
  function AfterPromotion(x: string, n: string): MasterDetail {
    MasterDetail(n, [SlaveInfo(x, ""), SlaveInfo(n, "")])
  }

  lemma PickOfTwo(a: SlaveInfo, b: SlaveInfo, pass: SlaveInfo -> bool)
    requires pass(a) && !pass(b)
    ensures Pick([a, b], pass) == [a.ip]
  {
    assert [a, b][..1] == [a] && [a][..0] == [];
    assert Pick([a], pass) == Pick([], pass) + [a.ip];
  }

  lemma PromotionWrite(c: Config, f: FailoverEvent, x: string)
    requires f.masterName in c.clusters && f.eventType.Failover? && x != f.toIP
    ensures ReplicaWrite(c, f, Some(AfterPromotion(x, f.toIP))) == Some(UpdateValues([x]))
  {
    var detail, n := AfterPromotion(x, f.toIP), f.toIP;
    HealthyWithoutFlags(x);
    PickOfTwo(SlaveInfo(x, ""), SlaveInfo(n, ""), AlsoHealthy(NotMaster(detail, n)));
    assert PreferHealthy(detail.slaves, NotMaster(detail, n)) == [x];
  }

  lemma HealthyWithoutFlags(ip: string)
    ensures Healthy(SlaveInfo(ip, ""))
  {
    forall i | 0 <= i <= |""| ensures !("s_down" <= ""[i..]) {
      assert |""[i..]| == 0;
    }
  }

  /** Nothing excludes a failover and a replica event of one cluster, however timely everyone
      is: a replica_up reads the record, a failover takes the new master
      out, and the replica_up writes the new master back in. Both calls finish without an
      error, and no order of the two would have left the new master listed. */
  lemma LostUpdateRun(c: Config, f: FailoverEvent, u: FailoverEvent, x: string)
    returns (states: seq<State>, steps: seq<Step>)
    requires LostUpdateSetting(c, f, u, x)
    ensures var key := ReplicaRecord(c, f.masterName);
      && Run(c, states, steps) && AllTimely(states) && states[0] == Start(0, map[key := [x, f.toIP]])
      && At(Last(states), 1, Finished) && At(Last(states), 2, Finished)
      && ValuesOf(Last(states).records, PrimaryRecord(c, f.masterName)) == [f.toIP]
      && ValuesOf(Last(states).records, key) == [x, f.toIP, u.fromIP]
    ensures ListAfter(ListAfter([x, f.toIP], UpdateValues([x])), Op.Add(u.fromIP)) == [x, u.fromIP]
    ensures ListAfter(ListAfter([x, f.toIP], Op.Add(u.fromIP)), UpdateValues([x])) == [x]
  {
    KindsDiffer(LockFor(c.clusters[f.masterName], f), LockFor(c.clusters[u.masterName], u));
    states, steps := TwoInside(c, map[ReplicaRecord(c, f.masterName) := [x, f.toIP]], f, u);
    states, steps := BothChoose(c, f, u, x, states, steps);
    states, steps := BothWrite(c, f, u, x, states, steps);
    InstantIsTimely(states);
  }

  /** The failover as call 1 and the replica_up as call 2, under their locks. */
  predicate BothInside(c: Config, s: State, f: FailoverEvent, u: FailoverEvent, stage1: Stage, stage2: Stage) {
    && s.procs.Keys == {1, 2} && At(s, 1, stage1) && At(s, 2, stage2)
    && s.procs[1].event == f && s.procs[2].event == u
    && Triggered(c, s.procs[1]) && Triggered(c, s.procs[2])
  }

  lemma PrimaryFirst(c: Config, f: FailoverEvent, u: FailoverEvent, x: string, s: State)
    requires LostUpdateSetting(c, f, u, x) && BothInside(c, s, f, u, Holding, Holding) && AtOnce(s)
    requires s.records == map[ReplicaRecord(c, f.masterName) := [x, f.toIP]]
    ensures Enabled(c, s, UpdatePrimary(1))
    ensures var s' := Apply(c, s, UpdatePrimary(1));
      && BothInside(c, s', f, u, Updated, Holding) && AtOnce(s')
      && ValuesOf(s'.records, PrimaryRecord(c, f.masterName)) == [f.toIP]
      && ValuesOf(s'.records, ReplicaRecord(c, f.masterName)) == [x, f.toIP]
  {
    UpdatePrimaryEffect(c, s, 1);
  }

  lemma UpReads(c: Config, f: FailoverEvent, u: FailoverEvent, x: string, s: State)
    requires LostUpdateSetting(c, f, u, x) && BothInside(c, s, f, u, Updated, Holding) && AtOnce(s)
    requires ValuesOf(s.records, ReplicaRecord(c, f.masterName)) == [x, f.toIP]
    ensures var step := ChooseReplica(2, Some(Op.Add(u.fromIP)));
      && Enabled(c, s, step) && Sensible(c, s, step)
      && var s' := Apply(c, s, step);
        (&& BothInside(c, s', f, u, Updated, Chosen) && AtOnce(s') && s'.records == s.records
        && s'.procs[2].pending == [x, f.toIP, u.fromIP])
  {
    assert ReplicaWrite(c, u, None) == Some(Op.Add(u.fromIP));
    assert ListAfter([x, f.toIP], Op.Add(u.fromIP)) == [x, f.toIP, u.fromIP];
    ChooseEffect(c, s, 2, Op.Add(u.fromIP));
  }

  lemma FailoverReads(c: Config, f: FailoverEvent, u: FailoverEvent, x: string, s: State)
    requires LostUpdateSetting(c, f, u, x) && BothInside(c, s, f, u, Updated, Chosen) && AtOnce(s)
    requires ValuesOf(s.records, ReplicaRecord(c, f.masterName)) == [x, f.toIP]
    ensures var step := ChooseReplica(1, Some(UpdateValues([x])));
      && Enabled(c, s, step) && Sensible(c, s, step)
      && var s' := Apply(c, s, step);
        (&& BothInside(c, s', f, u, Chosen, Chosen) && AtOnce(s') && s'.records == s.records
        && s'.procs[1].pending == [x] && s'.procs[2] == s.procs[2])
  {
    PromotionWrite(c, f, x);
    assert Derived(c, f, Some(UpdateValues([x])));
    assert |[x]| != |[x, f.toIP]|;
    ChooseEffect(c, s, 1, UpdateValues([x]));
  }

  lemma BothChoose(c: Config, f: FailoverEvent, u: FailoverEvent, x: string, states: seq<State>, steps: seq<Step>)
    returns (states': seq<State>, steps': seq<Step>)
    requires LostUpdateSetting(c, f, u, x) && Run(c, states, steps) && Instant(states)
    requires BothInside(c, Last(states), f, u, Holding, Holding)
    requires Last(states).records == map[ReplicaRecord(c, f.masterName) := [x, f.toIP]]
    ensures Run(c, states', steps') && Instant(states') && states'[0] == states[0]
    ensures var s := Last(states');
      && BothInside(c, s, f, u, Chosen, Chosen)
      && s.procs[1].pending == [x] && s.procs[2].pending == [x, f.toIP, u.fromIP]
      && ValuesOf(s.records, PrimaryRecord(c, f.masterName)) == [f.toIP]
      && ValuesOf(s.records, ReplicaRecord(c, f.masterName)) == [x, f.toIP]
  {
    PrimaryFirst(c, f, u, x, Last(states));
    StillInstant(states, Apply(c, Last(states), UpdatePrimary(1)));
    states', steps' := Extend(c, states, steps, UpdatePrimary(1));
    var add, replace := ChooseReplica(2, Some(Op.Add(u.fromIP))), ChooseReplica(1, Some(UpdateValues([x])));
    UpReads(c, f, u, x, Last(states'));
    StillInstant(states', Apply(c, Last(states'), add));
    states', steps' := Extend(c, states', steps', add);
    FailoverReads(c, f, u, x, Last(states'));
    StillInstant(states', Apply(c, Last(states'), replace));
    states', steps' := Extend(c, states', steps', replace);
  }

  lemma Writes(c: Config, f: FailoverEvent, u: FailoverEvent, s: State, pid: nat, other: Stage)
    requires BothInside(c, s, f, u, if pid == 1 then Chosen else other, if pid == 1 then other else Chosen)
    requires (pid == 1 || pid == 2) && f.masterName == u.masterName && HasReplicaRecord(c, f.masterName) && AtOnce(s)
    ensures Enabled(c, s, WriteReplica(pid, true))
    ensures var s' := Apply(c, s, WriteReplica(pid, true));
      && BothInside(c, s', f, u, if pid == 1 then Leaving else other, if pid == 1 then other else Leaving)
      && AtOnce(s') && s'.records == s.records[ReplicaRecord(c, f.masterName) := s.procs[pid].pending]
      && s'.procs[3 - pid] == s.procs[3 - pid]
  {
    WriteReplicaEffect(c, s, pid);
  }

  lemma Releases(c: Config, f: FailoverEvent, u: FailoverEvent, s: State, pid: nat, other: Stage)
    requires BothInside(c, s, f, u, if pid == 1 then Leaving else other, if pid == 1 then other else Leaving)
    requires (pid == 1 || pid == 2) && AtOnce(s)
    ensures Enabled(c, s, Release(pid, true))
    ensures var s' := Apply(c, s, Release(pid, true));
      && BothInside(c, s', f, u, if pid == 1 then Finished else other, if pid == 1 then other else Finished)
      && AtOnce(s') && s'.records == s.records && s'.procs[3 - pid] == s.procs[3 - pid]
  {
    ReleaseEffect(c, s, pid);
  }

  lemma WriteAndRelease(c: Config, f: FailoverEvent, u: FailoverEvent, states: seq<State>, steps: seq<Step>,
                        pid: nat, other: Stage)
    returns (states': seq<State>, steps': seq<Step>)
    requires (pid == 1 || pid == 2) && f.masterName == u.masterName && HasReplicaRecord(c, f.masterName)
    requires Run(c, states, steps) && Instant(states)
    requires BothInside(c, Last(states), f, u, if pid == 1 then Chosen else other, if pid == 1 then other else Chosen)
    ensures Run(c, states', steps') && Instant(states') && states'[0] == states[0]
    ensures var s, s' := Last(states), Last(states');
      && BothInside(c, s', f, u, if pid == 1 then Finished else other, if pid == 1 then other else Finished)
      && s'.records == s.records[ReplicaRecord(c, f.masterName) := s.procs[pid].pending]
      && s'.procs[3 - pid] == s.procs[3 - pid]
  {
    Writes(c, f, u, Last(states), pid, other);
    StillInstant(states, Apply(c, Last(states), WriteReplica(pid, true)));
    states', steps' := Extend(c, states, steps, WriteReplica(pid, true));
    Releases(c, f, u, Last(states'), pid, other);
    StillInstant(states', Apply(c, Last(states'), Release(pid, true)));
    states', steps' := Extend(c, states', steps', Release(pid, true));
  }

  /** First the failover, then the replica_up with what it read before. */
  lemma BothWrite(c: Config, f: FailoverEvent, u: FailoverEvent, x: string, states: seq<State>, steps: seq<Step>)
    returns (states': seq<State>, steps': seq<Step>)
    requires LostUpdateSetting(c, f, u, x) && Run(c, states, steps) && Instant(states)
    requires BothInside(c, Last(states), f, u, Chosen, Chosen)
    requires Last(states).procs[1].pending == [x] && Last(states).procs[2].pending == [x, f.toIP, u.fromIP]
    requires ValuesOf(Last(states).records, PrimaryRecord(c, f.masterName)) == [f.toIP]
    ensures Run(c, states', steps') && Instant(states') && states'[0] == states[0]
    ensures var s := Last(states');
      && BothInside(c, s, f, u, Finished, Finished)
      && ValuesOf(s.records, PrimaryRecord(c, f.masterName)) == [f.toIP]
      && ValuesOf(s.records, ReplicaRecord(c, f.masterName)) == [x, f.toIP, u.fromIP]
  {
    states', steps' := WriteAndRelease(c, f, u, states, steps, 1, Chosen);
    states', steps' := WriteAndRelease(c, f, u, states', steps', 2, Finished);
  }
}
