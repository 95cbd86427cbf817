/** What happens to the records while a call is under its lock, when everyone is on time:
    nobody else under that lock writes anything. So the writes to a primary record that no
    other mapping names are serialised, and what a call read of a replica record is out of
    date by the time it writes only through a call under a different lock. */
module PipelineSections {
  import opened Text
  import opened Cluster
  import opened Event
  import opened RecordSet
  import opened Pipeline
  import opened PipelineEffects
  import opened PipelineWrites
  import Locks = PipelineLocks

  // ----- alone under a lock -----

  lemma {:induction false} ActiveThroughout(c: Config, states: seq<State>, steps: seq<Step>, i: nat, j: nat, pid: nat)
    requires Run(c, states, steps) && i <= j < |states|
    requires pid in states[i].procs && Locks.Active(states[i].procs[pid])
    ensures pid in states[j].procs && states[j].procs[pid].event == states[i].procs[pid].event
    ensures Locks.Active(states[j].procs[pid]) || Locks.Over(states[j].procs[pid])
  {
    if i < j {
      ActiveThroughout(c, states, steps, i, j - 1, pid);
      StepChanges(c, states[j - 1], steps[j - 1]);
      Locks.Progresses(states[j - 1], steps[j - 1], states[j], pid);
    }
  }

  /** Who is active at the two ends is so in between. */
  lemma ActiveBetween(c: Config, states: seq<State>, steps: seq<Step>, i: nat, k: nat, j: nat, pid: nat)
    requires Run(c, states, steps) && i <= k <= j < |states|
    requires pid in states[i].procs && Locks.Active(states[i].procs[pid])
    requires pid in states[j].procs && Locks.Active(states[j].procs[pid])
    ensures pid in states[k].procs && states[k].procs[pid].event == states[i].procs[pid].event
    ensures Locks.Active(states[k].procs[pid])
  {
    ActiveThroughout(c, states, steps, i, k, pid);
    if Locks.Over(states[k].procs[pid]) {
      StaysOver(c, states, steps, k, j, pid);
    }
  }

  lemma {:induction false} StaysOver(c: Config, states: seq<State>, steps: seq<Step>, i: nat, j: nat, pid: nat)
    requires Run(c, states, steps) && i <= j < |states|
    requires pid in states[i].procs && Locks.Over(states[i].procs[pid])
    ensures pid in states[j].procs && Locks.Over(states[j].procs[pid])
  {
    if i < j {
      StaysOver(c, states, steps, i, j - 1, pid);
      StepChanges(c, states[j - 1], steps[j - 1]);
      Locks.Progresses(states[j - 1], steps[j - 1], states[j], pid);
    }
  }

  /** The write is the call's own, or was made under a different lock. */
  predicate OwnOrElsewhere(c: Config, s: State, w: Write, pid: nat, lock: string) {
    w.pid == pid
    || (w.pid in s.procs && Triggered(c, s.procs[w.pid]) && LockKey(c, s.procs[w.pid].event) != lock)
  }

  ghost predicate AloneSince(c: Config, s: State, from: nat, pid: nat, lock: string) {
    from <= |s.writes| && forall k | from <= k < |s.writes| :: OwnOrElsewhere(c, s, s.writes[k], pid, lock)
  }

  predicate Inside(c: Config, s: State, pid: nat, lock: string) {
    && pid in s.procs && Locks.Active(s.procs[pid]) && Triggered(c, s.procs[pid])
    && LockKey(c, s.procs[pid].event) == lock
  }

  /** When everyone is on time, the next write is the holder's or under a different lock. */
  lemma NextWriter(c: Config, s: State, step: Step, pid: nat, lock: string)
    requires Locks.TriggeredInv(c, s) && Locks.OwnershipInv(c, s) && Enabled(c, s, step) && Writing(step)
    requires Inside(c, s, pid, lock)
    ensures Locks.Active(s.procs[step.pid]) && OwnOrElsewhere(c, s, WriteOf(c, s, step), pid, lock)
  {
    assert Locks.NeedsTrigger(s.procs[step.pid]);
    assert Locks.Owns(c, s, pid) && Locks.Owns(c, s, step.pid);
  }

  lemma StaysElsewhere(c: Config, s: State, step: Step, s': State, w: Write, pid: nat, lock: string)
    requires Changes(s, step, s') && Justified(c, s, w) && OwnOrElsewhere(c, s, w, pid, lock)
    ensures OwnOrElsewhere(c, s', w, pid, lock)
  {
    Settles(s, step, s', w.pid);
    Locks.SameTrigger(c, s.procs[w.pid], s'.procs[w.pid]);
  }

  lemma NewWriteElsewhere(c: Config, s: State, step: Step, s': State, pid: nat, lock: string)
    requires Enabled(c, s, step) && Writing(step) && RecordsAfter(c, s, step, s')
    requires OwnOrElsewhere(c, s, WriteOf(c, s, step), pid, lock)
    ensures OwnOrElsewhere(c, s', WriteOf(c, s, step), pid, lock)
  {
    Locks.SameTrigger(c, s.procs[step.pid], s'.procs[step.pid]);
  }

  lemma AloneStep(c: Config, s: State, step: Step, s': State, from: nat, pid: nat, lock: string)
    requires Enabled(c, s, step) && Changes(s, step, s') && RecordsAfter(c, s, step, s')
    requires AllJustified(c, s) && AloneSince(c, s, from, pid, lock)
    requires Writing(step) ==> OwnOrElsewhere(c, s, WriteOf(c, s, step), pid, lock)
    ensures AloneSince(c, s', from, pid, lock)
  {
    forall k | from <= k < |s'.writes| ensures OwnOrElsewhere(c, s', s'.writes[k], pid, lock) {
      if k < |s.writes| {
        assert s'.writes[k] == s.writes[k] && Justified(c, s, s.writes[k]);
        StaysElsewhere(c, s, step, s', s.writes[k], pid, lock);
      } else {
        NewWriteElsewhere(c, s, step, s', pid, lock);
      }
    }
  }

  lemma InsideAlways(c: Config, states: seq<State>, steps: seq<Step>, i: nat, pid: nat)
    requires Run(c, states, steps) && i < |states|
    requires pid in states[i].procs && Locks.Active(states[i].procs[pid])
    ensures Triggered(c, states[i].procs[pid])
    ensures Inside(c, states[i], pid, LockKey(c, states[i].procs[pid].event))
  {
    Locks.TriggeredAlways(c, states, steps, i);
    assert Locks.NeedsTrigger(states[i].procs[pid]);
  }

  /** As long as everyone is on time, nobody but the holder writes anything under its lock:
      every write since it was there is its own or was made under a different lock. */
  lemma {:induction false} AloneUnderLock(c: Config, states: seq<State>, steps: seq<Step>, i: nat, j: nat, pid: nat)
    requires Run(c, states, steps) && i <= j < |states| && Locks.TimelyBefore(states, j)
    requires pid in states[i].procs && Locks.Active(states[i].procs[pid])
    requires pid in states[j].procs && Locks.Active(states[j].procs[pid])
    ensures Triggered(c, states[i].procs[pid])
    ensures AloneSince(c, states[j], |states[i].writes|, pid, LockKey(c, states[i].procs[pid].event))
  {
    InsideAlways(c, states, steps, i, pid);
    if i < j {
      ActiveBetween(c, states, steps, i, j - 1, j, pid);
      AloneUnderLock(c, states, steps, i, j - 1, pid);
      InsideAlways(c, states, steps, j - 1, pid);
      Locks.OwnershipAlways(c, states, steps, j - 1);
      WritesAlways(c, states, steps, j - 1);
      AloneNext(c, states[j - 1], steps[j - 1], |states[i].writes|, pid, LockKey(c, states[i].procs[pid].event));
    }
  }

  lemma AloneNext(c: Config, s: State, step: Step, from: nat, pid: nat, lock: string)
    requires Locks.TriggeredInv(c, s) && Locks.OwnershipInv(c, s) && Enabled(c, s, step)
    requires Inside(c, s, pid, lock) && AllJustified(c, s) && AloneSince(c, s, from, pid, lock)
    ensures AloneSince(c, Apply(c, s, step), from, pid, lock)
  {
    StepChanges(c, s, step);
    WriteShape(c, s, step);
    if Writing(step) {
      NextWriter(c, s, step, pid, lock);
    }
    AloneStep(c, s, step, Apply(c, s, step), from, pid, lock);
  }

  // ----- primary records -----

  /** No other mapping of any registered cluster names the primary record of the master. */
  predicate DistinctRecord(c: Config, master: string) {
    && master in c.clusters
    && (forall m <- c.clusters :: m != master ==> PrimaryRecord(c, m) != PrimaryRecord(c, master))
    && (forall m <- c.clusters :: HasReplicaRecord(c, m) ==> ReplicaRecord(c, m) != PrimaryRecord(c, master))
  }

  predicate OnlyBy(writes: seq<Write>, from: nat, key: RecordKey, pid: nat) {
    forall k | from <= k < |writes| :: writes[k].key == key ==> writes[k].pid == pid
  }

  /** Serialised writes: from the moment a failover call is under its lock until it leaves,
      every write to its cluster's primary record is its own, when no other mapping names
      that record. SharedRecordRun and SharedWithReplicaRun show that this is needed. */
  lemma WritesSerialised(c: Config, states: seq<State>, steps: seq<Step>, i: nat, j: nat, pid: nat)
    requires Run(c, states, steps) && i <= j < |states| && Locks.TimelyBefore(states, j)
    requires pid in states[i].procs && Locks.Active(states[i].procs[pid])
    requires states[i].procs[pid].event.eventType.Failover?
    requires DistinctRecord(c, states[i].procs[pid].event.masterName)
    requires pid in states[j].procs && Locks.Active(states[j].procs[pid])
    ensures |states[i].writes| <= |states[j].writes|
    ensures OnlyBy(states[j].writes, |states[i].writes|, PrimaryRecord(c, states[i].procs[pid].event.masterName), pid)
  {
    AloneUnderLock(c, states, steps, i, j, pid);
    WritesAlways(c, states, steps, j);
    var s, e := states[j], states[i].procs[pid].event;
    var lock := LockKey(c, e);
    forall k | |states[i].writes| <= k < |s.writes| && s.writes[k].key == PrimaryRecord(c, e.masterName)
      ensures s.writes[k].pid == pid
    {
      assert Justified(c, s, s.writes[k]) && OwnOrElsewhere(c, s, s.writes[k], pid, lock);
    }
  }

  // ----- replica records -----

  predicate AboutReplica(e: FailoverEvent) { e.eventType.ReplicaDown? || e.eventType.ReplicaUp? }

  function Group(c: Config, e: FailoverEvent): string
    requires e.masterName in c.clusters
  {
    c.clusters[e.masterName].groupName
  }

  /** The replica handlers of one group exclude each other: while one of them is under its
      lock every write is its own, a failover's, or another group's. */
  lemma ReplicaWritesSerialised(c: Config, states: seq<State>, steps: seq<Step>, i: nat, j: nat, pid: nat)
    requires Run(c, states, steps) && i <= j < |states| && Locks.TimelyBefore(states, j)
    requires pid in states[i].procs && Locks.Active(states[i].procs[pid]) && AboutReplica(states[i].procs[pid].event)
    requires pid in states[j].procs && Locks.Active(states[j].procs[pid])
    ensures Triggered(c, states[i].procs[pid]) && |states[i].writes| <= |states[j].writes|
    ensures forall k | |states[i].writes| <= k < |states[j].writes| && states[j].writes[k].pid != pid ::
              var q := states[j].writes[k].pid;
              && q in states[j].procs && Triggered(c, states[j].procs[q])
              && (states[j].procs[q].event.eventType.Failover?
                  || Group(c, states[j].procs[q].event) != Group(c, states[i].procs[pid].event))
  {
    AloneUnderLock(c, states, steps, i, j, pid);
    var lock := LockKey(c, states[i].procs[pid].event);
    forall k | |states[i].writes| <= k < |states[j].writes| && states[j].writes[k].pid != pid
      ensures OwnOrElsewhere(c, states[j], states[j].writes[k], pid, lock)
    {
    }
  }

  /** The values are what the call's own ChooseReplica step made of the record it read. */
  ghost predicate ReadAt(c: Config, states: seq<State>, steps: seq<Step>, m: nat, pid: nat, op: Op,
                         e: FailoverEvent, values: seq<string>)
  {
    && m < |steps| && m < |states| && steps[m] == ChooseReplica(pid, Some(op))
    && pid in states[m].procs && states[m].procs[pid].event == e
    && HasReplicaRecord(c, e.masterName) && Derived(c, e, Some(op))
    && var read := ValuesOf(states[m].records, ReplicaRecord(c, e.masterName));
      values == ListAfter(read, op) && (op.Add? || op.Remove? ==> values != read)
  }

  /** A call goes on to write what it made of the record it read, unless there is nothing to
      write, or it would add or remove a value without effect. */
  lemma ChoosesRead(c: Config, s: State, pid: nat, write: Option<Op>)
    requires Enabled(c, s, ChooseReplica(pid, write))
    ensures var e, q := s.procs[pid].event, Apply(c, s, ChooseReplica(pid, write)).procs[pid];
      && PastChoice(q.stage) && q.event == e && q.crashed == s.procs[pid].crashed
      && (q.stage.Chosen? ==>
            && write.Some? && HasReplicaRecord(c, e.masterName)
            && var read := ValuesOf(s.records, ReplicaRecord(c, e.masterName));
              && q.pending == ListAfter(read, write.value)
              && (write.value.Add? || write.value.Remove? ==> q.pending != read))
      && (write.Some? && HasReplicaRecord(c, e.masterName) && !q.stage.Chosen? ==>
            && (write.value.Add? || write.value.Remove?)
            && var read := ValuesOf(s.records, ReplicaRecord(c, e.masterName)); ListAfter(read, write.value) == read)
  {
    assert Apply(c, s, ChooseReplica(pid, write)) == Choose(c, s, pid, write);
  }

  lemma {:induction false} PendingFromRead(c: Config, states: seq<State>, steps: seq<Step>, i: nat, pid: nat)
    returns (m: nat, op: Op)
    requires Run(c, states, steps) && i < |states| && pid in states[i].procs && states[i].procs[pid].stage.Chosen?
    ensures m < i && ReadAt(c, states, steps, m, pid, op, states[i].procs[pid].event, states[i].procs[pid].pending)
  {
    assert i > 0;
    var s, step := states[i - 1], steps[i - 1];
    StepChanges(c, s, step);
    if pid !in s.procs {
      Locks.NewCallsArrive(s, step, states[i], pid);
      assert false;
    } else {
      Settles(s, step, states[i], pid);
      if step.ChooseReplica? && step.pid == pid {
        ChoosesRead(c, s, pid, step.write);
        m, op := i - 1, step.write.value;
      } else {
        m, op := PendingFromRead(c, states, steps, i - 1, pid);
      }
    }
  }

  /** Every write to a replica record puts there what its own call's ChooseReplica step made
      of the record as it was at that step. */
  lemma {:induction false} ReplicaWriteFromRead(c: Config, states: seq<State>, steps: seq<Step>, i: nat, k: nat)
    returns (m: nat, n: nat, op: Op)
    requires Run(c, states, steps) && i < |states| && k < |states[i].writes| && !states[i].writes[k].primary
    ensures var w := states[i].writes[k];
      && m < n < i && steps[n] == WriteReplica(w.pid, true) && w.pid in states[i].procs
      && ReadAt(c, states, steps, m, w.pid, op, states[i].procs[w.pid].event, w.values)
      && w.key == ReplicaRecord(c, states[i].procs[w.pid].event.masterName)
  {
    assert i > 0;
    var s, step, w := states[i - 1], steps[i - 1], states[i].writes[k];
    StepChanges(c, s, step);
    WriteShape(c, s, step);
    if k < |s.writes| {
      m, n, op := ReplicaWriteFromRead(c, states, steps, i - 1, k);
    } else {
      n := i - 1;
      m, op := PendingFromRead(c, states, steps, n, w.pid);
    }
    Settles(s, step, states[i], w.pid);
  }

  // ----- the primary record first -----

  predicate HasPrimary(writes: seq<Write>, pid: nat) { exists w <- writes :: w.primary && w.pid == pid }

  /** A failover that is past its primary record has written it. */
  ghost predicate UpdatedInv(s: State) {
    forall pid | pid in s.procs && s.procs[pid].event.eventType.Failover?
                 && (s.procs[pid].stage.Updated? || s.procs[pid].stage.Chosen?) :: HasPrimary(s.writes, pid)
  }

  ghost predicate FirstInv(s: State) {
    forall k | 0 <= k < |s.writes| && !s.writes[k].primary && s.writes[k].pid in s.procs
               && s.procs[s.writes[k].pid].event.eventType.Failover? :: HasPrimary(s.writes[..k], s.writes[k].pid)
  }

  lemma StillPrimary(writes: seq<Write>, more: seq<Write>, pid: nat)
    requires HasPrimary(writes, pid) && writes <= more
    ensures HasPrimary(more, pid)
  {
    var w :| w in writes && w.primary && w.pid == pid;
    assert w in more;
  }

  /** How a failover gets past its primary record. */
  lemma UpdatedBefore(c: Config, s: State, step: Step, s': State, pid: nat)
    requires Enabled(c, s, step) && Changes(s, step, s') && pid in s.procs && pid in s'.procs
    requires s.procs[pid].event.eventType.Failover?
    requires s'.procs[pid].stage.Updated? || s'.procs[pid].stage.Chosen?
    ensures s.procs[pid].stage.Updated? || s.procs[pid].stage.Chosen? || step == UpdatePrimary(pid)
  {
  }

  lemma UpdatedStep(c: Config, s: State, step: Step, s': State)
    requires UpdatedInv(s) && Enabled(c, s, step) && Changes(s, step, s') && RecordsAfter(c, s, step, s')
    ensures UpdatedInv(s')
  {
    forall pid | pid in s'.procs && s'.procs[pid].event.eventType.Failover?
                 && (s'.procs[pid].stage.Updated? || s'.procs[pid].stage.Chosen?)
      ensures HasPrimary(s'.writes, pid)
    {
      if pid !in s.procs {
        Locks.NewCallsArrive(s, step, s', pid);
        assert false;
      } else {
        Settles(s, step, s', pid);
        UpdatedBefore(c, s, step, s', pid);
        if step == UpdatePrimary(pid) {
          assert WriteOf(c, s, step) in s'.writes;
        } else {
          StillPrimary(s.writes, s'.writes, pid);
        }
      }
    }
  }

  lemma FirstStep(c: Config, s: State, step: Step, s': State)
    requires UpdatedInv(s) && FirstInv(s) && AllJustified(c, s)
    requires Enabled(c, s, step) && Changes(s, step, s') && RecordsAfter(c, s, step, s')
    ensures FirstInv(s')
  {
    forall k | 0 <= k < |s'.writes| && !s'.writes[k].primary && s'.writes[k].pid in s'.procs
               && s'.procs[s'.writes[k].pid].event.eventType.Failover?
      ensures HasPrimary(s'.writes[..k], s'.writes[k].pid)
    {
      if k < |s.writes| {
        assert s'.writes[k] == s.writes[k] && s'.writes[..k] == s.writes[..k] && Justified(c, s, s.writes[k]);
        Settles(s, step, s', s.writes[k].pid);
      } else {
        assert s'.writes[..k] == s.writes && s.procs[step.pid].stage.Chosen?;
      }
    }
  }

  lemma {:induction false} FirstAlways(c: Config, states: seq<State>, steps: seq<Step>, i: nat)
    requires Run(c, states, steps) && i < |states|
    ensures UpdatedInv(states[i]) && FirstInv(states[i])
  {
    if i > 0 {
      FirstAlways(c, states, steps, i - 1);
      WritesAlways(c, states, steps, i - 1);
      StepChanges(c, states[i - 1], steps[i - 1]);
      WriteShape(c, states[i - 1], steps[i - 1]);
      UpdatedStep(c, states[i - 1], steps[i - 1], states[i]);
      FirstStep(c, states[i - 1], steps[i - 1], states[i]);
    }
  }

  /** In every interleaving a failover writes the replica record only after it has written
      the primary record itself. */
  lemma PrimaryBeforeReplica(c: Config, states: seq<State>, steps: seq<Step>, i: nat, k: nat)
    requires Run(c, states, steps) && i < |states| && k < |states[i].writes|
    ensures var s, w := states[i], states[i].writes[k];
      && w.pid in s.procs
      && (!w.primary && s.procs[w.pid].event.eventType.Failover? ==>
            exists j | 0 <= j < k :: s.writes[j].primary && s.writes[j].pid == w.pid)
  {
    FirstAlways(c, states, steps, i);
    WritesAlways(c, states, steps, i);
    var s, w := states[i], states[i].writes[k];
    assert Justified(c, s, w);
    if !w.primary && s.procs[w.pid].event.eventType.Failover? {
      assert HasPrimary(s.writes[..k], w.pid);
      var j :| 0 <= j < k && s.writes[..k][j].primary && s.writes[..k][j].pid == w.pid;
      assert s.writes[j].primary && s.writes[j].pid == w.pid;
    }
  }

  lemma {:induction false} StaysPastChoice(c: Config, states: seq<State>, steps: seq<Step>, i: nat, j: nat, pid: nat)
    requires Run(c, states, steps) && i <= j < |states|
    requires pid in states[i].procs && PastChoice(states[i].procs[pid].stage)
    ensures pid in states[j].procs && PastChoice(states[j].procs[pid].stage)
  {
    if i < j {
      StaysPastChoice(c, states, steps, i, j - 1, pid);
      StepChanges(c, states[j - 1], steps[j - 1]);
      Settles(states[j - 1], steps[j - 1], states[j], pid);
    }
  }

  /** A call reads the replica record once. */
  lemma ChoosesOnce(c: Config, states: seq<State>, steps: seq<Step>, m: nat, n: nat, pid: nat)
    requires Run(c, states, steps) && m < |steps| && n < |steps|
    requires steps[m].ChooseReplica? && steps[n].ChooseReplica? && steps[m].pid == steps[n].pid == pid
    ensures m == n
  {
    if m < n {
      NotChosenAgain(c, states, steps, m, n, pid);
    } else if n < m {
      NotChosenAgain(c, states, steps, n, m, pid);
    }
  }

  lemma NotChosenAgain(c: Config, states: seq<State>, steps: seq<Step>, m: nat, n: nat, pid: nat)
    requires Run(c, states, steps) && m < n < |steps| && steps[m].ChooseReplica? && steps[m].pid == pid
    ensures !(steps[n].ChooseReplica? && steps[n].pid == pid)
  {
    PastChoiceAt(c, states, steps, m, n, pid);
    NotPastChoice(c, states[n], steps[n], pid);
  }

  lemma NotPastChoice(c: Config, s: State, step: Step, pid: nat)
    requires Enabled(c, s, step) && pid in s.procs && PastChoice(s.procs[pid].stage)
    ensures !(step.ChooseReplica? && step.pid == pid)
  {
  }

  lemma PastChoiceAt(c: Config, states: seq<State>, steps: seq<Step>, m: nat, n: nat, pid: nat)
    requires Run(c, states, steps) && m < n < |states| && steps[m].ChooseReplica? && steps[m].pid == pid
    ensures pid in states[n].procs && PastChoice(states[n].procs[pid].stage)
  {
    ChoosesFirst(c, states, steps, m, pid);
    StaysPastChoice(c, states, steps, m + 1, n, pid);
  }

  lemma ChoosesFirst(c: Config, states: seq<State>, steps: seq<Step>, m: nat, pid: nat)
    requires Run(c, states, steps) && m < |steps| && steps[m].ChooseReplica? && steps[m].pid == pid
    ensures pid in states[m + 1].procs && PastChoice(states[m + 1].procs[pid].stage)
  {
    StepChanges(c, states[m], steps[m]);
  }

  /** What an event's handler may write. */
  predicate Names(c: Config, e: FailoverEvent, key: RecordKey) {
    && e.masterName in c.clusters
    && ((e.eventType.Failover? && PrimaryRecord(c, e.masterName) == key)
        || (HasReplicaRecord(c, e.masterName) && ReplicaRecord(c, e.masterName) == key))
  }

  /** Nobody whose event names the record is under a different lock. */
  ghost predicate NoRival(c: Config, s: State, key: RecordKey, lock: string) {
    forall q | q in s.procs && Locks.Active(s.procs[q]) && Names(c, s.procs[q].event, key) ::
      LockKey(c, s.procs[q].event) == lock
  }

  /** From state i up to state j. */
  ghost predicate NoRivalBetween(c: Config, states: seq<State>, i: nat, j: nat, key: RecordKey, lock: string)
    requires j <= |states|
  {
    forall k | i <= k < j :: NoRival(c, states[k], key, lock)
  }

  /** Who has chosen and still has not written at the end had chosen before the last step,
      which was not its own. */
  lemma ChosenBefore(c: Config, s: State, step: Step, pid: nat)
    requires Enabled(c, s, step) && pid in s.procs && PastChoice(s.procs[pid].stage)
    requires pid in Apply(c, s, step).procs && Apply(c, s, step).procs[pid].stage.Chosen?
    ensures s.procs[pid].stage.Chosen? && !(Writing(step) && step.pid == pid)
  {
    StepChanges(c, s, step);
    Settles(s, step, Apply(c, s, step), pid);
    WriteShape(c, s, step);
  }

  lemma RecordKeptStep(c: Config, s: State, step: Step, pid: nat, key: RecordKey, lock: string)
    requires Locks.TriggeredInv(c, s) && Locks.OwnershipInv(c, s) && Enabled(c, s, step)
    requires Inside(c, s, pid, lock) && NoRival(c, s, key, lock) && !(Writing(step) && step.pid == pid)
    ensures ValuesOf(Apply(c, s, step).records, key) == ValuesOf(s.records, key)
  {
    WriteShape(c, s, step);
    if Writing(step) && WriteOf(c, s, step).key == key {
      NextWriter(c, s, step, pid, lock);
      assert Names(c, s.procs[step.pid].event, key);
      assert false;
    }
  }

  /** The record does not change between the choice and the write. */
  lemma {:induction false} RecordKept(c: Config, states: seq<State>, steps: seq<Step>, i: nat, j: nat, pid: nat,
                                      key: RecordKey, lock: string)
    requires Run(c, states, steps) && i <= j < |states| && Locks.TimelyBefore(states, j)
    requires Inside(c, states[i], pid, lock) && PastChoice(states[i].procs[pid].stage)
    requires At(states[j], pid, Chosen)
    requires NoRivalBetween(c, states, i, j, key, lock)
    ensures ValuesOf(states[j].records, key) == ValuesOf(states[i].records, key)
  {
    if i < j {
      ActiveBetween(c, states, steps, i, j - 1, j, pid);
      StaysPastChoice(c, states, steps, i, j - 1, pid);
      RecordKeptNext(c, states, steps, j - 1, pid, key, lock);
      RecordKept(c, states, steps, i, j - 1, pid, key, lock);
    }
  }

  lemma RecordKeptNext(c: Config, states: seq<State>, steps: seq<Step>, j: nat, pid: nat, key: RecordKey, lock: string)
    requires Run(c, states, steps) && j < |steps| && Locks.TimelyBefore(states, j)
    requires pid in states[j].procs && Locks.Active(states[j].procs[pid]) && PastChoice(states[j].procs[pid].stage)
    requires states[j].procs[pid].event.masterName in c.clusters && LockKey(c, states[j].procs[pid].event) == lock
    requires At(states[j + 1], pid, Chosen) && NoRival(c, states[j], key, lock)
    ensures At(states[j], pid, Chosen) && ValuesOf(states[j + 1].records, key) == ValuesOf(states[j].records, key)
  {
    InsideAlways(c, states, steps, j, pid);
    Locks.OwnershipAlways(c, states, steps, j);
    KeptStep(c, states[j], steps[j], pid, key, lock);
  }

  lemma KeptStep(c: Config, s: State, step: Step, pid: nat, key: RecordKey, lock: string)
    requires Locks.TriggeredInv(c, s) && Locks.OwnershipInv(c, s) && Enabled(c, s, step)
    requires Inside(c, s, pid, lock) && NoRival(c, s, key, lock) && PastChoice(s.procs[pid].stage)
    requires At(Apply(c, s, step), pid, Chosen)
    ensures At(s, pid, Chosen) && ValuesOf(Apply(c, s, step).records, key) == ValuesOf(s.records, key)
  {
    ChosenBefore(c, s, step, pid);
    RecordKeptStep(c, s, step, pid, key, lock);
  }

  /** When a replica update is not lost: if everyone is on time, and nobody whose event names
      the record is under a different lock while the call is between its read and its write,
      the write is the chosen change of the record as it stands then. */
  lemma UpdateNotLost(c: Config, states: seq<State>, steps: seq<Step>, m: nat, n: nat, pid: nat, op: Op, applied: bool)
    requires Run(c, states, steps) && m < n < |steps| && Locks.TimelyBefore(states, n)
    requires steps[m] == ChooseReplica(pid, Some(op)) && steps[n] == WriteReplica(pid, applied)
    requires pid in states[n].procs && HasReplicaRecord(c, states[n].procs[pid].event.masterName)
    requires var e := states[n].procs[pid].event;
      NoRivalBetween(c, states, m + 1, n, ReplicaRecord(c, e.masterName), LockKey(c, e))
    ensures var key := ReplicaRecord(c, states[n].procs[pid].event.masterName);
      states[n + 1].records
      == if applied then states[n].records[key := ListAfter(ValuesOf(states[n].records, key), op)]
         else states[n].records
  {
    WritesPending(c, states, steps, n, pid, applied);
    PendingUpToDate(c, states, steps, m, n, pid, op);
  }

  lemma PendingUpToDate(c: Config, states: seq<State>, steps: seq<Step>, m: nat, n: nat, pid: nat, op: Op)
    requires Run(c, states, steps) && m < n < |steps| && Locks.TimelyBefore(states, n)
    requires steps[m] == ChooseReplica(pid, Some(op)) && At(states[n], pid, Chosen)
    requires HasReplicaRecord(c, states[n].procs[pid].event.masterName)
    requires var e := states[n].procs[pid].event;
      NoRivalBetween(c, states, m + 1, n, ReplicaRecord(c, e.masterName), LockKey(c, e))
    ensures var p := states[n].procs[pid];
      p.pending == ListAfter(ValuesOf(states[n].records, ReplicaRecord(c, p.event.masterName)), op)
  {
    var e := states[n].procs[pid].event;
    PendingIsChosen(c, states, steps, m, n, pid, op);
    ChoosesInside(c, states, steps, m, n, pid);
    RecordKept(c, states, steps, m + 1, n, pid, ReplicaRecord(c, e.masterName), LockKey(c, e));
  }

  lemma WritesPending(c: Config, states: seq<State>, steps: seq<Step>, n: nat, pid: nat, applied: bool)
    requires Run(c, states, steps) && n < |steps| && steps[n] == WriteReplica(pid, applied)
    ensures At(states[n], pid, Chosen) && HasReplicaRecord(c, states[n].procs[pid].event.masterName)
    ensures var s, p := states[n], states[n].procs[pid];
      states[n + 1].records
      == if applied then s.records[ReplicaRecord(c, p.event.masterName) := p.pending] else s.records
  {
    WriteShape(c, states[n], steps[n]);
  }

  lemma PendingIsChosen(c: Config, states: seq<State>, steps: seq<Step>, m: nat, n: nat, pid: nat, op: Op)
    requires Run(c, states, steps) && m < n < |steps| && steps[m] == ChooseReplica(pid, Some(op))
    requires At(states[n], pid, Chosen) && HasReplicaRecord(c, states[n].procs[pid].event.masterName)
    ensures var p := states[n].procs[pid];
      p.pending == ListAfter(ValuesOf(states[m + 1].records, ReplicaRecord(c, p.event.masterName)), op)
  {
    var m', op' := PendingFromRead(c, states, steps, n, pid);
    ChoosesOnce(c, states, steps, m, m', pid);
    WriteShape(c, states[m], steps[m]);
  }

  lemma ChoosesInside(c: Config, states: seq<State>, steps: seq<Step>, m: nat, n: nat, pid: nat)
    requires Run(c, states, steps) && m < n < |steps| && At(states[n], pid, Chosen)
    requires steps[m].ChooseReplica? && steps[m].pid == pid
    ensures var e := states[n].procs[pid].event;
      && e.masterName in c.clusters && Inside(c, states[m + 1], pid, LockKey(c, e))
      && PastChoice(states[m + 1].procs[pid].stage)
  {
    ChoosesFirst(c, states, steps, m, pid);
    ChosenWasActive(c, states, steps, m + 1, n, pid);
    InsideAlways(c, states, steps, m + 1, pid);
  }

  lemma ChosenWasActive(c: Config, states: seq<State>, steps: seq<Step>, i: nat, j: nat, pid: nat)
    requires Run(c, states, steps) && i <= j < |states| && At(states[j], pid, Chosen)
    requires pid in states[i].procs && PastChoice(states[i].procs[pid].stage)
    ensures Locks.Active(states[i].procs[pid]) && states[j].procs[pid].event == states[i].procs[pid].event
  {
    if Locks.Over(states[i].procs[pid]) {
      StaysOver(c, states, steps, i, j, pid);
      assert false;
    } else {
      ActiveThroughout(c, states, steps, i, j, pid);
    }
  }

  /** No failover that names the record is under its lock. */
  ghost predicate NoFailover(c: Config, s: State, key: RecordKey) {
    forall q | q in s.procs && Locks.Active(s.procs[q]) && Names(c, s.procs[q].event, key) ::
      !s.procs[q].event.eventType.Failover?
  }

  /** Only clusters of the event's group have a mapping that names the record. */
  predicate OwnGroupOnly(c: Config, e: FailoverEvent, key: RecordKey)
    requires e.masterName in c.clusters
  {
    forall m <- c.clusters ::
      PrimaryRecord(c, m) == key || (HasReplicaRecord(c, m) && ReplicaRecord(c, m) == key) ==>
        c.clusters[m].groupName == Group(c, e)
  }

  /** For a replica event of a group whose record no other group names it is enough that no
      failover which names the record is under its lock meanwhile. LostUpdateRun and
      SharedReplicaRun show that neither can be left out. */
  lemma ReplicaUpdateNotLost(c: Config, states: seq<State>, steps: seq<Step>, m: nat, n: nat, pid: nat,
                             op: Op, applied: bool)
    requires Run(c, states, steps) && m < n < |steps| && Locks.TimelyBefore(states, n)
    requires steps[m] == ChooseReplica(pid, Some(op)) && steps[n] == WriteReplica(pid, applied)
    requires pid in states[n].procs && HasReplicaRecord(c, states[n].procs[pid].event.masterName)
    requires var e := states[n].procs[pid].event; var key := ReplicaRecord(c, e.masterName);
      && AboutReplica(e) && OwnGroupOnly(c, e, key)
      && forall k | m < k < n :: NoFailover(c, states[k], key)
    ensures var key := ReplicaRecord(c, states[n].procs[pid].event.masterName);
      states[n + 1].records
      == if applied then states[n].records[key := ListAfter(ValuesOf(states[n].records, key), op)]
         else states[n].records
  {
    var e := states[n].procs[pid].event;
    var key := ReplicaRecord(c, e.masterName);
    forall k | m < k < n ensures NoRival(c, states[k], key, LockKey(c, e)) {
      assert NoFailover(c, states[k], key);
      Locks.TriggeredAlways(c, states, steps, k);
      SameGroupNoRival(c, states[k], e, key);
    }
    UpdateNotLost(c, states, steps, m, n, pid, op, applied);
  }

  lemma SameGroupNoRival(c: Config, s: State, e: FailoverEvent, key: RecordKey)
    requires Locks.TriggeredInv(c, s) && NoFailover(c, s, key)
    requires e.masterName in c.clusters && AboutReplica(e) && OwnGroupOnly(c, e, key)
    ensures NoRival(c, s, key, LockKey(c, e))
  {
    forall q | q in s.procs && Locks.Active(s.procs[q]) && Names(c, s.procs[q].event, key)
      ensures LockKey(c, s.procs[q].event) == LockKey(c, e)
    {
      assert Locks.NeedsTrigger(s.procs[q]) && Triggered(c, s.procs[q]);
    }
  }

  // ----- exactly who can interfere -----

  /** The call's next provider call can change the record. */
  predicate AboutToWrite(c: Config, s: State, q: nat, key: RecordKey) {
    && q in s.procs && s.procs[q].event.masterName in c.clusters
    && var master := s.procs[q].event.masterName;
      ((At(s, q, Holding) && s.procs[q].event.eventType.Failover? && PrimaryRecord(c, master) == key)
       || (At(s, q, Chosen) && HasReplicaRecord(c, master) && ReplicaRecord(c, master) == key))
  }

  predicate WritesNext(c: Config, s: State, step: Step, q: nat, key: RecordKey) {
    Enabled(c, s, step) && Writing(step) && step.pid == q && WriteOf(c, s, step).key == key
  }

  /** In a run that was timely so far, another call can write a record in the next step if
      and only if there is one about to write it under a different lock. */
  lemma InterferesExactly(c: Config, states: seq<State>, steps: seq<Step>, i: nat, pid: nat, key: RecordKey)
    requires Run(c, states, steps) && i < |states| && Locks.TimelyBefore(states, i)
    requires pid in states[i].procs && Locks.Active(states[i].procs[pid])
    ensures Triggered(c, states[i].procs[pid])
    ensures (exists q, step :: q != pid && WritesNext(c, states[i], step, q, key))
            <==> exists q :: AboutToWrite(c, states[i], q, key)
                             && LockKey(c, states[i].procs[q].event) != LockKey(c, states[i].procs[pid].event)
  {
    var s := states[i];
    InsideAlways(c, states, steps, i, pid);
    Locks.OwnershipAlways(c, states, steps, i);
    if q, step :| q != pid && WritesNext(c, s, step, q, key) {
      WriterWasAbout(c, s, step, key);
      NextWriter(c, s, step, pid, LockKey(c, s.procs[pid].event));
    }
    if q :| AboutToWrite(c, s, q, key) && LockKey(c, s.procs[q].event) != LockKey(c, s.procs[pid].event) {
      var step := CanWrite(c, s, q, key);
    }
  }

  lemma WriterWasAbout(c: Config, s: State, step: Step, key: RecordKey)
    requires Locks.TriggeredInv(c, s) && Enabled(c, s, step) && Writing(step) && WriteOf(c, s, step).key == key
    ensures AboutToWrite(c, s, step.pid, key)
  {
    assert Locks.NeedsTrigger(s.procs[step.pid]);
  }

  lemma CanWrite(c: Config, s: State, q: nat, key: RecordKey) returns (step: Step)
    requires AboutToWrite(c, s, q, key)
    ensures WritesNext(c, s, step, q, key)
  {
    step := if At(s, q, Holding) then UpdatePrimary(q) else WriteReplica(q, true);
  }
}
