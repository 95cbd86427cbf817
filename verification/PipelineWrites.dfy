/** What the whole pipeline promises about the DNS records in every interleaving: every
    write belongs to a call whose reports reached the target exactly, no window of a dedup
    key writes for one cluster twice, and no record loses its last value. */
module PipelineWrites {
  import opened Text
  import opened Cluster
  import opened Event
  import opened RecordSet
  import opened Replicas
  import opened Pipeline
  import opened PipelineEffects
  import PipelineCounting
  import Locks = PipelineLocks

  // ----- who writes, and why -----

  predicate PastPrimary(stage: Stage) { stage.Updated? || stage.Chosen? || stage.Leaving? || stage.Finished? }

  predicate PastChoice(stage: Stage) { stage.Chosen? || PastReplica(stage) }

  predicate PastReplica(stage: Stage) { stage.Leaving? || stage.Finished? }

  /** The values come from an answer of Sentinel and a list that was read; adding or
      removing a value without effect writes nothing. */
  ghost predicate FromSentinel(c: Config, e: FailoverEvent, values: seq<string>) {
    exists op, read ::
      && Derived(c, e, Some(op)) && values == ListAfter(read, op)
      && (op.Add? || op.Remove? ==> values != read)
  }

  /** The write of a call that reached its lock: a failover's target address to the primary
      record, or what the event's handler makes of Sentinel's answer to the replica record. */
  ghost predicate Justified(c: Config, s: State, w: Write) {
    && w.pid in s.procs && Triggered(c, s.procs[w.pid]) && s.procs[w.pid].count >= 1
    && var p := s.procs[w.pid];
      if w.primary then
        && p.event.eventType.Failover? && PastPrimary(p.stage)
        && w.key == PrimaryRecord(c, p.event.masterName) && w.values == [p.event.toIP]
      else
        && HasReplicaRecord(c, p.event.masterName) && PastReplica(p.stage)
        && w.key == ReplicaRecord(c, p.event.masterName) && FromSentinel(c, p.event, w.values)
  }

  ghost predicate AllJustified(c: Config, s: State) {
    forall i | 0 <= i < |s.writes| :: Justified(c, s, s.writes[i])
  }

  /** No call writes a record of one kind twice. */
  ghost predicate WritesDiffer(writes: seq<Write>) {
    forall i, j | 0 <= i < j < |writes| :: writes[i].primary == writes[j].primary ==> writes[i].pid != writes[j].pid
  }

  ghost predicate PendingOk(c: Config, s: State) {
    forall pid | pid in s.procs && s.procs[pid].stage.Chosen? ::
      FromSentinel(c, s.procs[pid].event, s.procs[pid].pending)
  }

  ghost predicate WritesInv(c: Config, s: State) {
    AllJustified(c, s) && WritesDiffer(s.writes) && PendingOk(c, s)
  }

  // ----- the effect of a step on the records -----

  predicate Writing(step: Step) {
    step.UpdatePrimary? || (step.UpdateFails? && step.applied) || (step.WriteReplica? && step.applied)
  }

  function WriteOf(c: Config, s: State, step: Step): Write
    requires Enabled(c, s, step) && Writing(step)
  {
    if step.WriteReplica? then
      var p := s.procs[step.pid];
      Write(step.pid, false, ReplicaRecord(c, p.event.masterName), p.pending)
    else PrimaryWrite(c, s, step.pid)
  }

  ghost predicate RecordsAfter(c: Config, s: State, step: Step, s': State)
    requires Enabled(c, s, step)
  {
    if Writing(step) then
      var w := WriteOf(c, s, step);
      && s'.records == s.records[w.key := w.values] && s'.writes == s.writes + [w]
      && step.pid in s'.procs && s'.procs[step.pid].event == s.procs[step.pid].event
      && s'.procs[step.pid].count == s.procs[step.pid].count
      && (if w.primary then PastPrimary(s'.procs[step.pid].stage) else PastReplica(s'.procs[step.pid].stage))
    else s'.records == s.records && s'.writes == s.writes
  }

  lemma PrimaryEffect(c: Config, s: State, step: Step)
    requires Enabled(c, s, step) && Updating(step)
    ensures RecordsAfter(c, s, step, Apply(c, s, step))
  {
    match step case UpdatePrimary(_) => case UpdateFails(_, _) =>
  }

  lemma ReplicaEffect(c: Config, s: State, pid: nat, applied: bool)
    requires Enabled(c, s, WriteReplica(pid, applied))
    ensures RecordsAfter(c, s, WriteReplica(pid, applied), Apply(c, s, WriteReplica(pid, applied)))
  {
  }

  lemma RecordsKept(c: Config, s: State, step: Step, s': State)
    requires Enabled(c, s, step) && Changes(s, step, s') && !Updating(step) && !step.WriteReplica?
    ensures RecordsAfter(c, s, step, s')
  {
  }

  lemma WriteShape(c: Config, s: State, step: Step)
    requires Enabled(c, s, step)
    ensures RecordsAfter(c, s, step, Apply(c, s, step))
  {
    if Updating(step) {
      PrimaryEffect(c, s, step);
    } else if step.WriteReplica? {
      ReplicaEffect(c, s, step.pid, step.applied);
    } else {
      StepChanges(c, s, step);
      RecordsKept(c, s, step, Apply(c, s, step));
    }
  }

  // ----- the effect of a step on a call -----

  /** After its INCR a call keeps its count, it never goes back behind a write, and what it
      is about to write to the replica record is what it chose. */
  ghost predicate Settled(step: Step, pid: nat, p: Proc, q: Proc) {
    && q.event == p.event
    && (p.stage != Arrived ==> q.count == p.count && q.gen == p.gen)
    && (PastPrimary(p.stage) ==> PastPrimary(q.stage))
    && (PastChoice(p.stage) ==> PastChoice(q.stage))
    && (PastReplica(p.stage) ==> PastReplica(q.stage))
    && (q.stage.Chosen? ==> (p.stage.Chosen? && q.pending == p.pending) || (step.ChooseReplica? && step.pid == pid))
  }

  lemma MoveSettled(step: Step, now: int, p: Proc, q: Proc)
    requires !Counting(step) && MovesTo(step, now, p, q)
    ensures Settled(step, step.pid, p, q)
  {
  }

  lemma EarlySettled(step: Step, pid: nat, p: Proc, q: Proc)
    requires q == p || EarlyMove(p, q)
    ensures Settled(step, pid, p, q)
  {
  }

  lemma Settles(s: State, step: Step, s': State, pid: nat)
    requires Changes(s, step, s') && pid in s.procs
    ensures pid in s'.procs && Settled(step, pid, s.procs[pid], s'.procs[pid])
  {
    if !Counting(step) && pid == step.pid {
      MoveSettled(step, s.now, s.procs[pid], s'.procs[pid]);
    } else {
      EarlySettled(step, pid, s.procs[pid], s'.procs[pid]);
    }
  }

  // ----- every run -----

  lemma ChosenFromSentinel(c: Config, s: State, pid: nat, write: Option<Op>)
    requires Enabled(c, s, ChooseReplica(pid, write)) && Derived(c, s.procs[pid].event, write)
    ensures var q := Choose(c, s, pid, write).procs[pid]; q.stage.Chosen? ==> FromSentinel(c, q.event, q.pending)
  {
  }

  lemma PendingStep(c: Config, s: State, step: Step, s': State)
    requires PendingOk(c, s) && Follows(c, s, step, s') && Changes(s, step, s')
    ensures PendingOk(c, s')
  {
    forall pid | pid in s'.procs && s'.procs[pid].stage.Chosen?
      ensures FromSentinel(c, s'.procs[pid].event, s'.procs[pid].pending)
    {
      if pid !in s.procs {
        Locks.NewCallsArrive(s, step, s', pid);
        assert false;
      } else {
        Settles(s, step, s', pid);
        if step.ChooseReplica? && step.pid == pid {
          ChosenFromSentinel(c, s, pid, step.write);
        }
      }
    }
  }

  /** What was justified stays so. */
  lemma StaysJustified(c: Config, s: State, step: Step, s': State, w: Write)
    requires Justified(c, s, w) && w.pid in s'.procs && Settled(step, w.pid, s.procs[w.pid], s'.procs[w.pid])
    ensures Justified(c, s', w)
  {
    Locks.SameTrigger(c, s.procs[w.pid], s'.procs[w.pid]);
  }

  /** The call that writes is under its lock, so triggered. */
  lemma NewWriteJustified(c: Config, s: State, step: Step, s': State)
    requires Enabled(c, s, step) && Writing(step) && RecordsAfter(c, s, step, s')
    requires Locks.TriggeredInv(c, s) && PipelineCounting.StagesOk(s) && PendingOk(c, s)
    ensures Justified(c, s', WriteOf(c, s, step))
  {
    assert Locks.NeedsTrigger(s.procs[step.pid]) && PipelineCounting.ProcOk(s.procs[step.pid]);
    Locks.SameTrigger(c, s.procs[step.pid], s'.procs[step.pid]);
  }

  /** It has not written that record before: a call that has is past that stage. */
  lemma NewWriteDiffers(c: Config, s: State, step: Step)
    requires Enabled(c, s, step) && Writing(step) && AllJustified(c, s) && WritesDiffer(s.writes)
    ensures WritesDiffer(s.writes + [WriteOf(c, s, step)])
  {
    var w := WriteOf(c, s, step);
    forall i | 0 <= i < |s.writes| && s.writes[i].primary == w.primary ensures s.writes[i].pid != w.pid {
      assert Justified(c, s, s.writes[i]);
    }
  }

  lemma JustifiedStep(c: Config, s: State, step: Step, s': State)
    requires AllJustified(c, s) && PendingOk(c, s) && Enabled(c, s, step)
    requires Changes(s, step, s') && RecordsAfter(c, s, step, s')
    requires Locks.TriggeredInv(c, s) && PipelineCounting.StagesOk(s)
    ensures AllJustified(c, s')
  {
    forall i | 0 <= i < |s'.writes| ensures Justified(c, s', s'.writes[i]) {
      if i < |s.writes| {
        assert s'.writes[i] == s.writes[i] && Justified(c, s, s.writes[i]);
        Settles(s, step, s', s.writes[i].pid);
        StaysJustified(c, s, step, s', s.writes[i]);
      } else {
        NewWriteJustified(c, s, step, s');
      }
    }
  }

  lemma WritesStep(c: Config, s: State, step: Step, s': State)
    requires WritesInv(c, s) && Locks.TriggeredInv(c, s) && PipelineCounting.StagesOk(s) && Follows(c, s, step, s')
    ensures WritesInv(c, s')
  {
    StepChanges(c, s, step);
    WriteShape(c, s, step);
    PendingStep(c, s, step, s');
    JustifiedStep(c, s, step, s');
    if Writing(step) {
      NewWriteDiffers(c, s, step);
    }
  }

  lemma {:induction false} WritesAlways(c: Config, states: seq<State>, steps: seq<Step>, i: nat)
    requires Run(c, states, steps) && i < |states|
    ensures WritesInv(c, states[i])
  {
    if i > 0 {
      WritesAlways(c, states, steps, i - 1);
      Locks.TriggeredAlways(c, states, steps, i - 1);
      PipelineCounting.InvariantsHold(c, states, steps, i - 1);
      WritesStep(c, states[i - 1], steps[i - 1], states[i]);
    }
  }

  /** No write without quorum: in every run each write was made by a call of a registered
      cluster with a valid address and a known provider, whose report count was exactly the
      target; a primary record gets the failover's target address, a replica record what
      the handler derives from Sentinel's answer. */
  lemma NoWriteWithoutQuorum(c: Config, states: seq<State>, steps: seq<Step>, i: nat, k: nat)
    requires Run(c, states, steps) && i < |states| && k < |states[i].writes|
    ensures Justified(c, states[i], states[i].writes[k])
    ensures Earned(c, states[i], states[i].writes[k])
  {
    WritesAlways(c, states, steps, i);
    assert Justified(c, states[i], states[i].writes[k]);
  }

  /** The same spelled out. */
  ghost predicate Earned(c: Config, s: State, w: Write) {
    && w.pid in s.procs && s.procs[w.pid].event.masterName in c.clusters
    && var e, count := s.procs[w.pid].event, s.procs[w.pid].count;
      var cluster := c.clusters[e.masterName];
      && count == (if cluster.quorumMode then cluster.quorumThreshold else 1)
      && count >= 1 && cluster.dnsProvider in c.providers
      && (e.eventType.Failover? || e.eventType.ReplicaDown? || e.eventType.ReplicaUp?)
      && c.validIP(if e.eventType.Failover? then e.toIP else e.fromIP)
      && (e.eventType.ReplicaDown? ==> cluster.multiReplica)
      && (w.primary ==>
            && e.eventType.Failover? && w.values == [e.toIP]
            && w.key == RecordKey(cluster.dnsProvider, c.fullName(cluster.primaryDNS), cluster.primaryDNS.recordType))
      && (!w.primary ==>
            && cluster.replicaDNS.Some?
            && var m := cluster.replicaDNS.value;
              w.key == RecordKey(cluster.dnsProvider, c.fullName(m), m.recordType))
  }

  /** So in every interleaving a failover from one address to another never writes its new
      master into the replica record, and no replica_down writes the address it is about. */
  lemma ReplicaWritesExclude(c: Config, states: seq<State>, steps: seq<Step>, i: nat, k: nat)
    requires Run(c, states, steps) && i < |states| && k < |states[i].writes| && !states[i].writes[k].primary
    ensures var s := states[i]; var w := s.writes[k];
      && w.pid in s.procs
      && var e := s.procs[w.pid].event;
        (&& (e.eventType.Failover? && e.fromIP != e.toIP ==> e.toIP !in w.values)
        && (e.eventType.ReplicaDown? ==> e.fromIP !in w.values))
  {
    WritesAlways(c, states, steps, i);
    var s := states[i];
    var w := s.writes[k];
    assert Justified(c, s, w);
    WrittenExcludes(c, s.procs[w.pid].event, w.values);
  }

  lemma WrittenExcludes(c: Config, e: FailoverEvent, values: seq<string>)
    requires FromSentinel(c, e, values)
    ensures e.eventType.Failover? && e.fromIP != e.toIP ==> e.toIP !in values
    ensures e.eventType.ReplicaDown? ==> e.fromIP !in values
  {
    var op, read :|
      && Derived(c, e, Some(op)) && values == ListAfter(read, op)
      && (op.Add? || op.Remove? ==> values != read);
    var detail :| Some(op) == ReplicaWrite(c, e, detail);
    var cluster := c.clusters[e.masterName];
    if e.eventType.Failover? {
      FailoverWriteExcludesNewMaster(c.validIP, cluster, e, detail);
    } else if e.eventType.ReplicaDown? {
      DownWriteExcludesLost(e, detail);
      WithoutIsFilter(read, e.fromIP);
    }
  }

  /** No write empties a record, in any interleaving. */
  lemma WritesHaveValues(c: Config, states: seq<State>, steps: seq<Step>, i: nat, k: nat)
    requires Run(c, states, steps) && i < |states| && k < |states[i].writes|
    ensures states[i].writes[k].values != []
  {
    WritesAlways(c, states, steps, i);
    var s := states[i];
    var w := s.writes[k];
    assert Justified(c, s, w);
    if !w.primary {
      WrittenNotEmpty(c, s.procs[w.pid].event, w.values);
    }
  }

  lemma WrittenNotEmpty(c: Config, e: FailoverEvent, values: seq<string>)
    requires FromSentinel(c, e, values)
    ensures values != []
  {
    var op, read :|
      && Derived(c, e, Some(op)) && values == ListAfter(read, op)
      && (op.Add? || op.Remove? ==> values != read);
    var detail :| Some(op) == ReplicaWrite(c, e, detail);
  }

  // ----- at most once -----

  /** Triggered calls of one window that ask for the same count are one call. */
  lemma SameCountSameCall(c: Config, s: State, p: nat, q: nat)
    requires PipelineCounting.CountingInv(s) && p in s.procs && q in s.procs
    requires Triggered(c, s.procs[p]) && Triggered(c, s.procs[q])
    requires TargetCount(c, s.procs[p].event) == TargetCount(c, s.procs[q].event)
    requires s.procs[p].gen == s.procs[q].gen && s.procs[p].count > 0 && s.procs[q].count > 0
    ensures p == q
  {
  }

  /** At most once: two writes of one kind from one window of a dedup key are by calls whose
      clusters have different targets, so they are for different masters, whatever clusters
      and nodes are called. For two failovers of masters without colons there is no such
      pair. */
  lemma OneWritePerWindow(c: Config, states: seq<State>, steps: seq<Step>, i: nat, j: nat, k: nat)
    requires Run(c, states, steps) && i < |states| && j < k < |states[i].writes|
    requires states[i].writes[j].primary == states[i].writes[k].primary
    ensures var s := states[i]; var a, b := s.writes[j].pid, s.writes[k].pid;
      && a in s.procs && b in s.procs && Triggered(c, s.procs[a]) && Triggered(c, s.procs[b])
      && (s.procs[a].gen == s.procs[b].gen ==>
            DifferentTargets(c, s.procs[a].event, s.procs[b].event, s.writes[j].primary))
  {
    var s := states[i];
    WritesAlways(c, states, steps, i);
    PipelineCounting.InvariantsHold(c, states, steps, i);
    var a, b := s.writes[j].pid, s.writes[k].pid;
    assert Justified(c, s, s.writes[j]) && Justified(c, s, s.writes[k]);
    if s.procs[a].gen == s.procs[b].gen {
      SameWindowSameKey(s, a, b);
      if TargetCount(c, s.procs[a].event) == TargetCount(c, s.procs[b].event) {
        SameCountSameCall(c, s, a, b);
        assert false;
      } else if s.writes[j].primary && Plain(s.procs[a].event) && Plain(s.procs[b].event) {
        EqualKeysSameMaster(s.procs[a].event, s.procs[b].event);
        assert false;
      }
    }
  }

  predicate Plain(e: FailoverEvent) { NoColon(e.groupName) && NoColon(e.masterName) }

  predicate DifferentTargets(c: Config, a: FailoverEvent, b: FailoverEvent, primary: bool)
    requires a.masterName in c.clusters && b.masterName in c.clusters
  {
    && RawKey(a) == RawKey(b) && a.masterName != b.masterName && TargetCount(c, a) != TargetCount(c, b)
    && TargetCount(c, a) >= 1 && TargetCount(c, b) >= 1
    && (primary ==> !Plain(a) || !Plain(b))
  }

  lemma SameWindowSameKey(s: State, p: nat, q: nat)
    requires PipelineCounting.CountingInv(s) && p in s.procs && q in s.procs
    requires s.procs[p].gen == s.procs[q].gen && s.procs[p].count > 0 && s.procs[q].count > 0
    ensures RawKey(s.procs[p].event) == RawKey(s.procs[q].event)
  {
    var a, b := s.procs[p], s.procs[q];
    assert PipelineCounting.Got(s, s.who[(a.gen, a.count)], a.gen, a.count);
    assert PipelineCounting.Got(s, s.who[(b.gen, b.count)], b.gen, b.count);
  }

  // ----- the record -----

  /** The values of the last write to a record. */
  function LastWrite(writes: seq<Write>, key: RecordKey): Option<seq<string>> {
    if writes == [] then None
    else if writes[|writes| - 1].key == key then Some(writes[|writes| - 1].values)
    else LastWrite(writes[..|writes| - 1], key)
  }

  /** Every record holds what was last written to it, or what it held at the start. */
  ghost predicate RecordInv(initial: map<RecordKey, seq<string>>, s: State) {
    forall key ::
      ValuesOf(s.records, key) ==
      if LastWrite(s.writes, key).Some? then LastWrite(s.writes, key).value else ValuesOf(initial, key)
  }

  lemma RecordStep(c: Config, initial: map<RecordKey, seq<string>>, s: State, step: Step)
    requires RecordInv(initial, s) && Enabled(c, s, step)
    ensures RecordInv(initial, Apply(c, s, step))
  {
    WriteShape(c, s, step);
    RecordAfterWrite(c, initial, s, step, Apply(c, s, step));
  }

  lemma RecordAfterWrite(c: Config, initial: map<RecordKey, seq<string>>, s: State, step: Step, s': State)
    requires RecordInv(initial, s) && Enabled(c, s, step) && RecordsAfter(c, s, step, s')
    ensures RecordInv(initial, s')
  {
    if Writing(step) {
      assert s'.writes[..|s'.writes| - 1] == s.writes;
    }
  }

  /** In every run every record holds what the last call that wrote it wrote. */
  lemma {:induction false} RecordIsLastWrite(c: Config, states: seq<State>, steps: seq<Step>, i: nat)
    requires Run(c, states, steps) && i < |states|
    ensures RecordInv(states[0].records, states[i])
  {
    if i > 0 {
      RecordIsLastWrite(c, states, steps, i - 1);
      RecordStep(c, states[0].records, states[i - 1], steps[i - 1]);
    }
  }

  predicate Untouched(writes: seq<Write>, key: RecordKey) { forall w <- writes :: w.key != key }

  lemma {:induction false} LastWriteIsWrite(writes: seq<Write>, key: RecordKey)
    ensures LastWrite(writes, key).None? <==> Untouched(writes, key)
    ensures LastWrite(writes, key).Some? ==>
              exists k :: 0 <= k < |writes| && writes[k].key == key && writes[k].values == LastWrite(writes, key).value
  {
    if writes != [] {
      var n := |writes| - 1;
      LastWriteIsWrite(writes[..n], key);
      assert writes == writes[..n] + [writes[n]];
    }
  }

  /** So no record ever loses its last value: a record is empty if and only if it was at the
      start and nobody has written it. */
  lemma RecordsKeepValue(c: Config, states: seq<State>, steps: seq<Step>, i: nat, key: RecordKey)
    requires Run(c, states, steps) && i < |states|
    ensures ValuesOf(states[i].records, key) == []
            <==> ValuesOf(states[0].records, key) == [] && Untouched(states[i].writes, key)
  {
    RecordIsLastWrite(c, states, steps, i);
    var last := LastWrite(states[i].writes, key);
    LastWriteIsWrite(states[i].writes, key);
    if last.Some? {
      var k :| 0 <= k < |states[i].writes| && states[i].writes[k].values == last.value;
      WritesHaveValues(c, states, steps, i, k);
    }
  }
}
