/** What each step after INCR does, field by field: it moves one call and touches one kind
    of table. The invariants of the pipeline machine are proved from this. */
module PipelineEffects {
  import opened Text
  import opened RecordSet
  import opened Pipeline

  /** The call before and after. */
  predicate MovesTo(step: Step, now: int, p: Proc, q: Proc) {
    match step
    case Expire(_, _) => q == p.(stage := Expired) && p.stage == Opened
    case Push(_, applied) => q == p.(stage := Pushed, untrimmed := applied || p.untrimmed) && p.stage == Expired
    case Trim(_, applied) => q == p.(stage := Counted, untrimmed := !applied && p.untrimmed) && p.stage == Pushed
    case Decide(_, _) => (q == p.(stage := Waiting) || q == p.(stage := Finished)) && p.stage == Counted
    case Acquire(_) => q == p.(stage := Holding, acquiredAt := now) && p.stage == Waiting
    case AcquireFails(_, _) => q == p.(stage := Finished) && p.stage == Waiting
    case UpdatePrimary(_) => q == p.(stage := Updated) && p.stage == Holding
    case UpdateFails(_, _) => q == p.(stage := Leaving) && p.stage == Holding
    case ChooseReplica(_, _) =>
      && (p.stage == Updated || p.stage == Holding)
      && (q == p.(stage := Leaving) || q == p.(stage := Chosen, pending := q.pending))
    case ChooseFails(_) => (p.stage == Updated || p.stage == Holding) && q == p.(stage := Leaving)
    case WriteReplica(_, _) => q == p.(stage := Leaving) && p.stage == Chosen
    case Release(_, _) => q == p.(stage := Finished) && p.stage == Leaving
    case Crash(_) => q == p.(crashed := true)
    case _ => false
  }

  /** The tables that a step may touch. */
  predicate Touches(step: Step, s: State, s': State) {
    if step.Expire? then s' == s.(procs := s'.procs, counters := s'.counters, generations := s'.generations)
    else if step.Push? || step.Trim? then
      && s' == s.(procs := s'.procs, history := s'.history, sinceTrim := s'.sinceTrim)
      && (!step.applied ==> s' == s.(procs := s'.procs))
    else if Locking(step) then s' == s.(procs := s'.procs, locks := s'.locks)
    else if Updating(step) || step.WriteReplica? then
      s' == s.(procs := s'.procs, records := s'.records, writes := s'.writes)
    else s' == s.(procs := s'.procs)
  }

  predicate Effect(s: State, step: Step, s': State) {
    && !Counting(step) && step.pid in s.procs && step.pid in s'.procs
    && s'.procs == s.procs[step.pid := s'.procs[step.pid]]
    && MovesTo(step, s.now, s.procs[step.pid], s'.procs[step.pid])
    && (s.procs[step.pid].crashed ==> step.Crash?)
    && Touches(step, s, s')
  }

  lemma RecordingEffect(c: Config, s: State, step: Step)
    requires Enabled(c, s, step) && Recording(step)
    ensures Effect(s, step, Apply(c, s, step))
  {
    match step case Expire(_, _) => case Push(_, _) => case Trim(_, _) =>
  }

  lemma EndingEffect(c: Config, s: State, step: Step)
    requires Enabled(c, s, step) && Ending(step)
    ensures Effect(s, step, Apply(c, s, step))
  {
    match step case Decide(_, _) => case Crash(_) =>
  }

  lemma LockingEffect(c: Config, s: State, step: Step)
    requires Enabled(c, s, step) && Locking(step)
    ensures Effect(s, step, Apply(c, s, step))
  {
    match step case Acquire(_) => case AcquireFails(_, _) => case Release(_, _) =>
  }

  lemma UpdatingEffect(c: Config, s: State, step: Step)
    requires Enabled(c, s, step) && Updating(step)
    ensures Effect(s, step, Apply(c, s, step))
  {
    match step case UpdatePrimary(_) => case UpdateFails(_, _) =>
  }

  lemma ChooseEffect(c: Config, s: State, pid: nat, write: Option<Op>)
    requires Enabled(c, s, ChooseReplica(pid, write))
    ensures Effect(s, ChooseReplica(pid, write), Apply(c, s, ChooseReplica(pid, write)))
  {
    assert Apply(c, s, ChooseReplica(pid, write)) == Choose(c, s, pid, write);
  }

  lemma WritingEffect(c: Config, s: State, step: Step)
    requires Enabled(c, s, step) && (step.ChooseFails? || step.WriteReplica?)
    ensures Effect(s, step, Apply(c, s, step))
  {
    match step case ChooseFails(_) => case WriteReplica(_, _) =>
  }

  lemma StepEffect(c: Config, s: State, step: Step)
    requires Enabled(c, s, step) && !Counting(step)
    ensures Effect(s, step, Apply(c, s, step))
  {
    if Recording(step) {
      RecordingEffect(c, s, step);
    } else if Ending(step) {
      EndingEffect(c, s, step);
    } else if Locking(step) {
      LockingEffect(c, s, step);
    } else if Updating(step) {
      UpdatingEffect(c, s, step);
    } else if step.ChooseReplica? {
      ChooseEffect(c, s, step.pid, step.write);
    } else {
      WritingEffect(c, s, step);
    }
  }

  /** Steps up to INCR: only a counted call changes, a new one arrives, or the clock moves. */
  predicate EarlyEffect(s: State, step: Step, s': State) {
    && s.procs.Keys <= s'.procs.Keys && s'.now >= s.now
    && s'.locks == s.locks && s'.records == s.records && s'.writes == s.writes
    && (forall pid <- s'.procs ::
          if pid in s.procs then
            s'.procs[pid] == s.procs[pid] || EarlyMove(s.procs[pid], s'.procs[pid])
          else step.Arrive? && pid == step.pid && s'.procs[pid].stage == Arrived && !s'.procs[pid].crashed)
  }

  predicate EarlyMove(p: Proc, q: Proc) {
    && p.stage == Arrived && !p.crashed && q == p.(stage := q.stage, gen := q.gen, count := q.count)
    && (q.stage == Opened || q.stage == Counted || q.stage == Finished)
  }

  lemma CountedEffect(c: Config, s: State, step: Step)
    requires Enabled(c, s, step) && (step.Incr? || step.IncrFails?)
    ensures EarlyEffect(s, step, Apply(c, s, step))
  {
    match step case Incr(_) => case IncrFails(_, _) =>
  }

  lemma CountingEffect(c: Config, s: State, step: Step)
    requires Enabled(c, s, step) && Counting(step)
    ensures EarlyEffect(s, step, Apply(c, s, step))
  {
    if step.Incr? || step.IncrFails? {
      CountedEffect(c, s, step);
    } else {
      match step case Tick(_) => case Evict(_) => case Arrive(_, _) =>
    }
  }

  /** Either kind of step. */
  predicate Changes(s: State, step: Step, s': State) {
    if Counting(step) then EarlyEffect(s, step, s') else Effect(s, step, s')
  }

  lemma StepChanges(c: Config, s: State, step: Step)
    requires Enabled(c, s, step)
    ensures Changes(s, step, Apply(c, s, step))
  {
    if Counting(step) {
      CountingEffect(c, s, step);
    } else {
      StepEffect(c, s, step);
    }
  }
}
