/** The expiring lock without owner tokens, as FailoverManager uses it
    (internal/core/failover_manager.go; AcquireLock and ReleaseLock in
    internal/store/valkey.go and internal/store/memory.go). Exclusion needs a timing
    assumption: every holder is done strictly before its lock's time is up. */
module PipelineLocks {
  import opened Text
  import opened Cluster
  import opened Event
  import opened LockKeys
  import opened Pipeline
  import opened PipelineEffects

  /** Still running, between AcquireLock and ReleaseLock. */
  predicate Active(p: Proc) { !p.crashed && InSection(p) }

  predicate OnTime(now: int, p: Proc) { Active(p) ==> now < p.acquiredAt + LOCK_TTL }

  /** The timing assumption, in one state. */
  ghost predicate Timely(s: State) { forall pid | pid in s.procs :: OnTime(s.now, s.procs[pid]) }

  predicate NeedsTrigger(p: Proc) { p.stage.Waiting? || InSection(p) }

  ghost predicate TriggeredInv(c: Config, s: State) {
    forall pid | pid in s.procs && NeedsTrigger(s.procs[pid]) :: Triggered(c, s.procs[pid])
  }

  predicate Owns(c: Config, s: State, pid: nat)
    requires pid in s.procs && s.procs[pid].event.masterName in c.clusters
  {
    var key := LockKey(c, s.procs[pid].event);
    key in s.locks && s.locks[key] == Lock(s.procs[pid].acquiredAt + LOCK_TTL, pid)
  }

  /** The lock entry of everyone under a lock is its own. */
  ghost predicate OwnershipInv(c: Config, s: State)
    requires TriggeredInv(c, s)
  {
    forall pid | pid in s.procs && Active(s.procs[pid]) :: Owns(c, s, pid)
  }

  ghost predicate ExpiryInv(s: State) { forall key | key in s.locks :: s.locks[key].expires <= s.now + LOCK_TTL }

  // ----- one step -----

  predicate Over(p: Proc) { p.crashed || p.stage.Finished? }

  predicate Decides(step: Step, pid: nat) { step.Decide? && step.pid == pid }

  /** How one call changes in one step, as far as the lock is concerned. */
  predicate Progress(step: Step, pid: nat, p: Proc, q: Proc) {
    && q.event == p.event
    && (Over(p) ==> Over(q))
    && (Active(p) ==> Active(q) || Over(q))
    && (Active(q) && step != Acquire(pid) ==>
          Active(p) && q.acquiredAt == p.acquiredAt && !(step.Release? && step.pid == pid))
    && (NeedsTrigger(q) ==> q.count == p.count && (NeedsTrigger(p) || Decides(step, pid)))
  }

  lemma MoveProgress(step: Step, now: int, p: Proc, q: Proc)
    requires !Counting(step) && MovesTo(step, now, p, q) && (p.crashed ==> step.Crash?)
    ensures Progress(step, step.pid, p, q)
  {
  }

  lemma EarlyProgress(step: Step, pid: nat, p: Proc, q: Proc)
    requires q == p || EarlyMove(p, q)
    requires Counting(step) || step.pid != pid
    ensures Progress(step, pid, p, q)
  {
  }

  lemma Progresses(s: State, step: Step, s': State, pid: nat)
    requires Changes(s, step, s') && pid in s.procs
    ensures pid in s'.procs && Progress(step, pid, s.procs[pid], s'.procs[pid])
  {
    if !Counting(step) && pid == step.pid {
      MoveProgress(step, s.now, s.procs[pid], s'.procs[pid]);
    } else {
      EarlyProgress(step, pid, s.procs[pid], s'.procs[pid]);
    }
  }

  lemma NewCallsArrive(s: State, step: Step, s': State, pid: nat)
    requires Changes(s, step, s') && pid !in s.procs && pid in s'.procs
    ensures s'.procs[pid].stage == Arrived
  {
  }

  lemma TriggeredStep(c: Config, s: State, step: Step, s': State)
    requires TriggeredInv(c, s) && Enabled(c, s, step) && s' == Apply(c, s, step)
    ensures TriggeredInv(c, s')
  {
    StepChanges(c, s, step);
    if step.Decide? {
      DecidedTriggered(c, s, step.pid, step.known);
    }
    forall pid | pid in s'.procs && NeedsTrigger(s'.procs[pid]) ensures Triggered(c, s'.procs[pid]) {
      StaysTriggered(c, s, step, s', pid);
    }
  }

  lemma StaysTriggered(c: Config, s: State, step: Step, s': State, pid: nat)
    requires TriggeredInv(c, s) && Changes(s, step, s') && pid in s'.procs && NeedsTrigger(s'.procs[pid])
    requires Decides(step, pid) ==> Triggered(c, s'.procs[pid])
    ensures Triggered(c, s'.procs[pid])
  {
    if pid !in s.procs {
      NewCallsArrive(s, step, s', pid);
      assert false;
    } else if !Decides(step, pid) {
      Progresses(s, step, s', pid);
      SameTrigger(c, s.procs[pid], s'.procs[pid]);
    }
  }

  lemma SameTrigger(c: Config, p: Proc, q: Proc)
    requires q.event == p.event && q.count == p.count
    ensures Triggered(c, q) <==> Triggered(c, p)
  {
  }

  lemma DecidedTriggered(c: Config, s: State, pid: nat, known: bool)
    requires Enabled(c, s, Decide(pid, known))
    ensures var q := Apply(c, s, Decide(pid, known)).procs[pid]; NeedsTrigger(q) ==> Triggered(c, q)
  {
    var q := Apply(c, s, Decide(pid, known)).procs[pid];
    SameTrigger(c, s.procs[pid], q);
  }

  /** What a step does to the lock table. */
  ghost predicate LocksAfter(c: Config, s: State, step: Step, s': State)
    requires Enabled(c, s, step)
  {
    match step
    case Acquire(pid) =>
      && s'.locks == s.locks[LockKey(c, s.procs[pid].event) := Lock(s.now + LOCK_TTL, pid)]
      && pid in s'.procs && s'.procs[pid].acquiredAt == s.now && s'.procs[pid].event == s.procs[pid].event
    case AcquireFails(pid, applied) =>
      s'.locks == if applied then s.locks[LockKey(c, s.procs[pid].event) := Lock(s.now + LOCK_TTL, pid)] else s.locks
    case Release(pid, applied) =>
      s'.locks == if applied then s.locks - {LockKey(c, s.procs[pid].event)} else s.locks
    case _ => s'.locks == s.locks
  }

  lemma LocksShape(c: Config, s: State, step: Step)
    requires Enabled(c, s, step)
    ensures LocksAfter(c, s, step, Apply(c, s, step)) && Apply(c, s, step).now >= s.now
  {
    if Locking(step) {
      match step case Acquire(_) => case AcquireFails(_, _) => case Release(_, _) =>
    } else {
      StepChanges(c, s, step);
      LocksKept(c, s, step, Apply(c, s, step));
    }
  }

  lemma LocksKept(c: Config, s: State, step: Step, s': State)
    requires Enabled(c, s, step) && Changes(s, step, s') && !Locking(step)
    ensures LocksAfter(c, s, step, s') && s'.now >= s.now
  {
  }

  lemma OwnershipStep(c: Config, s: State, step: Step, s': State, pid: nat)
    requires TriggeredInv(c, s) && OwnershipInv(c, s) && Timely(s) && Enabled(c, s, step) && LocksAfter(c, s, step, s')
    requires pid in s.procs && pid in s'.procs && Progress(step, pid, s.procs[pid], s'.procs[pid])
    requires Active(s'.procs[pid]) && Triggered(c, s'.procs[pid])
    ensures Owns(c, s', pid)
  {
    if step != Acquire(pid) {
      assert Owns(c, s, pid) && OnTime(s.now, s.procs[pid]);
      if step.Release? {
        assert Triggered(c, s.procs[step.pid]) && Owns(c, s, step.pid);
      }
    }
  }

  lemma ExpiryStep(c: Config, s: State, step: Step)
    requires ExpiryInv(s) && Enabled(c, s, step)
    ensures ExpiryInv(Apply(c, s, step))
  {
    LocksShape(c, s, step);
  }

  // ----- every run -----

  lemma {:induction false} TriggeredAlways(c: Config, states: seq<State>, steps: seq<Step>, i: nat)
    requires Run(c, states, steps) && i < |states|
    ensures TriggeredInv(c, states[i]) && ExpiryInv(states[i])
  {
    if i > 0 {
      TriggeredAlways(c, states, steps, i - 1);
      TriggeredStep(c, states[i - 1], steps[i - 1], states[i]);
      ExpiryStep(c, states[i - 1], steps[i - 1]);
    }
  }

  ghost predicate TimelyBefore(states: seq<State>, i: nat)
    requires i <= |states|
  {
    forall k | 0 <= k < i :: Timely(states[k])
  }

  lemma {:induction false} OwnershipAlways(c: Config, states: seq<State>, steps: seq<Step>, i: nat)
    requires Run(c, states, steps) && i < |states| && TimelyBefore(states, i)
    ensures TriggeredInv(c, states[i]) && OwnershipInv(c, states[i])
  {
    TriggeredAlways(c, states, steps, i);
    if i > 0 {
      OwnershipAlways(c, states, steps, i - 1);
      StepChanges(c, states[i - 1], steps[i - 1]);
      LocksShape(c, states[i - 1], steps[i - 1]);
      OwnershipNext(c, states[i - 1], steps[i - 1], states[i]);
    }
  }

  lemma OwnershipNext(c: Config, s: State, step: Step, s': State)
    requires TriggeredInv(c, s) && OwnershipInv(c, s) && Timely(s) && TriggeredInv(c, s')
    requires Enabled(c, s, step) && Changes(s, step, s') && LocksAfter(c, s, step, s')
    ensures OwnershipInv(c, s')
  {
    forall pid | pid in s'.procs && Active(s'.procs[pid]) ensures Owns(c, s', pid) {
      assert NeedsTrigger(s'.procs[pid]) && Triggered(c, s'.procs[pid]);
      if pid in s.procs {
        Progresses(s, step, s', pid);
        OwnershipStep(c, s, step, s', pid);
      } else {
        NewCallsArrive(s, step, s', pid);
        assert false;
      }
    }
  }

  /** As long as every holder so far was on time, at most one call is under each lock. */
  lemma MutualExclusion(c: Config, states: seq<State>, steps: seq<Step>, i: nat, p: nat, q: nat)
    requires Run(c, states, steps) && i < |states| && TimelyBefore(states, i)
    requires p in states[i].procs && q in states[i].procs
    requires Active(states[i].procs[p]) && Active(states[i].procs[q])
    ensures Triggered(c, states[i].procs[p]) && Triggered(c, states[i].procs[q])
    ensures LockKey(c, states[i].procs[p].event) == LockKey(c, states[i].procs[q].event) ==> p == q
  {
    OwnershipAlways(c, states, steps, i);
    assert NeedsTrigger(states[i].procs[p]) && NeedsTrigger(states[i].procs[q]);
    assert Owns(c, states[i], p) && Owns(c, states[i], q);
  }

  /** Under the same assumption a release takes away the caller's own entry, never
      somebody else's, and no other. */
  lemma ReleaseRemovesOwn(c: Config, states: seq<State>, steps: seq<Step>, i: nat)
    requires Run(c, states, steps) && i < |steps| && TimelyBefore(states, i) && steps[i].Release?
    ensures var pid := steps[i].pid;
      && pid in states[i].procs && Triggered(c, states[i].procs[pid])
      && var key := LockKey(c, states[i].procs[pid].event);
        (&& key in states[i].locks && states[i].locks[key].owner == pid
        && states[i + 1].locks == if steps[i].applied then states[i].locks - {key} else states[i].locks)
  {
    OwnershipAlways(c, states, steps, i);
    assert Owns(c, states[i], steps[i].pid);
    LocksShape(c, states[i], steps[i]);
  }

  /** A lock is never lost for good: whoever holds it, alive or not, it can be taken at any
      time from thirty seconds on. */
  lemma AcquirableAfterTTL(c: Config, states: seq<State>, steps: seq<Step>, i: nat, pid: nat, delta: nat)
    requires Run(c, states, steps) && i < |states| && At(states[i], pid, Waiting) && delta >= 30_000
    ensures Enabled(c, states[i], Tick(delta))
    ensures Enabled(c, Apply(c, states[i], Tick(delta)), Acquire(pid))
  {
    TriggeredAlways(c, states, steps, i);
    assert NeedsTrigger(states[i].procs[pid]);
  }

  predicate FreeWithGrace(c: Config, s: State, key: string) {
    key in s.locks ==> s.locks[key].expires + c.grace <= s.now
  }

  /** A server whose keys answer for the grace past their deadline is one of those covered:
      its yes is Acquire, and its no is AcquireFails, which leaves the locks alone. */
  lemma GraceIsCovered(c: Config, s: State, pid: nat)
    requires At(s, pid, Waiting) && Triggered(c, s.procs[pid])
    ensures FreeWithGrace(c, s, LockKey(c, s.procs[pid].event)) ==> Enabled(c, s, Acquire(pid))
    ensures Enabled(c, s, AcquireFails(pid, false)) && Apply(c, s, AcquireFails(pid, false)).locks == s.locks
  {
  }

  /** The assumption cannot be weakened: in any run that was timely so far, a waiting call
      can enter a lock that another call is under if and only if that one has overstayed,
      and then both are under it. */
  lemma EntersExactlyWhenOverstayed(c: Config, states: seq<State>, steps: seq<Step>, i: nat, p: nat, q: nat)
    requires Run(c, states, steps) && i < |states| && TimelyBefore(states, i)
    requires p in states[i].procs && Active(states[i].procs[p]) && At(states[i], q, Waiting)
    ensures p != q && Triggered(c, states[i].procs[p]) && Triggered(c, states[i].procs[q])
    ensures LockKey(c, states[i].procs[p].event) == LockKey(c, states[i].procs[q].event) ==>
      && (Enabled(c, states[i], Acquire(q)) <==> !OnTime(states[i].now, states[i].procs[p]))
      && (Enabled(c, states[i], Acquire(q)) <==> states[i].now >= states[i].procs[p].acquiredAt + 30_000)
      && (Enabled(c, states[i], Acquire(q)) ==> Together(c, Apply(c, states[i], Acquire(q)), p, q))
  {
    var s := states[i];
    OwnershipAlways(c, states, steps, i);
    assert NeedsTrigger(s.procs[p]) && NeedsTrigger(s.procs[q]) && Owns(c, s, p);
    if Enabled(c, s, Acquire(q)) {
      AcquireEffect(c, s, q);
    }
  }

  /** Two calls under one lock. */
  predicate Together(c: Config, s: State, p: nat, q: nat) {
    && p != q && p in s.procs && q in s.procs && Active(s.procs[p]) && Active(s.procs[q])
    && Triggered(c, s.procs[p]) && Triggered(c, s.procs[q])
    && LockKey(c, s.procs[p].event) == LockKey(c, s.procs[q].event)
  }

  lemma AcquireEffect(c: Config, s: State, q: nat)
    requires Enabled(c, s, Acquire(q))
    ensures var s' := Apply(c, s, Acquire(q));
      && s'.procs == s.procs[q := s.procs[q].(stage := Holding, acquiredAt := s.now)]
      && s'.locks == s.locks[LockKey(c, s.procs[q].event) := Lock(s.now + LOCK_TTL, q)]
      && s'.records == s.records && s'.writes == s.writes && s'.now == s.now && s'.counters == s.counters
  {
  }
}
