/** Dedup keys that never expire (internal/store/valkey.go, RecordEvent): exactly when, how
    a run gets there, and what it means for later reports. */
module PipelineStuck {
  import opened Text
  import opened Event
  import opened Pipeline
  import opened PipelineCounting
  import opened PipelineRuns

  // ----- exactly when a generation can still end -----

  /** Some continuation of the run ends the generation. */
  ghost predicate CanEnd(c: Config, states: seq<State>, steps: seq<Step>, g: nat) {
    exists states', steps' :: Ends(c, states, steps, states', steps', g)
  }

  ghost predicate Ends(c: Config, states: seq<State>, steps: seq<Step>, states': seq<State>, steps': seq<Step>, g: nat)
  {
    && Run(c, states', steps') && Continues(states, steps, states', steps')
    && g < |Last(states').generations| && Last(states').generations[g].endedAt.Some?
  }

  /** The deadline that EXPIRE gave to the counter of a live generation. */
  lemma LiveDeadline(c: Config, s: State, g: nat)
    requires CountingInv(s) && ExpiryInv(c, s) && g < |s.generations|
    requires s.generations[g].endedAt.None? && s.generations[g].expireAt.Some?
    ensures var key := s.generations[g].key;
      && key in s.counters && s.counters[key].gen == g
      && s.counters[key].deadline == Some(s.generations[g].expireAt.value + c.window)
  {
  }

  lemma EvictEnds(c: Config, s: State, key: string, g: nat)
    requires key in s.counters && s.counters[key].gen == g < |s.generations|
    requires s.counters[key].deadline.Some? && s.counters[key].deadline.value <= s.now
    ensures Enabled(c, s, Evict(key))
    ensures var s' := Apply(c, s, Evict(key)); |s'.generations| == |s.generations| && s'.generations[g].endedAt.Some?
  {
  }

  /** After EXPIRE took effect the generation ends with its deadline. */
  lemma ExpiredCanEnd(c: Config, states: seq<State>, steps: seq<Step>, g: nat)
    returns (states': seq<State>, steps': seq<Step>)
    requires Run(c, states, steps) && g < |Last(states).generations|
    requires Last(states).generations[g].endedAt.None? && Last(states).generations[g].expireAt.Some?
    ensures Ends(c, states, steps, states', steps', g)
  {
    InvariantsHold(c, states, steps, |states| - 1);
    var key, delta := EndsLater(c, Last(states), g);
    TickEffect(c, Last(states), delta);
    var states1, steps1 := Extend(c, states, steps, Tick(delta));
    states', steps' := Extend(c, states1, steps1, Evict(key));
  }

  lemma EndsLater(c: Config, s: State, g: nat) returns (key: string, delta: nat)
    requires CountingInv(s) && ExpiryInv(c, s) && g < |s.generations|
    requires s.generations[g].endedAt.None? && s.generations[g].expireAt.Some?
    ensures var s1 := s.(now := s.now + delta);
      && Enabled(c, s1, Evict(key))
      && var s2 := Apply(c, s1, Evict(key)); |s2.generations| == |s.generations| && s2.generations[g].endedAt.Some?
  {
    LiveDeadline(c, s, g);
    var deadline := s.generations[g].expireAt.value + c.window;
    key, delta := s.generations[g].key, if deadline > s.now then deadline - s.now else 0;
    EvictEnds(c, s.(now := s.now + delta), key, g);
  }

  /** An opener that is still running can send EXPIRE. */
  lemma OpenerCanExpire(c: Config, states: seq<State>, steps: seq<Step>, g: nat, pid: nat)
    returns (states': seq<State>, steps': seq<Step>)
    requires Run(c, states, steps) && g < |Last(states).generations| && Last(states).generations[g].endedAt.None?
    requires At(Last(states), pid, Opened) && Last(states).procs[pid].gen == g
    ensures Run(c, states', steps') && Continues(states, steps, states', steps')
    ensures g < |Last(states').generations|
    ensures Last(states').generations[g].endedAt.None? && Last(states').generations[g].expireAt.Some?
  {
    InvariantsHold(c, states, steps, |states| - 1);
    OpenedIsLive(c, Last(states), pid);
    ExpireEffect(c, Last(states), pid, true);
    states', steps' := Extend(c, states, steps, Expire(pid, true));
  }

  /** A live generation of any run can still end if and only if it is not stuck: EXPIRE
      took effect on it, or its opener is still there to send it. */
  lemma EndsUnlessStuck(c: Config, states: seq<State>, steps: seq<Step>, g: nat)
    requires Run(c, states, steps) && g < |Last(states).generations| && Last(states).generations[g].endedAt.None?
    ensures CanEnd(c, states, steps, g) <==> !Stuck(Last(states), g)
  {
    var s := Last(states);
    if Stuck(s, g) {
      forall states', steps' ensures !Ends(c, states, steps, states', steps', g) {
        if Ends(c, states, steps, states', steps', g) {
          assert states'[|states| - 1] == s;
          StuckForever(c, states', steps', |states| - 1, |states'| - 1, g);
          assert false;
        }
      }
    } else if s.generations[g].expireAt.Some? {
      var states', steps' := ExpiredCanEnd(c, states, steps, g);
    } else {
      var pid :| At(s, pid, Opened) && s.procs[pid].gen == g;
      var states1, steps1 := OpenerCanExpire(c, states, steps, g, pid);
      var states', steps' := ExpiredCanEnd(c, states1, steps1, g);
      assert Ends(c, states, steps, states', steps', g);
    }
  }

  // ----- a run that gets there -----

  /** The opener crashes between INCR and EXPIRE. */
  lemma OpenerCrashRun(c: Config, e: FailoverEvent)
    returns (states: seq<State>, steps: seq<Step>)
    ensures Run(c, states, steps) && states[0] == Start(0, map[]) && |Last(states).generations| == 1
    ensures Last(states).generations[0].key == RawKey(e) && Stuck(Last(states), 0)
  {
    states, steps := [Start(0, map[])], [];
    states, steps := Opens(c, states, steps, 1, e);
    states, steps := Extend(c, states, steps, Crash(1));
  }

  // ----- what it means for later reports -----

  /** The generation goes on issuing counts above those it had issued. */
  ghost predicate CountsOn(s: State, t: State, g: nat) {
    && g < |s.generations| && g < |t.generations|
    && t.generations[g].key == s.generations[g].key && t.generations[g].issued >= s.generations[g].issued
    && forall pid | Later(s, t, g, pid) ::
         t.procs[pid].gen == g && t.procs[pid].count > s.generations[g].issued
  }

  /** A call for the generation's key that was counted after the state s. */
  ghost predicate Later(s: State, t: State, g: nat, pid: nat)
    requires g < |s.generations|
  {
    && pid in t.procs && t.procs[pid].count > 0 && RawKey(t.procs[pid].event) == s.generations[g].key
    && (pid in s.procs ==> s.procs[pid].count == 0)
  }

  lemma CountsOnQuiet(s: State, t: State, step: Step, u: State, g: nat)
    requires CountsOn(s, t, g) && Shape(t, step, u)
    ensures CountsOn(s, u, g)
  {
    forall pid | Later(s, u, g, pid) ensures u.procs[pid].gen == g && u.procs[pid].count > s.generations[g].issued {
      assert Later(s, t, g, pid);
    }
  }

  lemma CountsOnCount(s: State, t: State, pid: nat, stage: Stage, g: nat)
    requires CountsOn(s, t, g) && CountingInv(t) && pid in t.procs && t.generations[g].endedAt.None?
    ensures CountsOn(s, Count(t, pid, stage), g)
  {
    CountShape(t, pid, stage);
    CountLeaves(t, pid, stage);
    var u := Count(t, pid, stage);
    forall q | Later(s, u, g, q) ensures u.procs[q].gen == g && u.procs[q].count > s.generations[g].issued {
      if q != pid {
        assert Later(s, t, g, q);
      }
    }
  }

  lemma CountsOnStep(c: Config, s: State, t: State, step: Step, g: nat)
    requires CountsOn(s, t, g) && CountingInv(t) && t.generations[g].endedAt.None? && Enabled(c, t, step)
    ensures CountsOn(s, Apply(c, t, step), g)
  {
    if !ChangesCounts(step) {
      StepShape(c, t, step);
      CountsOnQuiet(s, t, step, Apply(c, t, step), g);
    } else if step.Incr? {
      CountsOnCount(s, t, step.pid, Opened, g);
    } else if step.IncrFails? {
      CountsOnCount(s, t, step.pid, Finished, g);
    } else {
      forall pid | Later(s, Apply(c, t, step), g, pid) ensures Later(s, t, g, pid) {
      }
    }
  }

  lemma CountsOnSelf(s: State, g: nat)
    requires g < |s.generations|
    ensures CountsOn(s, s, g)
  {
  }

  lemma CountsOnNext(c: Config, states: seq<State>, steps: seq<Step>, s: State, j: nat, g: nat)
    requires Run(c, states, steps) && j < |steps| && CountsOn(s, states[j], g)
    requires states[j].generations[g].endedAt.None?
    ensures CountsOn(s, states[j + 1], g)
  {
    InvariantsHold(c, states, steps, j);
    CountsOnStep(c, s, states[j], steps[j], g);
  }

  lemma {:induction false} CountsOnForever(c: Config, states: seq<State>, steps: seq<Step>, i: nat, j: nat, g: nat)
    requires Run(c, states, steps) && i <= j < |states| && Stuck(states[i], g)
    ensures CountsOn(states[i], states[j], g)
  {
    if i == j {
      CountsOnSelf(states[i], g);
    } else {
      CountsOnForever(c, states, steps, i, j - 1, g);
      StuckForever(c, states, steps, i, j - 1, g);
      CountsOnNext(c, states, steps, states[i], j - 1, g);
    }
  }

  /** Once a stuck key has counted up to the target of a cluster, no later report of that
      key triggers any more, however long one waits. */
  lemma StuckNeverTriggersAgain(c: Config, states: seq<State>, steps: seq<Step>, i: nat, j: nat, g: nat, pid: nat)
    requires Run(c, states, steps) && i <= j < |states| && Stuck(states[i], g)
    requires Later(states[i], states[j], g, pid)
    requires var e := states[j].procs[pid].event;
      e.masterName in c.clusters && TargetCount(c, e) <= states[i].generations[g].issued
    ensures !Triggered(c, states[j].procs[pid])
  {
    CountsOnForever(c, states, steps, i, j, g);
  }
}
