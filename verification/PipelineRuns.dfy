/** Building runs of the pipeline machine: a report brought as far as its lock, in one
    instant, and many reports of one key. */
module PipelineRuns {
  import opened Text
  import opened Cluster
  import opened Event
  import opened Pipeline
  import Locks = PipelineLocks

  /** An event whose first report triggers and reaches AcquireLock. */
  predicate FirstCome(c: Config, e: FailoverEvent) {
    e.masterName in c.clusters && Handled(c, e) && TargetCount(c, e) == 1
  }

  /** These are the events of registered clusters in first-come mode, or with a threshold of
      1, that have a valid address and a known provider: failovers, replica_down on clusters
      with several replicas, and replica_up. */
  lemma FirstComeExactly(c: Config, e: FailoverEvent)
    requires e.masterName in c.clusters
    ensures var cluster := c.clusters[e.masterName];
      FirstCome(c, e) <==>
        && (!cluster.quorumMode || cluster.quorumThreshold == 1) && cluster.dnsProvider in c.providers
        && match e.eventType
           case Failover => c.validIP(e.toIP)
           case ReplicaDown => c.validIP(e.fromIP) && cluster.replicaDNS.Some? && cluster.multiReplica
           case ReplicaUp => c.validIP(e.fromIP) && cluster.replicaDNS.Some?
           case _ => false
  {
  }

  /** A call waiting for its lock after its event's first report. */
  function Ready(e: FailoverEvent, gen: nat): Proc { Proc(e, Waiting, false, gen, 1, false, 0, []) }

  /** Everything but the event tables and the one call is as before. */
  ghost predicate OnlyReady(s: State, s': State, pid: nat, e: FailoverEvent) {
    && s'.now == s.now && s'.locks == s.locks && s'.records == s.records && s'.writes == s.writes
    && s'.procs == s.procs[pid := Ready(e, |s.generations|)]
    && s'.counters.Keys == s.counters.Keys + {RawKey(e)}
  }

  function Opened1(s: State, pid: nat, e: FailoverEvent): State {
    var gen := |s.generations|;
    s.(counters := s.counters[RawKey(e) := Counter(gen, 1, None)],
       generations := s.generations + [Generation(RawKey(e), 1, s.now, None, None)],
       who := s.who[(gen, 1) := pid],
       procs := s.procs[pid := Proc(e, Opened, false, gen, 1, false, 0, [])])
  }

  /** The first report of an event opens a generation. */
  lemma Opens(c: Config, states: seq<State>, steps: seq<Step>, pid: nat, e: FailoverEvent)
    returns (states': seq<State>, steps': seq<Step>)
    requires Run(c, states, steps) && pid !in Last(states).procs && RawKey(e) !in Last(states).counters
    ensures Run(c, states', steps') && Continues(states, steps, states', steps')
    ensures Last(states') == Opened1(Last(states), pid, e)
    ensures |states'| == |states| + 2 && QuietSince(states, states')
  {
    var s := Last(states);
    states', steps' := Extend(c, states, steps, Arrive(pid, e));
    var s1 := Last(states');
    assert s1 == s.(procs := s.procs[pid := Proc(e, Arrived, false, 0, 0, false, 0, [])]);
    states', steps' := Extend(c, states', steps', Incr(pid));
    var first := Proc(e, Opened, false, |s.generations|, 1, false, 0, []);
    assert s1.procs[pid := first] == s.procs[pid := first];
  }

  lemma TickEffect(c: Config, s: State, delta: nat)
    ensures Enabled(c, s, Tick(delta)) && Apply(c, s, Tick(delta)) == s.(now := s.now + delta)
  {
  }

  /** The longer run starts with the shorter one. */
  ghost predicate Continues(states: seq<State>, steps: seq<Step>, states': seq<State>, steps': seq<Step>) {
    states <= states' && steps <= steps'
  }

  /** Since then nobody entered or left a lock and no time passed. */
  ghost predicate QuietSince(states: seq<State>, states': seq<State>)
    requires states != []
  {
    && |states| <= |states'|
    && forall k | |states| <= k < |states'| ::
         states'[k].now == Last(states).now && SameSections(Last(states), states'[k])
  }

  ghost predicate SameSections(s: State, s': State) {
    forall pid | pid in s'.procs && Locks.Active(s'.procs[pid]) :: pid in s.procs && s'.procs[pid] == s.procs[pid]
  }

  /** A step that only moves one call, to p, outside of any lock. */
  ghost predicate Local(s: State, s': State, pid: nat, p: Proc) {
    && s'.now == s.now && s'.locks == s.locks && s'.records == s.records && s'.writes == s.writes
    && s'.counters.Keys == s.counters.Keys && s'.procs == s.procs[pid := p] && !Locks.Active(p)
  }

  lemma ExpireLocal(c: Config, s: State, pid: nat)
    requires At(s, pid, Opened)
    ensures Local(s, Apply(c, s, Expire(pid, true)), pid, s.procs[pid].(stage := Expired))
  {
  }

  lemma PushLocal(c: Config, s: State, pid: nat)
    requires At(s, pid, Expired)
    ensures Local(s, Apply(c, s, Push(pid, true)), pid, s.procs[pid].(stage := Pushed, untrimmed := true))
  {
  }

  lemma TrimLocal(c: Config, s: State, pid: nat)
    requires At(s, pid, Pushed)
    ensures Local(s, Apply(c, s, Trim(pid, true)), pid, s.procs[pid].(stage := Counted, untrimmed := false))
  {
  }

  lemma DecideLocal(c: Config, s: State, pid: nat)
    requires At(s, pid, Counted) && Triggered(c, s.procs[pid])
    ensures Local(s, Apply(c, s, Decide(pid, true)), pid, s.procs[pid].(stage := Waiting))
  {
  }

  lemma LocalTwice(s: State, t: State, u: State, pid: nat, p: Proc, q: Proc)
    requires Local(s, t, pid, p) && Local(t, u, pid, q)
    ensures Local(s, u, pid, q)
  {
    assert s.procs[pid := p][pid := q] == s.procs[pid := q];
  }

  lemma LocalQuiet(s: State, s': State, pid: nat, p: Proc)
    requires Local(s, s', pid, p)
    ensures SameSections(s, s')
  {
  }

  /** A continuation in which only one call moves, to p, outside of any lock. */
  ghost predicate LocalRun(c: Config, states: seq<State>, steps: seq<Step>,
                           states': seq<State>, steps': seq<Step>, pid: nat, p: Proc)
  {
    && states != [] && states' != [] && Run(c, states', steps') && Continues(states, steps, states', steps')
    && Local(Last(states), Last(states'), pid, p) && QuietSince(states, states')
  }

  lemma LocalExtend(c: Config, states: seq<State>, steps: seq<Step>, states1: seq<State>, steps1: seq<Step>,
                    step: Step, pid: nat, p: Proc, q: Proc)
    returns (states': seq<State>, steps': seq<Step>)
    requires LocalRun(c, states, steps, states1, steps1, pid, p)
    requires Enabled(c, Last(states1), step) && !step.ChooseReplica?
    requires Local(Last(states1), Apply(c, Last(states1), step), pid, q)
    ensures LocalRun(c, states, steps, states', steps', pid, q) && Last(states').procs[pid] == q
  {
    states', steps' := Extend(c, states1, steps1, step);
    LocalTwice(Last(states), Last(states1), Last(states'), pid, p, q);
    LocalQuiet(Last(states), Last(states'), pid, q);
    forall k | |states| <= k < |states'|
      ensures states'[k].now == Last(states).now && SameSections(Last(states), states'[k])
    {
      assert k < |states1| ==> states'[k] == states1[k];
    }
  }

  lemma ExpiresFirst(c: Config, states: seq<State>, steps: seq<Step>, pid: nat)
    returns (states': seq<State>, steps': seq<Step>)
    requires Run(c, states, steps) && At(Last(states), pid, Opened)
    ensures LocalRun(c, states, steps, states', steps', pid, Last(states).procs[pid].(stage := Expired))
  {
    var s := Last(states);
    ExpireLocal(c, s, pid);
    states', steps' := Extend(c, states, steps, Expire(pid, true));
    LocalQuiet(s, Last(states'), pid, Last(states').procs[pid]);
  }

  /** The opener's three commands after INCR. */
  lemma RecordsEvent(c: Config, states: seq<State>, steps: seq<Step>, pid: nat)
    returns (states': seq<State>, steps': seq<Step>)
    requires Run(c, states, steps) && At(Last(states), pid, Opened)
    requires var p := Last(states).procs[pid]; p == Proc(p.event, Opened, false, p.gen, 1, false, 0, [])
    ensures LocalRun(c, states, steps, states', steps', pid, Last(states).procs[pid].(stage := Counted))
  {
    var p := Last(states).procs[pid];
    states', steps' := ExpiresFirst(c, states, steps, pid);
    PushLocal(c, Last(states'), pid);
    states', steps' := LocalExtend(c, states, steps, states', steps', Push(pid, true), pid,
                                   p.(stage := Expired), p.(stage := Pushed, untrimmed := true));
    TrimLocal(c, Last(states'), pid);
    states', steps' := LocalExtend(c, states, steps, states', steps', Trim(pid, true), pid,
                                   p.(stage := Pushed, untrimmed := true), p.(stage := Counted));
  }

  lemma RecordsAndDecides(c: Config, states: seq<State>, steps: seq<Step>, pid: nat)
    returns (states': seq<State>, steps': seq<Step>)
    requires Run(c, states, steps) && At(Last(states), pid, Opened)
    requires var p := Last(states).procs[pid];
      && FirstCome(c, p.event) && p == Proc(p.event, Opened, false, p.gen, 1, false, 0, [])
    ensures var p := Last(states).procs[pid]; LocalRun(c, states, steps, states', steps', pid, Ready(p.event, p.gen))
  {
    var p := Last(states).procs[pid];
    states', steps' := RecordsEvent(c, states, steps, pid);
    DecideLocal(c, Last(states'), pid);
    states', steps' := LocalExtend(c, states, steps, states', steps', Decide(pid, true), pid,
                                   p.(stage := Counted), Ready(p.event, p.gen));
  }

  /** The first report of an event, all the way to its lock. */
  lemma GetsReady(c: Config, states: seq<State>, steps: seq<Step>, pid: nat, e: FailoverEvent)
    returns (states': seq<State>, steps': seq<Step>)
    requires Run(c, states, steps) && FirstCome(c, e)
    requires pid !in Last(states).procs && RawKey(e) !in Last(states).counters
    ensures Run(c, states', steps') && Continues(states, steps, states', steps')
    ensures OnlyReady(Last(states), Last(states'), pid, e) && QuietSince(states, states')
  {
    var s := Last(states);
    var states1, steps1 := Opens(c, states, steps, pid, e);
    states', steps' := RecordsAndDecides(c, states1, steps1, pid);
    OpenedThenReady(s, Last(states1), Last(states'), pid, e);
    QuietTwice(states, states1, states');
  }

  lemma OpenedThenReady(s: State, t: State, u: State, pid: nat, e: FailoverEvent)
    requires t == Opened1(s, pid, e) && Local(t, u, pid, Ready(e, |s.generations|))
    ensures OnlyReady(s, u, pid, e)
  {
    assert u.procs == s.procs[pid := Ready(e, |s.generations|)];
  }

  lemma QuietTwice(states: seq<State>, states1: seq<State>, states2: seq<State>)
    requires states != [] && states <= states1 <= states2
    requires QuietSince(states, states1) && QuietSince(states1, states2) && |states| < |states1|
    ensures QuietSince(states, states2)
  {
    forall k | |states| <= k < |states2|
      ensures states2[k].now == Last(states).now && SameSections(Last(states), states2[k])
    {
      if k < |states1| {
        assert states2[k] == states1[k];
      } else {
        assert SameSections(Last(states1), states2[k]) && SameSections(Last(states), Last(states1));
      }
    }
  }

  // ----- nobody under a lock -----

  predicate NoneActive(s: State) { forall pid <- s.procs :: !Locks.Active(s.procs[pid]) }

  ghost predicate Peaceful(states: seq<State>) { forall k | 0 <= k < |states| :: NoneActive(states[k]) }

  lemma StillPeaceful(states: seq<State>, states': seq<State>)
    requires states != [] && Peaceful(states) && states <= states' && QuietSince(states, states')
    ensures Peaceful(states')
  {
    forall k | 0 <= k < |states'| ensures NoneActive(states'[k]) {
      if k < |states| {
        assert states'[k] == states[k];
      } else {
        assert NoneActive(Last(states)) && SameSections(Last(states), states'[k]);
      }
    }
  }

  // ----- many reports of one key -----

  predicate OneKey(events: seq<FailoverEvent>) {
    events != [] && forall e <- events :: RawKey(e) == RawKey(events[0])
  }

  function CountedCall(e: FailoverEvent, n: nat): Proc {
    Proc(e, if n == 1 then Opened else Counted, false, 0, n, false, 0, [])
  }

  /** Every event was reported once, in order, and nothing else happened after INCR. */
  ghost predicate AllCounted(s: State, events: seq<FailoverEvent>) {
    var n := |events|;
    && OneKey(events)
    && s.now == 0 && s.locks == map[] && s.records == map[] && s.writes == []
    && |s.generations| == 1 && s.generations[0].key == RawKey(events[0])
    && s.counters == map[RawKey(events[0]) := Counter(0, n, None)]
    && (forall k | 1 <= k <= n :: (0, k) in s.who && s.who[(0, k)] == k)
    && (forall pid :: pid in s.procs <==> 1 <= pid <= n)
    && (forall pid | 1 <= pid <= n :: s.procs[pid] == CountedCall(events[pid - 1], pid))
  }

  lemma FirstCounted(c: Config, e: FailoverEvent) returns (states: seq<State>, steps: seq<Step>)
    ensures Run(c, states, steps) && states[0] == Start(0, map[]) && AllCounted(Last(states), [e]) && Peaceful(states)
  {
    states, steps := [Start(0, map[])], [];
    var states1, steps1 := Opens(c, states, steps, 1, e);
    StillPeaceful(states, states1);
    states, steps := states1, steps1;
  }

  /** One more call has arrived. */
  ghost predicate OneArrived(s: State, t: State, e: FailoverEvent, n: nat) {
    t == s.(procs := s.procs[n + 1 := Proc(e, Arrived, false, 0, 0, false, 0, [])])
  }

  lemma ArrivesNext(c: Config, s: State, events: seq<FailoverEvent>, e: FailoverEvent)
    requires AllCounted(s, events)
    ensures Enabled(c, s, Arrive(|events| + 1, e)) && OneArrived(s, Apply(c, s, Arrive(|events| + 1, e)), e, |events|)
  {
  }

  lemma CountedNext(c: Config, s: State, t: State, events: seq<FailoverEvent>, e: FailoverEvent)
    requires AllCounted(s, events) && RawKey(e) == RawKey(events[0]) && OneArrived(s, t, e, |events|)
    ensures Enabled(c, t, Incr(|events| + 1)) && AllCounted(Apply(c, t, Incr(|events| + 1)), events + [e])
  {
  }

  lemma NoneActiveCounted(s: State, events: seq<FailoverEvent>)
    requires AllCounted(s, events)
    ensures NoneActive(s)
  {
  }

  lemma NoneActiveArrived(s: State, t: State, events: seq<FailoverEvent>, e: FailoverEvent)
    requires AllCounted(s, events) && OneArrived(s, t, e, |events|)
    ensures NoneActive(t)
  {
  }

  lemma ExtendPeaceful(c: Config, states: seq<State>, steps: seq<Step>, step: Step)
    returns (states': seq<State>, steps': seq<Step>)
    requires Run(c, states, steps) && Peaceful(states) && Enabled(c, Last(states), step) && !step.ChooseReplica?
    requires NoneActive(Apply(c, Last(states), step))
    ensures Run(c, states', steps') && Peaceful(states') && states <= states'
    ensures Last(states') == Apply(c, Last(states), step)
  {
    states', steps' := Extend(c, states, steps, step);
  }

  lemma OneMoreCounted(c: Config, states: seq<State>, steps: seq<Step>, events: seq<FailoverEvent>, e: FailoverEvent)
    returns (states': seq<State>, steps': seq<Step>)
    requires Run(c, states, steps) && Peaceful(states)
    requires AllCounted(Last(states), events) && RawKey(e) == RawKey(events[0])
    ensures Run(c, states', steps') && states'[0] == states[0] && AllCounted(Last(states'), events + [e])
    ensures Peaceful(states')
  {
    var s, n := Last(states), |events|;
    ArrivesNext(c, s, events, e);
    NoneActiveArrived(s, Apply(c, s, Arrive(n + 1, e)), events, e);
    states', steps' := ExtendPeaceful(c, states, steps, Arrive(n + 1, e));
    var t := Last(states');
    CountedNext(c, s, t, events, e);
    NoneActiveCounted(Apply(c, t, Incr(n + 1)), events + [e]);
    states', steps' := ExtendPeaceful(c, states', steps', Incr(n + 1));
  }

  /** Any events of one key, reported one after another. */
  lemma {:induction false} CountsAll(c: Config, events: seq<FailoverEvent>)
    returns (states: seq<State>, steps: seq<Step>)
    requires OneKey(events)
    ensures Run(c, states, steps) && states[0] == Start(0, map[]) && Peaceful(states)
    ensures AllCounted(Last(states), events)
  {
    var n := |events| - 1;
    if n == 0 {
      states, steps := FirstCounted(c, events[0]);
      assert events == [events[0]];
    } else {
      states, steps := CountsAll(c, events[..n]);
      states, steps := OneMoreCounted(c, states, steps, events[..n], events[n]);
      assert events[..n] + [events[n]] == events;
    }
  }
}
