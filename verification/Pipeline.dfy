/** Any number of managers handling any number of events over one Valkey server.
    Every call of HandleEvent is a process; one step is one server command or one DNS
    call, so all interleavings, lost replies and crashes are runs of this machine.
    internal/core/failover_manager.go, internal/core/event_processor.go and the event
    and lock commands of internal/store/valkey.go. Time is in integer milliseconds. */
module Pipeline {
  import opened Text
  import opened Cluster
  import opened Event
  import opened RecordSet
  import opened LockKeys
  import opened Replicas
  import Quorum

  const HISTORY_MAX: nat := 500

  /** What stays fixed within a run: registered clusters by master name, the addresses
      that parse, the configured providers, the full name a provider gives to a mapping,
      the dedup window, and how long past its deadline a counter may still answer. */
  datatype Config = Config(
    clusters: map<string, Cluster>,
    validIP: string -> bool,
    providers: set<string>,
    fullName: DNSMapping -> string,
    window: int,
    grace: nat)

  /** One DNS record. Two clusters, or the two mappings of one, may name the same. */
  datatype RecordKey = RecordKey(provider: string, name: string, recordType: string)

  /** Where a call of HandleEvent is. Opened, Expired and Pushed are inside RecordEvent,
      after INCR answered 1; Holding to Leaving are under the lock. In Chosen the replica
      values are worked out from what was read, but not yet written. */
  datatype Stage =
    | Arrived | Opened | Expired | Pushed | Counted
    | Waiting | Holding | Updated | Chosen | Leaving | Finished

  /** The generation and count are what INCR answered; count 0 means it has not. */
  datatype Proc = Proc(
    event: FailoverEvent,
    stage: Stage,
    crashed: bool,
    gen: nat,
    count: nat,
    untrimmed: bool,
    acquiredAt: int,
    pending: seq<string>)

  datatype Counter = Counter(gen: nat, value: nat, deadline: Option<int>)

  /** One life of a dedup key, from the INCR that creates it to its removal: how many
      counts it issued and when the last, when EXPIRE took effect on it, when it ended. */
  datatype Generation = Generation(key: string, issued: nat, lastAt: int, expireAt: Option<int>, endedAt: Option<int>)

  /** The server stores no owner; the field records which call set the key. */
  datatype Lock = Lock(expires: int, owner: nat)

  datatype Write = Write(pid: nat, primary: bool, key: RecordKey, values: seq<string>)

  datatype State = State(
    now: int,
    counters: map<string, Counter>,
    history: seq<FailoverEvent>,
    locks: map<string, Lock>,
    records: map<RecordKey, seq<string>>,
    procs: map<nat, Proc>,
    // what happened so far
    generations: seq<Generation>,
    who: map<(nat, nat), nat>,
    sinceTrim: nat,
    writes: seq<Write>)

  function Start(now: int, records: map<RecordKey, seq<string>>): State {
    State(now, map[], [], map[], records, map[], [], map[], 0, [])
  }

  // ----- decisions taken from the configuration -----

  predicate HasProvider(c: Config, cluster: Cluster) { cluster.dnsProvider in c.providers }

  /** Which triggered events reach AcquireLock. */
  predicate Handled(c: Config, e: FailoverEvent)
    requires e.masterName in c.clusters
  {
    var cluster := c.clusters[e.masterName];
    if e.eventType.Failover? then c.validIP(e.toIP) && HasProvider(c, cluster)
    else if e.eventType.ReplicaDown? then
      c.validIP(e.fromIP) && cluster.replicaDNS.Some? && cluster.multiReplica && HasProvider(c, cluster)
    else if e.eventType.ReplicaUp? then
      c.validIP(e.fromIP) && cluster.replicaDNS.Some? && HasProvider(c, cluster)
    else false
  }

  function TargetCount(c: Config, e: FailoverEvent): int
    requires e.masterName in c.clusters
  {
    var cluster := c.clusters[e.masterName];
    Quorum.Target(cluster.quorumMode, cluster.quorumThreshold)
  }

  predicate Triggered(c: Config, p: Proc) {
    p.event.masterName in c.clusters && p.count == TargetCount(c, p.event) && Handled(c, p.event)
  }

  /** The text of the lock key, so locks whose texts are equal are one lock. */
  function LockKey(c: Config, e: FailoverEvent): string
    requires e.masterName in c.clusters
  {
    LockText(LockFor(c.clusters[e.masterName], e))
  }

  predicate InSection(p: Proc) {
    p.stage.Holding? || p.stage.Updated? || p.stage.Chosen? || p.stage.Leaving?
  }

  /** From its deadline on a lock may be gone, as a counter may with Evict; a server that
      still answers for it is AcquireFails without effect, which is always possible. */
  predicate LockFree(s: State, key: string) { key in s.locks ==> s.locks[key].expires <= s.now }

  function RecordOf(c: Config, cluster: Cluster, m: DNSMapping): RecordKey {
    RecordKey(cluster.dnsProvider, c.fullName(m), m.recordType)
  }

  function PrimaryRecord(c: Config, master: string): RecordKey
    requires master in c.clusters
  {
    RecordOf(c, c.clusters[master], c.clusters[master].primaryDNS)
  }

  predicate HasReplicaRecord(c: Config, master: string) {
    master in c.clusters && c.clusters[master].replicaDNS.Some?
  }

  function ReplicaRecord(c: Config, master: string): RecordKey
    requires HasReplicaRecord(c, master)
  {
    RecordOf(c, c.clusters[master], c.clusters[master].replicaDNS.value)
  }

  function ValuesOf(records: map<RecordKey, seq<string>>, key: RecordKey): seq<string> {
    if key in records then records[key] else []
  }

  /** The change that the handler of an event derives from Sentinel's answer. */
  function ReplicaWrite(c: Config, e: FailoverEvent, detail: Option<MasterDetail>): Option<Op>
    requires e.masterName in c.clusters
  {
    var cluster := c.clusters[e.masterName];
    if e.eventType.Failover? then FailoverWrite(c.validIP, cluster, e, detail)
    else if e.eventType.ReplicaDown? then DownWrite(e, detail)
    else UpWrite(cluster, e, detail)
  }

  // ----- steps -----

  /** A step that carries "applied" may fail on the way back: the server or provider did
      or did not carry it out, and the caller cannot tell. */
  datatype Step =
    | Tick(delta: nat)
    | Evict(key: string)
    | Arrive(pid: nat, event: FailoverEvent)
    | Incr(pid: nat)
    | IncrFails(pid: nat, applied: bool)
    | Expire(pid: nat, applied: bool)
    | Push(pid: nat, applied: bool)
    | Trim(pid: nat, applied: bool)
    | Decide(pid: nat, known: bool)
    | Acquire(pid: nat)
    | AcquireFails(pid: nat, applied: bool)
    | UpdatePrimary(pid: nat)
    | UpdateFails(pid: nat, applied: bool)
    | ChooseReplica(pid: nat, write: Option<Op>)
    | ChooseFails(pid: nat)
    | WriteReplica(pid: nat, applied: bool)
    | Release(pid: nat, applied: bool)
    | Crash(pid: nat)

  predicate At(s: State, pid: nat, stage: Stage) {
    pid in s.procs && !s.procs[pid].crashed && s.procs[pid].stage == stage
  }

  /** INCR finds the key missing, or its counter still answering. */
  predicate CanCount(c: Config, s: State, key: string) {
    key in s.counters && s.counters[key].deadline.Some? ==> s.now < s.counters[key].deadline.value + c.grace
  }

  /** Ready for the replica step: after the primary record, or at once. */
  predicate AtReplicaStep(s: State, pid: nat) {
    At(s, pid, Updated) || (At(s, pid, Holding) && !s.procs[pid].event.eventType.Failover?)
  }

  predicate Enabled(c: Config, s: State, step: Step) {
    match step
    case Tick(_) => true
    case Evict(key) =>
      key in s.counters && s.counters[key].deadline.Some? && s.counters[key].deadline.value <= s.now
    case Arrive(pid, _) => pid !in s.procs
    case Incr(pid) => At(s, pid, Arrived) && CanCount(c, s, RawKey(s.procs[pid].event))
    case IncrFails(pid, applied) =>
      At(s, pid, Arrived) && (applied ==> CanCount(c, s, RawKey(s.procs[pid].event)))
    case Expire(pid, _) => At(s, pid, Opened)
    case Push(pid, _) => At(s, pid, Expired)
    case Trim(pid, _) => At(s, pid, Pushed)
    case Decide(pid, known) => At(s, pid, Counted) && (known ==> s.procs[pid].event.masterName in c.clusters)
    case Acquire(pid) =>
      At(s, pid, Waiting) && Triggered(c, s.procs[pid]) && LockFree(s, LockKey(c, s.procs[pid].event))
    case AcquireFails(pid, applied) =>
      && At(s, pid, Waiting) && Triggered(c, s.procs[pid])
      && (applied ==> LockFree(s, LockKey(c, s.procs[pid].event)))
    case UpdatePrimary(pid) => At(s, pid, Holding) && IsKnownFailover(c, s.procs[pid].event)
    case UpdateFails(pid, _) => At(s, pid, Holding) && IsKnownFailover(c, s.procs[pid].event)
    case ChooseReplica(pid, _) => AtReplicaStep(s, pid)
    case ChooseFails(pid) => AtReplicaStep(s, pid)
    case WriteReplica(pid, _) => At(s, pid, Chosen) && HasReplicaRecord(c, s.procs[pid].event.masterName)
    case Release(pid, _) => At(s, pid, Leaving) && Triggered(c, s.procs[pid])
    case Crash(pid) => pid in s.procs
  }

  predicate IsKnownFailover(c: Config, e: FailoverEvent) { e.eventType.Failover? && e.masterName in c.clusters }

  /** The change chosen is one the event's handler derives from some answer of Sentinel. */
  ghost predicate Derived(c: Config, e: FailoverEvent, write: Option<Op>) {
    e.masterName in c.clusters && exists detail :: write == ReplicaWrite(c, e, detail)
  }

  function Put(s: State, pid: nat, p: Proc): State { s.(procs := s.procs[pid := p]) }

  function Move(s: State, pid: nat, stage: Stage): State
    requires pid in s.procs
  {
    Put(s, pid, s.procs[pid].(stage := stage))
  }

  /** INCR, with the bookkeeping of who got which count. */
  function Count(s: State, pid: nat, stage: Stage): State
    requires pid in s.procs
  {
    var p := s.procs[pid];
    var key := RawKey(p.event);
    var isNew := !(key in s.counters && s.counters[key].gen < |s.generations|);
    var gen := if isNew then |s.generations| else s.counters[key].gen;
    var n := if isNew then 1 else s.counters[key].value + 1;
    s.(counters := s.counters[key := Counter(gen, n, if isNew then None else s.counters[key].deadline)],
       generations := if isNew then s.generations + [Generation(key, 1, s.now, None, None)]
                      else s.generations[gen := s.generations[gen].(issued := n, lastAt := s.now)],
       who := s.who[(gen, n) := pid],
       procs := s.procs[pid := p.(stage := if stage == Opened && n > 1 then Counted else stage,
                                  gen := gen, count := n)])
  }

  function WriteRecord(s: State, w: Write): State {
    s.(records := s.records[w.key := w.values], writes := s.writes + [w])
  }

  function PrimaryWrite(c: Config, s: State, pid: nat): Write
    requires pid in s.procs && s.procs[pid].event.masterName in c.clusters
  {
    var e := s.procs[pid].event;
    Write(pid, true, PrimaryRecord(c, e.masterName), [e.toIP])
  }

  /** Reading the record and working out its new values; adding a value that is there and
      removing one that is not, or the last one, come to nothing. */
  function Choose(c: Config, s: State, pid: nat, write: Option<Op>): (s': State)
    requires pid in s.procs
    ensures pid in s'.procs && s' == s.(procs := s.procs[pid := s'.procs[pid]])
    ensures var p, p' := s.procs[pid], s'.procs[pid];
      p' == p.(stage := p'.stage, pending := p'.pending) && (p'.stage == Chosen || p'.stage == Leaving)
  {
    var p := s.procs[pid];
    if write.None? || !HasReplicaRecord(c, p.event.masterName) then Move(s, pid, Leaving)
    else
      var read := ValuesOf(s.records, ReplicaRecord(c, p.event.masterName));
      var values := ListAfter(read, write.value);
      if (write.value.Add? || write.value.Remove?) && values == read then Move(s, pid, Leaving)
      else Put(s, pid, p.(stage := Chosen, pending := values))
  }

  function SetLock(c: Config, s: State, pid: nat): State
    requires pid in s.procs && s.procs[pid].event.masterName in c.clusters
  {
    s.(locks := s.locks[LockKey(c, s.procs[pid].event) := Lock(s.now + LOCK_TTL, pid)])
  }

  // ----- kinds of steps: up to INCR, up to the decision, and under the lock -----

  predicate Counting(step: Step) { step.Tick? || step.Evict? || step.Arrive? || step.Incr? || step.IncrFails? }

  predicate Deciding(step: Step) { Recording(step) || Ending(step) }

  predicate Recording(step: Step) { step.Expire? || step.Push? || step.Trim? }

  predicate Ending(step: Step) { step.Decide? || step.Crash? }

  predicate Locking(step: Step) { Taking(step) || step.Release? }

  predicate Taking(step: Step) { step.Acquire? || step.AcquireFails? }

  predicate Updating(step: Step) { step.UpdatePrimary? || step.UpdateFails? }

  predicate Replicating(step: Step) { step.ChooseReplica? || step.ChooseFails? || step.WriteReplica? }

  /** INCR and what comes before it. */
  function AfterCounting(c: Config, s: State, step: Step): State
    requires Enabled(c, s, step) && Counting(step)
  {
    match step
    case Tick(delta) => s.(now := s.now + delta)
    case Evict(key) =>
      var g := s.counters[key].gen;
      s.(counters := s.counters - {key},
         generations := if g < |s.generations| then s.generations[g := s.generations[g].(endedAt := Some(s.now))]
                        else s.generations)
    case Arrive(pid, event) => Put(s, pid, Proc(event, Arrived, false, 0, 0, false, 0, []))
    case Incr(pid) => Count(s, pid, Opened)
    case IncrFails(pid, applied) => if applied then Count(s, pid, Finished) else Move(s, pid, Finished)
  }

  /** The rest of RecordEvent and the decision; a crash can come at any time. */
  function AfterDeciding(c: Config, s: State, step: Step): State
    requires Enabled(c, s, step) && Deciding(step)
  {
    match step
    case Expire(pid, applied) =>
      var p := s.procs[pid];
      var key := RawKey(p.event);
      var s' := Put(s, pid, p.(stage := Expired));
      if applied && key in s.counters && s.counters[key].gen < |s.generations| then
        var gen := s.counters[key].gen;
        s'.(counters := s.counters[key := s.counters[key].(deadline := Some(s.now + c.window))],
            generations := s.generations[gen := s.generations[gen].(expireAt := Some(s.now))])
      else s'
    case Push(pid, applied) =>
      var p := s.procs[pid];
      if applied then
        Put(s, pid, p.(stage := Pushed, untrimmed := true))
          .(history := [p.event] + s.history, sinceTrim := s.sinceTrim + 1)
      else Move(s, pid, Pushed)
    case Trim(pid, applied) =>
      var p := s.procs[pid];
      if applied then
        Put(s, pid, p.(stage := Counted, untrimmed := false))
          .(history := if |s.history| > HISTORY_MAX then s.history[..HISTORY_MAX] else s.history, sinceTrim := 0)
      else Move(s, pid, Counted)
    case Decide(pid, known) =>
      Move(s, pid, if known && Triggered(c, s.procs[pid]) then Waiting else Finished)
    case Crash(pid) => Put(s, pid, s.procs[pid].(crashed := true))
  }

  /** Taking and giving back the lock. */
  function AfterLocking(c: Config, s: State, step: Step): State
    requires Enabled(c, s, step) && Locking(step)
  {
    match step
    case Acquire(pid) =>
      Put(SetLock(c, s, pid), pid, s.procs[pid].(stage := Holding, acquiredAt := s.now))
    case AcquireFails(pid, applied) =>
      Move(if applied then SetLock(c, s, pid) else s, pid, Finished)
    case Release(pid, applied) =>
      var s' := Move(s, pid, Finished);
      if applied then s'.(locks := s.locks - {LockKey(c, s.procs[pid].event)}) else s'
  }

  /** The records. */
  function AfterUpdating(c: Config, s: State, step: Step): State
    requires Enabled(c, s, step) && (Updating(step) || Replicating(step))
  {
    match step
    case UpdatePrimary(pid) => Move(WriteRecord(s, PrimaryWrite(c, s, pid)), pid, Updated)
    case UpdateFails(pid, applied) =>
      Move(if applied then WriteRecord(s, PrimaryWrite(c, s, pid)) else s, pid, Leaving)
    case ChooseReplica(pid, write) => Choose(c, s, pid, write)
    case ChooseFails(pid) => Move(s, pid, Leaving)
    case WriteReplica(pid, applied) =>
      var p := s.procs[pid];
      var w := Write(pid, false, ReplicaRecord(c, p.event.masterName), p.pending);
      Move(if applied then WriteRecord(s, w) else s, pid, Leaving)
  }

  function Apply(c: Config, s: State, step: Step): State
    requires Enabled(c, s, step)
  {
    if Counting(step) then AfterCounting(c, s, step)
    else if Deciding(step) then AfterDeciding(c, s, step)
    else if Locking(step) then AfterLocking(c, s, step)
    else AfterUpdating(c, s, step)
  }

  /** Replica changes come from Sentinel's answers. */
  ghost predicate Sensible(c: Config, s: State, step: Step) {
    step.ChooseReplica? && step.pid in s.procs ==> Derived(c, s.procs[step.pid].event, step.write)
  }

  ghost predicate Follows(c: Config, s: State, step: Step, s': State) {
    Enabled(c, s, step) && Sensible(c, s, step) && s' == Apply(c, s, step)
  }

  ghost predicate Run(c: Config, states: seq<State>, steps: seq<Step>) {
    && |states| == |steps| + 1
    && states[0] == Start(states[0].now, states[0].records)
    && forall i {:trigger steps[i]} :: 0 <= i < |steps| ==> Follows(c, states[i], steps[i], states[i + 1])
  }

  // ----- longer runs -----

  /** The last state of a run. */
  function Last(states: seq<State>): State
    requires states != []
  {
    states[|states| - 1]
  }

  /** One more step. */
  lemma Extend(c: Config, states: seq<State>, steps: seq<Step>, step: Step)
    returns (states': seq<State>, steps': seq<Step>)
    requires Run(c, states, steps) && Enabled(c, Last(states), step) && Sensible(c, Last(states), step)
    ensures states' == states + [Apply(c, Last(states), step)] && steps' == steps + [step]
    ensures Run(c, states', steps')
  {
    states', steps' := states + [Apply(c, Last(states), step)], steps + [step];
    forall i | 0 <= i < |steps'| ensures Follows(c, states'[i], steps'[i], states'[i + 1]) {
      assert i < |steps| ==> steps'[i] == steps[i] && states'[i] == states[i] && states'[i + 1] == states[i + 1];
    }
  }
}
