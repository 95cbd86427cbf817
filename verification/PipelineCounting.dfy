/** Counting under interleaving: every life of a dedup key hands out 1, 2, 3, ... once
    each, cannot end before its opener's EXPIRE plus the window, and the history stays
    bounded (internal/store/valkey.go, RecordEvent). */
module PipelineCounting {
  import opened Text
  import opened Event
  import opened Pipeline
  import opened PipelineEffects

  // ----- invariants -----

  predicate Describes(g: Generation, key: string, issued: nat) {
    g.key == key && g.issued == issued && g.endedAt == None
  }

  /** A counter belongs to the last generation of its key and shows what it issued. */
  ghost predicate CountersOk(s: State) {
    forall key | key in s.counters ::
      && s.counters[key].gen < |s.generations|
      && s.counters[key].value >= 1
      && Describes(s.generations[s.counters[key].gen], key, s.counters[key].value)
  }

  ghost predicate GenerationsOk(s: State) {
    forall g | 0 <= g < |s.generations| ::
      && s.generations[g].issued >= 1
      && (s.generations[g].endedAt.None? ==>
            s.generations[g].key in s.counters && s.counters[s.generations[g].key].gen == g)
  }

  ghost predicate Got(s: State, pid: nat, g: nat, n: nat) {
    && pid in s.procs && g < |s.generations|
    && s.procs[pid].gen == g && s.procs[pid].count == n
    && RawKey(s.procs[pid].event) == s.generations[g].key
  }

  /** Every count of every generation went to exactly one call, the one recorded. */
  ghost predicate WhoOk(s: State) {
    && (forall g: nat, n: nat :: (g, n) in s.who <==> g < |s.generations| && 1 <= n <= s.generations[g].issued)
    && (forall g: nat, n: nat | (g, n) in s.who :: Got(s, s.who[(g, n)], g, n))
    && (forall pid | pid in s.procs && s.procs[pid].count > 0 ::
          (s.procs[pid].gen, s.procs[pid].count) in s.who && s.who[(s.procs[pid].gen, s.procs[pid].count)] == pid)
  }

  /** How far a call is and what it was told fit together. */
  predicate ProcOk(p: Proc) {
    match p.stage
    case Arrived => p.count == 0
    case Opened => p.count == 1
    case Expired => p.count == 1
    case Pushed => p.count == 1
    case Finished => true
    case _ => p.count >= 1
  }

  ghost predicate StagesOk(s: State) { forall pid | pid in s.procs :: ProcOk(s.procs[pid]) }

  ghost predicate CountingInv(s: State) {
    CountersOk(s) && GenerationsOk(s) && WhoOk(s) && StagesOk(s)
  }

  function Deadline(expireAt: Option<int>, window: int): Option<int> {
    match expireAt
    case None => None
    case Some(t) => Some(t + window)
  }

  /** A generation ends no earlier than its EXPIRE plus the window. */
  predicate LastsLongEnough(g: Generation, window: int) {
    g.endedAt.Some? ==> g.expireAt.Some? && g.endedAt.value >= g.expireAt.value + window
  }

  /** The counter of a generation carries the deadline its EXPIRE gave it, and while the
      opener has not sent EXPIRE there is none. */
  ghost predicate ExpiryInv(c: Config, s: State) {
    && (forall g | 0 <= g < |s.generations| :: LastsLongEnough(s.generations[g], c.window))
    && (forall key | key in s.counters && s.counters[key].gen < |s.generations| ::
          s.counters[key].deadline == Deadline(s.generations[s.counters[key].gen].expireAt, c.window))
    && (forall pid | pid in s.procs && s.procs[pid].stage == Opened && s.procs[pid].gen < |s.generations| ::
          s.generations[s.procs[pid].gen].expireAt == None)
  }

  /** Once EXPIRE took effect, counts are issued only up to the window and the grace. */
  predicate InTime(c: Config, g: Generation) {
    g.expireAt.Some? ==> g.lastAt <= g.expireAt.value || g.lastAt < g.expireAt.value + c.window + c.grace
  }

  ghost predicate IssueInv(c: Config, s: State) {
    forall g | 0 <= g < |s.generations| :: s.generations[g].lastAt <= s.now && InTime(c, s.generations[g])
  }

  function Untrimmed(s: State): set<nat> { set pid | pid in s.procs && s.procs[pid].untrimmed }

  ghost predicate HistoryInv(s: State) {
    && |s.history| <= HISTORY_MAX + |Untrimmed(s)|
    && |s.history| <= HISTORY_MAX + s.sinceTrim
    && forall pid | pid in s.procs && Early(s.procs[pid].stage) :: !s.procs[pid].untrimmed
  }

  // ----- preservation -----

  ghost predicate SameGenerations(s: State, s': State) {
    && |s'.generations| == |s.generations|
    && forall g | 0 <= g < |s.generations| ::
         s'.generations[g] == s.generations[g].(expireAt := s'.generations[g].expireAt)
  }

  /** A step that only moves calls along keeps the counting invariants. */
  ghost predicate CountingUnchanged(s: State, s': State) {
    && s'.who == s.who && s'.counters.Keys == s.counters.Keys && SameGenerations(s, s')
    && (forall key | key in s.counters ::
          s'.counters[key].gen == s.counters[key].gen && s'.counters[key].value == s.counters[key].value)
    && s.procs.Keys <= s'.procs.Keys
    && (forall pid | pid in s.procs ::
          && s'.procs[pid].event == s.procs[pid].event
          && s'.procs[pid].gen == s.procs[pid].gen && s'.procs[pid].count == s.procs[pid].count)
    && (forall pid | pid in s'.procs && pid !in s.procs :: s'.procs[pid].count == 0)
  }

  lemma UnchangedKeeps(s: State, s': State)
    requires CountersOk(s) && GenerationsOk(s) && WhoOk(s) && CountingUnchanged(s, s')
    ensures CountersOk(s') && GenerationsOk(s') && WhoOk(s')
  {
    forall g: nat, n: nat | (g, n) in s'.who ensures Got(s', s'.who[(g, n)], g, n) {
      assert Got(s, s.who[(g, n)], g, n);
    }
  }

  predicate ChangesCounts(step: Step) { step.Incr? || (step.IncrFails? && step.applied) || step.Evict? }

  /** Whether a step changes the history. */
  predicate Stores(step: Step) { (step.Push? || step.Trim?) && step.applied }

  /** What a step other than INCR and an eviction does: it moves at most one call; only
      Expire touches a counter, and only Push and Trim touch the history. */
  ghost predicate Shape(s: State, step: Step, s': State) {
    && SameGenerations(s, s') && s'.who == s.who
    && (!step.Expire? ==> s'.counters == s.counters && s'.generations == s.generations)
    && (s'.counters == s.counters ||
        exists key, d :: key in s.counters && s'.counters == s.counters[key := s.counters[key].(deadline := d)])
    && (s'.procs == s.procs || exists pid, p :: MovesOnly(s, step, s', pid, p))
    && (!Stores(step) ==> s'.history == s.history && s'.sinceTrim == s.sinceTrim)
    && s'.now >= s.now
  }

  ghost predicate MovesOnly(s: State, step: Step, s': State, pid: nat, p: Proc) {
    && s'.procs == s.procs[pid := p]
    && (pid in s.procs ==> MovesOn(step, s.procs[pid], p))
    && (pid !in s.procs ==> p.count == 0 && p.stage == Arrived && !p.untrimmed)
  }

  /** One call before and after such a step. */
  predicate MovesOn(step: Step, q: Proc, p: Proc) {
    && p.event == q.event && p.gen == q.gen && p.count == q.count
    && (q.crashed ==> p.crashed)
    && (ProcOk(q) ==> ProcOk(p))
    && (p.stage == Opened ==> q.stage == Opened)
    && (Early(p.stage) ==> Early(q.stage))
    && (!Stores(step) ==> p.untrimmed == q.untrimmed)
  }

  predicate Early(stage: Stage) { stage == Arrived || stage == Opened || stage == Expired }

  /** Any step but Expire: the tables of the counters are as before. */
  lemma QuietShape(s: State, step: Step, s': State, pid: nat)
    requires !step.Expire? && pid in s'.procs && MovesOnly(s, step, s', pid, s'.procs[pid])
    requires s'.counters == s.counters && s'.generations == s.generations && s'.who == s.who
    requires !Stores(step) ==> s'.history == s.history && s'.sinceTrim == s.sinceTrim
    requires s'.now >= s.now
    ensures Shape(s, step, s')
  {
  }

  lemma CountingShape(c: Config, s: State, step: Step)
    requires Enabled(c, s, step) && Counting(step) && !ChangesCounts(step)
    ensures Shape(s, step, Apply(c, s, step))
  {
    var s' := Apply(c, s, step);
    match step
    case Tick(_) =>
    case Arrive(pid, _) => QuietShape(s, step, s', pid);
    case IncrFails(pid, _) => QuietShape(s, step, s', pid);
  }

  lemma ExpireShape(c: Config, s: State, pid: nat, applied: bool)
    requires Enabled(c, s, Expire(pid, applied))
    ensures Shape(s, Expire(pid, applied), Apply(c, s, Expire(pid, applied)))
  {
    var s' := Apply(c, s, Expire(pid, applied));
    assert MovesOnly(s, Expire(pid, applied), s', pid, s'.procs[pid]);
  }

  lemma MovedOn(step: Step, now: int, q: Proc, p: Proc)
    requires MovesTo(step, now, q, p)
    ensures MovesOn(step, q, p)
  {
  }

  lemma EffectShape(s: State, step: Step, s': State)
    requires Effect(s, step, s') && !step.Expire?
    ensures Shape(s, step, s')
  {
    MovedOn(step, s.now, s.procs[step.pid], s'.procs[step.pid]);
    QuietShape(s, step, s', step.pid);
  }

  lemma StepShape(c: Config, s: State, step: Step)
    requires Enabled(c, s, step) && !ChangesCounts(step)
    ensures Shape(s, step, Apply(c, s, step))
  {
    if Counting(step) {
      CountingShape(c, s, step);
    } else if step.Expire? {
      ExpireShape(c, s, step.pid, step.applied);
    } else {
      StepEffect(c, s, step);
      EffectShape(s, step, Apply(c, s, step));
    }
  }

  lemma ShapeUnchanged(s: State, step: Step, s': State)
    requires Shape(s, step, s')
    ensures CountingUnchanged(s, s')
  {
  }

  lemma ShapeStages(s: State, step: Step, s': State)
    requires Shape(s, step, s') && StagesOk(s)
    ensures StagesOk(s')
  {
  }

  /** The one count handed out by an INCR is new to its generation. */
  lemma CountShape(s: State, pid: nat, stage: Stage)
    requires CountersOk(s) && GenerationsOk(s) && WhoOk(s) && pid in s.procs
    ensures var s' := Count(s, pid, stage); var key := RawKey(s.procs[pid].event);
            var gen, n := s'.procs[pid].gen, s'.procs[pid].count;
      && (gen, n) !in s.who && s'.who == s.who[(gen, n) := pid]
      && s'.procs == s.procs[pid := s'.procs[pid]] && s'.procs[pid].event == s.procs[pid].event
      && s'.procs[pid].stage == (if stage == Opened && n > 1 then Counted else stage)
      && key in s'.counters && s'.counters == s.counters[key := s'.counters[key]]
      && s'.counters[key].gen == gen && s'.counters[key].value == n >= 1
      && |s.generations| <= |s'.generations| && gen < |s'.generations| <= |s.generations| + 1
      && Describes(s'.generations[gen], key, n) && s'.generations[gen].lastAt == s.now
      && (if gen < |s.generations| then
            && key in s.counters && s.counters[key].gen == gen && n > 1
            && Describes(s.generations[gen], key, n - 1) && s'.generations[gen].expireAt == s.generations[gen].expireAt
            && s'.counters[key].deadline == s.counters[key].deadline
          else
            && key !in s.counters && n == 1
            && s'.generations[gen].expireAt == None && s'.counters[key].deadline == None)
      && (|s'.generations| > |s.generations| ==> gen == |s.generations|)
      && (forall g | 0 <= g < |s.generations| && g != gen :: s'.generations[g] == s.generations[g])
  {
  }

  lemma CountLeaves(s: State, pid: nat, stage: Stage)
    requires pid in s.procs
    ensures var s' := Count(s, pid, stage);
      && s'.history == s.history && s'.sinceTrim == s.sinceTrim && s'.now == s.now && s'.procs.Keys == s.procs.Keys
      && forall q | q in s.procs ::
           s'.procs[q].untrimmed == s.procs[q].untrimmed && (q != pid ==> s'.procs[q] == s.procs[q])
  {
  }

  lemma CountKeeps(s: State, pid: nat, stage: Stage)
    requires CountersOk(s) && GenerationsOk(s) && WhoOk(s)
    requires pid in s.procs && s.procs[pid].count == 0
    ensures var s' := Count(s, pid, stage); CountersOk(s') && GenerationsOk(s') && WhoOk(s')
  {
    CountShape(s, pid, stage);
    var s' := Count(s, pid, stage);
    var gen, n := s'.procs[pid].gen, s'.procs[pid].count;
    CountKeepsWho(s, s', pid, gen, n, RawKey(s.procs[pid].event));
  }

  lemma CountKeepsWho(s: State, s': State, pid: nat, gen: nat, n: nat, key: string)
    requires WhoOk(s) && pid in s.procs && s.procs[pid].count == 0
    requires (gen, n) !in s.who && s'.who == s.who[(gen, n) := pid]
    requires pid in s'.procs && s'.procs == s.procs[pid := s'.procs[pid]]
    requires s'.procs[pid].gen == gen && s'.procs[pid].count == n && RawKey(s'.procs[pid].event) == key
    requires |s.generations| <= |s'.generations| && gen < |s'.generations| && n >= 1
    requires s'.generations[gen].key == key && s'.generations[gen].issued == n
    requires gen < |s.generations| ==> s.generations[gen].key == key && s.generations[gen].issued == n - 1
    requires gen >= |s.generations| ==> n == 1
    requires |s'.generations| > |s.generations| ==> gen == |s.generations| && |s'.generations| == gen + 1
    requires forall g | 0 <= g < |s.generations| && g != gen :: s'.generations[g] == s.generations[g]
    ensures WhoOk(s')
  {
    forall g: nat, m: nat | (g, m) in s'.who ensures Got(s', s'.who[(g, m)], g, m) {
      if (g, m) != (gen, n) {
        assert Got(s, s.who[(g, m)], g, m);
      }
    }
  }

  lemma EvictKeeps(c: Config, s: State, key: string)
    requires CountersOk(s) && GenerationsOk(s) && WhoOk(s) && Enabled(c, s, Evict(key))
    ensures var s' := Apply(c, s, Evict(key)); CountersOk(s') && GenerationsOk(s') && WhoOk(s')
  {
    var s' := Apply(c, s, Evict(key));
    forall g: nat, n: nat | (g, n) in s'.who ensures Got(s', s'.who[(g, n)], g, n) {
      assert Got(s, s.who[(g, n)], g, n);
    }
  }

  lemma StagesAfterCount(s: State, pid: nat, stage: Stage)
    requires StagesOk(s) && CountersOk(s) && GenerationsOk(s) && WhoOk(s) && pid in s.procs
    requires stage in {Opened, Finished}
    ensures StagesOk(Count(s, pid, stage))
  {
    CountShape(s, pid, stage);
  }

  lemma CountingStep(c: Config, s: State, step: Step)
    requires CountingInv(s) && Enabled(c, s, step)
    ensures CountingInv(Apply(c, s, step))
  {
    if !ChangesCounts(step) {
      StepShape(c, s, step);
      ShapeUnchanged(s, step, Apply(c, s, step));
      ShapeStages(s, step, Apply(c, s, step));
      UnchangedKeeps(s, Apply(c, s, step));
    } else if step.Incr? {
      CountKeeps(s, step.pid, Opened);
      StagesAfterCount(s, step.pid, Opened);
    } else if step.IncrFails? {
      CountKeeps(s, step.pid, Finished);
      StagesAfterCount(s, step.pid, Finished);
    } else {
      EvictKeeps(c, s, step.key);
    }
  }

  // ----- expiry -----

  /** The key an opener sends EXPIRE to is still in the life it opened. */
  lemma OpenedIsLive(c: Config, s: State, pid: nat)
    requires CountingInv(s) && ExpiryInv(c, s) && At(s, pid, Opened)
    ensures var p := s.procs[pid]; var key := RawKey(p.event);
      && key in s.counters && s.counters[key].gen == p.gen < |s.generations| && s.who[(p.gen, 1)] == pid
  {
    var p := s.procs[pid];
    assert ProcOk(p);
    assert s.who[(p.gen, 1)] == pid && Got(s, pid, p.gen, 1);
    assert LastsLongEnough(s.generations[p.gen], c.window);
  }

  /** Only Incr makes a call an opener. */
  lemma OpenedKept(s: State, step: Step, s': State, pid: nat)
    requires Shape(s, step, s') && pid in s'.procs && s'.procs[pid].stage == Opened
    ensures pid in s.procs && s.procs[pid].stage == Opened && s.procs[pid].gen == s'.procs[pid].gen
    ensures s.procs[pid].crashed ==> s'.procs[pid].crashed
  {
  }

  lemma QuietExpiry(c: Config, s: State, step: Step, s': State)
    requires ExpiryInv(c, s) && Shape(s, step, s') && !step.Expire?
    ensures ExpiryInv(c, s')
  {
    forall pid | pid in s'.procs && s'.procs[pid].stage == Opened
      ensures pid in s.procs && s.procs[pid].stage == Opened && s.procs[pid].gen == s'.procs[pid].gen
    {
      OpenedKept(s, step, s', pid);
    }
  }

  /** EXPIRE, when it arrives, gives the generation and the counter the same deadline. */
  lemma ExpireEffect(c: Config, s: State, pid: nat, applied: bool)
    requires Enabled(c, s, Expire(pid, applied)) && RawKey(s.procs[pid].event) in s.counters
    requires s.counters[RawKey(s.procs[pid].event)].gen < |s.generations|
    ensures var s' := Apply(c, s, Expire(pid, applied));
      && s'.procs == s.procs[pid := s.procs[pid].(stage := Expired)] && s'.now == s.now
      && ExpireTables(c, s, RawKey(s.procs[pid].event), applied, s')
  {
  }

  /** Two calls that opened a generation opened different ones. */
  lemma OpenersDiffer(s: State, p: nat, q: nat)
    requires CountingInv(s) && p in s.procs && q in s.procs && p != q
    requires s.procs[p].stage == Opened && s.procs[q].stage == Opened
    ensures s.procs[p].gen != s.procs[q].gen
  {
    assert ProcOk(s.procs[p]) && ProcOk(s.procs[q]);
    assert s.who[(s.procs[p].gen, 1)] == p && s.who[(s.procs[q].gen, 1)] == q;
  }

  /** The tables after an EXPIRE for the generation g of key. */
  ghost predicate ExpireTables(c: Config, s: State, key: string, applied: bool, s': State) {
    && key in s.counters && s.counters[key].gen < |s.generations|
    && var g := s.counters[key].gen;
      (if applied then
        && s'.counters == s.counters[key := s.counters[key].(deadline := Some(s.now + c.window))]
        && s'.generations == s.generations[g := s.generations[g].(expireAt := Some(s.now))]
      else
        s'.counters == s.counters && s'.generations == s.generations)
  }

  lemma ExpireDeadlines(c: Config, s: State, key: string, applied: bool, s': State)
    requires CountersOk(s) && ExpiryInv(c, s) && ExpireTables(c, s, key, applied, s')
    ensures |s'.generations| == |s.generations|
    ensures forall g | 0 <= g < |s'.generations| :: LastsLongEnough(s'.generations[g], c.window)
    ensures forall k | k in s'.counters && s'.counters[k].gen < |s'.generations| ::
      s'.counters[k].deadline == Deadline(s'.generations[s'.counters[k].gen].expireAt, c.window)
  {
    forall k | k in s'.counters && s'.counters[k].gen < |s'.generations|
      ensures s'.counters[k].deadline == Deadline(s'.generations[s'.counters[k].gen].expireAt, c.window)
    {
      assert Describes(s.generations[s.counters[k].gen], k, s.counters[k].value);
    }
  }

  lemma ExpireExpiry(c: Config, s: State, pid: nat, applied: bool, s': State)
    requires CountingInv(s) && ExpiryInv(c, s) && At(s, pid, Opened)
    requires ExpireTables(c, s, RawKey(s.procs[pid].event), applied, s')
    requires s.counters[RawKey(s.procs[pid].event)].gen == s.procs[pid].gen
    requires s'.procs == s.procs[pid := s.procs[pid].(stage := Expired)]
    ensures ExpiryInv(c, s')
  {
    ExpireDeadlines(c, s, RawKey(s.procs[pid].event), applied, s');
    forall q | q in s'.procs && s'.procs[q].stage == Opened
      ensures q in s.procs && s.procs[q] == s'.procs[q] && s.procs[q].gen != s.procs[pid].gen
    {
      OpenersDiffer(s, pid, q);
    }
  }

  lemma CountExpiry(c: Config, s: State, pid: nat, stage: Stage)
    requires CountingInv(s) && ExpiryInv(c, s) && At(s, pid, Arrived) && stage in {Opened, Finished}
    ensures ExpiryInv(c, Count(s, pid, stage))
  {
    CountShape(s, pid, stage);
  }

  lemma ExpiryStep(c: Config, s: State, step: Step)
    requires CountingInv(s) && ExpiryInv(c, s) && Enabled(c, s, step)
    ensures ExpiryInv(c, Apply(c, s, step))
  {
    if step.Expire? {
      OpenedIsLive(c, s, step.pid);
      ExpireEffect(c, s, step.pid, step.applied);
      ExpireExpiry(c, s, step.pid, step.applied, Apply(c, s, step));
    } else if step.Incr? {
      CountExpiry(c, s, step.pid, Opened);
    } else if step.IncrFails? && step.applied {
      CountExpiry(c, s, step.pid, Finished);
    } else if !step.Evict? {
      StepShape(c, s, step);
      QuietExpiry(c, s, step, Apply(c, s, step));
    }
  }

  // ----- when counts are issued -----

  lemma CountIssue(c: Config, s: State, pid: nat, stage: Stage)
    requires CountingInv(s) && ExpiryInv(c, s) && IssueInv(c, s) && pid in s.procs
    requires CanCount(c, s, RawKey(s.procs[pid].event))
    ensures IssueInv(c, Count(s, pid, stage))
  {
    CountShape(s, pid, stage);
    CountLeaves(s, pid, stage);
    IssuedNow(c, s, Count(s, pid, stage), Count(s, pid, stage).procs[pid].gen, RawKey(s.procs[pid].event));
  }

  lemma IssuedNow(c: Config, s: State, s': State, gen: nat, key: string)
    requires IssueInv(c, s) && ExpiryInv(c, s) && CanCount(c, s, key) && s'.now == s.now
    requires |s.generations| <= |s'.generations| <= |s.generations| + 1 && gen < |s'.generations|
    requires |s'.generations| > |s.generations| ==> gen == |s.generations|
    requires forall g | 0 <= g < |s.generations| && g != gen :: s'.generations[g] == s.generations[g]
    requires s'.generations[gen].lastAt == s.now
    requires if gen < |s.generations| then
               && key in s.counters && s.counters[key].gen == gen
               && s'.generations[gen].expireAt == s.generations[gen].expireAt
             else s'.generations[gen].expireAt == None
    ensures IssueInv(c, s')
  {
  }

  lemma ExpireIssue(c: Config, s: State, key: string, applied: bool, s': State)
    requires IssueInv(c, s) && ExpireTables(c, s, key, applied, s') && s'.now == s.now
    ensures IssueInv(c, s')
  {
  }

  lemma EvictIssue(c: Config, s: State, key: string)
    requires IssueInv(c, s) && Enabled(c, s, Evict(key))
    ensures IssueInv(c, Apply(c, s, Evict(key)))
  {
  }

  lemma QuietIssue(c: Config, s: State, step: Step, s': State)
    requires IssueInv(c, s) && Shape(s, step, s') && !step.Expire?
    ensures IssueInv(c, s')
  {
  }

  lemma IssueStep(c: Config, s: State, step: Step)
    requires CountingInv(s) && ExpiryInv(c, s) && IssueInv(c, s) && Enabled(c, s, step)
    ensures IssueInv(c, Apply(c, s, step))
  {
    if step.Expire? {
      OpenedIsLive(c, s, step.pid);
      ExpireEffect(c, s, step.pid, step.applied);
      ExpireIssue(c, s, RawKey(s.procs[step.pid].event), step.applied, Apply(c, s, step));
    } else if step.Incr? {
      CountIssue(c, s, step.pid, Opened);
    } else if step.IncrFails? && step.applied {
      CountIssue(c, s, step.pid, Finished);
    } else if step.Evict? {
      EvictIssue(c, s, step.key);
    } else {
      StepShape(c, s, step);
      QuietIssue(c, s, step, Apply(c, s, step));
    }
  }

  // ----- history -----

  /** Neither the history nor anyone's turn to trim it changed. */
  lemma HistoryKept(s: State, s': State)
    requires HistoryInv(s) && s'.history == s.history && s'.sinceTrim == s.sinceTrim
    requires s.procs.Keys <= s'.procs.Keys
    requires forall pid | pid in s'.procs ::
      if pid in s.procs then
        s'.procs[pid].untrimmed == s.procs[pid].untrimmed && (Early(s'.procs[pid].stage) ==> Early(s.procs[pid].stage))
      else !s'.procs[pid].untrimmed
    ensures HistoryInv(s')
  {
    assert Untrimmed(s') == Untrimmed(s);
  }

  lemma PushHistory(c: Config, s: State, pid: nat)
    requires HistoryInv(s) && Enabled(c, s, Push(pid, true))
    ensures HistoryInv(Apply(c, s, Push(pid, true)))
  {
    assert Untrimmed(Apply(c, s, Push(pid, true))) == Untrimmed(s) + {pid};
  }

  lemma TrimHistory(c: Config, s: State, pid: nat)
    requires HistoryInv(s) && Enabled(c, s, Trim(pid, true))
    ensures HistoryInv(Apply(c, s, Trim(pid, true)))
  {
  }

  lemma HistoryAfterCount(s: State, pid: nat, stage: Stage)
    requires HistoryInv(s) && pid in s.procs && s.procs[pid].stage == Arrived && stage in {Opened, Finished}
    ensures HistoryInv(Count(s, pid, stage))
  {
    CountLeaves(s, pid, stage);
    HistoryKept(s, Count(s, pid, stage));
  }

  lemma HistoryQuiet(s: State, step: Step, s': State)
    requires HistoryInv(s) && Shape(s, step, s') && !Stores(step)
    ensures HistoryInv(s')
  {
    HistoryKept(s, s');
  }

  lemma HistoryStep(c: Config, s: State, step: Step)
    requires HistoryInv(s) && Enabled(c, s, step)
    ensures HistoryInv(Apply(c, s, step))
  {
    if step.Incr? {
      HistoryAfterCount(s, step.pid, Opened);
    } else if step.IncrFails? && step.applied {
      HistoryAfterCount(s, step.pid, Finished);
    } else if step.Push? && step.applied {
      PushHistory(c, s, step.pid);
    } else if step.Trim? && step.applied {
      TrimHistory(c, s, step.pid);
    } else if !step.Evict? {
      StepShape(c, s, step);
      HistoryQuiet(s, step, Apply(c, s, step));
    }
  }

  // ----- every run -----

  ghost predicate Invariants(c: Config, s: State) {
    CountingInv(s) && ExpiryInv(c, s) && IssueInv(c, s) && HistoryInv(s)
  }

  lemma {:induction false} InvariantsHold(c: Config, states: seq<State>, steps: seq<Step>, i: nat)
    requires Run(c, states, steps) && i < |states|
    ensures Invariants(c, states[i])
  {
    if i == 0 {
      assert Untrimmed(states[0]) == {};
    } else {
      InvariantsHold(c, states, steps, i - 1);
      CountingStep(c, states[i - 1], steps[i - 1]);
      ExpiryStep(c, states[i - 1], steps[i - 1]);
      IssueStep(c, states[i - 1], steps[i - 1]);
      HistoryStep(c, states[i - 1], steps[i - 1]);
    }
  }

  predicate Issued(s: State, g: nat, n: nat) {
    g < |s.generations| && 1 <= n <= s.generations[g].issued
  }

  /** In every reachable state, the counts of every generation are 1, 2, 3, ... up to the
      number issued, and each went to exactly one call; so there is exactly one opener. */
  lemma CountsAreRanks(c: Config, states: seq<State>, steps: seq<Step>, i: nat)
    requires Run(c, states, steps) && i < |states|
    ensures forall g: nat, n: nat | n >= 1 :: Issued(states[i], g, n) <==> exists pid :: Got(states[i], pid, g, n)
    ensures forall g: nat, n: nat, p, q | n >= 1 :: Got(states[i], p, g, n) && Got(states[i], q, g, n) ==> p == q
  {
    InvariantsHold(c, states, steps, i);
    var s := states[i];
    forall g: nat, n: nat | Issued(s, g, n)
      ensures exists pid :: Got(s, pid, g, n)
    {
      assert (g, n) in s.who;
      assert Got(s, s.who[(g, n)], g, n);
    }
  }

  /** No generation ends before EXPIRE took effect on it plus the window. */
  lemma GenerationsLast(c: Config, states: seq<State>, steps: seq<Step>, i: nat, g: nat)
    requires Run(c, states, steps) && i < |states| && g < |states[i].generations|
    ensures var life := states[i].generations[g];
      life.endedAt.Some? ==> life.expireAt.Some? && life.endedAt.value >= life.expireAt.value + c.window
  {
    InvariantsHold(c, states, steps, i);
  }

  /** And none hands out a count later than the window, and the time a counter answers
      past its deadline, after EXPIRE took effect. */
  lemma NoCountAfterWindow(c: Config, states: seq<State>, steps: seq<Step>, i: nat, g: nat)
    requires Run(c, states, steps) && i < |states| && g < |states[i].generations|
    ensures var life := states[i].generations[g];
      life.expireAt.Some? ==>
        life.lastAt <= life.expireAt.value || life.lastAt < life.expireAt.value + c.window + c.grace
  {
    InvariantsHold(c, states, steps, i);
  }

  /** The history exceeds its limit by at most the pushes since LTRIM last took effect, and
      by at most the calls whose own LTRIM has not. */
  lemma HistoryBounded(c: Config, states: seq<State>, steps: seq<Step>, i: nat)
    requires Run(c, states, steps) && i < |states|
    ensures |states[i].history| <= 500 + states[i].sinceTrim
    ensures |states[i].history| <= 500 + |Untrimmed(states[i])|
  {
    InvariantsHold(c, states, steps, i);
  }

  /** The event that a step's LPUSH stored, if it did. */
  function PushedBy(s: State, step: Step): seq<FailoverEvent> {
    if step.Push? && step.applied && step.pid in s.procs then [s.procs[step.pid].event] else []
  }

  /** The events that the first i steps pushed, newest first. */
  ghost function Pushed(states: seq<State>, steps: seq<Step>, i: nat): seq<FailoverEvent>
    requires i <= |states| && i <= |steps|
  {
    if i == 0 then [] else PushedBy(states[i - 1], steps[i - 1]) + Pushed(states, steps, i - 1)
  }

  /** The history is the newest of what was pushed, and loses nothing but beyond 500. */
  ghost predicate NewestOf(history: seq<FailoverEvent>, pushed: seq<FailoverEvent>) {
    history <= pushed && (history == pushed || |history| >= 500)
  }

  lemma PushAndTrim(c: Config, s: State, step: Step)
    requires Enabled(c, s, step) && (step.Push? || step.Trim?) && step.applied
    ensures step.pid in s.procs
    ensures Apply(c, s, step).history ==
            if step.Push? then [s.procs[step.pid].event] + s.history
            else if |s.history| > 500 then s.history[..500] else s.history
  {
    match step case Push(_, _) => case Trim(_, _) =>
  }

  lemma HistorySame(c: Config, s: State, step: Step)
    requires Enabled(c, s, step) && !((step.Push? || step.Trim?) && step.applied)
    ensures Apply(c, s, step).history == s.history
  {
    if Counting(step) {
      match step case Tick(_) => case Evict(_) => case Arrive(_, _) => case Incr(_) => case IncrFails(_, _) =>
    } else {
      StepEffect(c, s, step);
    }
  }

  lemma NewestNext(c: Config, s: State, step: Step, pushed: seq<FailoverEvent>)
    requires Enabled(c, s, step) && NewestOf(s.history, pushed)
    ensures NewestOf(Apply(c, s, step).history, PushedBy(s, step) + pushed)
  {
    if (step.Push? || step.Trim?) && step.applied {
      PushAndTrim(c, s, step);
    } else {
      HistorySame(c, s, step);
      assert PushedBy(s, step) + pushed == pushed;
    }
  }

  /** In every interleaving the history is the newest pushed events in the order of their
      LPUSH, all of them up to 500, and each is the event of a call that opened its window. */
  lemma HistoryIsNewest(c: Config, states: seq<State>, steps: seq<Step>, i: nat)
    requires Run(c, states, steps) && i < |states|
    ensures NewestOf(states[i].history, Pushed(states, steps, i))
    ensures forall j | 0 <= j < i && steps[j].Push? ::
              steps[j].pid in states[j].procs && states[j].procs[steps[j].pid].count == 1
  {
    NewestAlways(c, states, steps, i);
    forall j | 0 <= j < i && steps[j].Push?
      ensures steps[j].pid in states[j].procs && states[j].procs[steps[j].pid].count == 1
    {
      InvariantsHold(c, states, steps, j);
      PusherOpened(c, states[j], steps[j]);
    }
  }

  lemma PusherOpened(c: Config, s: State, step: Step)
    requires StagesOk(s) && Enabled(c, s, step) && step.Push?
    ensures step.pid in s.procs && s.procs[step.pid].count == 1
  {
    assert ProcOk(s.procs[step.pid]);
  }

  lemma {:induction false} NewestAlways(c: Config, states: seq<State>, steps: seq<Step>, i: nat)
    requires Run(c, states, steps) && i < |states|
    ensures NewestOf(states[i].history, Pushed(states, steps, i))
  {
    if i > 0 {
      NewestAlways(c, states, steps, i - 1);
      NewestNext(c, states[i - 1], steps[i - 1], Pushed(states, steps, i - 1));
    }
  }

  // ----- an opener that never gets its EXPIRE through -----

  /** EXPIRE has not taken effect and nobody is left to send it. */
  ghost predicate Stuck(s: State, g: nat) {
    && g < |s.generations| && s.generations[g].expireAt == None
    && forall pid | At(s, pid, Opened) :: s.procs[pid].gen != g
  }

  lemma StuckAfterCount(s: State, pid: nat, stage: Stage, g: nat)
    requires CountingInv(s) && Stuck(s, g) && At(s, pid, Arrived) && stage in {Opened, Finished}
    ensures Stuck(Count(s, pid, stage), g)
  {
    CountShape(s, pid, stage);
  }

  lemma StuckStep(c: Config, s: State, step: Step, g: nat)
    requires CountingInv(s) && ExpiryInv(c, s) && Enabled(c, s, step) && Stuck(s, g)
    ensures Stuck(Apply(c, s, step), g)
  {
    if step.Incr? {
      StuckAfterCount(s, step.pid, Opened, g);
    } else if step.IncrFails? && step.applied {
      StuckAfterCount(s, step.pid, Finished, g);
    } else if !step.Evict? {
      StepShape(c, s, step);
      if step.Expire? {
        OpenedIsLive(c, s, step.pid);
        ExpireLeaves(c, s, step.pid, step.applied, g);
      }
      StuckKept(s, step, Apply(c, s, step), g);
    }
  }

  lemma ExpireLeaves(c: Config, s: State, pid: nat, applied: bool, g: nat)
    requires At(s, pid, Opened) && RawKey(s.procs[pid].event) in s.counters && g < |s.generations|
    requires s.counters[RawKey(s.procs[pid].event)].gen != g
    ensures var s' := Apply(c, s, Expire(pid, applied));
            |s'.generations| == |s.generations| && s'.generations[g] == s.generations[g]
  {
  }

  lemma StuckKept(s: State, step: Step, s': State, g: nat)
    requires Shape(s, step, s') && Stuck(s, g) && s'.generations[g] == s.generations[g]
    ensures Stuck(s', g)
  {
    forall pid | At(s', pid, Opened) ensures s'.procs[pid].gen != g {
      OpenedKept(s, step, s', pid);
      assert At(s, pid, Opened);
    }
  }

  /** If the opener crashes, or loses the reply, before its EXPIRE takes effect, the
      dedup key never expires: the same generation goes on counting forever. */
  lemma {:induction false} StuckForever(c: Config, states: seq<State>, steps: seq<Step>, i: nat, j: nat, g: nat)
    requires Run(c, states, steps) && i <= j < |states| && Stuck(states[i], g)
    ensures Stuck(states[j], g) && states[j].generations[g].endedAt == None
  {
    if i < j {
      StuckForever(c, states, steps, i, j - 1, g);
      StuckNext(c, states, steps, j - 1, g);
    }
    GenerationsLast(c, states, steps, j, g);
  }

  lemma StuckNext(c: Config, states: seq<State>, steps: seq<Step>, i: nat, g: nat)
    requires Run(c, states, steps) && i < |steps| && Stuck(states[i], g)
    ensures Stuck(states[i + 1], g)
  {
    InvariantsHold(c, states, steps, i);
    StuckStep(c, states[i], steps[i], g);
  }
}
