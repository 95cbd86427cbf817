/** Who is behind a quorum of the pipeline machine: the sentinels whose reports got the
    counts of one life of a dedup key. The counter does not look at their names. */
module PipelineQuorum {
  import opened Text
  import opened Cluster
  import opened Event
  import opened ReportWindow
  import opened Pipeline
  import opened PipelineCounting
  import opened PipelineRuns

  /** The reports that got the first q counts of the generation. */
  function Counted(s: State, g: nat, q: nat): seq<Report>
    requires forall n | 1 <= n <= q :: (g, n) in s.who && s.who[(g, n)] in s.procs
  {
    if q == 0 then []
    else
      var e := s.procs[s.who[(g, q)]].event;
      Counted(s, g, q - 1) + [Report(RawKey(e), e.sentinelNodeName, 0)]
  }

  lemma {:induction false} CountedLength(s: State, g: nat, q: nat)
    requires forall n | 1 <= n <= q :: (g, n) in s.who && s.who[(g, n)] in s.procs
    ensures |Counted(s, g, q)| == q
    ensures forall n | 1 <= n <= q ::
              Counted(s, g, q)[n - 1].reporter == s.procs[s.who[(g, n)]].event.sentinelNodeName
  {
    if q > 0 {
      CountedLength(s, g, q - 1);
    }
  }

  lemma CountedDefined(s: State, g: nat, q: nat)
    requires WhoOk(s) && g < |s.generations| && q <= s.generations[g].issued
    ensures forall n | 1 <= n <= q :: (g, n) in s.who && s.who[(g, n)] in s.procs
  {
    forall n | 1 <= n <= q ensures (g, n) in s.who && s.who[(g, n)] in s.procs {
      assert (g, n) in s.who;
      assert Got(s, s.who[(g, n)], g, n);
    }
  }

  /** In every interleaving, a call that triggers in quorum mode has at least q / perReporter
      sentinels behind it, rounded up, when none of them got the report through more than
      perReporter times; and q sentinels exactly when none got it through twice. */
  lemma TriggerHasReporters(c: Config, states: seq<State>, steps: seq<Step>, i: nat, pid: nat, perReporter: nat)
    requires Run(c, states, steps) && i < |states| && pid in states[i].procs && perReporter >= 1
    requires var p := states[i].procs[pid];
      Triggered(c, p) && p.count >= 1 && c.clusters[p.event.masterName].quorumMode
    ensures var s, p := states[i], states[i].procs[pid];
      && p.count == c.clusters[p.event.masterName].quorumThreshold
      && (forall n | 1 <= n <= p.count :: (p.gen, n) in s.who && s.who[(p.gen, n)] in s.procs)
      && var rs := Counted(s, p.gen, p.count);
        (&& ((forall name :: By(rs, name) <= perReporter) ==> |Reporters(rs)| >= Ceiling(p.count, perReporter))
        && (|Reporters(rs)| == p.count <==> forall name :: By(rs, name) <= 1))
  {
    InvariantsHold(c, states, steps, i);
    var s, p := states[i], states[i].procs[pid];
    assert (p.gen, p.count) in s.who;
    CountedDefined(s, p.gen, p.count);
    CountedLength(s, p.gen, p.count);
    CountedReporters(Counted(s, p.gen, p.count), perReporter);
  }

  lemma CountedReporters(rs: seq<Report>, perReporter: nat)
    requires perReporter >= 1
    ensures (forall name :: By(rs, name) <= perReporter) ==> |Reporters(rs)| >= Ceiling(|rs|, perReporter)
    ensures |Reporters(rs)| == |rs| <==> forall name :: By(rs, name) <= 1
  {
    ReportsAreReportersExactly(rs);
    if forall name :: By(rs, name) <= perReporter {
      assert rs[..|rs|] == rs;
      QuorumNeedsReporters(rs, |rs|, perReporter);
    }
  }

  // ----- one sentinel alone -----

  /** For any threshold a single sentinel can reach the quorum alone, by delivering the same
      report often enough: the last delivery triggers. */
  lemma OneSentinelQuorumRun(c: Config, e: FailoverEvent)
    returns (states: seq<State>, steps: seq<Step>, pid: nat)
    requires e.masterName in c.clusters && Handled(c, e) && c.clusters[e.masterName].quorumMode
    requires c.clusters[e.masterName].quorumThreshold >= 1
    ensures Run(c, states, steps) && states[0] == Start(0, map[])
    ensures pid in Last(states).procs && Triggered(c, Last(states).procs[pid])
    ensures forall p <- Last(states).procs :: Last(states).procs[p].event == e
    ensures pid == Last(states).procs[pid].count == c.clusters[e.masterName].quorumThreshold
  {
    pid := c.clusters[e.masterName].quorumThreshold;
    var events := seq(pid, _ => e);
    states, steps := CountsAll(c, events);
    assert Last(states).procs[pid] == CountedCall(events[pid - 1], pid);
  }
}
