/** The report count that triggers the DNS update (internal/core/event_processor.go). */
module Quorum {
  /** First-come mode fires on the first report of a window, quorum mode on the one
      that reaches the threshold. */
  function Target(quorumMode: bool, quorumThreshold: int): int {
    if quorumMode then quorumThreshold else 1
  }
}

/** internal/core/event_processor.go: the trigger decision over the report count. */
module EventProcessor {
  import opened Text
  import opened Event
  import opened ReportWindow
  import opened Quorum
  import MemoryStore

  datatype EventProcessResult = EventProcessResult(
    isDuplicate: bool,
    reportCount: nat,
    quorumReached: bool,
    shouldUpdateDNS: bool)

  /** One call of Process, as it arrives. */
  datatype Submission = Submission(event: FailoverEvent, quorumMode: bool, quorumThreshold: int, at: int)

  predicate Ordered(subs: seq<Submission>, startedAt: int) {
    subs != [] ==> startedAt <= subs[0].at && Ordered(subs[1..], subs[0].at)
  }

  function Reported(s: Submission): Report {
    Report(RawKey(s.event), s.event.sentinelNodeName, s.at)
  }

  function Log(subs: seq<Submission>): seq<Report> { seq(|subs|, i requires 0 <= i < |subs| => Reported(subs[i])) }

  /** The results given to the submissions of one key, in order. */
  function Answers(subs: seq<Submission>, results: seq<EventProcessResult>, key: string): seq<EventProcessResult>
    requires |subs| == |results|
  {
    if subs == [] then []
    else
      var n := |subs| - 1;
      Answers(subs[..n], results[..n], key) + if RawKey(subs[n].event) == key then [results[n]] else []
  }

  function Counts(answers: seq<EventProcessResult>): seq<nat> {
    seq(|answers|, i requires 0 <= i < |answers| => answers[i].reportCount)
  }

  function Triggers(answers: seq<EventProcessResult>): nat {
    if answers == [] then 0
    else Triggers(answers[..|answers| - 1]) + if answers[|answers| - 1].shouldUpdateDNS then 1 else 0
  }

  ghost predicate TargetOf(subs: seq<Submission>, key: string, target: int) {
    forall i :: 0 <= i < |subs| && RawKey(subs[i].event) == key ==>
      Target(subs[i].quorumMode, subs[i].quorumThreshold) == target
  }

  class EventProcessor {
    const store: MemoryStore.MemoryStore

    constructor (store: MemoryStore.MemoryStore)
      ensures this.store == store
    {
      this.store := store;
    }

    method Process(event: FailoverEvent, quorumMode: bool, quorumThreshold: int, now: int)
      returns (r: EventProcessResult)
      requires store.Valid() && store.clock <= now
      modifies store`events, store`eventHistory, store`log, store`openers, store`clock
      ensures store.Valid() && store.clock == now
      ensures store.log == old(store.log) + [Report(RawKey(event), event.sentinelNodeName, now)]
      ensures r.reportCount == |LastWindow(KeyReports(store.log, RawKey(event)), store.dedupWindow)|
      ensures r.isDuplicate <==> r.reportCount > 1
      ensures r.quorumReached <==> r.reportCount >= quorumThreshold
      ensures r.shouldUpdateDNS <==> r.reportCount == if quorumMode then quorumThreshold else 1
      ensures !quorumMode ==> (r.shouldUpdateDNS <==> !r.isDuplicate)
    {
      var reportCount := store.RecordEvent(event, now);
      var isDuplicate := reportCount > 1;
      var quorumReached := reportCount >= quorumThreshold;
      var targetCount := quorumThreshold;
      if !quorumMode {
        targetCount := 1;
      }
      r := EventProcessResult(isDuplicate, reportCount, quorumReached, reportCount == targetCount);
    }

    /** Any run of submissions over a fresh store. The counts of each key are its greedy
        window positions, whatever the other keys do in between, and the key triggers once
        for each of its windows that reaches the target: in first-come mode on the opener
        of each window and on no other report. */
    method ProcessAll(subs: seq<Submission>) returns (results: seq<EventProcessResult>)
      requires store.Valid() && store.log == [] && Ordered(subs, store.clock)
      modifies store`events, store`eventHistory, store`log, store`openers, store`clock
      ensures store.Valid() && store.log == Log(subs) && |results| == |subs|
      ensures forall key :: Counts(Answers(subs, results, key))
                         == Positions(KeyReports(Log(subs), key), store.dedupWindow)
      ensures forall key, target {:trigger TargetOf(subs, key, target)} :: TargetOf(subs, key, target) ==>
                Triggers(Answers(subs, results, key)) ==
                if target >= 1 then Reaching(Windows(KeyReports(Log(subs), key), store.dedupWindow), target) else 0
      ensures forall key | FirstComeKey(subs, key) ::
                TriggersOnOpeners(Answers(subs, results, key), KeyReports(Log(subs), key), store.dedupWindow)
    {
      results := [];
      for i := 0 to |subs|
        invariant store.Valid() && |results| == i
        invariant Ordered(subs[i..], store.clock)
        invariant store.log == Log(subs[..i])
        invariant AllFaithful(subs[..i], results, store.dedupWindow)
      {
        var s := subs[i];
        assert subs[i..][1..] == subs[i + 1..] && subs[i..][0] == s;
        var r := Process(s.event, s.quorumMode, s.quorumThreshold, s.at);
        assert subs[..i + 1] == subs[..i] + [s];
        LogAppend(subs[..i], s);
        AllFaithfulAppend(subs[..i], results, s, r, store.dedupWindow);
        results := results + [r];
      }
      assert subs[..|subs|] == subs;
      FaithfulRun(subs, results, store.dedupWindow);
      FirstComeRuns(subs, results, store.dedupWindow);
    }
  }

  ghost predicate FirstComeKey(subs: seq<Submission>, key: string) {
    forall i :: 0 <= i < |subs| && RawKey(subs[i].event) == key ==> !subs[i].quorumMode
  }

  /** As many triggers as windows, each on the report that opens its window. */
  ghost predicate TriggersOnOpeners(answers: seq<EventProcessResult>, rs: seq<Report>, w: int) {
    && |answers| == |rs|
    && (forall i: nat | i < |rs| :: answers[i].shouldUpdateDNS <==> Opens(rs, w, i))
    && Triggers(answers) == |Windows(rs, w)|
  }

  lemma {:induction false} FirstComeAnswers(subs: seq<Submission>, results: seq<EventProcessResult>, key: string)
    requires |subs| == |results| && FirstComeKey(subs, key)
    requires forall i :: 0 <= i < |subs| ==> Decided(subs[i], results[i])
    ensures AllOnFirst(Answers(subs, results, key))
  {
    if subs != [] {
      var n := |subs| - 1;
      var s, r := subs[n], results[n];
      assert Decided(s, r);
      FirstComeAnswers(subs[..n], results[..n], key);
      OneMoreAnswer(Answers(subs[..n], results[..n], key), r);
    }
  }

  predicate AllOnFirst(answers: seq<EventProcessResult>) {
    forall a <- answers :: a.shouldUpdateDNS <==> a.reportCount == 1
  }

  lemma OneMoreAnswer(answers: seq<EventProcessResult>, r: EventProcessResult)
    requires AllOnFirst(answers)
    ensures (r.shouldUpdateDNS <==> r.reportCount == 1) ==> AllOnFirst(answers + [r])
    ensures answers + [] == answers
  {
  }

  lemma FirstComeRun(subs: seq<Submission>, results: seq<EventProcessResult>, key: string, w: int)
    requires Faithful(subs, results, key, w) && FirstComeKey(subs, key)
    ensures TriggersOnOpeners(Answers(subs, results, key), KeyReports(Log(subs), key), w)
  {
    var answers, rs := Answers(subs, results, key), KeyReports(Log(subs), key);
    FirstComeAnswers(subs, results, key);
    OpenersCountOne(rs, w);
    assert |Counts(answers)| == |answers|;
    forall i: nat | i < |rs| ensures answers[i].shouldUpdateDNS <==> Opens(rs, w, i) {
      assert Counts(answers)[i] == answers[i].reportCount && answers[i] in answers;
    }
    assert TargetOf(subs, key, 1);
    TriggersAreHits(subs, results, key, 1);
    TriggersAreWindowsReached(rs, w, 1);
    AllReachOne(Windows(rs, w));
  }

  lemma FirstComeRuns(subs: seq<Submission>, results: seq<EventProcessResult>, w: int)
    requires |subs| == |results| && AllFaithful(subs, results, w)
    ensures forall key | FirstComeKey(subs, key) ::
              TriggersOnOpeners(Answers(subs, results, key), KeyReports(Log(subs), key), w)
  {
    forall key | FirstComeKey(subs, key)
      ensures TriggersOnOpeners(Answers(subs, results, key), KeyReports(Log(subs), key), w)
    {
      assert Faithful(subs, results, key, w);
      FirstComeRun(subs, results, key, w);
    }
  }

  ghost predicate Decided(s: Submission, r: EventProcessResult) {
    r.shouldUpdateDNS <==> r.reportCount == if s.quorumMode then s.quorumThreshold else 1
  }

  ghost predicate Faithful(subs: seq<Submission>, results: seq<EventProcessResult>, key: string, w: int) {
    && |subs| == |results|
    && (forall i :: 0 <= i < |subs| ==> Decided(subs[i], results[i]))
    && Counts(Answers(subs, results, key)) == Positions(KeyReports(Log(subs), key), w)
  }

  lemma FaithfulRun(subs: seq<Submission>, results: seq<EventProcessResult>, w: int)
    requires |subs| == |results| && AllFaithful(subs, results, w)
    ensures forall key :: Counts(Answers(subs, results, key)) == Positions(KeyReports(Log(subs), key), w)
    ensures forall key, target {:trigger TargetOf(subs, key, target)} :: TargetOf(subs, key, target) ==>
              Triggers(Answers(subs, results, key)) ==
              if target >= 1 then Reaching(Windows(KeyReports(Log(subs), key), w), target) else 0
  {
    forall key ensures Counts(Answers(subs, results, key)) == Positions(KeyReports(Log(subs), key), w) {
      assert Faithful(subs, results, key, w);
    }
    forall key, target | TargetOf(subs, key, target)
      ensures Triggers(Answers(subs, results, key)) ==
              if target >= 1 then Reaching(Windows(KeyReports(Log(subs), key), w), target) else 0
    {
      assert Faithful(subs, results, key, w);
      TriggersAreHits(subs, results, key, target);
      TriggersAreWindowsReached(KeyReports(Log(subs), key), w, target);
    }
  }

  lemma LogAppend(subs: seq<Submission>, s: Submission)
    ensures Log(subs + [s]) == Log(subs) + [Reported(s)]
  {
  }

  lemma AnswersAppend(
    subs: seq<Submission>, results: seq<EventProcessResult>, s: Submission, r: EventProcessResult, key: string)
    requires |subs| == |results|
    ensures Answers(subs + [s], results + [r], key)
         == Answers(subs, results, key) + if RawKey(s.event) == key then [r] else []
  {
    assert (subs + [s])[..|subs|] == subs && (results + [r])[..|subs|] == results;
  }

  /** One more answer, with the position of one more report. */
  lemma CountsAppend(
    answers: seq<EventProcessResult>, r: EventProcessResult, rs: seq<Report>, report: Report, hit: bool, w: int)
    requires Counts(answers) == Positions(rs, w)
    requires hit ==> r.reportCount == |LastWindow(rs + [report], w)|
    ensures Counts(answers + if hit then [r] else []) == Positions(rs + if hit then [report] else [], w)
  {
    if hit {
      WindowsAppend(rs, report, w);
      assert Counts(answers + [r]) == Counts(answers) + [r.reportCount];
    } else {
      assert rs + [] == rs && answers + [] == answers;
    }
  }

  lemma FaithfulAppend(
    subs: seq<Submission>, results: seq<EventProcessResult>, s: Submission, r: EventProcessResult, key: string, w: int)
    requires Faithful(subs, results, key, w) && Decided(s, r)
    requires KeyReports(Log(subs) + [Reported(s)], RawKey(s.event)) != []
    requires r.reportCount == |LastWindow(KeyReports(Log(subs) + [Reported(s)], RawKey(s.event)), w)|
    ensures Faithful(subs + [s], results + [r], key, w)
  {
    LogAppend(subs, s);
    AnswersAppend(subs, results, s, r, key);
    MemoryStore.KeyReportsAppend(Log(subs), Reported(s), key);
    CountsAppend(Answers(subs, results, key), r, KeyReports(Log(subs), key), Reported(s), RawKey(s.event) == key, w);
  }

  ghost predicate AllFaithful(subs: seq<Submission>, results: seq<EventProcessResult>, w: int) {
    forall key :: Faithful(subs, results, key, w)
  }

  lemma AllFaithfulAppend(
    subs: seq<Submission>, results: seq<EventProcessResult>, s: Submission, r: EventProcessResult, w: int)
    requires AllFaithful(subs, results, w) && Decided(s, r)
    requires KeyReports(Log(subs) + [Reported(s)], RawKey(s.event)) != []
    requires r.reportCount == |LastWindow(KeyReports(Log(subs) + [Reported(s)], RawKey(s.event)), w)|
    ensures AllFaithful(subs + [s], results + [r], w)
  {
    forall key ensures Faithful(subs + [s], results + [r], key, w) {
      FaithfulAppend(subs, results, s, r, key, w);
    }
  }

  lemma {:induction false} TriggersAreHits(
    subs: seq<Submission>, results: seq<EventProcessResult>, key: string, target: int)
    requires |subs| == |results| && TargetOf(subs, key, target)
    requires forall i :: 0 <= i < |subs| ==> Decided(subs[i], results[i])
    ensures Triggers(Answers(subs, results, key)) == Hits(Counts(Answers(subs, results, key)), target)
  {
    if subs != [] {
      var n := |subs| - 1;
      TriggersAreHits(subs[..n], results[..n], key, target);
      assert Decided(subs[n], results[n]);
      OneMoreTrigger(Answers(subs[..n], results[..n], key), results[n], target);
    }
  }

  lemma OneMoreTrigger(before: seq<EventProcessResult>, r: EventProcessResult, target: int)
    requires Triggers(before) == Hits(Counts(before), target)
    ensures before + [] == before
    ensures (r.shouldUpdateDNS <==> r.reportCount == target) ==>
              Triggers(before + [r]) == Hits(Counts(before + [r]), target)
  {
    TriggersAppend(before, r);
    OneMoreCount(before, r);
    HitsAppend(Counts(before), r.reportCount, target);
  }

  lemma TriggersAppend(before: seq<EventProcessResult>, r: EventProcessResult)
    ensures Triggers(before + [r]) == Triggers(before) + if r.shouldUpdateDNS then 1 else 0
  {
    assert (before + [r])[..|before|] == before;
  }

  lemma HitsAppend(counts: seq<nat>, n: nat, target: int)
    ensures Hits(counts + [n], target) == Hits(counts, target) + if n == target then 1 else 0
  {
    assert (counts + [n])[..|counts|] == counts;
  }

  lemma OneMoreCount(before: seq<EventProcessResult>, r: EventProcessResult)
    ensures Counts(before + [r]) == Counts(before) + [r.reportCount]
  {
  }

  /** A trigger in quorum mode with threshold q means that at least q / perReporter
      sentinels, rounded up, reported the event in the window, when no sentinel got the
      report through more than perReporter times; and it means that q sentinels did exactly
      when none of them got it through twice. */
  lemma TriggerNeedsReporters(log: seq<Report>, key: string, w: int, quorumThreshold: nat, perReporter: nat)
    requires perReporter >= 1 && KeyReports(log, key) != []
    requires |LastWindow(KeyReports(log, key), w)| == Target(true, quorumThreshold)
    requires forall name :: By(LastWindow(KeyReports(log, key), w), name) <= perReporter
    ensures |Reporters(LastWindow(KeyReports(log, key), w))| >= Ceiling(quorumThreshold, perReporter)
    ensures |Reporters(LastWindow(KeyReports(log, key), w))| == quorumThreshold <==>
            forall name :: By(LastWindow(KeyReports(log, key), w), name) <= 1
  {
    WindowNeedsReporters(LastWindow(KeyReports(log, key), w), perReporter);
  }

  lemma WindowNeedsReporters(win: seq<Report>, perReporter: nat)
    requires perReporter >= 1 && forall name :: By(win, name) <= perReporter
    ensures |Reporters(win)| >= Ceiling(|win|, perReporter)
    ensures |Reporters(win)| == |win| <==> forall name :: By(win, name) <= 1
  {
    assert win[..|win|] == win;
    QuorumNeedsReporters(win, |win|, perReporter);
    ReportsAreReportersExactly(win);
  }
}
