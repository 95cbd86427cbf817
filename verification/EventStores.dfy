/** The mutex-protected and the command-based event store over the same reports: exactly when
    their counts agree, and that they then keep the same history. */
module EventStores {
  import opened Text
  import opened Event
  import opened ReportWindow
  import MemoryStore
  import ValkeyEvents
  import EventProcessor

  /** The stores have seen the same reports. The command-based store's windows may be longer:
      a key answers for a while past its deadline. */
  ghost predicate SameReports(memory: MemoryStore.MemoryStore, valkey: ValkeyEvents.ValkeyStore)
    reads memory, valkey, valkey.server
  {
    && memory.Valid() && valkey.Valid() && memory.dedupWindow <= valkey.W()
    && memory.clock == valkey.clock && memory.log == valkey.log
  }

  /** And have counted them alike. */
  ghost predicate InStep(memory: MemoryStore.MemoryStore, valkey: ValkeyEvents.ValkeyStore)
    reads memory, valkey, valkey.server
  {
    SameReports(memory, valkey) && memory.openers == valkey.openers
  }

  ghost predicate AllSlackFree(log: seq<Report>, w: int, v: int) {
    forall key :: SlackFree(KeyReports(log, key), w, v)
  }

  /** The count of the last report. */
  function CountOf(log: seq<Report>, key: string, w: int): nat {
    |Current(KeyReports(log, key), w)|
  }

  lemma SlackFreeAppend(log: seq<Report>, r: Report, w: int, v: int)
    ensures AllSlackFree(log + [r], w, v)
            <==> AllSlackFree(log, w, v) && !InSlack(Current(KeyReports(log, r.key), w), r, w, v)
  {
    SlackAppend(KeyReports(log, r.key), r, w, v);
    forall key ensures KeyReports(log + [r], key) == KeyReports(log, key) + if r.key == key then [r] else [] {
      MemoryStore.KeyReportsAppend(log, r, key);
    }
    forall key | key != r.key
      ensures SlackFree(KeyReports(log + [r], key), w, v) == SlackFree(KeyReports(log, key), w, v)
    {
      assert KeyReports(log, key) + [] == KeyReports(log, key);
    }
    assert SlackFree(KeyReports(log + [r], r.key), w, v) == SlackFree(KeyReports(log, r.key) + [r], w, v);
  }

  /** Counts that agreed so far agree about one more report if and only if it does not fall
      between the ends of the two windows. */
  lemma OneMoreReport(log: seq<Report>, r: Report, w: int, v: int)
    requires w <= v
    ensures AllSlackFree(log + [r], w, v)
            <==> AllSlackFree(log, w, v) && CountOf(log + [r], r.key, w) == CountOf(log + [r], r.key, v)
  {
    var rs := KeyReports(log, r.key);
    SlackFreeAppend(log, r, w, v);
    MemoryStore.CurrentAppend(log, r, r.key, w);
    MemoryStore.CurrentAppend(log, r, r.key, v);
    if AllSlackFree(log, w, v) {
      SameCountsExactly(rs, w, v);
      assert SlackFree(rs, w, v);
      NextExactly(Current(rs, w), r, w, v);
    }
  }

  method RecordOnBoth(event: FailoverEvent, now: int, memory: MemoryStore.MemoryStore, valkey: ValkeyEvents.ValkeyStore)
    returns (x: nat, y: nat)
    requires SameReports(memory, valkey) && memory.clock <= now
    modifies memory, valkey, valkey.server
    ensures SameReports(memory, valkey) && memory.clock == now
    ensures memory.log == old(memory.log) + [Report(RawKey(event), event.sentinelNodeName, now)]
    ensures x == CountOf(memory.log, RawKey(event), memory.dedupWindow)
    ensures y == CountOf(memory.log, RawKey(event), valkey.W())
    ensures AllSlackFree(memory.log, memory.dedupWindow, valkey.W())
            <==> old(AllSlackFree(memory.log, memory.dedupWindow, valkey.W())) && x == y
    ensures old(memory.openers == valkey.openers) && x == y ==> memory.openers == valkey.openers
  {
    OneMoreReport(memory.log, Report(RawKey(event), event.sentinelNodeName, now), memory.dedupWindow, valkey.W());
    x := memory.RecordEvent(event, now);
    y := valkey.RecordEvent(event, now);
  }

  /** Any run of reports over two fresh stores configured with the same number of seconds.
      They give the same counts if and only if no report comes in the time that a key of
      the server still answers past its deadline; then they keep the same history. */
  method RunBoth(subs: seq<EventProcessor.Submission>, memory: MemoryStore.MemoryStore,
                 valkey: ValkeyEvents.ValkeyStore)
    returns (a: seq<nat>, b: seq<nat>)
    requires InStep(memory, valkey) && memory.log == [] && EventProcessor.Ordered(subs, memory.clock)
    modifies memory, valkey, valkey.server
    ensures SameReports(memory, valkey) && memory.log == EventProcessor.Log(subs) && |a| == |b| == |subs|
    ensures a == b <==>
            AllSlackFree(EventProcessor.Log(subs), memory.dedupWindow, valkey.W())
    ensures valkey.W() == memory.dedupWindow ==> a == b
    ensures a == b ==> InStep(memory, valkey) && memory.eventHistory == valkey.server.history
  {
    a, b := [], [];
    for i := 0 to |subs|
      invariant SameReports(memory, valkey) && |a| == |b| == i
      invariant EventProcessor.Ordered(subs[i..], memory.clock)
      invariant memory.log == EventProcessor.Log(subs[..i])
      invariant a == b <==> AllSlackFree(memory.log, memory.dedupWindow, valkey.W())
      invariant a == b ==> memory.openers == valkey.openers
    {
      assert subs[i..][0] == subs[i] && subs[i..][1..] == subs[i + 1..];
      assert subs[..i + 1] == subs[..i] + [subs[i]];
      EventProcessor.LogAppend(subs[..i], subs[i]);
      var x, y := RecordOnBoth(subs[i].event, subs[i].at, memory, valkey);
      AppendedEqual(a, b, x, y);
      a, b := a + [x], b + [y];
    }
    assert subs[..|subs|] == subs;
    NoSlackWithoutGap(memory.log, memory.dedupWindow);
  }

  lemma NoSlackWithoutGap(log: seq<Report>, w: int)
    ensures AllSlackFree(log, w, w)
  {
    forall key ensures SlackFree(KeyReports(log, key), w, w) {
      SameCountsExactly(KeyReports(log, key), w, w);
    }
  }

  /** The two constructors, given the same number of seconds, make stores that RunBoth takes. */
  method NewPair(seconds: int, server: ValkeyEvents.Server, startedAt: int)
    returns (memory: MemoryStore.MemoryStore, valkey: ValkeyEvents.ValkeyStore)
    requires server.counters == map[] && server.history == []
    ensures fresh(memory) && fresh(valkey) && valkey.server == server
    ensures InStep(memory, valkey) && memory.log == [] && memory.clock == startedAt
    ensures valkey.W() - memory.dedupWindow == if seconds <= 0 then -1000 * seconds else server.grace
  {
    memory := new MemoryStore.MemoryStore(1000 * seconds, startedAt);
    valkey := new ValkeyEvents.ValkeyStore(server, seconds, startedAt);
  }

  /** The recent events are the same exactly when the limit is positive or there are none. */
  method RecentOnBoth(limit: nat, memory: MemoryStore.MemoryStore, valkey: ValkeyEvents.ValkeyStore)
    returns (a: seq<FailoverEvent>, b: seq<FailoverEvent>)
    requires InStep(memory, valkey)
    ensures a == b <==> limit > 0 || memory.openers == []
    ensures limit > 0 ==> a <= memory.openers && (|a| == limit || |a| == 500 || a == memory.openers)
  {
    a := memory.GetRecentEvents(limit);
    b := valkey.GetRecentEvents(limit);
  }
}
