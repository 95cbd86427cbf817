/** internal/store/valkey.go, events and locks: the same counting built from separate
    server commands. Here the commands of one call run in the same millisecond with no
    other manager in between; module Pipeline interleaves them. */
module ValkeyEvents {
  import opened Text
  import opened Event
  import opened ReportWindow
  import MemoryStore

  const VALKEY_EVENT_HISTORY_MAX: nat := 500

  datatype Counter = Counter(value: nat, deadline: Option<int>)

  /** The server side of the commands used here. The key prefixes smgr:event:dedup: and
      smgr:lock: keep counters and locks apart, so each has its own table. A key whose
      deadline is d answers while now < d + grace; it is dropped lazily, when it is next
      touched. */
  class Server {
    const grace: nat
    var counters: map<string, Counter>
    var history: seq<FailoverEvent>
    var locks: map<string, int>

    constructor (grace: nat)
      ensures this.grace == grace && counters == map[] && history == [] && locks == map[]
    {
      this.grace := grace;
      counters, history, locks := map[], [], map[];
    }

    predicate Alive(key: string, now: int)
      reads this
    {
      key in counters && (counters[key].deadline.Some? ==> now < counters[key].deadline.value + grace)
    }

    method Incr(key: string, now: int) returns (value: nat)
      modifies `counters
      ensures value == if old(Alive(key, now)) then old(counters)[key].value + 1 else 1
      ensures counters == old(counters)[
                key := Counter(value, if old(Alive(key, now)) then old(counters)[key].deadline else None)]
    {
      var deadline := None;
      value := 1;
      if Alive(key, now) {
        value, deadline := counters[key].value + 1, counters[key].deadline;
      }
      counters := counters[key := Counter(value, deadline)];
    }

    /** A deadline that is not in the future deletes the key at once. */
    method Expire(key: string, seconds: int, now: int)
      modifies `counters
      ensures counters ==
              if !old(Alive(key, now)) || seconds <= 0 then old(counters) - {key}
              else old(counters)[key := old(counters)[key].(deadline := Some(now + 1000 * seconds))]
    {
      if Alive(key, now) && seconds > 0 {
        counters := counters[key := counters[key].(deadline := Some(now + 1000 * seconds))];
      } else {
        counters := counters - {key};
      }
    }

    method Get(key: string, now: int) returns (value: Option<nat>)
      ensures value == if Alive(key, now) then Some(counters[key].value) else None
    {
      value := if Alive(key, now) then Some(counters[key].value) else None;
    }

    method Lpush(element: FailoverEvent)
      modifies `history
      ensures history == [element] + old(history)
    {
      history := [element] + history;
    }

    method LtrimTo(n: nat)
      modifies `history
      ensures history == MemoryStore.Newest(old(history), n)
    {
      history := if |history| > n then history[..n] else history;
    }

    /** LRANGE 0 stop: up to and including stop, which counts from the end when negative. */
    method LrangeTo(stop: int) returns (elements: seq<FailoverEvent>)
      ensures elements == var end := (if stop < 0 then |history| + stop else stop) + 1;
                          if end <= 0 then [] else MemoryStore.Newest(history, end)
    {
      var end := (if stop < 0 then |history| + stop else stop) + 1;
      elements := if end <= 0 then [] else if end < |history| then history[..end] else history;
    }

    /** SET key 1 NX EX ttl. */
    method SetNxEx(key: string, ttl: int, now: int) returns (done: bool)
      modifies `locks
      ensures done <==> key in old(locks) ==> old(locks)[key] + grace <= now
      ensures locks == if done then old(locks)[key := now + ttl] else old(locks)
    {
      done := key !in locks || locks[key] + grace <= now;
      if done {
        locks := locks[key := now + ttl];
      }
    }

    method DelLock(key: string)
      modifies `locks
      ensures locks == old(locks) - {key}
    {
      locks := locks - {key};
    }
  }

  /** The counter of a key is the window it is in, or has run out with it. */
  ghost predicate CounterFits(
    counters: map<string, Counter>, grace: nat, key: string, win: seq<Report>, w: int, clock: int)
  {
    if key in counters then
      var c := counters[key];
      win != [] && c.value == |win| && c.deadline.Some? && c.deadline.value + grace == win[0].time + w
    else
      !MemoryStore.Open(win, w, clock)
  }

  ghost predicate CountersFit(counters: map<string, Counter>, grace: nat, log: seq<Report>, w: int, clock: int) {
    forall key :: CounterFits(counters, grace, key, Current(KeyReports(log, key), w), w, clock)
  }

  /** The counters after INCR and, for the opener, EXPIRE. */
  function Counted(counters: map<string, Counter>, grace: nat, key: string, seconds: int, now: int)
    : map<string, Counter>
  {
    if key in counters && (counters[key].deadline.Some? ==> now < counters[key].deadline.value + grace) then
      counters[key := counters[key].(value := counters[key].value + 1)]
    else if seconds <= 0 then counters - {key}
    else counters[key := Counter(1, Some(now + 1000 * seconds))]
  }

  /** One report moves its own key to the next window and no other key. */
  lemma CountedFits(
    counters: map<string, Counter>, grace: nat, win: seq<Report>, seconds: int, clock: int, report: Report, key: string)
    requires CounterFits(counters, grace, key, win, Window(seconds, grace), clock) && clock <= report.time
    ensures var w := Window(seconds, grace);
      CounterFits(Counted(counters, grace, report.key, seconds, report.time), grace, key,
                  if key == report.key then Next(win, report, w) else win, w, report.time)
  {
  }

  /** How long a window of the given number of seconds stays open, in milliseconds. */
  function Window(seconds: int, grace: nat): int {
    if seconds <= 0 then 0 else 1000 * seconds + grace
  }

  lemma AllCountedFit(
    counters: map<string, Counter>, grace: nat, log: seq<Report>, seconds: int, clock: int, report: Report)
    requires CountersFit(counters, grace, log, Window(seconds, grace), clock) && clock <= report.time
    ensures CountersFit(Counted(counters, grace, report.key, seconds, report.time), grace,
                        log + [report], Window(seconds, grace), report.time)
    ensures KeyReports(log + [report], report.key) != []
    ensures report.key in counters ==> counters[report.key].deadline.Some? && counters[report.key].value >= 1
    ensures |LastWindow(KeyReports(log + [report], report.key), Window(seconds, grace))| ==
            if report.key in counters && report.time < counters[report.key].deadline.value + grace
            then counters[report.key].value + 1 else 1
  {
    var after, w := Counted(counters, grace, report.key, seconds, report.time), Window(seconds, grace);
    var win := Current(KeyReports(log, report.key), w);
    assert CounterFits(counters, grace, report.key, win, w, clock);
    forall key ensures CounterFits(after, grace, key, Current(KeyReports(log + [report], key), w), w, report.time) {
      MemoryStore.CurrentAppend(log, report, key, w);
      CountedFits(counters, grace, Current(KeyReports(log, key), w), seconds, clock, report, key);
    }
    MemoryStore.KeyReportsAppend(log, report, report.key);
    MemoryStore.CurrentAppend(log, report, report.key, w);
    assert LastWindow(KeyReports(log + [report], report.key), w) == Next(win, report, w);
  }

  class ValkeyStore {
    const server: Server
    const dedupWindow: int  // seconds

    ghost var clock: int
    ghost var log: seq<Report>
    ghost var openers: seq<FailoverEvent>

    ghost function W(): int { Window(dedupWindow, server.grace) }

    ghost predicate Valid()
      reads this, server
    {
      && CountersFit(server.counters, server.grace, log, W(), clock)
      && server.history == MemoryStore.Newest(openers, VALKEY_EVENT_HISTORY_MAX)
    }

    constructor (server: Server, dedupWindowSeconds: int, ghost startedAt: int)
      requires server.counters == map[] && server.history == []
      ensures Valid() && this.server == server && dedupWindow == dedupWindowSeconds
      ensures log == [] && openers == [] && clock == startedAt
    {
      this.server := server;
      dedupWindow := dedupWindowSeconds;
      log, openers, clock := [], [], startedAt;
    }

    /** The commands of RecordEvent. */
    method RunCommands(event: FailoverEvent, now: int) returns (count: nat)
      requires server.Alive(RawKey(event), now) ==> server.counters[RawKey(event)].value >= 1
      modifies server`counters, server`history
      ensures server.counters == Counted(old(server.counters), server.grace, RawKey(event), dedupWindow, now)
      ensures count ==
              if old(server.Alive(RawKey(event), now)) then old(server.counters)[RawKey(event)].value + 1 else 1
      ensures server.history ==
              if count == 1 then MemoryStore.Newest([event] + old(server.history), VALKEY_EVENT_HISTORY_MAX)
              else old(server.history)
    {
      var key := RawKey(event);
      count := server.Incr(key, now);
      if count == 1 {
        server.Expire(key, dedupWindow, now);
        server.Lpush(event);
        server.LtrimTo(VALKEY_EVENT_HISTORY_MAX);
      }
    }

    /** The same answer as the in-memory store's, over the same specification. */
    method RecordEvent(event: FailoverEvent, now: int) returns (count: nat)
      requires Valid() && clock <= now
      modifies this`clock, this`log, this`openers, server`counters, server`history
      ensures Valid() && clock == now
      ensures log == old(log) + [Report(RawKey(event), event.sentinelNodeName, now)]
      ensures count == |LastWindow(KeyReports(log, RawKey(event)), W())|
      ensures openers == if count == 1 then [event] + old(openers) else old(openers)
    {
      ghost var report := Report(RawKey(event), event.sentinelNodeName, now);
      AllCountedFit(server.counters, server.grace, log, dedupWindow, clock, report);
      count := RunCommands(event, now);
      clock, log := now, log + [report];
      if count == 1 {
        MemoryStore.NewestOfMore(event, openers, VALKEY_EVENT_HISTORY_MAX);
        openers := [event] + openers;
      }
    }

    method GetEventCount(dedupKey: string, now: int) returns (count: nat)
      requires Valid() && clock <= now
      ensures var win := Current(KeyReports(log, dedupKey), W());
        count == if win != [] && now < win[0].time + W() then |win| else 0
    {
      assert CounterFits(server.counters, server.grace, dedupKey, Current(KeyReports(log, dedupKey), W()), W(), clock);
      var value := server.Get(dedupKey, now);
      return if value.Some? then value.value else 0;
    }

    /** The newest window openers, as in the in-memory store, except that a limit of zero
        gives all of them. */
    method GetRecentEvents(limit: nat) returns (recent: seq<FailoverEvent>)
      requires Valid()
      ensures recent <= openers && |recent| <= 500 && (limit > 0 ==> |recent| <= limit)
      ensures (limit > 0 && |recent| == limit) || |recent| == 500 || recent == openers
    {
      recent := server.LrangeTo(limit - 1);
    }

    method AcquireLock(key: string, ttl: int, now: int) returns (acquired: bool)
      modifies server`locks
      ensures acquired <==> key in old(server.locks) ==>
                            old(server.locks)[key] + server.grace <= now
      ensures server.locks == if acquired then old(server.locks)[key := now + ttl] else old(server.locks)
    {
      acquired := server.SetNxEx(key, ttl, now);
    }

    method ReleaseLock(key: string)
      modifies server`locks
      ensures server.locks == old(server.locks) - {key}
    {
      server.DelLock(key);
    }
  }
}
