/** internal/store/memory.go: the mutex-protected in-memory store. Every method runs
    under the mutex, so it is one atomic step; the wall clock is a parameter in integer
    milliseconds and never goes back. */
module MemoryStore {
  import opened Text
  import opened Cluster
  import opened Event
  import opened ReportWindow

  const EVENT_HISTORY_MAX: nat := 500

  datatype DedupEntry = DedupEntry(count: nat, event: FailoverEvent, expiresAt: int)

  function Newest(events: seq<FailoverEvent>, limit: nat): seq<FailoverEvent> {
    if |events| > limit then events[..limit] else events
  }

  /** The window still counts at a given time. */
  predicate Open(win: seq<Report>, w: int, now: int) { win != [] && now < win[0].time + w }

  function Unexpired(events: map<string, DedupEntry>, now: int): map<string, DedupEntry> {
    map key | key in events && events[key].expiresAt > now :: events[key]
  }

  /** An entry is the window its key is in, or is missing once that window is over. */
  ghost predicate EntryFits(events: map<string, DedupEntry>, key: string, win: seq<Report>, w: int, clock: int) {
    if key in events then
      win != [] && events[key].expiresAt == win[0].time + w && events[key].count == |win|
    else
      !Open(win, w, clock)
  }

  lemma CleanupKeepsFit(events: map<string, DedupEntry>, key: string, win: seq<Report>, w: int, clock: int, now: int)
    requires EntryFits(events, key, win, w, clock) && clock <= now
    ensures EntryFits(Unexpired(events, now), key, win, w, now)
  {
  }

  /** The table after one report: expired entries are gone, the reported key counts one
      more or starts a window, every other key keeps its entry. */
  function Counted(events: map<string, DedupEntry>, report: Report, event: FailoverEvent, w: int)
    : (after: map<string, DedupEntry>)
    ensures report.key in after
  {
    var live := Unexpired(events, report.time);
    live[report.key := if report.key in live then live[report.key].(count := live[report.key].count + 1)
                       else DedupEntry(1, event, report.time + w)]
  }

  lemma KeyReportsAppend(log: seq<Report>, report: Report, key: string)
    ensures KeyReports(log + [report], key) == KeyReports(log, key) + if report.key == key then [report] else []
  {
    assert (log + [report])[..|log|] == log;
  }

  /** One report moves its own key to the next window and no other key. */
  lemma CountedFits(
    events: map<string, DedupEntry>, win: seq<Report>, w: int, clock: int,
    report: Report, event: FailoverEvent, key: string)
    requires EntryFits(events, key, win, w, clock) && clock <= report.time
    ensures EntryFits(Counted(events, report, event, w), key,
                      if key == report.key then Next(win, report, w) else win, w, report.time)
  {
  }

  lemma CurrentAppend(log: seq<Report>, report: Report, key: string, w: int)
    ensures var win := Current(KeyReports(log, key), w);
      Current(KeyReports(log + [report], key), w) == if key == report.key then Next(win, report, w) else win
  {
    KeyReportsAppend(log, report, key);
    var rs := KeyReports(log, key);
    if key == report.key {
      WindowsAppend(rs, report, w);
    } else {
      assert rs + [] == rs;
    }
  }

  ghost predicate TableFits(events: map<string, DedupEntry>, log: seq<Report>, w: int, clock: int) {
    forall key :: EntryFits(events, key, Current(KeyReports(log, key), w), w, clock)
  }

  lemma CountedTableFits(
    events: map<string, DedupEntry>, log: seq<Report>, w: int, clock: int, report: Report, event: FailoverEvent)
    requires TableFits(events, log, w, clock) && clock <= report.time
    ensures TableFits(Counted(events, report, event, w), log + [report], w, report.time)
    ensures KeyReports(log + [report], report.key) != []
    ensures Counted(events, report, event, w)[report.key].count
         == |LastWindow(KeyReports(log + [report], report.key), w)|
  {
    var after := Counted(events, report, event, w);
    forall key ensures EntryFits(after, key, Current(KeyReports(log + [report], key), w), w, report.time) {
      CurrentAppend(log, report, key, w);
      CountedFits(events, Current(KeyReports(log, key), w), w, clock, report, event, key);
    }
    KeyReportsAppend(log, report, report.key);
    assert EntryFits(after, report.key, Current(KeyReports(log + [report], report.key), w), w, report.time);
  }

  /** A key that was still counting goes beyond one, any other key starts with it. */
  lemma EntriesCount(
    events: map<string, DedupEntry>, log: seq<Report>, w: int, report: Report, event: FailoverEvent, clock: int)
    requires TableFits(events, log, w, clock)
    ensures report.key in Unexpired(events, report.time) <==> Counted(events, report, event, w)[report.key].count != 1
  {
    assert EntryFits(events, report.key, Current(KeyReports(log, report.key), w), w, clock);
  }

  /** Trimming again after one more event. */
  lemma NewestOfMore(event: FailoverEvent, events: seq<FailoverEvent>, limit: nat)
    ensures Newest([event] + Newest(events, limit), limit) == Newest([event] + events, limit)
  {
  }

  lemma CleanupTableFits(events: map<string, DedupEntry>, log: seq<Report>, w: int, clock: int, now: int)
    requires TableFits(events, log, w, clock) && clock <= now
    ensures TableFits(Unexpired(events, now), log, w, now)
  {
    forall key ensures EntryFits(Unexpired(events, now), key, Current(KeyReports(log, key), w), w, now) {
      CleanupKeepsFit(events, key, Current(KeyReports(log, key), w), w, clock, now);
    }
  }

  /** What SaveCluster keeps: every cluster is stored under its own master name. */
  predicate SelfNamed(table: map<string, Cluster>) { forall n <- table :: table[n].masterName == n }

  /** Every cluster of the table once, in any order. */
  ghost predicate Lists(list: seq<Cluster>, table: map<string, Cluster>) {
    && (forall c :: c in list <==> c.masterName in table && table[c.masterName] == c)
    && (forall i, j | 0 <= i < j < |list| :: list[i].masterName != list[j].masterName)
  }

  class MemoryStore {
    const dedupWindow: int
    var events: map<string, DedupEntry>
    var eventHistory: seq<FailoverEvent>
    var locks: map<string, int>
    var clusters: map<string, Cluster>

    ghost var clock: int
    ghost var log: seq<Report>
    /** Every event that opened a window, newest first. */
    ghost var openers: seq<FailoverEvent>

    ghost predicate Valid()
      reads this
    {
      && TableFits(events, log, dedupWindow, clock)
      && eventHistory == Newest(openers, EVENT_HISTORY_MAX)
    }

    constructor (dedupWindowMillis: int, ghost startedAt: int)
      ensures Valid() && dedupWindow == dedupWindowMillis
      ensures log == [] && openers == [] && clock == startedAt
      ensures locks == map[] && clusters == map[]
    {
      dedupWindow := dedupWindowMillis;
      events, eventHistory, locks, clusters := map[], [], map[], map[];
      log, openers, clock := [], [], startedAt;
    }

    /** Deletes every entry whose window is over. */
    method CleanupExpired(now: int)
      modifies `events
      ensures events == Unexpired(old(events), now)
    {
      var todo := events.Keys;
      ghost var before := events;
      while todo != {}
        invariant todo <= before.Keys
        invariant events == map key | key in before && (key in todo || before[key].expiresAt > now) :: before[key]
        decreases todo
      {
        var key :| key in todo;
        if events[key].expiresAt <= now {
          events := events - {key};
        }
        todo := todo - {key};
      }
    }

    /** What RecordEvent does to the table and the history. */
    method CountReport(event: FailoverEvent, now: int) returns (count: nat)
      modifies `events, `eventHistory
      ensures events == Counted(old(events), Report(RawKey(event), event.sentinelNodeName, now), event, dedupWindow)
      ensures count == events[RawKey(event)].count
      ensures eventHistory ==
              if RawKey(event) in Unexpired(old(events), now) then old(eventHistory)
              else Newest([event] + old(eventHistory), EVENT_HISTORY_MAX)
    {
      CleanupExpired(now);
      var key := RawKey(event);
      if key in events {
        count := events[key].count + 1;
        events := events[key := events[key].(count := count)];
        return;
      }
      events := events[key := DedupEntry(1, event, now + dedupWindow)];
      eventHistory := [event] + eventHistory;
      if |eventHistory| > EVENT_HISTORY_MAX {
        eventHistory := eventHistory[..EVENT_HISTORY_MAX];
      }
      return 1;
    }

    /** The count is the position of the report in its own key's fixed window. */
    method RecordEvent(event: FailoverEvent, now: int) returns (count: nat)
      requires Valid() && clock <= now
      modifies `events, `eventHistory, `log, `openers, `clock
      ensures Valid() && clock == now
      ensures log == old(log) + [Report(RawKey(event), event.sentinelNodeName, now)]
      ensures count == |LastWindow(KeyReports(log, RawKey(event)), dedupWindow)|
      ensures openers == if count == 1 then [event] + old(openers) else old(openers)
    {
      ghost var report := Report(RawKey(event), event.sentinelNodeName, now);
      CountedTableFits(events, log, dedupWindow, clock, report, event);
      EntriesCount(events, log, dedupWindow, report, event, clock);
      count := CountReport(event, now);
      clock, log := now, log + [report];
      if count == 1 {
        NewestOfMore(event, openers, EVENT_HISTORY_MAX);
        openers := [event] + openers;
      }
    }

    /** A key counts the reports of its open window and nothing once that is over. */
    method GetEventCount(dedupKey: string, now: int) returns (count: nat)
      requires Valid() && clock <= now
      modifies `events, `clock
      ensures Valid() && clock == now
      ensures var win := Current(KeyReports(log, dedupKey), dedupWindow);
        count == if win != [] && now < win[0].time + dedupWindow then |win| else 0
    {
      CleanupTableFits(events, log, dedupWindow, clock, now);
      CleanupExpired(now);
      clock := now;
      assert EntryFits(events, dedupKey, Current(KeyReports(log, dedupKey), dedupWindow), dedupWindow, now);
      return if dedupKey in events then events[dedupKey].count else 0;
    }

    /** The newest window openers. */
    method GetRecentEvents(limit: nat) returns (recent: seq<FailoverEvent>)
      requires Valid()
      ensures recent <= openers && (|recent| == limit || |recent| == 500 || recent == openers)
      ensures |recent| <= limit && |recent| <= 500
    {
      var n := if limit > |eventHistory| then |eventHistory| else limit;
      recent := eventHistory[..n];
    }

    /** A lock is granted when it is free or its time is up. */
    method AcquireLock(key: string, ttl: int, now: int) returns (acquired: bool)
      modifies `locks
      ensures acquired <==> key in old(locks) ==> old(locks)[key] <= now
      ensures locks == if acquired then old(locks)[key := now + ttl] else old(locks)
    {
      if key in locks && locks[key] > now {
        return false;
      }
      locks := locks[key := now + ttl];
      return true;
    }

    /** Whoever calls this frees the lock: there is no owner check. */
    method ReleaseLock(key: string)
      modifies `locks
      ensures locks == old(locks) - {key}
    {
      locks := locks - {key};
    }

    method SaveCluster(c: Cluster)
      modifies `clusters
      ensures clusters == old(clusters)[c.masterName := c]
    {
      clusters := clusters[c.masterName := c];
    }

    method DeleteCluster(masterName: string) returns (existed: bool)
      modifies `clusters
      ensures existed == (masterName in old(clusters)) && clusters == old(clusters) - {masterName}
    {
      existed := masterName in clusters;
      clusters := clusters - {masterName};
    }

    method GetCluster(masterName: string) returns (found: Option<Cluster>)
      ensures found == if masterName in clusters then Some(clusters[masterName]) else None
    {
      found := if masterName in clusters then Some(clusters[masterName]) else None;
    }

    /** The order is that of a Go map, so any. */
    method ListClusters() returns (result: seq<Cluster>)
      requires SelfNamed(clusters)
      ensures Lists(result, clusters)
    {
      var left := clusters.Keys;
      result := [];
      while left != {}
        invariant left <= clusters.Keys
        invariant Lists(result, clusters - left)
        decreases |left|
      {
        var name :| name in left;
        result := result + [clusters[name]];
        left := left - {name};
      }
      assert clusters - {} == clusters;
    }
  }
}
