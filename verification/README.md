# Valkey Sentinel Manager: a verified model

Valkey Sentinel Manager turns repeated and concurrent reports from Sentinel agents into DNS
changes. This project models that pipeline in Dafny and proves what it promises, and where it
does not keep the promise it proves exactly when it does. `dafny verify dfyconfig.toml` checks
everything.

Three layers carry the main results.

* **Counting.** `ReportWindow` is a pure specification: the reports of one key are cut greedily
  into fixed windows, and a report's count is its position in its window. The mutex-protected
  store (`MemoryStore`), the command-based store (`ValkeyEvents`) and the trigger decision
  (`EventProcessor`) are classes proved against it; `EventStores` runs the two stores side by side.
* **The protocol.** `Pipeline` is a step system with any number of managers, events and keys. One
  step is one Valkey command or one DNS call; replies get lost and managers crash at any point.
  `PipelineEffects` says field by field what a step does; from that `PipelineCounting`,
  `PipelineLocks`, `PipelineWrites`, `PipelineSections` and `PipelineQuorum` prove invariants over
  all its runs. `PipelineConflicts`, `PipelineWindows` and `PipelineStuck` build runs from the start
  in which a promise fails.
  `PingFanout` (health check fan-out) and `ClusterIndex` (cluster key plus index set) are two
  smaller protocols of the same kind.
* **The records.** `RecordSet` says what one DNS record is. `Route53` (read, compute, upsert) and
  `Cloudflare` (one remote record per value) both refine it, `Providers` runs them side by side,
  `Replicas` is what the handlers choose from Sentinel's answer, and `FailoverManager` is the
  class that drives a provider from events.

Beside these stand the strings that carry meaning (`Event` for dedup keys, `Template`,
`TemplateMeaning` and `TemplateVars` for the substitution, `Address` and `Agent` for what is printed
and parsed back), the health transitions (`HealthChecker`), the cluster stores (`ClusterTable`,
`ValkeyClusters`, `ClusterStores`) and the login limiter and session table (`SessionManager`).

## Assumptions

* Time is an integer number of milliseconds on one clock that never goes back; within a run the
  registered clusters, providers and windows do not change.
* SHA-256 is injective, session identifiers are fresh, encryption and JSON read back what they wrote.
* Mutual exclusion is proved under the assumption `PipelineLocks.Timely`: every call under a lock
  releases it strictly before 30 seconds have passed. `EntersExactlyWhenOverstayed` and
  `LateReleaseRun` show that this is needed.
* That the writes to a primary record are serialised is proved under
  `PipelineSections.DistinctRecord` as well, and that replica updates are not lost under
  `OwnGroupOnly`: no other mapping, and no mapping of another group, names the record. The API
  checks neither.
* A remote call that reports a failure may or may not have taken effect.

## What the code does differently from what it says

* The documentation of `internal/models/event.go:68` lists three key forms; any unknown event type
  shares the failover form, and the model follows the code.
* A quorum threshold below 1 never triggers (`TriggersAreWindowsReached`), and the API accepts it.
* Counts are reports, not sentinels. q reports are q sentinels exactly when none reported twice
  (`TriggerHasReporters`), and one sentinel can reach any quorum alone (`OneSentinelQuorumRun`).
* If the manager that opened a dedup key dies before its EXPIRE, the key counts forever, and once it
  has passed the target it never triggers again. `EndsUnlessStuck` gives the exact condition,
  `OpenerCrashRun` the run.
* Locks have no owner. A call can enter a held lock exactly when the holder has overstayed
  (`EntersExactlyWhenOverstayed`), and its late release then frees somebody else's lock
  (`LateReleaseRun`).
* Replica events of one group exclude each other (`ReplicaWritesSerialised`), but failover and
  replica events of one cluster lock different keys. So while a failover is under its lock an update
  of the replica record can be lost and the new master come back as a replica, however timely
  everyone is (`LostUpdateRun`); without such a failover none is lost (`ReplicaUpdateNotLost`).
* Locks are per cluster and per group, not per record. Nothing keeps two clusters, or the two
  mappings of one, from naming the same record, and then its writes are not serialised
  (`SharedRecordRun`, `SharedWithReplicaRun`) and its updates can be lost (`SharedReplicaRun`).
* A failover does not always take the new master out of the replica record
  (`NewMasterListedExactly`). A promoted replica that was listed stays listed without a Sentinel
  answer on a multi-replica cluster, or on a single-replica one when the old master's address is
  invalid; and with an answer when all its slaves are masters and there is no valid other address
  of an old master. It is even written when a single-replica failover without an answer names one
  address as old and new master.
* A lost replica stays listed when no other slave is healthy, or no other value is left
  (`LostListedExactly`); Sentinel's master stays listed when replica_up only adds a value or has
  nothing to write (`MasterListedExactly`).
* With a zone that is given with its closing dot, Cloudflare keeps the dot at the end of the name and
  Route53 does not add one, so their names agree only for zones without it (`SameDomainName`).
* Cloudflare stores every value as an address record, so it agrees with Route53 for type A only
  (`OtherTypesDiverge`).
* A master named `index` overwrites the index of all clusters (`ClusterStores.RunBoth`), and a save
  between the commands of a delete leaves a cluster that no listing shows (`SavedButUnlisted`).
* The longest-name-first order keeps `$ips` from being read as `$ip`, but a value filled in earlier
  can complete `$ip` to `$ips` (`SequentialIsOnePass` gives the exact condition).
* Names with a colon make different masters share a counter (`ColonInNameCollides`). If their
  clusters ask for different counts, one window of the counter then updates the primary records of
  both (`TwoInOneWindowExactly`). They share a failover lock too (`ColonSharesLock`); `Pipeline`
  keeps locks by the text of the key, as the server does.
* A key of the server can answer past its deadline, so the two event stores differ about a report
  that comes in that time, and only then (`EventStores.RunBoth`).
* A bare IPv6 address that ends in a decimal group loses that group to the port (`BareHostKept`).
* A limit of zero returns no recent events from one store and all of them from the other
  (`RecentOnBoth`).
* The login limiter counts per remote address, and `internal/web/admin.go:179` passes host and port.
  After five wrong passwords from 10.0.0.1:50001 an attempt from 10.0.0.1:50002 is admitted at the
  same instant (`OtherPortIsAdmitted`). A host's failures are spaced as long as they come from one
  port (`SixOfOneHost`).

## Model

| member | source | states |
|---|---|---|
| `Event.RawKeyIsSubject` | internal/models/event.go:74-90 | for colon-free names and addresses that do not read like replica keys, two events have equal raw keys if and only if they are of the same class and agree on that class's fields, IPv6 colons included |
| `Event.CollidesExactlyWhenShadowing` | internal/models/event.go:74-90 | the address condition is exact: a well-named failover event shares its key with a well-named event about something else if and only if its target address reads like a replica key |
| `Event.ColonInNameCollides` | internal/models/event.go:85-86 | the name condition is needed: with a colon in a name two different masters share one key |
| `Event.EqualKeysSameMaster` | internal/models/event.go:85-86 | for colon-free group and master names, failover events have equal keys if and only if they are about the same group, master and target, whatever the address and the reporting node are called |
| `ReportWindow.WindowsUnique` | internal/store/memory.go:65-89 | a cutting of a key's reports is greedy (each report before opener plus window, each opener not before the previous one plus window) if and only if it is `Windows` |
| `ReportWindow.WindowsAppend` | internal/store/memory.go:72-82 | only the last window decides about a new report: its count is its position in that window, or 1 in a window of its own |
| `ReportWindow.TriggersAreWindowsReached` | internal/core/event_processor.go:55-61 | the number of counts equal to the target is the number of windows that reach it for a target of at least 1, and zero below |
| `ReportWindow.QuorumNeedsReporters` | internal/core/event_processor.go:55-61 | q reports of a window, at most R from any one sentinel, come from at least q/R distinct sentinels, rounded up |
| `ReportWindow.ReportsAreReportersExactly` | internal/core/event_processor.go:55-61 | the reports of a window are as many as its sentinels if and only if no sentinel is in it twice |
| `MemoryStore.CountedTableFits` | internal/store/memory.go:56-89 | deleting expired entries and counting one report keeps every key's entry equal to that key's last window, so reports and cleanups for other keys change nothing |
| `MemoryStore.MemoryStore.CleanupExpired` | internal/store/memory.go:56-62 | exactly the entries whose window is over go |
| `MemoryStore.MemoryStore.CountReport` | internal/store/memory.go:65-89 | the table after cleanup and one more count, and the history with a new window opener in front, cut to 500 |
| `MemoryStore.MemoryStore.RecordEvent` | internal/store/memory.go:65-89 | the count is the report's position in its key's fixed window; the history is the newest 500 window openers |
| `MemoryStore.MemoryStore.GetEventCount` | internal/store/memory.go:92-101 | the size of the key's open window, zero once it is over, whether or not the entry was cleaned up |
| `MemoryStore.MemoryStore.GetRecentEvents` | internal/store/memory.go:104-114 | the newest window openers, at most limit and at most 500 |
| `MemoryStore.MemoryStore.AcquireLock` | internal/store/memory.go:117-127 | taken exactly when absent or expired, for the given time |
| `MemoryStore.MemoryStore.ListClusters` | internal/store/memory.go:231-240 | every registered cluster exactly once, in any order |
| `EventProcessor.EventProcessor.Process` | internal/core/event_processor.go:37-61 | the DNS update fires exactly on the report whose position in its window equals the threshold, or in first-come mode exactly on the one that is no duplicate |
| `EventProcessor.EventProcessor.ProcessAll` | internal/core/event_processor.go:37-61 | over any run of reports for any keys, each key's counts are its greedy window positions and it triggers once for each of its windows that reaches the target; a first-come key triggers on the opener of every window and on nothing else |
| `ReportWindow.OpenersCountOne` | internal/store/memory.go:72-82 | a report has the count 1 if and only if it is the first of its window |
| `EventProcessor.TriggerNeedsReporters` | internal/core/event_processor.go:55-61 | a quorum trigger with threshold q means at least q/R distinct sentinels in the window, rounded up, and q sentinels exactly when none of them reported twice |
| `ValkeyEvents.AllCountedFit` | internal/store/valkey.go:97-103 | INCR, with EXPIRE by the opener, keeps every key's counter equal to its last window |
| `ValkeyEvents.Server.Expire` | internal/store/valkey.go:103 | a deadline for a live key; a non-positive one deletes it at once |
| `ValkeyEvents.ValkeyStore.RunCommands` | internal/store/valkey.go:94-113 | INCR and, for the opener, EXPIRE, LPUSH and LTRIM: the counters and the history afterwards |
| `ValkeyEvents.ValkeyStore.RecordEvent` | internal/store/valkey.go:94-113 | without interleaving, the same count and the same history of openers as the in-memory store |
| `ValkeyEvents.ValkeyStore.GetEventCount` | internal/store/valkey.go:116-126 | the size of the key's open window, zero once it is over |
| `ValkeyEvents.ValkeyStore.GetRecentEvents` | internal/store/valkey.go:129-147 | the newest window openers; a limit of zero gives all of them |
| `ValkeyEvents.ValkeyStore.AcquireLock` | internal/store/valkey.go:152-162 | SET NX EX succeeds exactly when the key is absent or expired |
| `ValkeyEvents.ValkeyStore.ReleaseLock` | internal/store/valkey.go:165-171 | the key goes, whoever asks |
| `ReportWindow.SameCountsExactly` | internal/store/valkey.go:94-113 | windows of two lengths give the same counts if and only if no report comes between the ends of a short window and a long one with the same opener |
| `EventStores.RunBoth` | internal/store/valkey.go:94-113 | over any run of reports, two fresh stores with the same configured seconds give the same counts if and only if no report comes while a key of the server still answers past its deadline; then, and always when that time is zero, they keep the same history |
| `EventStores.RecentOnBoth` | internal/store/valkey.go:129-147 | the two stores give the same recent events if and only if the limit is positive or there are none |
| `LockKeys.LockTextInjective` | internal/core/failover_manager.go:123 | for colon-free names, two lock keys are equal if and only if they are the same lock |
| `LockKeys.ColonSharesLock` | internal/core/failover_manager.go:123 | the condition is needed: with a colon in a name two different clusters have one failover lock key |
| `PipelineCounting.CountsAreRanks` | internal/store/valkey.go:94-113 | in every interleaving each life of a dedup key hands out 1, 2, 3, ... without gaps or repeats, each to one call, so it has one opener |
| `PipelineCounting.GenerationsLast` | internal/store/valkey.go:102-103 | no life of a dedup key ends before its opener's EXPIRE plus the window |
| `PipelineCounting.NoCountAfterWindow` | internal/store/valkey.go:97-103 | and none hands out a count later than the window, and the time a key answers past its deadline, after EXPIRE took effect |
| `PipelineCounting.HistoryBounded` | internal/store/valkey.go:109-110 | the history is never longer than 500 plus the pushes since LTRIM last took effect, nor than 500 plus the calls whose own LTRIM has not |
| `PipelineCounting.HistoryIsNewest` | internal/store/valkey.go:109-110 | in every interleaving the history is the newest of the events that LPUSH stored, newest first, all of them up to 500, and each was pushed by the opener of its window |
| `PipelineCounting.StuckForever` | internal/store/valkey.go:102-103 | if nobody is left to send EXPIRE before it took effect, the key never expires again in any continuation |
| `PipelineStuck.EndsUnlessStuck` | internal/store/valkey.go:102-103 | a live dedup key of any run can still end in some continuation if and only if EXPIRE took effect on it or its opener is still there to send it |
| `PipelineStuck.OpenerCrashRun` | internal/store/valkey.go:97-103 | for any event, a run from the start in which the opener crashes between INCR and EXPIRE leaves the key stuck |
| `PipelineStuck.StuckNeverTriggersAgain` | internal/core/event_processor.go:55-61 | once a stuck key has counted up to the target, no later report of that key triggers in any continuation |
| `PipelineQuorum.TriggerHasReporters` | internal/core/event_processor.go:55-61 | in every interleaving a quorum trigger with threshold q has at least q/R distinct sentinels behind its counts, rounded up, and q sentinels exactly when none reported twice |
| `PipelineQuorum.OneSentinelQuorumRun` | internal/core/event_processor.go:55-61 | for any threshold, a run from the start in which a single sentinel reaches the quorum alone by delivering one report often enough |
| `PipelineCounting.CountingStep` | internal/store/valkey.go:97-112 | every step keeps counters, generations and handed-out counts consistent |
| `PipelineLocks.MutualExclusion` | internal/core/failover_manager.go:123-129 | while every holder so far was on time, no two calls are under the same lock |
| `PipelineLocks.ReleaseRemovesOwn` | internal/store/valkey.go:165-171 | under the same assumption a release removes the caller's own entry and no other |
| `PipelineLocks.AcquirableAfterTTL` | internal/core/failover_manager.go:16 | whoever holds a lock, alive or not, a waiting call can take it at any time from 30 seconds on |
| `PipelineLocks.EntersExactlyWhenOverstayed` | internal/store/valkey.go:152-162 | in any run that was timely so far, a waiting call can enter a lock another call is under if and only if that one took it at least 30 seconds ago, and then both are under it |
| `PipelineConflicts.LateReleaseRun` | internal/store/valkey.go:165-171 | a run from the start, for any three first-come failovers of one cluster, in which only the first call is late: a second enters beside it, its late release frees the second one's lock, and a third enters beside the second |
| `PipelineConflicts.LateReleaseOfAnyCluster` | internal/core/failover_manager.go:123-129 | every first-come cluster has such a run |
| `PipelineLocks.OwnershipAlways` | internal/core/failover_manager.go:124-129 | in every timely run the lock entry of each call under a lock is the one it set itself |
| `PipelineRuns.FirstComeExactly` | internal/core/event_processor.go:58-61 | an event triggers on its first report if and only if its cluster is in first-come mode or has the threshold 1, its provider is known and its address valid, and it is a failover, a replica_down of a cluster with several replicas, or a replica_up of one with a replica record |
| `PipelineWrites.NoWriteWithoutQuorum` | internal/core/failover_manager.go:35-60 | in every run each write was made by a call of a registered cluster with valid address and known provider whose count was exactly the threshold, or 1 in first-come mode; a primary record gets the failover's target, a replica record what the handler derives from some answer of Sentinel and some list (`ReplicaWriteFromRead` says which list) |
| `PipelineSections.ReplicaWriteFromRead` | internal/core/failover_manager.go:143-309 | in every run each replica write puts into the record exactly what the handler derives from Sentinel's answer and the values the record had at the call's own earlier reading step |
| `PipelineSections.PrimaryBeforeReplica` | internal/core/failover_manager.go:131-141 | in every interleaving a failover writes the replica record only after it has written the primary record itself |
| `PipelineWrites.WritesHaveValues` | internal/core/failover_manager.go:131-309 | no write of any interleaving is empty |
| `PipelineWrites.RecordsKeepValue` | internal/core/failover_manager.go:131-309 | so in every interleaving a record is empty if and only if it was at the start and nobody has written it |
| `PipelineWrites.ReplicaWritesExclude` | internal/core/failover_manager.go:143-260 | in every interleaving a failover from one address to another never writes its new master into the replica record, and a replica_down never writes the address it is about |
| `PipelineWrites.OneWritePerWindow` | internal/core/failover_manager.go:112-309 | two writes of one kind, primary or replica, from one window of a dedup key are by calls of different masters whose clusters ask for different counts, whatever the names; for primary records at least one of the names has a colon |
| `PipelineWindows.TwoInOneWindowExactly` | internal/core/failover_manager.go:112-141 | some run from the start, even a timely one, has two primary writes of one window by calls of two given failover events if and only if the events share a dedup key, both get as far as their locks, and their clusters ask for different counts of at least 1 |
| `PipelineWrites.RecordIsLastWrite` | internal/core/failover_manager.go:131-191 | in every run every DNS record, primary or replica, holds what the last call that wrote it wrote, or what it held at the start |
| `PipelineSections.AloneUnderLock` | internal/core/failover_manager.go:123-129 | in every timely run, while a call is under its lock every write to any record is its own or made by a call whose lock key is a different text |
| `PipelineSections.WritesSerialised` | internal/core/failover_manager.go:123-137 | so while a failover call is under its lock every write to its cluster's primary record is its own, when no other mapping of a registered cluster names that record |
| `PipelineConflicts.SharedRecordRun` | internal/core/failover_manager.go:123-137 | the condition is needed: with two clusters that name one primary record and lock different keys, a timely run in which the second call overwrites it while the first is under its lock |
| `PipelineConflicts.SharedWithReplicaRun` | internal/core/failover_manager.go:287-309 | and when the record is a primary record of one mapping and a replica record of another, even of the same cluster: a timely run in which a replica_up overwrites it while the failover is under its lock |
| `PipelineSections.ReplicaWritesSerialised` | internal/core/failover_manager.go:205-309 | the replica handlers of one group exclude each other: in every timely run, while one is under its lock every write is its own, a failover's, or another group's |
| `PipelineSections.UpdateNotLost` | internal/core/failover_manager.go:143-309 | in a timely run, when nobody whose event names the record is under a different lock between a call's reading and its writing step, the write is the chosen change of the record as it stands at the write |
| `PipelineSections.ReplicaUpdateNotLost` | internal/core/failover_manager.go:205-309 | for replica_down and replica_up that holds when no other group's mapping names the record and no failover that names it is under its lock meanwhile |
| `PipelineSections.InterferesExactly` | internal/core/failover_manager.go:112-309 | in a run timely so far, another call can write a record in the next step while a call is under its lock if and only if one is about to write it under a different lock |
| `PipelineConflicts.LostUpdateRun` | internal/core/failover_manager.go:220-309 | the failover condition is needed: a timely run from the start in which a failover takes the new master out of the replica record and a replica_up of the same cluster, with the list it read before, writes it back; both succeed, and neither order of the two would have left it |
| `PipelineConflicts.SharedReplicaRun` | internal/core/failover_manager.go:281-309 | the group condition is needed: a timely run in which two replica_up calls of different groups add their slaves to one record and the first one's is lost |
| `RecordSet.ListCarriesSet` | internal/dns/route53.go:110-211 | each operation on a duplicate-free list of values is the operation on the set of values and leaves no duplicates |
| `RecordSet.NeverEmptied` | internal/dns/route53.go:154-180 | a record with a value loses its last one only through deletion |
| `Route53.Provider.GetRecords` | internal/dns/route53.go:85-107 | the stored values of exactly this record, although the listing may return the next one in the zone |
| `Route53.Provider.UpdateRecord` | internal/dns/route53.go:110-116 | the record becomes the one value, or fails with all or nothing done; no other record set changes |
| `Route53.Provider.UpdateRecordValues` | internal/dns/route53.go:120-130 | the record becomes the values, an empty list changes nothing |
| `Route53.Provider.AddRecordValue` | internal/dns/route53.go:134-150 | the value is appended unless present |
| `Route53.Provider.RemoveRecordValue` | internal/dns/route53.go:154-180 | the value goes; refused exactly when it is the last one |
| `Route53.Provider.DeleteRecord` | internal/dns/route53.go:184-211 | the record set goes |
| `Route53.TrimDotInjective` | internal/dns/route53.go:97 | comparing names without their closing dot confuses no two names of the zone |
| `Route53.FqdnInZone` | internal/dns/route53.go:54-60 | the name written is the record's name, a dot and the zone, closed by one dot |
| `Route53.FqdnInjective` | internal/dns/route53.go:54-60 | in one zone different records have different names |
| `Cloudflare.Provider.UpdateRecord` | internal/dns/cloudflare.go:73-117 | success means the new value is there and everything else was there before, although delete errors are ignored; without API errors exactly the value is left |
| `Cloudflare.Provider.UpdateRecordValues` | internal/dns/cloudflare.go:120-158 | success means all requested values are there and nothing beyond them and the old contents; without API errors exactly the requested values |
| `Cloudflare.Provider.AddRecordValue` | internal/dns/cloudflare.go:161-192 | the value is there and nothing else changed, or the call failed and nothing changed |
| `Cloudflare.Provider.RemoveRecordValue` | internal/dns/cloudflare.go:195-224 | for duplicate-free contents the value goes, refused exactly when it is the last one, and a failure leaves either state |
| `Cloudflare.Provider.DeleteRecord` | internal/dns/cloudflare.go:227-240 | success leaves no address value; records of other names and types are untouched |
| `Cloudflare.Provider.DeleteIgnoringErrors` | internal/dns/cloudflare.go:133-138 | only listed records go, and all of them when no call failed |
| `Cloudflare.Provider.CreateEach` | internal/dns/cloudflare.go:140-155 | success adds every value; stopping at an error leaves a part of them |
| `Cloudflare.API.List` | internal/dns/cloudflare.go:47-70 | every record of the name and type once, in any order |
| `Cloudflare.RestDeleted` | internal/dns/cloudflare.go:94-114 | whatever the ignored deletions left, the updated record is there and the contents lie within old contents and new value |
| `Cloudflare.FullNameInjective` | internal/dns/cloudflare.go:48 | the name written is the record's name, a dot and the zone; in one zone different records have different names |
| `Providers.RunBoth` | internal/dns/cloudflare.go:73-240 | for address records and duplicate-free states and lists, any sequence of operations without API errors gives both providers the same values and the same refusals, those of the abstract record, under the same domain name exactly when the zone has no closing dot; records of other names and types stay untouched |
| `Providers.SameDomainName` | internal/dns/route53.go:54-60 | but for the closing dot both providers write one name if and only if the zone is given, without a dot at its end |
| `Providers.OtherTypesDiverge` | internal/dns/cloudflare.go:80-186 | storing new values under any type other than A, whether or not it has records, is reported done by both without API errors, but only Route53 has them there; Cloudflare has them as address records |
| `Replicas.SlavesAfterFailover` | internal/core/failover_manager.go:152-168 | the loops compute the healthy slaves other than both masters, or all of those when none is healthy, in Sentinel's order |
| `Replicas.SlavesWithoutLost` | internal/core/failover_manager.go:234-245 | the healthy slaves other than Sentinel's master and the lost replica, in order |
| `Replicas.HealthySlaveIPs` | internal/core/failover_manager.go:314-322 | the healthy slaves other than the master, in order |
| `Replicas.AllSlaveIPs` | internal/core/failover_manager.go:325-333 | all slaves other than the master, in order |
| `Replicas.PickIsFilter` | internal/core/failover_manager.go:153-160 | an address is picked if and only if some passing slave has it |
| `Replicas.PickKeepsOrder` | internal/core/failover_manager.go:153-160 | the picked addresses are those at the increasing positions of exactly the passing slaves, so Sentinel's order is kept |
| `Replicas.PreferHealthyIsFilter` | internal/core/failover_manager.go:152-168 | only slaves other than the masters are picked, and nothing exactly when there are none |
| `Replicas.HealthyExactly` | internal/core/failover_manager.go:242 | a slave counts as healthy if and only if its flags do not have s_down anywhere, whatever stands before or behind it |
| `Replicas.HealthyPreferred` | internal/core/failover_manager.go:152-168 | with such a slave among the others exactly those are picked, and otherwise all the others |
| `Replicas.FailoverListsServing` | internal/core/failover_manager.go:143-191 | when Sentinel names a slave without s_down other than the masters, a failover leaves exactly the addresses of those slaves in the record |
| `Replicas.DownListsServing` | internal/core/failover_manager.go:229-260 | and so does a replica_down, for the slaves other than the master and the lost one |
| `Replicas.UpListsServing` | internal/core/failover_manager.go:281-289 | and a replica_up of a cluster with several replicas, for those other than the master |
| `Replicas.FailoverWriteExcludesNewMaster` | internal/core/failover_manager.go:143-191 | every replica write of a failover leaves out the new master, except without Sentinel's slaves when the event names one address as old and new master; a list of slaves leaves out Sentinel's master too |
| `Replicas.NewMasterListedExactly` | internal/core/failover_manager.go:143-191 | the exact condition, for any list before, under which the record lists the new master after a failover: it did before and there was nothing to write, or the event names it as old master too; a non-empty record stays non-empty |
| `Replicas.DownWriteExcludesLost` | internal/core/failover_manager.go:229-260 | every list written by replica_down has only healthy slaves of Sentinel's, neither its master nor the lost address; without slaves the lost address is removed |
| `Replicas.LostListedExactly` | internal/core/failover_manager.go:229-260 | the lost address is still listed if and only if it was and there is no other healthy slave, or without slaves no other value; a non-empty record stays non-empty |
| `Replicas.UpWriteExcludesMaster` | internal/core/failover_manager.go:281-310 | replica_up never writes or adds the address that Sentinel reports as master |
| `Replicas.MasterListedExactly` | internal/core/failover_manager.go:281-310 | the record lists Sentinel's master after a replica_up if and only if it did before and the event wrote nothing or only added a value; a non-empty record stays non-empty |
| `FailoverManager.FailoverManager.UpdateReplicas` | internal/core/failover_manager.go:143-191 | the replica record becomes what the fallback branches choose, or an API call failed and it kept its values; nothing else changed |
| `FailoverManager.FailoverManager.HandleFailover` | internal/core/failover_manager.go:112-202 | with a valid target, its own provider and the lock group:master:failover free, the primary record becomes the target address and only then the replica record changes, also when they are one record, and the lock is given back; otherwise nothing changes |
| `FailoverManager.FailoverOutcomeMeans` | internal/core/failover_manager.go:112-202 | without API errors the primary record then holds the new master alone, and the replica record exactly the slaves that serve, if any; without slaves from Sentinel it holds the old master on a single-replica cluster, or what it held |
| `FailoverManager.FailoverManager.HandleReplicaDown` | internal/core/failover_manager.go:205-261 | with a valid address, a replica record, several replicas, its own provider and the lock group:replica_dns free, the replica record becomes the list without the lost address; otherwise, on single-replica clusters above all, nothing changes |
| `FailoverManager.DownOutcomeMeans` | internal/core/failover_manager.go:229-260 | without API errors the record then holds exactly the slaves that serve, without the lost one, if any; without slaves from Sentinel it loses exactly the lost address, unless that is its only value |
| `FailoverManager.FailoverManager.HandleReplicaUp` | internal/core/failover_manager.go:264-311 | with a valid address, a replica record, its own provider and the lock group:replica_dns free, the replica record becomes the list with the returned address; otherwise nothing changes |
| `FailoverManager.UpOutcomeMeans` | internal/core/failover_manager.go:281-310 | without API errors the record of a cluster with several replicas then holds exactly the slaves that serve, if any, or without slaves from Sentinel the returned address in addition; that of a single-replica cluster holds the returned address alone, unless it is the master's |
| `FailoverManager.FailoverManager.PutBack` | internal/core/failover_manager.go:281-310 | the replica record becomes what the three branches of replica_up choose, or a failed call left it as it was |
| `FailoverManager.FailoverManager.HandleEvent` | internal/core/failover_manager.go:35-60 | the records change only when the cluster is registered, the event's count is its threshold, or 1 in first-come mode, and the lock of its type is free, and then as its type demands; unregistered clusters count towards 2 |
| `FailoverManager.FailoverManager.HandleAll` | internal/core/failover_manager.go:35-60 | over any sequence of events, Sentinel answers and API failures each event changes the records as its type demands, no record that had a value ends up empty and every lock is given back |
| `PingFanout.BoundedAndNeverBlocks` | internal/core/health_checker.go:130-140 | in every interleaving at most 10 pings run and a send on the result channel never waits |
| `PingFanout.TenAtOnce` | internal/core/health_checker.go:130-140 | with ten sentinels or more some run has ten pings at once |
| `PingFanout.NoDeadlock` | internal/core/health_checker.go:130-157 | until every result is collected some step can be taken |
| `PingFanout.Terminates` | internal/core/health_checker.go:130-157 | every step lowers a measure that starts at five per sentinel |
| `PingFanout.OneResultEach` | internal/core/health_checker.go:147-157 | when collection ends there is exactly one result per listed sentinel |
| `HealthChecker.CollectStatuses` | internal/core/health_checker.go:143-149 | the last result of every name |
| `HealthChecker.LatestIsLast` | internal/core/health_checker.go:143-149 | a name has a status if and only if some result is for it, and the status is whether the last of them connected |
| `HealthChecker.DetectTransitions` | internal/core/health_checker.go:168-175 | exactly the nodes known before whose status changed are reported, once each, with the right direction |
| `HealthChecker.HealthChecker.Tick` | internal/core/health_checker.go:110-181 | a failed or empty listing changes nothing; otherwise both maps become the ping results, and with one result per node a node is reported as down exactly when it was up and did not connect, and as up exactly when it was down and did |
| `HealthChecker.HealthChecker.RunTicks` | internal/core/health_checker.go:110-181 | over any sequence of ticks, the transitions of a node present in every non-empty listing are the changes of its observed status in order; with one result per node in every listing, a tick reports a node as down if and only if it connected at the last non-empty listing before and does not now, and as up if and only if the other way round |
| `HealthChecker.FlipsAlternate` | internal/core/health_checker.go:168-175 | such transitions strictly alternate, there are as many as status changes, the first is the opposite of the first status and the last is the current one |
| `Template.SortKeys` | internal/dns/restapi.go:98-104 | the nested loops sort in place: a permutation, longest first, then alphabetical |
| `Template.OrderUnique` | internal/dns/restapi.go:97-104 | distinct keys have only one such order, so map iteration order does not matter |
| `Template.RenderTemplate` | internal/dns/restapi.go:91-110 | the result is that of replacing the variables in the one sorted order, whatever order the map was iterated in |
| `Template.ReplaceTokens` | internal/dns/restapi.go:106-108 | when no other placeholder with the text behind it reads as k, replacing in the text is replacing the tokens |
| `TemplateMeaning.OrderIsAscending` | internal/dns/restapi.go:125-133 | the keys of the variables in sorted order |
| `TemplateMeaning.BuildVarsPlain` | internal/dns/restapi.go:113-134 | dollar-free parameters give dollar-free values, the JSON list included |
| `TemplateVars.PlaceholdersMean` | internal/dns/restapi.go:125-133 | for all parameters $zone, $name, $record_type and $ip stand for exactly their parameter, $ttl for a text that reads as the number, and $ips for one that a JSON reader reads as the list |
| `TemplateVars.DomainMeans` | internal/dns/restapi.go:114-117 | $domain stands for what $name.$zone does, or without a zone for what $name does |
| `TemplateVars.ListReadBack` | internal/dns/restapi.go:119-123 | the JSON list of any strings is read back, quotes, backslashes and control characters included |
| `TemplateVars.RendersMeaning` | internal/dns/restapi.go:91-110 | for dollar-free parameters the renderer gives each placeholder just that meaning |
| `TemplateMeaning.SequentialMerges` | internal/dns/restapi.go:106-108 | sequential replacement expands the tokens with every `$ip` before an `s` read as `$ips` once the earlier variables are filled in |
| `TemplateMeaning.SequentialIsOnePass` | internal/dns/restapi.go:89-110 | when every dollar sign starts a placeholder and values have none, sequential and one-pass longest-match substitution agree if and only if no `$ip` has text starting with `s` behind it |
| `TemplateMeaning.SeparatedIsSafe` | internal/dns/restapi.go:89-110 | placeholders separated by at least one literal character meet that condition |
| `TemplateMeaning.RenderSeparated` | internal/dns/restapi.go:91-134 | so rendering such a template replaces every placeholder once, by the longest matching name |
| `Address.AddressRoundTrip` | internal/core/sentinel_ops.go:44-52 | both parsers read host, colon and decimal port back to the same host and port, whatever colons the host has |
| `Address.BareHostKept` | internal/core/sentinel_ops.go:44-52 | an address is kept whole with the port 26379 if and only if it does not end in a colon and a number |
| `Address.SplitNodeAddr` | internal/core/health_checker.go:194-207 | the backwards search splits at the last colon |
| `Address.FlatSliceToMap` | internal/core/sentinel_ops.go:385-391 | the pairs of the list, later ones winning, a trailing key ignored |
| `Address.FlattenRoundTrip` | internal/core/sentinel_ops.go:385-391 | a map flattened in any order of its keys is read back |
| `Address.LastValueWins` | internal/core/sentinel_ops.go:385-391 | a key is in the map if and only if the list names it at an even place with a value behind it, and has the value behind the last such place |
| `Agent.ParseSdownDescription` | internal/agent/notify.go:12-46 | the description's fields decide: slave first, the address split at its last colon, the master after the first separator |
| `Agent.OnlySlavesDescribed` | internal/agent/notify.go:12-46 | a description says something only if its first field is slave, its second an address, a colon and a decimal port, and an @ is followed by the master's name; and then it says just these |
| `Agent.FieldsOfJoin` | internal/agent/notify.go:59 | the fields do not depend on how the shell split the arguments |
| `Agent.DescriptionRoundTrip` | internal/agent/notify.go:12-46 | a printed description parses back to the same address, port and master if and only if the address is not the separator (or the master is named like the port) |
| `Agent.CmdNotify` | internal/agent/notify.go:52-99 | only +sdown and -sdown about slaves are sent, as replica_down and replica_up |
| `Agent.SendEvent` | internal/agent/client.go:26-53 | at most RetryCount deliveries, stopping at the first reply with a status from 200 to 299, and success exactly when one of them has such a status |
| `ValkeyClusters.ValkeyStore.SaveCluster` | internal/store/valkey.go:277-294 | key and index then stand for the table with the cluster, unless it is named index: then the index is lost and the call fails |
| `ValkeyClusters.ValkeyStore.DeleteCluster` | internal/store/valkey.go:297-306 | key and index stand for the table without the name; the answer says whether it was there |
| `ValkeyClusters.ValkeyStore.GetCluster` | internal/store/valkey.go:309-326 | the latest saved value; asking for the name index fails while anything is registered |
| `ValkeyClusters.ValkeyStore.ListClusters` | internal/store/valkey.go:330-362 | every cluster of the table exactly once; an error once the index is overwritten |
| `ClusterStores.RunBoth` | internal/store/valkey.go:277-362 | over any sequence of operations both stores answer like a plain map, and they agree throughout if and only if no operation touches the name of the index |
| `ClusterTable.LastOperationWins` | internal/store/memory.go:198-216 | the last save or delete of a name decides: after a save the table holds its value, after a delete nothing |
| `ClusterIndex.ListedWasStored` | internal/store/valkey.go:309-362 | in every interleaving each cluster found by a listing or a lookup was the stored value of its key while it was reading |
| `ClusterIndex.ListedUnlessMissed` | internal/store/valkey.go:330-362 | in every interleaving a name that was in the index when a listing began is listed when it ends, unless its value was gone or the answer lost at the listing's own GET |
| `ClusterIndex.StoredWasSaved` | internal/store/valkey.go:277-294 | every stored value was given to a save of that name |
| `ClusterIndex.QuietNamesAgree` | internal/store/valkey.go:277-306 | while the calls on a name do not overlap or lose a write, between them its key holds the last completed save and the index lists it exactly then, whatever happens to other names |
| `ClusterIndex.SplitExactlyWhenLastCommandsDisagree` | internal/store/valkey.go:287-304 | in every interleaving a key exists if and only if the last SET or DEL was a SET, and is listed if and only if the last SADD or SREM was a SADD |
| `ClusterIndex.SavedButUnlisted` | internal/store/valkey.go:297-306 | a run in which a save comes between the commands of a delete, both succeed, and the cluster is stored but unlisted |
| `SessionManager.SixFailuresTakeFiveMinutes` | internal/web/auth.go:55-79 | any six consecutive wrong passwords under one limiter key, which is host and port, span at least five minutes |
| `SessionManager.SixOfOneHost` | internal/web/admin.go:178-215 | six wrong passwords of one host within five minutes come from at least two ports |
| `SessionManager.OtherPortIsAdmitted` | internal/web/admin.go:178-215 | and two ports are enough: right after five wrong passwords, while the first port is locked, an attempt of the same host from another port is admitted |
| `SessionManager.SessionManager.IsLoginLocked` | internal/web/auth.go:55-69 | locked exactly with five failures and less than five minutes since the last; an old record is forgotten |
| `SessionManager.SessionManager.RecordLoginFailure` | internal/web/auth.go:72-79 | one more failure of this address, at this time |
| `SessionManager.SessionManager.LoginSubmit` | internal/web/admin.go:178-215 | an attempt is turned away exactly while its address is locked, and the failures of every address stay spaced |
| `SessionManager.SessionManager.CreateSession` | internal/web/auth.go:124-136 | the session is live, and the table holds exactly the live sessions |
| `SessionManager.SessionManager.CleanupLocked` | internal/web/auth.go:201-209 | exactly the sessions that are over go, with their tokens |
| `SessionManager.SessionManager.ValidateSession` | internal/web/auth.go:139-152 | valid exactly when created, not destroyed and at most eight hours old, whatever was cleaned up when |
| `SessionManager.SessionManager.DestroySession` | internal/web/auth.go:179-188 | the session is destroyed for good and no other changes |
| `SessionManager.SessionManager.GetOrCreateCSRFToken` | internal/web/auth.go:212-221 | a session keeps the token it was given first |
| `Text.AtoiOfIntString` | internal/core/sentinel_ops.go:46 | a printed 64-bit number is read back |
| `Text.AtoiOfNumeral` | internal/core/sentinel_ops.go:46 | a plus sign and leading zeros change nothing, and a minus sign negates |
| `Text.AtoiReads` | internal/core/sentinel_ops.go:46 | nothing but digits with an optional sign, within 64 bits, is read as a number |
| `Text.FieldsAcrossSpace` | internal/agent/notify.go:13 | the fields on the two sides of a space are independent |
| `Text.FieldsBySpace` | internal/agent/notify.go:13 | spaces, tabs and line ends separate words of printed ASCII characters |

## Left out

- PipelineSections.WritesSerialised: one write to a record is one step, as Route53 makes it; Cloudflare's several calls are one step in `Pipeline`.
- FailoverManager.FailoverManager.HandleAll: handles events one after another over the in-memory store and one Route53 provider; interleaving is the subject of `Pipeline`.
- Providers.RunBoth: for address records and duplicate-free contents only; `OtherTypesDiverge` shows why.
- TemplateMeaning.SequentialIsOnePass: templates with a stray dollar sign and values that contain one are not covered; such text can be replaced again.
- SessionManager.SessionManager.LoginSubmit: attempts are handled one after another; two concurrent attempts can pass the lock check together. A storage error that ends an attempt early records nothing and is not a step.
- ClusterIndex.QuietNamesAgree: a name whose calls overlapped once, or lost a write, is out of its scope afterwards.
- ClusterIndex.SavedButUnlisted: for clusters not named like the index, which `ValkeyClusters` and `ClusterStores` treat.
- ValkeyEvents.ValkeyStore.RecordEvent: every command succeeds; lost commands and interleaving are in `Pipeline`.
- Event types are a datatype with one case for every unknown text; the text itself plays no part.
- Lock and counter tables have their own key prefixes and are separate maps.
- In `Pipeline` a lock may be free from its deadline on and a counter gone from its deadline on; `ValkeyEvents` runs one call at a time over a server that drops both a fixed time after the deadline, which is one of the servers that `Pipeline` covers (`GraceIsCovered`).
- Clusters carry only the fields the pipeline reads; the in-memory store hands out the stored object itself, which a caller could change in place, and the model copies.
- The other store tables (sentinels, webhooks, settings, provider configurations, passwords and tokens) are plain maps.
- HTTP handlers, pages, translations, pagination, webhooks, notifications and logging.
- internal/dns/azure.go, the HTTP calls of the REST provider and VerifyRecord, which only reads.
- TTL values of DNS records, apart from being passed on.
- CLIENT KILL on the old primary, the Sentinel queries themselves and their reply parsing beyond flat lists: a query answer is an input.
- net.ParseIP: which addresses are valid is a parameter; so is the full name a provider gives to a mapping in `Pipeline`.
- Floating-point seconds: times are whole milliseconds, as the source takes them from the clock.
- strings.Fields beyond Latin-1 spaces, and bytes that are not characters.
- Configuration loading, installation scripts and Docker files.
