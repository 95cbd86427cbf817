/** internal/core/failover_manager.go over the in-memory store and an atomic provider:
    what one event does to the DNS records, and what no sequence of events can do. The
    answer of the Sentinel query, the validity of addresses and the clock are inputs. */
module FailoverManager {
  import opened Text
  import opened Cluster
  import opened Event
  import opened ReportWindow
  import opened RecordSet
  import opened Replicas
  import opened LockKeys
  import MemoryStore
  import EventProcessor
  import Route53

  // ----- the manager -----

  type RecordKey = (string, string)
  type Records = map<RecordKey, Route53.RRSet>

  function KeyOf(m: DNSMapping): RecordKey { (Route53.Fqdn(m.recordName, m.zone), m.recordType) }

  function Stored(sets: Records, m: DNSMapping): seq<string> {
    if KeyOf(m) in sets then sets[KeyOf(m)].values else []
  }

  /** Record sets that have a value still have one. */
  ghost predicate KeepsValues(before: Records, after: Records) {
    forall key | key in before && before[key].values != [] :: key in after && after[key].values != []
  }

  lemma OpKeepsValues(before: Records, after: Records, m: DNSMapping, op: Op)
    requires OnlyTouches(before, after, {KeyOf(m)}) && !op.Delete?
    requires Stored(after, m) == Stored(before, m) || Stored(after, m) == ListAfter(Stored(before, m), op)
    ensures KeepsValues(before, after)
  {
    if Stored(before, m) != [] {
      NeverEmptied(Stored(before, m), op);
    }
  }

  /** Nothing but the given records changed. */
  ghost predicate OnlyTouches(before: Records, after: Records, keys: set<RecordKey>) {
    forall key | key !in keys :: (key in before <==> key in after) && (key in before ==> after[key] == before[key])
  }

  /** The text of the lock a handler of the event takes. */
  function KeyFor(cluster: Cluster, event: FailoverEvent): string { LockText(LockFor(cluster, event)) }

  predicate Free(locks: map<string, int>, key: string, now: int) { key in locks ==> locks[key] <= now }

  /** Where a failover that got the lock leaves the records: the primary record first and
      only then the replica record, which may be the same one. Without a failed call both
      have their new values. */
  ghost predicate FailoverOutcome(
    valid: string -> bool, cluster: Cluster, event: FailoverEvent, detail: Option<MasterDetail>,
    before: Records, after: Records, clean: bool)
  {
    var p := cluster.primaryDNS;
    if cluster.replicaDNS.None? then
      && OnlyTouches(before, after, {KeyOf(p)})
      && (Stored(after, p) == [event.toIP] || (!clean && Stored(after, p) == Stored(before, p)))
    else
      var m := cluster.replicaDNS.value;
      && OnlyTouches(before, after, {KeyOf(p), KeyOf(m)})
      && if KeyOf(m) == KeyOf(p) then
           || Stored(after, m) == FailoverReplicas(valid, cluster, event, detail, [event.toIP])
           || (!clean && (Stored(after, m) == [event.toIP] || Stored(after, m) == Stored(before, m)))
         else
           && (Stored(after, p) == [event.toIP] || (!clean && Stored(after, p) == Stored(before, p)))
           && (Stored(after, m) == FailoverReplicas(valid, cluster, event, detail, Stored(before, m))
               || (!clean && Stored(after, m) == Stored(before, m)))
           && (Stored(after, p) != [event.toIP] ==> Stored(after, m) == Stored(before, m))
  }

  ghost predicate ReplicaOutcome(m: DNSMapping, before: Records, after: Records, values: seq<string>, clean: bool) {
    && (Stored(after, m) == values || (!clean && Stored(after, m) == Stored(before, m)))
    && OnlyTouches(before, after, {KeyOf(m)})
  }

  /** Whether a triggered event gets as far as its lock. */
  predicate ReachesLock(valid: string -> bool, provider: string, cluster: Cluster, event: FailoverEvent) {
    && cluster.dnsProvider == provider
    && if event.eventType.Failover? then valid(event.toIP)
       else if event.eventType.ReplicaDown? then
         valid(event.fromIP) && cluster.replicaDNS.Some? && cluster.multiReplica
       else event.eventType.ReplicaUp? && valid(event.fromIP) && cluster.replicaDNS.Some?
  }

  /** What an event does to the records, by its type, once it has its lock. */
  ghost predicate EventOutcome(
    valid: string -> bool, cluster: Cluster, event: FailoverEvent, detail: Option<MasterDetail>,
    before: Records, after: Records, clean: bool)
  {
    if event.eventType.Failover? then FailoverOutcome(valid, cluster, event, detail, before, after, clean)
    else if cluster.replicaDNS.None? then after == before
    else
      var m := cluster.replicaDNS.value;
      if event.eventType.ReplicaDown? then
        ReplicaOutcome(m, before, after, ReplicasWithout(event, detail, Stored(before, m)), clean)
      else
        ReplicaOutcome(m, before, after, ReplicasWith(cluster, event, detail, Stored(before, m)), clean)
  }

  // ----- what the outcomes mean -----

  /** What Route53 stores for a mapping: name, dot, zone and closing dot. */
  function ValuesAt(sets: Records, m: DNSMapping): seq<string> {
    var key := (Route53.Fqdn(m.recordName, m.zone), m.recordType);
    if key in sets then sets[key].values else []
  }

  /** After a failover without API errors the primary record holds the new master alone, and
      the replica record exactly Sentinel's slaves that serve, if there are any. When none
      are named it holds the old master on a single-replica cluster, or is as before. */
  lemma FailoverOutcomeMeans(
    valid: string -> bool, cluster: Cluster, event: FailoverEvent, detail: Option<MasterDetail>,
    before: Records, after: Records)
    requires FailoverOutcome(valid, cluster, event, detail, before, after, true)
    ensures var p := cluster.primaryDNS;
      (cluster.replicaDNS.Some? && SameRecord(cluster.replicaDNS.value, p)) || ValuesAt(after, p) == [event.toIP]
    ensures cluster.replicaDNS.Some? && detail.Some? && (exists ip :: Serves(detail.value, ip, event.toIP)) ==>
              forall x :: x in ValuesAt(after, cluster.replicaDNS.value) <==> Serves(detail.value, x, event.toIP)
    ensures cluster.replicaDNS.Some? && NoSlaves(detail)
            && !SameRecord(cluster.replicaDNS.value, cluster.primaryDNS) ==>
              ValuesAt(after, cluster.replicaDNS.value)
              == if !cluster.multiReplica && valid(event.fromIP) then [event.fromIP]
                 else ValuesAt(before, cluster.replicaDNS.value)
  {
    if cluster.replicaDNS.Some? && detail.Some? {
      var m := cluster.replicaDNS.value;
      if ip :| Serves(detail.value, ip, event.toIP) {
        FailoverListsServing(valid, cluster, event, detail.value, [event.toIP], ip);
        FailoverListsServing(valid, cluster, event, detail.value, Stored(before, m), ip);
      }
    }
  }

  /** Sentinel did not answer, or named no slaves. */
  predicate NoSlaves(detail: Option<MasterDetail>) { detail.None? || |detail.value.slaves| == 0 }

  predicate SameRecord(m: DNSMapping, p: DNSMapping) {
    Route53.Fqdn(m.recordName, m.zone) == Route53.Fqdn(p.recordName, p.zone) && m.recordType == p.recordType
  }

  /** After a replica_down without API errors the replica record holds exactly the slaves
      that serve, without the lost one, if there are any. */
  lemma DownOutcomeMeans(m: DNSMapping, event: FailoverEvent, detail: Option<MasterDetail>,
                         before: Records, after: Records)
    requires ReplicaOutcome(m, before, after, ReplicasWithout(event, detail, Stored(before, m)), true)
    ensures detail.Some? && (exists ip :: Serves(detail.value, ip, event.fromIP)) ==>
              forall x :: x in ValuesAt(after, m) <==> Serves(detail.value, x, event.fromIP)
    ensures NoSlaves(detail) && (exists x <- ValuesAt(before, m) :: x != event.fromIP) ==>
              forall x :: x in ValuesAt(after, m) <==> x in ValuesAt(before, m) && x != event.fromIP
  {
    if detail.Some? {
      if ip :| Serves(detail.value, ip, event.fromIP) {
        DownListsServing(event, detail.value, Stored(before, m), ip);
      }
    }
    WithoutIsFilter(Stored(before, m), event.fromIP);
  }

  /** After a replica_up without API errors the replica record holds exactly the slaves that
      serve, or the returned address, alone on a single-replica cluster. */
  lemma UpOutcomeMeans(m: DNSMapping, cluster: Cluster, event: FailoverEvent, detail: Option<MasterDetail>,
                       before: Records, after: Records)
    requires ReplicaOutcome(m, before, after, ReplicasWith(cluster, event, detail, Stored(before, m)), true)
    ensures cluster.multiReplica && detail.Some? && (exists ip :: Serves(detail.value, ip, detail.value.masterIP)) ==>
              forall x :: x in ValuesAt(after, m) <==> Serves(detail.value, x, detail.value.masterIP)
    ensures !cluster.multiReplica && !(detail.Some? && event.fromIP == detail.value.masterIP) ==>
              ValuesAt(after, m) == [event.fromIP]
    ensures cluster.multiReplica && NoSlaves(detail) && !(detail.Some? && event.fromIP == detail.value.masterIP) ==>
              forall x :: x in ValuesAt(after, m) <==> x in ValuesAt(before, m) || x == event.fromIP
  {
    if cluster.multiReplica && detail.Some? {
      if ip :| Serves(detail.value, ip, detail.value.masterIP) {
        UpListsServing(cluster, event, detail.value, Stored(before, m), ip);
      }
    }
  }

  /** Whether the event gets a lock, given those that are held. */
  predicate Wins(
    valid: string -> bool, provider: string, clusters: map<string, Cluster>, arrival: Arrival, triggered: bool,
    locks: map<string, int>)
  {
    && triggered && arrival.event.masterName in clusters
    && var cluster := clusters[arrival.event.masterName];
      ReachesLock(valid, provider, cluster, arrival.event) && Free(locks, KeyFor(cluster, arrival.event), arrival.at)
  }

  /** One event of a run: no change unless it triggered for a registered cluster and got
      its lock. */
  ghost predicate Handled(
    valid: string -> bool, provider: string, clusters: map<string, Cluster>, arrival: Arrival, triggered: bool,
    locks: map<string, int>, before: Records, after: Records, clean: bool)
  {
    if Wins(valid, provider, clusters, arrival, triggered, locks) then
      EventOutcome(valid, clusters[arrival.event.masterName], arrival.event, arrival.detail, before, after, clean)
    else
      after == before
  }

  class FailoverManager {
    const store: MemoryStore.MemoryStore
    const eventProcessor: EventProcessor.EventProcessor
    const providerName: string
    const provider: Route53.Provider
    const validIP: string -> bool

    constructor (store: MemoryStore.MemoryStore, processor: EventProcessor.EventProcessor,
                 providerName: string, provider: Route53.Provider, validIP: string -> bool)
      ensures this.store == store && eventProcessor == processor
      ensures this.providerName == providerName && this.provider == provider && this.validIP == validIP
    {
      this.store, eventProcessor := store, processor;
      this.providerName, this.provider, this.validIP := providerName, provider, validIP;
    }

    // The provider calls of the handlers, with their promises in terms of the stored sets.

    method Replace(m: DNSMapping, value: string) returns (ok: bool)
      requires provider.api.Valid()
      modifies provider.api
      ensures Effect(old(provider.api.sets), old(provider.api.faults), m, [value], ok)
    {
      var r := provider.UpdateRecord(m.zone, m.recordName, m.recordType, value, m.ttl);
      ok := r == Done;
      assert provider.Values(m.zone, m.recordName, m.recordType) == Stored(provider.api.sets, m);
      OpKeepsValues(old(provider.api.sets), provider.api.sets, m, Op.Update(value));
    }

    method ReplaceAll(m: DNSMapping, values: seq<string>) returns (ok: bool)
      requires provider.api.Valid() && values != []
      modifies provider.api
      ensures Effect(old(provider.api.sets), old(provider.api.faults), m, values, ok)
    {
      var r := provider.UpdateRecordValues(m.zone, m.recordName, m.recordType, values, m.ttl);
      ok := r == Done;
      assert provider.Values(m.zone, m.recordName, m.recordType) == Stored(provider.api.sets, m);
      OpKeepsValues(old(provider.api.sets), provider.api.sets, m, Op.UpdateValues(values));
    }

    method Drop(m: DNSMapping, value: string) returns (ok: bool)
      requires provider.api.Valid()
      modifies provider.api
      ensures Effect(old(provider.api.sets), old(provider.api.faults), m,
                     ListAfter(old(Stored(provider.api.sets, m)), Op.Remove(value)), ok)
    {
      var r := provider.RemoveRecordValue(m.zone, m.recordName, m.recordType, value);
      ok := r != Failed;
      assert provider.Values(m.zone, m.recordName, m.recordType) == Stored(provider.api.sets, m);
      OpKeepsValues(old(provider.api.sets), provider.api.sets, m, Op.Remove(value));
    }

    method Append(m: DNSMapping, value: string) returns (ok: bool)
      requires provider.api.Valid()
      modifies provider.api
      ensures Effect(old(provider.api.sets), old(provider.api.faults), m,
                     ListAfter(old(Stored(provider.api.sets, m)), Op.Add(value)), ok)
    {
      var r := provider.AddRecordValue(m.zone, m.recordName, m.recordType, value, m.ttl);
      ok := r == Done;
      assert provider.Values(m.zone, m.recordName, m.recordType) == Stored(provider.api.sets, m);
      OpKeepsValues(old(provider.api.sets), provider.api.sets, m, Op.Add(value));
    }

    /** The record holds the new values, or an API call failed and it may hold the old
        ones; nothing else changed and no record set lost its last value. */
    ghost predicate Effect(before: Records, faults: nat, m: DNSMapping, values: seq<string>, ok: bool)
      reads provider.api
    {
      && provider.api.Valid()
      && (if ok then provider.api.faults == faults else provider.api.faults > faults)
      && (Stored(provider.api.sets, m) == values || (!ok && Stored(provider.api.sets, m) == Stored(before, m)))
      && OnlyTouches(before, provider.api.sets, {KeyOf(m)})
      && KeepsValues(before, provider.api.sets)
    }

    /** The replica step of a failover. */
    method UpdateReplicas(cluster: Cluster, m: DNSMapping, event: FailoverEvent, detail: Option<MasterDetail>)
      returns (ok: bool)
      requires provider.api.Valid()
      modifies provider.api
      ensures Effect(old(provider.api.sets), old(provider.api.faults), m,
                     FailoverReplicas(validIP, cluster, event, detail, old(Stored(provider.api.sets, m))), ok)
    {
      ok := true;
      if detail.Some? && |detail.value.slaves| > 0 {
        var slaveIPs := SlavesAfterFailover(detail.value, event.toIP);
        if |slaveIPs| > 0 {
          ok := ReplaceAll(m, slaveIPs);
        } else if validIP(event.fromIP) && event.fromIP != event.toIP {
          ok := Replace(m, event.fromIP);
        }
      } else if !cluster.multiReplica && validIP(event.fromIP) {
        ok := Replace(m, event.fromIP);
      }
    }

    /** A failover event that gets the lock sets the primary record to the new master,
        then the replica record, and gives the lock back; one that does not changes
        nothing. A failed call leaves a record at its old or its new values. */
    method HandleFailover(cluster: Cluster, event: FailoverEvent, detail: Option<MasterDetail>, now: int)
      requires provider.api.Valid() && event.eventType.Failover?
      modifies store`locks, provider.api
      ensures provider.api.Valid() && provider.api.faults >= old(provider.api.faults)
      ensures KeepsValues(old(provider.api.sets), provider.api.sets)
      ensures var key := cluster.groupName + ":" + cluster.masterName + ":" + "failover";
              var won := && validIP(event.toIP) && cluster.dnsProvider == providerName
                         && (key in old(store.locks) ==> old(store.locks)[key] <= now);
        && store.locks == (if won then old(store.locks) - {key} else old(store.locks))
        && (!won ==> provider.api.sets == old(provider.api.sets))
        && (won ==> FailoverOutcome(validIP, cluster, event, detail, old(provider.api.sets), provider.api.sets,
                                    provider.api.faults == old(provider.api.faults)))
    {
      if !validIP(event.toIP) || cluster.dnsProvider != providerName {
        return;
      }
      var lockKey := LockText(FailoverLock(cluster.groupName, cluster.masterName));
      var acquired := store.AcquireLock(lockKey, LOCK_TTL, now);
      if !acquired {
        return;
      }
      UpdateRecords(cluster, event, detail);
      store.ReleaseLock(lockKey);
    }

    /** The primary record, and only once that is written the replica record. */
    method UpdateRecords(cluster: Cluster, event: FailoverEvent, detail: Option<MasterDetail>)
      requires provider.api.Valid()
      modifies provider.api
      ensures provider.api.Valid() && provider.api.faults >= old(provider.api.faults)
      ensures KeepsValues(old(provider.api.sets), provider.api.sets)
      ensures FailoverOutcome(validIP, cluster, event, detail, old(provider.api.sets), provider.api.sets,
                              provider.api.faults == old(provider.api.faults))
    {
      ghost var before := provider.api.sets;
      var ok := Replace(cluster.primaryDNS, event.toIP);
      if !ok {
        return;
      }
      ghost var between := provider.api.sets;
      if cluster.replicaDNS.Some? {
        ok := UpdateReplicas(cluster, cluster.replicaDNS.value, event, detail);
        TouchesChain(before, between, provider.api.sets, KeyOf(cluster.primaryDNS), KeyOf(cluster.replicaDNS.value));
      }
    }

    /** A replica_down of a multi-replica cluster takes the address out. */
    method HandleReplicaDown(cluster: Cluster, event: FailoverEvent, detail: Option<MasterDetail>, now: int)
      requires provider.api.Valid() && event.eventType.ReplicaDown?
      modifies store`locks, provider.api
      ensures provider.api.Valid() && provider.api.faults >= old(provider.api.faults)
      ensures KeepsValues(old(provider.api.sets), provider.api.sets)
      ensures var key := cluster.groupName + ":" + "replica_dns";
              var won := && validIP(event.fromIP) && cluster.dnsProvider == providerName
                         && cluster.replicaDNS.Some? && cluster.multiReplica
                         && (key in old(store.locks) ==> old(store.locks)[key] <= now);
        && store.locks == (if won then old(store.locks) - {key} else old(store.locks))
        && (!won ==> provider.api.sets == old(provider.api.sets))
        && (won ==> ReplicaOutcome(cluster.replicaDNS.value, old(provider.api.sets), provider.api.sets,
              ReplicasWithout(event, detail, old(Stored(provider.api.sets, cluster.replicaDNS.value))),
              provider.api.faults == old(provider.api.faults)))
    {
      if !validIP(event.fromIP) || cluster.replicaDNS.None? {
        return;
      }
      if !cluster.multiReplica {
        return;
      }
      if cluster.dnsProvider != providerName {
        return;
      }
      var lockKey := LockText(ReplicaLock(cluster.groupName));
      var acquired := store.AcquireLock(lockKey, LOCK_TTL, now);
      if !acquired {
        return;
      }
      var m := cluster.replicaDNS.value;
      if detail.Some? && |detail.value.slaves| > 0 {
        var slaveIPs := SlavesWithoutLost(detail.value, event.fromIP);
        if |slaveIPs| > 0 {
          var _ := ReplaceAll(m, slaveIPs);
        }
      } else {
        var _ := Drop(m, event.fromIP);
      }
      store.ReleaseLock(lockKey);
    }

    /** A replica_up puts the address back. */
    method HandleReplicaUp(cluster: Cluster, event: FailoverEvent, detail: Option<MasterDetail>, now: int)
      requires provider.api.Valid() && event.eventType.ReplicaUp?
      modifies store`locks, provider.api
      ensures provider.api.Valid() && provider.api.faults >= old(provider.api.faults)
      ensures KeepsValues(old(provider.api.sets), provider.api.sets)
      ensures var key := cluster.groupName + ":" + "replica_dns";
              var won := && validIP(event.fromIP) && cluster.dnsProvider == providerName && cluster.replicaDNS.Some?
                         && (key in old(store.locks) ==> old(store.locks)[key] <= now);
        && store.locks == (if won then old(store.locks) - {key} else old(store.locks))
        && (!won ==> provider.api.sets == old(provider.api.sets))
        && (won ==> ReplicaOutcome(cluster.replicaDNS.value, old(provider.api.sets), provider.api.sets,
              ReplicasWith(cluster, event, detail, old(Stored(provider.api.sets, cluster.replicaDNS.value))),
              provider.api.faults == old(provider.api.faults)))
    {
      if !validIP(event.fromIP) || cluster.replicaDNS.None? {
        return;
      }
      if cluster.dnsProvider != providerName {
        return;
      }
      var lockKey := LockText(ReplicaLock(cluster.groupName));
      var acquired := store.AcquireLock(lockKey, LOCK_TTL, now);
      if !acquired {
        return;
      }
      PutBack(cluster, cluster.replicaDNS.value, event, detail);
      store.ReleaseLock(lockKey);
    }

    method PutBack(cluster: Cluster, m: DNSMapping, event: FailoverEvent, detail: Option<MasterDetail>)
      requires provider.api.Valid()
      modifies provider.api
      ensures provider.api.Valid() && provider.api.faults >= old(provider.api.faults)
      ensures KeepsValues(old(provider.api.sets), provider.api.sets)
      ensures ReplicaOutcome(m, old(provider.api.sets), provider.api.sets,
                ReplicasWith(cluster, event, detail, old(Stored(provider.api.sets, m))),
                provider.api.faults == old(provider.api.faults))
    {
      if detail.Some? && |detail.value.slaves| > 0 && cluster.multiReplica {
        var slaveIPs := HealthySlaveIPs(detail.value);
        if |slaveIPs| == 0 {
          slaveIPs := AllSlaveIPs(detail.value);
        }
        if |slaveIPs| > 0 {
          var _ := ReplaceAll(m, slaveIPs);
        }
      } else if !cluster.multiReplica {
        if detail.Some? && event.fromIP == detail.value.masterIP {
          return;
        }
        var _ := Replace(m, event.fromIP);
      } else {
        if detail.Some? && event.fromIP == detail.value.masterIP {
          return;
        }
        var _ := Append(m, event.fromIP);
      }
    }

    ghost predicate Valid()
      reads this, store, provider.api
    {
      store.Valid() && eventProcessor.store == store && provider.api.Valid()
    }

    /** One event: it is counted in its key's window, the records change only if its cluster
        is registered and its count is the cluster's threshold, or 1 in first-come mode, and
        then as its type demands. */
    method HandleEvent(event: FailoverEvent, detail: Option<MasterDetail>, now: int)
      returns (r: EventProcessor.EventProcessResult)
      requires Valid() && store.clock <= now
      modifies store`events, store`eventHistory, store`log, store`openers, store`clock, store`locks, provider.api
      ensures Valid() && store.clock == now && provider.api.faults >= old(provider.api.faults)
      ensures store.log == old(store.log) + [Report(RawKey(event), event.sentinelNodeName, now)]
      ensures r.reportCount == |LastWindow(KeyReports(store.log, RawKey(event)), store.dedupWindow)|
      ensures event.masterName !in store.clusters ==> (r.shouldUpdateDNS <==> r.reportCount == 2)
      ensures event.masterName in store.clusters ==>
        var cluster := store.clusters[event.masterName];
        r.shouldUpdateDNS <==> r.reportCount == if cluster.quorumMode then cluster.quorumThreshold else 1
      ensures KeepsValues(old(provider.api.sets), provider.api.sets)
      ensures Handled(validIP, providerName, store.clusters, Arrival(event, detail, now), r.shouldUpdateDNS,
                      old(store.locks), old(provider.api.sets), provider.api.sets,
                      provider.api.faults == old(provider.api.faults))
      ensures store.locks ==
              if Wins(validIP, providerName, store.clusters, Arrival(event, detail, now), r.shouldUpdateDNS,
                      old(store.locks))
              then old(store.locks) - {KeyFor(store.clusters[event.masterName], event)} else old(store.locks)
    {
      var found := store.GetCluster(event.masterName);
      if found.None? {
        r := eventProcessor.Process(event, true, 2, now);
        return;
      }
      var cluster := found.value;
      r := eventProcessor.Process(event, cluster.quorumMode, cluster.quorumThreshold, now);
      if r.shouldUpdateDNS {
        UpdateDNS(cluster, event, detail, now);
      }
    }

    /** The handler of the event's type, if it has one. */
    method UpdateDNS(cluster: Cluster, event: FailoverEvent, detail: Option<MasterDetail>, now: int)
      requires provider.api.Valid()
      modifies store`locks, provider.api
      ensures provider.api.Valid() && provider.api.faults >= old(provider.api.faults)
      ensures KeepsValues(old(provider.api.sets), provider.api.sets)
      ensures var won := && ReachesLock(validIP, providerName, cluster, event)
                         && Free(old(store.locks), KeyFor(cluster, event), now);
        && store.locks == (if won then old(store.locks) - {KeyFor(cluster, event)} else old(store.locks))
        && (!won ==> provider.api.sets == old(provider.api.sets))
        && (won ==> EventOutcome(validIP, cluster, event, detail, old(provider.api.sets), provider.api.sets,
                                 provider.api.faults == old(provider.api.faults)))
    {
      if event.eventType.Failover? {
        HandleFailover(cluster, event, detail, now);
      } else if event.eventType.ReplicaDown? {
        HandleReplicaDown(cluster, event, detail, now);
      } else if event.eventType.ReplicaUp? {
        HandleReplicaUp(cluster, event, detail, now);
      }
    }

    /** However many events are handled one after another, with whatever Sentinel says and
        whichever API calls fail: every event changes the records as its type demands, no
        record set that had a value ends up without one, and every lock is given back. */
    method HandleAll(arrivals: seq<Arrival>)
      returns (results: seq<EventProcessor.EventProcessResult>, ghost records: seq<Records>, ghost faults: seq<nat>)
      requires Valid() && InOrder(arrivals, store.clock) && store.locks == map[]
      modifies store`events, store`eventHistory, store`log, store`openers, store`clock, store`locks, provider.api
      ensures Valid() && store.locks == map[]
      ensures Trace(validIP, providerName, store.clusters, arrivals, results, records, faults)
      ensures records[0] == old(provider.api.sets) && records[|arrivals|] == provider.api.sets
      ensures faults[0] == old(provider.api.faults) && faults[|arrivals|] == provider.api.faults
      ensures KeepsValues(old(provider.api.sets), provider.api.sets)
    {
      results, records, faults := [], [provider.api.sets], [provider.api.faults];
      for i := 0 to |arrivals|
        invariant Valid() && store.locks == map[] && InOrder(arrivals[i..], store.clock)
        invariant Trace(validIP, providerName, store.clusters, arrivals[..i], results, records, faults)
        invariant records[0] == old(provider.api.sets) && records[i] == provider.api.sets
        invariant faults[0] == old(provider.api.faults) && faults[i] == provider.api.faults
        invariant KeepsValues(old(provider.api.sets), provider.api.sets)
      {
        var a := arrivals[i];
        assert arrivals[i..][0] == a && arrivals[i..][1..] == arrivals[i + 1..];
        assert arrivals[..i + 1] == arrivals[..i] + [a];
        ghost var before := provider.api.sets;
        var r := HandleEvent(a.event, a.detail, a.at);
        TraceAppend(validIP, providerName, store.clusters, arrivals[..i], results, records, faults,
                    a, r, provider.api.sets, provider.api.faults);
        KeepsChain(records[0], before, provider.api.sets);
        results, records, faults := results + [r], records + [provider.api.sets], faults + [provider.api.faults];
      }
      assert arrivals[..|arrivals|] == arrivals;
    }
  }

  /** The records before, between and after the events of a run. */
  ghost predicate Trace(
    valid: string -> bool, provider: string, clusters: map<string, Cluster>,
    arrivals: seq<Arrival>, results: seq<EventProcessor.EventProcessResult>, records: seq<Records>, faults: seq<nat>)
  {
    && |results| == |arrivals| && |records| == |faults| == |arrivals| + 1
    && forall i | 0 <= i < |arrivals| ::
         Handled(valid, provider, clusters, arrivals[i], results[i].shouldUpdateDNS, map[],
                 records[i], records[i + 1], faults[i + 1] == faults[i])
  }

  lemma TraceAppend(
    valid: string -> bool, provider: string, clusters: map<string, Cluster>,
    arrivals: seq<Arrival>, results: seq<EventProcessor.EventProcessResult>, records: seq<Records>, faults: seq<nat>,
    a: Arrival, r: EventProcessor.EventProcessResult, after: Records, fault: nat)
    requires Trace(valid, provider, clusters, arrivals, results, records, faults)
    requires Handled(valid, provider, clusters, a, r.shouldUpdateDNS, map[],
                     records[|arrivals|], after, fault == faults[|arrivals|])
    ensures Trace(valid, provider, clusters, arrivals + [a], results + [r], records + [after], faults + [fault])
  {
    var n := |arrivals|;
    var rs, fs := records + [after], faults + [fault];
    forall i | 0 <= i < n + 1
      ensures Handled(valid, provider, clusters, (arrivals + [a])[i], (results + [r])[i].shouldUpdateDNS, map[],
                      rs[i], rs[i + 1], fs[i + 1] == fs[i])
    {
      if i < n {
        assert rs[i] == records[i] && rs[i + 1] == records[i + 1] && fs[i] == faults[i] && fs[i + 1] == faults[i + 1];
      }
    }
  }

  lemma KeepsChain(a: Records, b: Records, c: Records)
    requires KeepsValues(a, b) && KeepsValues(b, c)
    ensures KeepsValues(a, c)
  {
  }

  datatype Arrival = Arrival(event: FailoverEvent, detail: Option<MasterDetail>, at: int)

  predicate InOrder(arrivals: seq<Arrival>, startedAt: int) {
    arrivals != [] ==> startedAt <= arrivals[0].at && InOrder(arrivals[1..], arrivals[0].at)
  }

  lemma TouchesChain(
    a: Records, b: Records, c: Records, x: RecordKey, y: RecordKey)
    requires OnlyTouches(a, b, {x}) && OnlyTouches(b, c, {y}) && KeepsValues(a, b) && KeepsValues(b, c)
    ensures OnlyTouches(a, c, {x, y}) && KeepsValues(a, c)
  {
  }
}
