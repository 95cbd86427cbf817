/** internal/core/failover_manager.go: which replica addresses the three handlers choose
    from Sentinel's answer, and what that does to the replica record. */
module Replicas {
  import opened Text
  import opened Cluster
  import opened Event
  import opened RecordSet

  datatype SlaveInfo = SlaveInfo(ip: string, flags: string)
  datatype MasterDetail = MasterDetail(masterIP: string, slaves: seq<SlaveInfo>)

  predicate Healthy(s: SlaveInfo) { !Contains(s.flags, "s_down") }

  /** A slave is unhealthy exactly when its flags say s_down somewhere. */
  lemma HealthyExactly(s: SlaveInfo)
    ensures Healthy(s) <==> !SaysDown(s)
    ensures forall ip, a, b :: !Healthy(SlaveInfo(ip, a + "s_down" + b))
  {
    ContainsExactly(s.flags, "s_down");
    forall ip: string, a, b ensures !Healthy(SlaveInfo(ip, a + "s_down" + b)) {
      ContainsExactly(a + "s_down" + b, "s_down");
    }
  }

  ghost predicate SaysDown(s: SlaveInfo) { exists a, b :: s.flags == a + "s_down" + b }

  function AlsoHealthy(pass: SlaveInfo -> bool): SlaveInfo -> bool { (s: SlaveInfo) => pass(s) && Healthy(s) }

  /** Neither Sentinel's master nor the given address. */
  function NotMaster(detail: MasterDetail, ip: string): SlaveInfo -> bool {
    (s: SlaveInfo) => s.ip != detail.masterIP && s.ip != ip
  }

  function IsReplica(detail: MasterDetail): SlaveInfo -> bool { (s: SlaveInfo) => s.ip != detail.masterIP }

  /** The addresses of the slaves that pass, in Sentinel's order. */
  function Pick(slaves: seq<SlaveInfo>, pass: SlaveInfo -> bool): seq<string> {
    if slaves == [] then []
    else
      var last := slaves[|slaves| - 1];
      Pick(slaves[..|slaves| - 1], pass) + if pass(last) then [last.ip] else []
  }

  lemma {:induction false} PickIsFilter(slaves: seq<SlaveInfo>, pass: SlaveInfo -> bool)
    ensures forall ip :: ip in Pick(slaves, pass) <==> exists s <- slaves :: pass(s) && s.ip == ip
  {
    if slaves != [] {
      var front, last := slaves[..|slaves| - 1], slaves[|slaves| - 1];
      assert slaves == front + [last];
      PickIsFilter(front, pass);
    }
  }

  /** Everyone but the masters, healthy ones if there are any. */
  function PreferHealthy(slaves: seq<SlaveInfo>, other: SlaveInfo -> bool): seq<string> {
    var healthy := Pick(slaves, AlsoHealthy(other));
    if healthy != [] then healthy else Pick(slaves, other)
  }

  lemma PreferHealthyIsFilter(slaves: seq<SlaveInfo>, other: SlaveInfo -> bool)
    ensures forall ip | ip in PreferHealthy(slaves, other) :: exists s <- slaves :: other(s) && s.ip == ip
    ensures PreferHealthy(slaves, other) == [] <==> forall s <- slaves :: !other(s)
  {
    PickIsFilter(slaves, AlsoHealthy(other));
    PickIsFilter(slaves, other);
    var all := Pick(slaves, other);
    if PreferHealthy(slaves, other) != [] {
      assert PreferHealthy(slaves, other)[0] in PreferHealthy(slaves, other);
    }
    forall s | s in slaves && other(s) ensures s.ip in all {
    }
  }

  /** Healthy slaves are preferred: with one among the others, exactly the addresses of
      those that do not say s_down are listed, and otherwise those of all the others. */
  lemma HealthyPreferred(slaves: seq<SlaveInfo>, other: SlaveInfo -> bool)
    ensures (exists s <- slaves :: other(s) && !SaysDown(s)) ==>
              forall ip :: ip in PreferHealthy(slaves, other)
                           <==> exists s <- slaves :: other(s) && !SaysDown(s) && s.ip == ip
    ensures (forall s <- slaves :: other(s) ==> SaysDown(s)) ==>
              forall ip :: ip in PreferHealthy(slaves, other) <==> exists s <- slaves :: other(s) && s.ip == ip
  {
    forall s | s in slaves ensures AlsoHealthy(other)(s) <==> other(s) && !SaysDown(s) {
      HealthyExactly(s);
    }
    PickIsFilter(slaves, AlsoHealthy(other));
    PickIsFilter(slaves, other);
    PickEmpty(slaves, AlsoHealthy(other));
  }

  /** The picked addresses are those at the increasing positions at of exactly the slaves
      that pass. */
  ghost predicate Places(slaves: seq<SlaveInfo>, pass: SlaveInfo -> bool, picked: seq<string>, at: seq<nat>) {
    && |at| == |picked|
    && (forall i, j | 0 <= i < j < |at| :: at[i] < at[j])
    && (forall i | 0 <= i < |at| :: at[i] < |slaves| && pass(slaves[at[i]]) && picked[i] == slaves[at[i]].ip)
    && (forall k: nat | k < |slaves| && pass(slaves[k]) :: k in at)
  }

  lemma PlacesSkip(slaves: seq<SlaveInfo>, pass: SlaveInfo -> bool, picked: seq<string>, at: seq<nat>)
    requires slaves != [] && !pass(slaves[|slaves| - 1]) && Places(slaves[..|slaves| - 1], pass, picked, at)
    ensures Places(slaves, pass, picked, at)
  {
    var front := slaves[..|slaves| - 1];
    forall k: nat | k < |slaves| && pass(slaves[k]) ensures k in at {
      assert k < |front| && front[k] == slaves[k];
    }
  }

  lemma PlacesTake(slaves: seq<SlaveInfo>, pass: SlaveInfo -> bool, picked: seq<string>, at: seq<nat>)
    requires slaves != [] && pass(slaves[|slaves| - 1]) && Places(slaves[..|slaves| - 1], pass, picked, at)
    ensures Places(slaves, pass, picked + [slaves[|slaves| - 1].ip], at + [|slaves| - 1])
  {
    var front, n := slaves[..|slaves| - 1], |slaves| - 1;
    var more := at + [n];
    forall k: nat | k < |slaves| && pass(slaves[k]) ensures k in more {
      if k < n {
        assert front[k] == slaves[k] && k in at;
      } else {
        assert more[|at|] == k;
      }
    }
  }

  /** Picking keeps Sentinel's order. */
  lemma {:induction false} PickKeepsOrder(slaves: seq<SlaveInfo>, pass: SlaveInfo -> bool) returns (at: seq<nat>)
    ensures Places(slaves, pass, Pick(slaves, pass), at)
  {
    at := [];
    if slaves != [] {
      var n := |slaves| - 1;
      at := PickKeepsOrder(slaves[..n], pass);
      var picked := Pick(slaves[..n], pass);
      if pass(slaves[n]) {
        PlacesTake(slaves, pass, picked, at);
        at := at + [n];
      } else {
        PlacesSkip(slaves, pass, picked, at);
        assert picked + [] == picked;
      }
    }
  }

  // ----- the change each handler asks of the provider -----

  predicate Answered(detail: Option<MasterDetail>) { detail.Some? && detail.value.slaves != [] }

  /** The slaves other than both masters, healthy ones first of all; failing those, the
      demoted master; failing that, no change. Without a Sentinel answer only a
      single-replica cluster changes, to the demoted master. */
  function FailoverWrite(
    valid: string -> bool, cluster: Cluster, event: FailoverEvent, detail: Option<MasterDetail>): Option<Op>
  {
    if Answered(detail) then
      var chosen := PreferHealthy(detail.value.slaves, NotMaster(detail.value, event.toIP));
      if chosen != [] then Some(UpdateValues(chosen))
      else if valid(event.fromIP) && event.fromIP != event.toIP then Some(Update(event.fromIP))
      else None
    else if !cluster.multiReplica && valid(event.fromIP) then Some(Update(event.fromIP))
    else None
  }

  /** The healthy slaves other than the master and the lost replica, if any; without a
      Sentinel answer the lost address is taken out. */
  function DownWrite(event: FailoverEvent, detail: Option<MasterDetail>): Option<Op> {
    if Answered(detail) then
      var chosen := Pick(detail.value.slaves, AlsoHealthy(NotMaster(detail.value, event.fromIP)));
      if chosen != [] then Some(UpdateValues(chosen)) else None
    else Some(Remove(event.fromIP))
  }

  /** The slaves other than the master, or the returned address alone or in addition,
      unless Sentinel says it is the master. */
  function UpWrite(cluster: Cluster, event: FailoverEvent, detail: Option<MasterDetail>): Option<Op> {
    if Answered(detail) && cluster.multiReplica then
      var chosen := PreferHealthy(detail.value.slaves, IsReplica(detail.value));
      if chosen != [] then Some(UpdateValues(chosen)) else None
    else if detail.Some? && event.fromIP == detail.value.masterIP then None
    else if !cluster.multiReplica then Some(Update(event.fromIP))
    else Some(Add(event.fromIP))
  }

  function ListAfterWrite(before: seq<string>, write: Option<Op>): seq<string> {
    match write
    case None => before
    case Some(op) => ListAfter(before, op)
  }

  function FailoverReplicas(
    valid: string -> bool, cluster: Cluster, event: FailoverEvent, detail: Option<MasterDetail>, before: seq<string>)
    : seq<string>
  {
    ListAfterWrite(before, FailoverWrite(valid, cluster, event, detail))
  }

  function ReplicasWithout(event: FailoverEvent, detail: Option<MasterDetail>, before: seq<string>): seq<string> {
    ListAfterWrite(before, DownWrite(event, detail))
  }

  function ReplicasWith(
    cluster: Cluster, event: FailoverEvent, detail: Option<MasterDetail>, before: seq<string>): seq<string>
  {
    ListAfterWrite(before, UpWrite(cluster, event, detail))
  }

  /** Sentinel's slaves without its master. */
  predicate FromSentinel(detail: MasterDetail, ips: seq<string>) {
    detail.masterIP !in ips && forall ip <- ips :: exists s <- detail.slaves :: s.ip == ip
  }

  predicate AllHealthy(detail: MasterDetail, ips: seq<string>) {
    forall ip <- ips :: exists s <- detail.slaves :: s.ip == ip && Healthy(s)
  }

  /** Some slave of the address, other than the given masters, does not say s_down. */
  ghost predicate Serves(detail: MasterDetail, ip: string, exceptFor: string) {
    ip != detail.masterIP && ip != exceptFor && exists s <- detail.slaves :: s.ip == ip && !SaysDown(s)
  }

  /** The lists in terms of Sentinel's flags, when it names a slave that serves. After a
      failover the record lists exactly those that serve, without both masters. */
  lemma FailoverListsServing(valid: string -> bool, cluster: Cluster, event: FailoverEvent, detail: MasterDetail,
                             before: seq<string>, ip: string)
    requires Serves(detail, ip, event.toIP)
    ensures forall x :: x in FailoverReplicas(valid, cluster, event, Some(detail), before)
                        <==> Serves(detail, x, event.toIP)
  {
    HealthyPreferred(detail.slaves, NotMaster(detail, event.toIP));
    assert ip in PreferHealthy(detail.slaves, NotMaster(detail, event.toIP));
  }

  /** After a replica_down those without the master and the lost one. */
  lemma DownListsServing(event: FailoverEvent, detail: MasterDetail, before: seq<string>, ip: string)
    requires Serves(detail, ip, event.fromIP)
    ensures forall x :: x in ReplicasWithout(event, Some(detail), before) <==> Serves(detail, x, event.fromIP)
  {
    forall s | s in detail.slaves ensures Healthy(s) <==> !SaysDown(s) {
      HealthyExactly(s);
    }
    var pass := AlsoHealthy(NotMaster(detail, event.fromIP));
    PickIsFilter(detail.slaves, pass);
    assert ip in Pick(detail.slaves, pass);
  }

  /** After a replica_up of a cluster with several replicas those without the master. */
  lemma UpListsServing(cluster: Cluster, event: FailoverEvent, detail: MasterDetail, before: seq<string>, ip: string)
    requires cluster.multiReplica && Serves(detail, ip, detail.masterIP)
    ensures forall x :: x in ReplicasWith(cluster, event, Some(detail), before)
                        <==> Serves(detail, x, detail.masterIP)
  {
    HealthyPreferred(detail.slaves, IsReplica(detail));
    assert ip in PreferHealthy(detail.slaves, IsReplica(detail));
  }

  // ----- what a failover writes and leaves -----

  /** Whenever handleFailover writes the replica record, it leaves out the new master,
      except without a Sentinel answer when the event names one address as old and new
      master; and a list from Sentinel leaves out Sentinel's master as well. */
  lemma FailoverWriteExcludesNewMaster(
    valid: string -> bool, cluster: Cluster, event: FailoverEvent, detail: Option<MasterDetail>)
    ensures var write := FailoverWrite(valid, cluster, event, detail);
      write.Some? ==>
        && PutValues(write.value) != []
        && (event.toIP in PutValues(write.value) <==> !Answered(detail) && event.fromIP == event.toIP)
        && (write.value.UpdateValues? ==> Answered(detail) && FromSentinel(detail.value, write.value.values))
        && (write.value.Update? ==> write.value.value == event.fromIP)
  {
    if Answered(detail) {
      PreferHealthyIsFilter(detail.value.slaves, NotMaster(detail.value, event.toIP));
    }
  }

  /** Sentinel's slaves are all masters and there is no demoted master to fall back on. */
  predicate NothingToList(valid: string -> bool, event: FailoverEvent, detail: MasterDetail) {
    && (forall s <- detail.slaves :: s.ip == detail.masterIP || s.ip == event.toIP)
    && !(valid(event.fromIP) && event.fromIP != event.toIP)
  }

  /** Exactly when the replica record lists the new master after a failover: it listed it
      before, as a promoted replica does, and the failover finds nothing to write; or the
      event names the new master as the old one too. */
  lemma NewMasterListedExactly(
    valid: string -> bool, cluster: Cluster, event: FailoverEvent, detail: Option<MasterDetail>, before: seq<string>)
    ensures event.toIP in FailoverReplicas(valid, cluster, event, detail, before) <==>
      if Answered(detail) then event.toIP in before && NothingToList(valid, event, detail.value)
      else if !cluster.multiReplica && valid(event.fromIP) then event.fromIP == event.toIP
      else event.toIP in before
    ensures before != [] ==> FailoverReplicas(valid, cluster, event, detail, before) != []
  {
    FailoverWriteExcludesNewMaster(valid, cluster, event, detail);
    if Answered(detail) {
      PreferHealthyIsFilter(detail.value.slaves, NotMaster(detail.value, event.toIP));
    }
  }

  // ----- what replica_down writes and leaves -----

  /** A list written by handleReplicaDown has only healthy slaves of Sentinel's, and neither
      its master nor the lost address; the other change takes the lost address out. */
  lemma DownWriteExcludesLost(event: FailoverEvent, detail: Option<MasterDetail>)
    ensures var write := DownWrite(event, detail);
      write.Some? ==>
        && event.fromIP !in PutValues(write.value)
        && (Answered(detail) ==> PutValues(write.value) != [] && FromSentinel(detail.value, PutValues(write.value)))
        && (Answered(detail) ==> AllHealthy(detail.value, PutValues(write.value)))
        && (!Answered(detail) ==> write.value == Remove(event.fromIP))
  {
    if Answered(detail) {
      PickIsFilter(detail.value.slaves, AlsoHealthy(NotMaster(detail.value, event.fromIP)));
    }
  }

  /** Exactly when the lost address is still listed: it was, and there is no other healthy
      slave, or without a Sentinel answer no other value. */
  lemma LostListedExactly(event: FailoverEvent, detail: Option<MasterDetail>, before: seq<string>)
    ensures event.fromIP in ReplicasWithout(event, detail, before) <==>
      && event.fromIP in before
      && if Answered(detail) then
           forall s <- detail.value.slaves ::
             s.ip == detail.value.masterIP || s.ip == event.fromIP || !Healthy(s)
         else forall ip <- before :: ip == event.fromIP
    ensures before != [] ==> ReplicasWithout(event, detail, before) != []
  {
    if Answered(detail) {
      var pass := AlsoHealthy(NotMaster(detail.value, event.fromIP));
      PickIsFilter(detail.value.slaves, pass);
      PickEmpty(detail.value.slaves, pass);
    } else {
      WithoutIsFilter(before, event.fromIP);
      if Without(before, event.fromIP) != [] {
        assert Without(before, event.fromIP)[0] in Without(before, event.fromIP);
      }
    }
  }

  lemma PickEmpty(slaves: seq<SlaveInfo>, pass: SlaveInfo -> bool)
    ensures Pick(slaves, pass) == [] <==> forall s <- slaves :: !pass(s)
  {
    PickIsFilter(slaves, pass);
    if Pick(slaves, pass) != [] {
      assert Pick(slaves, pass)[0] in Pick(slaves, pass);
    }
    forall s | s in slaves && pass(s) ensures s.ip in Pick(slaves, pass) {
    }
  }

  // ----- what replica_up writes and leaves -----

  /** handleReplicaUp never writes or adds the address that Sentinel reports as master. */
  lemma UpWriteExcludesMaster(cluster: Cluster, event: FailoverEvent, detail: Option<MasterDetail>)
    ensures var write := UpWrite(cluster, event, detail);
      write.Some? ==>
        && PutValues(write.value) != []
        && (detail.Some? ==> detail.value.masterIP !in PutValues(write.value))
        && (!(Answered(detail) && cluster.multiReplica) ==> PutValues(write.value) == [event.fromIP])
  {
    if Answered(detail) {
      PreferHealthyIsFilter(detail.value.slaves, IsReplica(detail.value));
    }
  }

  /** Exactly when the record lists Sentinel's master after a replica_up: it did before, and
      the event wrote nothing or only added a value. */
  lemma MasterListedExactly(cluster: Cluster, event: FailoverEvent, detail: MasterDetail, before: seq<string>)
    ensures detail.masterIP in ReplicasWith(cluster, event, Some(detail), before) <==>
      && detail.masterIP in before
      && if detail.slaves != [] && cluster.multiReplica then forall s <- detail.slaves :: s.ip == detail.masterIP
         else event.fromIP == detail.masterIP || cluster.multiReplica
    ensures before != [] ==> ReplicasWith(cluster, event, Some(detail), before) != []
  {
    UpWriteExcludesMaster(cluster, event, Some(detail));
    PreferHealthyIsFilter(detail.slaves, IsReplica(detail));
  }

  // ----- the loops over Sentinel's slaves -----

  lemma PickNext(slaves: seq<SlaveInfo>, i: nat, pass: SlaveInfo -> bool)
    requires i < |slaves|
    ensures Pick(slaves[..i + 1], pass) == Pick(slaves[..i], pass) + if pass(slaves[i]) then [slaves[i].ip] else []
  {
    assert slaves[..i + 1][..i] == slaves[..i];
  }

  method SlavesAfterFailover(detail: MasterDetail, newMasterIP: string) returns (slaveIPs: seq<string>)
    ensures slaveIPs == PreferHealthy(detail.slaves, NotMaster(detail, newMasterIP))
  {
    ghost var other := NotMaster(detail, newMasterIP);
    slaveIPs := [];
    for i := 0 to |detail.slaves|
      invariant slaveIPs == Pick(detail.slaves[..i], AlsoHealthy(other))
    {
      var s := detail.slaves[i];
      PickNext(detail.slaves, i, AlsoHealthy(other));
      if s.ip == detail.masterIP || s.ip == newMasterIP {
        continue;
      }
      if Healthy(s) {
        slaveIPs := slaveIPs + [s.ip];
      }
    }
    assert detail.slaves[..|detail.slaves|] == detail.slaves;
    if |slaveIPs| == 0 {
      for i := 0 to |detail.slaves|
        invariant slaveIPs == Pick(detail.slaves[..i], other)
      {
        var s := detail.slaves[i];
        PickNext(detail.slaves, i, other);
        if s.ip != detail.masterIP && s.ip != newMasterIP {
          slaveIPs := slaveIPs + [s.ip];
        }
      }
    }
  }

  method SlavesWithoutLost(detail: MasterDetail, lostIP: string) returns (slaveIPs: seq<string>)
    ensures slaveIPs == Pick(detail.slaves, AlsoHealthy(NotMaster(detail, lostIP)))
  {
    slaveIPs := [];
    for i := 0 to |detail.slaves|
      invariant slaveIPs == Pick(detail.slaves[..i], AlsoHealthy(NotMaster(detail, lostIP)))
    {
      var s := detail.slaves[i];
      PickNext(detail.slaves, i, AlsoHealthy(NotMaster(detail, lostIP)));
      if s.ip == detail.masterIP {
        continue;
      }
      if s.ip == lostIP {
        continue;
      }
      if Healthy(s) {
        slaveIPs := slaveIPs + [s.ip];
      }
    }
    assert detail.slaves[..|detail.slaves|] == detail.slaves;
  }

  method HealthySlaveIPs(detail: MasterDetail) returns (ips: seq<string>)
    ensures ips == Pick(detail.slaves, AlsoHealthy(IsReplica(detail)))
  {
    ips := [];
    for i := 0 to |detail.slaves|
      invariant ips == Pick(detail.slaves[..i], AlsoHealthy(IsReplica(detail)))
    {
      var s := detail.slaves[i];
      PickNext(detail.slaves, i, AlsoHealthy(IsReplica(detail)));
      if s.ip != detail.masterIP && Healthy(s) {
        ips := ips + [s.ip];
      }
    }
    assert detail.slaves[..|detail.slaves|] == detail.slaves;
  }

  method AllSlaveIPs(detail: MasterDetail) returns (ips: seq<string>)
    ensures ips == Pick(detail.slaves, IsReplica(detail))
  {
    ips := [];
    for i := 0 to |detail.slaves|
      invariant ips == Pick(detail.slaves[..i], IsReplica(detail))
    {
      var s := detail.slaves[i];
      PickNext(detail.slaves, i, IsReplica(detail));
      if s.ip != detail.masterIP {
        ips := ips + [s.ip];
      }
    }
    assert detail.slaves[..|detail.slaves|] == detail.slaves;
  }
}
