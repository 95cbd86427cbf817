/** The locks of internal/core/failover_manager.go and the keys they are stored under. */
module LockKeys {
  import opened Text
  import opened Cluster
  import opened Event

  const LOCK_TTL: int := 30_000

  /** The keys group:master:failover and group:replica_dns. */
  datatype LockName = FailoverLock(group: string, master: string) | ReplicaLock(group: string)

  /** The lock a handler of the event takes. */
  function LockFor(cluster: Cluster, event: FailoverEvent): LockName {
    if event.eventType.Failover? then FailoverLock(cluster.groupName, cluster.masterName)
    else ReplicaLock(cluster.groupName)
  }

  const FAILOVER_LOCK := "failover"
  const REPLICA_LOCK := "replica_dns"

  /** The text of a lock key. */
  function LockText(name: LockName): string {
    match name
    case FailoverLock(group, master) => group + ":" + master + ":" + FAILOVER_LOCK
    case ReplicaLock(group) => group + ":" + REPLICA_LOCK
  }

  function LockRest(name: LockName): string {
    match name
    case FailoverLock(_, master) => master + [':'] + FAILOVER_LOCK
    case ReplicaLock(_) => REPLICA_LOCK
  }

  lemma LockTextShape(name: LockName)
    ensures LockText(name) == name.group + [':'] + LockRest(name)
    ensures ':' in LockRest(name) <==> name.FailoverLock?
  {
    if name.FailoverLock? {
      assert LockRest(name)[|name.master|] == ':';
      assert name.group + ":" + name.master + ":" + FAILOVER_LOCK
          == name.group + [':'] + (name.master + [':'] + FAILOVER_LOCK);
    }
  }

  /** Different locks never share a key when the names are free of colons. */
  lemma LockTextInjective(a: LockName, b: LockName)
    requires NoColon(a.group) && NoColon(b.group)
    requires (a.FailoverLock? ==> NoColon(a.master)) && (b.FailoverLock? ==> NoColon(b.master))
    ensures LockText(a) == LockText(b) <==> a == b
  {
    if LockText(a) == LockText(b) {
      LockTextShape(a);
      LockTextShape(b);
      SplitAtFirst(a.group, LockRest(a), b.group, LockRest(b), ':');
      if a.FailoverLock? {
        SplitAtFirst(a.master, FAILOVER_LOCK, b.master, FAILOVER_LOCK, ':');
      }
    }
  }

  /** With a colon in a name two clusters share a failover lock. */
  lemma ColonSharesLock(x: string, y: string, z: string)
    ensures LockText(FailoverLock(x + ":" + y, z)) == LockText(FailoverLock(x, y + ":" + z))
    ensures FailoverLock(x + ":" + y, z) != FailoverLock(x, y + ":" + z)
  {
    assert (x + ":" + y) + ":" + z + ":" + FAILOVER_LOCK == x + ":" + (y + ":" + z) + ":" + FAILOVER_LOCK;
    assert |x + ":" + y| != |x|;
  }

  /** A failover lock is never a replica lock, whatever the names are. */
  lemma KindsDiffer(a: LockName, b: LockName)
    requires a.FailoverLock? && b.ReplicaLock?
    ensures LockText(a) != LockText(b)
  {
    var s, t := LockText(a), LockText(b);
    assert s[|s| - 1] == 'r' && t[|t| - 1] == 's';
  }
}
