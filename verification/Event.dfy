/** internal/models/event.go: events and their dedup keys. The SHA-256 digest applied to
    the raw key is taken to be injective, so keys are compared before hashing. */
module Event {
  import opened Text

  /** Any text may arrive as an event type; Other stands for all but the five known. */
  datatype EventType = Failover | ReplicaDown | ReplicaUp | SentinelDown | SentinelUp | Other(text: string)

  const REPLICA_DOWN := "replica_down"
  const REPLICA_UP := "replica_up"
  const SENTINEL_DOWN := "sentinel_down"
  const SENTINEL_UP := "sentinel_up"

  datatype FailoverEvent = FailoverEvent(
    groupName: string,
    masterName: string,
    fromIP: string,
    fromPort: int,
    toIP: string,
    toPort: int,
    sentinelNodeName: string,
    eventType: EventType)

  /** The text that DedupKey hashes. */
  function RawKey(e: FailoverEvent): string {
    match e.eventType
    case ReplicaDown => e.groupName + ":" + e.masterName + ":" + "replica_down" + ":" + e.fromIP
    case ReplicaUp => e.groupName + ":" + e.masterName + ":" + "replica_up" + ":" + e.fromIP
    case SentinelDown => e.groupName + ":" + "sentinel_down" + ":" + e.sentinelNodeName
    case SentinelUp => e.groupName + ":" + "sentinel_up" + ":" + e.sentinelNodeName
    case _ => e.groupName + ":" + e.masterName + ":" + e.toIP + ":" + IntString(e.toPort)
  }

  /** What an event is about. Two reports should be counted together exactly when they
      have the same subject. */
  datatype Subject =
    | Promotion(group: string, master: string, ip: string, port: int)
    | ReplicaLost(group: string, master: string, ip: string)
    | ReplicaBack(group: string, master: string, ip: string)
    | SentinelLost(group: string, node: string)
    | SentinelBack(group: string, node: string)

  function SubjectOf(e: FailoverEvent): Subject {
    match e.eventType
    case ReplicaDown => ReplicaLost(e.groupName, e.masterName, e.fromIP)
    case ReplicaUp => ReplicaBack(e.groupName, e.masterName, e.fromIP)
    case SentinelDown => SentinelLost(e.groupName, e.sentinelNodeName)
    case SentinelUp => SentinelBack(e.groupName, e.sentinelNodeName)
    case _ => Promotion(e.groupName, e.masterName, e.toIP, e.toPort)
  }

  predicate NoColon(s: string) { ':' !in s }

  predicate WellNamed(e: FailoverEvent) {
    NoColon(e.groupName) && NoColon(e.masterName) && NoColon(e.sentinelNodeName)
  }

  /** A promotion whose target address reads like a replica key. */
  predicate Shadows(e: FailoverEvent) {
    && SubjectOf(e).Promotion?
    && ("replica_down:" <= e.toIP + ":" || "replica_up:" <= e.toIP + ":")
  }

  // ----- the shape of a raw key: group, then a second field, then the rest -----

  function Second(e: FailoverEvent): string {
    match SubjectOf(e)
    case SentinelLost(_, _) => SENTINEL_DOWN
    case SentinelBack(_, _) => SENTINEL_UP
    case _ => e.masterName
  }

  function Rest(e: FailoverEvent): string {
    match SubjectOf(e)
    case Promotion(_, _, ip, port) => ip + ":" + IntString(port)
    case ReplicaLost(_, _, ip) => REPLICA_DOWN + ":" + ip
    case ReplicaBack(_, _, ip) => REPLICA_UP + ":" + ip
    case SentinelLost(_, node) => node
    case SentinelBack(_, node) => node
  }

  predicate AboutSentinel(e: FailoverEvent) {
    SubjectOf(e).SentinelLost? || SubjectOf(e).SentinelBack?
  }

  lemma ThreeParts(g: string, m: string, r: string)
    ensures g + ":" + m + ":" + r == g + [':'] + (m + [':'] + r)
  {
  }

  lemma FourParts(g: string, m: string, t: string, r: string)
    ensures g + ":" + m + ":" + t + ":" + r == g + [':'] + (m + [':'] + (t + ":" + r))
    ensures (t + ":" + r)[|t|] == ':'
  {
  }

  lemma RawKeyShape(e: FailoverEvent)
    ensures RawKey(e) == e.groupName + [':'] + (Second(e) + [':'] + Rest(e))
    ensures !AboutSentinel(e) ==> ':' in Rest(e)
  {
    match SubjectOf(e)
    case Promotion(_, _, ip, port) => FourParts(e.groupName, e.masterName, ip, IntString(port));
    case ReplicaLost(_, _, ip) => FourParts(e.groupName, e.masterName, REPLICA_DOWN, ip);
    case ReplicaBack(_, _, ip) => FourParts(e.groupName, e.masterName, REPLICA_UP, ip);
    case SentinelLost(_, node) => ThreeParts(e.groupName, SENTINEL_DOWN, node);
    case SentinelBack(_, node) => ThreeParts(e.groupName, SENTINEL_UP, node);
  }

  lemma EqualKeysSplit(a: FailoverEvent, b: FailoverEvent)
    requires WellNamed(a) && WellNamed(b) && RawKey(a) == RawKey(b)
    ensures a.groupName == b.groupName && Second(a) == Second(b) && Rest(a) == Rest(b)
    ensures AboutSentinel(a) == AboutSentinel(b)
  {
    RawKeyShape(a);
    RawKeyShape(b);
    SplitAtFirst(a.groupName, Second(a) + [':'] + Rest(a), b.groupName, Second(b) + [':'] + Rest(b), ':');
    SplitAtFirst(Second(a), Rest(a), Second(b), Rest(b), ':');
  }

  /** Failover reports of one cluster only share a counter with reports of the same
      promotion, whatever the address and the reporting node are called. */
  lemma EqualKeysSameMaster(a: FailoverEvent, b: FailoverEvent)
    requires NoColon(a.groupName) && NoColon(a.masterName) && NoColon(b.groupName) && NoColon(b.masterName)
    requires SubjectOf(a).Promotion? && SubjectOf(b).Promotion?
    ensures RawKey(a) == RawKey(b) <==> SubjectOf(a) == SubjectOf(b)
  {
    if RawKey(a) == RawKey(b) {
      RawKeyShape(a);
      RawKeyShape(b);
      SplitAtFirst(a.groupName, Second(a) + [':'] + Rest(a), b.groupName, Second(b) + [':'] + Rest(b), ':');
      SplitAtFirst(Second(a), Rest(a), Second(b), Rest(b), ':');
      SamePromotion(a, b);
    }
  }

  lemma SamePromotion(a: FailoverEvent, b: FailoverEvent)
    requires SubjectOf(a).Promotion? && SubjectOf(b).Promotion? && Rest(a) == Rest(b)
    ensures a.toIP == b.toIP && a.toPort == b.toPort
  {
    IntStringChars(a.toPort);
    IntStringChars(b.toPort);
    SplitAtLast(a.toIP, IntString(a.toPort), b.toIP, IntString(b.toPort), ':');
    IntStringInjective(a.toPort, b.toPort);
  }

  /** A replica key is the key of a promotion only if that promotion shadows it. */
  lemma PromotionVersusReplica(a: FailoverEvent, b: FailoverEvent)
    requires SubjectOf(a).Promotion? && (SubjectOf(b).ReplicaLost? || SubjectOf(b).ReplicaBack?)
    requires Rest(a) == Rest(b)
    ensures Shadows(a)
  {
    var tag := if SubjectOf(b).ReplicaLost? then "replica_down:" else "replica_up:";
    var port := IntString(a.toPort);
    IntStringChars(a.toPort);
    var head := a.toIP + ":";
    assert Rest(a) == head + port == tag + b.fromIP;
    assert forall i :: |head| <= i < |head + port| ==> (head + port)[i] in port;
    assert (tag + b.fromIP)[|tag| - 1] == ':';
    assert |tag| <= |head|;
    assert head[..|tag|] == Rest(a)[..|tag|] == tag;
  }

  lemma ReplicaDownIsNotReplicaUp(x: string, y: string)
    ensures REPLICA_DOWN + ":" + x != REPLICA_UP + ":" + y
  {
    assert (REPLICA_DOWN + ":" + x)[8] == 'd' && (REPLICA_UP + ":" + y)[8] == 'u';
  }

  /** Raw keys are collision-free: for colon-free names, and addresses that do not read
      like replica keys, equal keys mean the same subject, IPv6 addresses included. */
  lemma RawKeyIsSubject(a: FailoverEvent, b: FailoverEvent)
    requires WellNamed(a) && WellNamed(b) && !Shadows(a) && !Shadows(b)
    ensures RawKey(a) == RawKey(b) <==> SubjectOf(a) == SubjectOf(b)
    ensures RawKey(a) == RawKey(b) <==>
      && a.groupName == b.groupName
      && match a.eventType
         case ReplicaDown => b.eventType.ReplicaDown? && a.masterName == b.masterName && a.fromIP == b.fromIP
         case ReplicaUp => b.eventType.ReplicaUp? && a.masterName == b.masterName && a.fromIP == b.fromIP
         case SentinelDown => b.eventType.SentinelDown? && a.sentinelNodeName == b.sentinelNodeName
         case SentinelUp => b.eventType.SentinelUp? && a.sentinelNodeName == b.sentinelNodeName
         case _ =>
           && (b.eventType.Failover? || b.eventType.Other?)
           && a.masterName == b.masterName && a.toIP == b.toIP && a.toPort == b.toPort
  {
    if RawKey(a) == RawKey(b) {
      EqualKeysSplit(a, b);
      SameRestSameSubject(a, b);
    }
    if SubjectOf(a) == SubjectOf(b) {
      RawKeyShape(a);
      RawKeyShape(b);
    }
  }

  lemma SameRestSameSubject(a: FailoverEvent, b: FailoverEvent)
    requires !Shadows(a) && !Shadows(b)
    requires a.groupName == b.groupName && Second(a) == Second(b) && Rest(a) == Rest(b)
    requires AboutSentinel(a) == AboutSentinel(b)
    ensures SubjectOf(a) == SubjectOf(b)
  {
    if AboutSentinel(a) {
      assert SENTINEL_DOWN != SENTINEL_UP;
    } else if SubjectOf(a).Promotion? && SubjectOf(b).Promotion? {
      SamePromotion(a, b);
    } else if SubjectOf(a).Promotion? {
      PromotionVersusReplica(a, b);
    } else if SubjectOf(b).Promotion? {
      PromotionVersusReplica(b, a);
    } else {
      ReplicaDownIsNotReplicaUp(a.fromIP, b.fromIP);
      ReplicaDownIsNotReplicaUp(b.fromIP, a.fromIP);
      assert SubjectOf(a).ReplicaLost? == SubjectOf(b).ReplicaLost?;
      var n := if SubjectOf(a).ReplicaLost? then 13 else 11;
      assert Rest(a)[n..] == a.fromIP && Rest(b)[n..] == b.fromIP;
    }
  }

  /** The address condition is exact: a well-named promotion collides with some
      well-named event about something else if and only if it shadows a replica key. */
  lemma CollidesExactlyWhenShadowing(a: FailoverEvent)
    requires WellNamed(a) && SubjectOf(a).Promotion?
    ensures Shadows(a) <==>
            exists b :: WellNamed(b) && RawKey(b) == RawKey(a) && SubjectOf(b) != SubjectOf(a)
  {
    if Shadows(a) {
      var down := "replica_down:" <= a.toIP + ":";
      var n := if down then 13 else 11;
      var tag := if down then "replica_down:" else "replica_up:";
      var b := a.(eventType := if down then ReplicaDown else ReplicaUp, fromIP := Rest(a)[n..]);
      assert Rest(a) == a.toIP + ":" + IntString(a.toPort);
      assert tag <= Rest(a) && Rest(b) == Rest(a);
      RawKeyShape(a);
      RawKeyShape(b);
      assert WellNamed(b) && RawKey(b) == RawKey(a) && SubjectOf(b) != SubjectOf(a);
    } else {
      forall b | WellNamed(b) && RawKey(b) == RawKey(a)
        ensures SubjectOf(b) == SubjectOf(a)
      {
        EqualKeysSplit(a, b);
        if SubjectOf(b).Promotion? {
          SamePromotion(a, b);
        } else {
          PromotionVersusReplica(a, b);
          assert false;
        }
      }
    }
  }

  /** The name condition is needed too: with a colon in a name, promotions of two
      different masters share one counter. */
  lemma ColonInNameCollides(x: string, y: string, z: string, e: FailoverEvent)
    requires e.eventType.Failover?
    ensures RawKey(e.(groupName := x + ":" + y, masterName := z))
         == RawKey(e.(groupName := x, masterName := y + ":" + z))
    ensures SubjectOf(e.(groupName := x + ":" + y, masterName := z))
         != SubjectOf(e.(groupName := x, masterName := y + ":" + z))
  {
    var a := e.(groupName := x + ":" + y, masterName := z);
    var b := e.(groupName := x, masterName := y + ":" + z);
    RawKeyShape(a);
    RawKeyShape(b);
    assert RawKey(a) == RawKey(b) by {
      assert (x + ":" + y) + [':'] + (z + [':'] + Rest(a)) == x + [':'] + ((y + ":" + z) + [':'] + Rest(b));
    }
    assert |x + ":" + y| != |x|;
  }
}
