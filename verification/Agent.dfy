/** internal/agent: what a sentinel's notification becomes, and how often it is sent. */
module Agent {
  import opened Text
  import opened Event

  datatype Sdown = Sdown(ip: string, port: int, masterName: string)

  function FirstIndex(parts: seq<string>, p: string): int {
    if parts == [] then -1
    else if parts[0] == p then 0
    else
      var i := FirstIndex(parts[1..], p);
      if i < 0 then -1 else i + 1
  }

  /** What the fields of a description say, if it is about a slave. */
  function Described(parts: seq<string>): Option<Sdown> {
    if |parts| < 5 || parts[0] != "slave" then None
    else
      var atIdx := FirstIndex(parts, "@");
      var lastColon := LastIndex(parts[1], ':');
      if atIdx < 0 || atIdx + 1 >= |parts| || lastColon < 0 || Atoi(parts[1][lastColon + 1..]).None? then None
      else Some(Sdown(parts[1][..lastColon], Atoi(parts[1][lastColon + 1..]).value, parts[atIdx + 1]))
  }

  lemma {:induction false} FirstIndexAt(parts: seq<string>, i: nat, p: string)
    requires i < |parts| && parts[i] == p && p !in parts[..i]
    ensures FirstIndex(parts, p) == i
  {
    if i > 0 {
      assert parts[0] in parts[..i];
      assert parts[1..][..i - 1] == parts[..i][1..];
      FirstIndexAt(parts[1..], i - 1, p);
    }
  }

  lemma {:induction false} FirstIndexNone(parts: seq<string>, p: string)
    requires p !in parts
    ensures FirstIndex(parts, p) == -1
  {
    if parts != [] {
      FirstIndexNone(parts[1..], p);
    }
  }

  /** Only descriptions of slaves that name a master say anything: their first field is
      "slave", the second an address and a decimal port, and the name comes after an "@". */
  lemma OnlySlavesDescribed(parts: seq<string>)
    ensures Described(parts).Some? ==>
      var s := Described(parts).value;
      && |parts| >= 5 && parts[0] == "slave" && ':' !in parts[1][|s.ip| + 1..]
      && parts[1] == s.ip + ":" + parts[1][|s.ip| + 1..] && Atoi(parts[1][|s.ip| + 1..]) == Some(s.port)
      && exists k | 0 < k < |parts| :: parts[k - 1] == "@" && "@" !in parts[..k - 1] && parts[k] == s.masterName
  {
    if Described(parts).Some? {
      FirstIndexFinds(parts, "@");
      var k := FirstIndex(parts, "@") + 1;
      assert parts[k - 1] == "@" && parts[k] == Described(parts).value.masterName;
    }
  }

  lemma {:induction false} FirstIndexFinds(parts: seq<string>, p: string)
    ensures FirstIndex(parts, p) >= 0 ==>
              FirstIndex(parts, p) < |parts| && parts[FirstIndex(parts, p)] == p && p !in parts[..FirstIndex(parts, p)]
  {
    if parts != [] && parts[0] != p {
      FirstIndexFinds(parts[1..], p);
      var i := FirstIndex(parts, p);
      if i >= 0 {
        assert parts[..i] == [parts[0]] + parts[1..][..i - 1];
      }
    }
  }

  method ParseSdownDescription(description: string) returns (r: Option<Sdown>)
    ensures r == Described(Fields(description))
  {
    var parts := Fields(description);
    if |parts| < 5 || parts[0] != "slave" {
      return None;
    }
    var atIdx := -1;
    var i := 0;
    while i < |parts| && atIdx < 0
      invariant 0 <= i <= |parts|
      invariant atIdx < 0 ==> atIdx == -1 && "@" !in parts[..i]
      invariant atIdx >= 0 ==> atIdx < |parts| && FirstIndex(parts, "@") == atIdx
    {
      if parts[i] == "@" {
        FirstIndexAt(parts, i, "@");
        atIdx := i;
      }
      i := i + 1;
    }
    if atIdx < 0 {
      assert parts[..i] == parts;
      FirstIndexNone(parts, "@");
      return None;
    }
    if atIdx + 1 >= |parts| {
      return None;
    }
    var masterName := parts[atIdx + 1];
    var addr := parts[1];
    var lastColon := LastIndex(addr, ':');
    if lastColon < 0 {
      return None;
    }
    var port := Atoi(addr[lastColon + 1..]);
    if port.None? {
      return None;
    }
    return Some(Sdown(addr[..lastColon], port.value, masterName));
  }

  // ----- descriptions read back -----

  /** The description a sentinel passes for a slave of a master. */
  function Describe(s: Sdown, masterIP: string, masterPort: int): seq<string> {
    ["slave", s.ip + ":" + IntString(s.port), s.ip, IntString(s.port), "@", s.masterName,
     masterIP, IntString(masterPort)]
  }

  function AllFields(args: seq<string>): seq<string> {
    if args == [] then [] else Fields(args[0]) + AllFields(args[1..])
  }

  /** The description does not depend on how the shell split it into arguments: its fields
      are those of the arguments, one after the other. */
  lemma {:induction false} FieldsOfJoin(args: seq<string>)
    ensures Fields(Join(args, " ")) == AllFields(args)
  {
    if |args| == 1 {
      assert AllFields(args[1..]) == [];
      assert Fields(args[0]) + [] == Fields(args[0]);
    } else if |args| > 1 {
      FieldsAcrossSpace(args[0], ' ', Join(args[1..], " "));
      assert args[0] + " " + Join(args[1..], " ") == args[0] + [' '] + Join(args[1..], " ");
      FieldsOfJoin(args[1..]);
    }
  }

  predicate Word(w: string) { w != "" && NoSpace(w) }

  lemma PrintedNumberIsWord(n: int)
    ensures Word(IntString(n)) && '@' !in IntString(n)
  {
    IntStringChars(n);
  }

  lemma {:induction false} FieldsOfWords(words: seq<string>, rest: seq<string>)
    requires forall w <- words :: Word(w)
    ensures AllFields(words + rest) == words + AllFields(rest)
  {
    if words == [] {
      assert words + rest == rest;
    } else {
      assert (words + rest)[1..] == words[1..] + rest;
      FieldsOfWords(words[1..], rest);
      assert words[0] in words && Word(words[0]);
      FieldsOfWord(words[0]);
    }
  }

  /** The description up to the master's name. */
  function Words(s: Sdown): seq<string> {
    ["slave", s.ip + ":" + IntString(s.port), s.ip, IntString(s.port), "@", s.masterName]
  }

  lemma WordsAreWords(s: Sdown)
    requires Word(s.ip) && Word(s.masterName)
    ensures forall w <- Words(s) :: Word(w)
  {
    PrintedNumberIsWord(s.port);
    assert Word("slave") && Word("@") && Word(s.ip + ":" + IntString(s.port));
  }

  lemma DescriptionFields(s: Sdown, masterIP: string, masterPort: int)
    requires Word(s.ip) && Word(s.masterName)
    ensures Fields(Join(Describe(s, masterIP, masterPort), " "))
         == Words(s) + AllFields([masterIP, IntString(masterPort)])
  {
    WordsAreWords(s);
    FieldsOfJoin(Describe(s, masterIP, masterPort));
    assert Describe(s, masterIP, masterPort) == Words(s) + [masterIP, IntString(masterPort)];
    FieldsOfWords(Words(s), [masterIP, IntString(masterPort)]);
  }

  lemma SeparatorAt(s: Sdown, tail: seq<string>)
    ensures FirstIndex(Words(s) + tail, "@") == if s.ip == "@" then 2 else 4
  {
    var parts, addr, port := Words(s) + tail, s.ip + ":" + IntString(s.port), IntString(s.port);
    PrintedNumberIsWord(s.port);
    assert addr[|s.ip|] == ':' && addr != "@" && port != "@";
    if s.ip == "@" {
      assert parts[..2] == ["slave", addr];
      FirstIndexAt(parts, 2, "@");
    } else {
      assert parts[..4] == ["slave", addr, s.ip, port];
      FirstIndexAt(parts, 4, "@");
    }
  }

  lemma AddressBack(ip: string, port: int)
    requires MIN_INT64 <= port <= MAX_INT64
    ensures var addr := ip + ":" + IntString(port); var i := LastIndex(addr, ':');
            i >= 0 && addr[..i] == ip && Atoi(addr[i + 1..]) == Some(port)
  {
    IntStringChars(port);
    LastIndexFinds(ip, ':', IntString(port));
    var addr := ip + ":" + IntString(port);
    assert addr[..|ip|] == ip && addr[|ip| + 1..] == IntString(port);
    AtoiOfIntString(port);
  }

  /** A printed description parses back to the same address, port and master, IPv6
      included, unless the address is the separator "@" itself. */
  lemma DescriptionRoundTrip(s: Sdown, masterIP: string, masterPort: int)
    requires MIN_INT64 <= s.port <= MAX_INT64 && Word(s.ip) && Word(s.masterName)
    ensures var port := IntString(s.port);
      var args := ["slave", s.ip + ":" + port, s.ip, port, "@", s.masterName, masterIP, IntString(masterPort)];
      Described(Fields(Join(args, " "))) == Some(s)
      <==> s.ip != "@" || s.masterName == port
  {
    var tail := AllFields([masterIP, IntString(masterPort)]);
    var parts := Words(s) + tail;
    DescriptionFields(s, masterIP, masterPort);
    SeparatorAt(s, tail);
    AddressBack(s.ip, s.port);
    assert parts[0] == "slave" && parts[1] == s.ip + ":" + IntString(s.port);
    assert parts[3] == IntString(s.port) && parts[5] == s.masterName;
  }

  // ----- commands -----

  /** What CmdNotify sends: replica events about slaves, and nothing else. Only the fields
      of the description matter, not how they were split into arguments. */
  method CmdNotify(args: seq<string>, groupName: string, sentinelNodeName: string)
    returns (payload: Option<FailoverEvent>)
    ensures payload.Some? <==>
      && |args| >= 2 && (args[0] == "+sdown" || args[0] == "-sdown") && Described(AllFields(args[1..])).Some?
      && sentinelNodeName != "" && groupName != ""
    ensures payload.Some? ==>
      var e, s := payload.value, Described(AllFields(args[1..])).value;
      && e.masterName == s.masterName && e.fromIP == s.ip && e.fromPort == s.port && e.toIP == "" && e.toPort == 0
      && e.groupName == groupName && e.sentinelNodeName == sentinelNodeName
      && e.eventType == (if args[0] == "+sdown" then ReplicaDown else ReplicaUp)
  {
    if |args| < 2 {
      return None;
    }
    var eventType := args[0];
    var eventDescription := Join(args[1..], " ");
    if eventType != "+sdown" && eventType != "-sdown" {
      return None;
    }
    var parsed := ParseSdownDescription(eventDescription);
    FieldsOfJoin(args[1..]);
    if parsed.None? {
      return None;
    }
    if sentinelNodeName == "" || groupName == "" {
      return None;
    }
    var monitorEventType := ReplicaDown;
    if eventType == "-sdown" {
      monitorEventType := ReplicaUp;
    }
    return Some(FailoverEvent(groupName, parsed.value.masterName, parsed.value.ip, parsed.value.port, "", 0,
                              sentinelNodeName, monitorEventType));
  }

  // ----- delivery -----

  /** What comes of one attempt; a request without a good reply may still have arrived. */
  datatype Reply = NotSent | NoReply(arrived: bool) | Status(code: int)

  predicate Good(r: Reply) { r.Status? && 200 <= r.code < 300 }

  predicate Arrived(r: Reply) { r.Status? || (r.NoReply? && r.arrived) }

  /** The retry loop stops at the first good reply; the manager gets the event at most
      retryCount times, and at least once if the agent reports success. */
  method SendEvent(retryCount: int, reply: nat -> Reply) returns (sent: bool, attempts: nat, ghost arrivals: nat)
    ensures attempts <= if retryCount > 0 then retryCount else 0
    ensures sent <==> exists i: nat :: i < retryCount && reply(i).Status? && 200 <= reply(i).code <= 299
    ensures forall i: nat :: i + 1 < attempts ==> reply(i).Status? ==> !(200 <= reply(i).code <= 299)
    ensures sent ==> attempts >= 1 && reply(attempts - 1).Status? && 200 <= reply(attempts - 1).code <= 299
    ensures !sent ==> attempts == if retryCount > 0 then retryCount else 0
    ensures arrivals <= attempts && (sent ==> arrivals >= 1)
  {
    sent, attempts, arrivals := false, 0, 0;
    while attempts < retryCount
      invariant attempts <= if retryCount > 0 then retryCount else 0
      invariant forall i: nat :: i < attempts ==> !Good(reply(i))
      invariant arrivals <= attempts
    {
      var r := reply(attempts);
      attempts := attempts + 1;
      if Arrived(r) {
        arrivals := arrivals + 1;
      }
      if Good(r) {
        sent := true;
        return;
      }
    }
  }
}
