/** The address parsers and the flat-reply reader of internal/core/sentinel_ops.go and
    internal/core/health_checker.go. */
module Address {
  import opened Text

  const DEFAULT_SENTINEL_PORT := 26379

  /** parseSentinelAddr. */
  function ParseSentinelAddr(addr: string): (string, int) {
    var idx := LastIndex(addr, ':');
    if idx >= 0 && Atoi(addr[idx + 1..]).Some? then (addr[..idx], Atoi(addr[idx + 1..]).value)
    else (addr, DEFAULT_SENTINEL_PORT)
  }

  /** The number strconv.Atoi hands back even when it also reports an error: nothing for
      bad syntax, the nearest bound when out of range. */
  function AtoiValue(s: string): int {
    if s == "" then 0
    else
      var digits := if s[0] == '-' || s[0] == '+' then s[1..] else s;
      if digits == "" || exists c <- digits :: !IsDigit(c) then 0
      else
        var v: int := if s[0] == '-' then 0 - DigitsValue(digits) else DigitsValue(digits);
        if v < MIN_INT64 then MIN_INT64 else if v > MAX_INT64 then MAX_INT64 else v
  }

  lemma AtoiValueOfAtoi(s: string)
    requires Atoi(s).Some?
    ensures AtoiValue(s) == Atoi(s).value
  {
  }

  /** The backwards search in recordSentinelEvent. */
  method SplitNodeAddr(addr: string) returns (host: string, port: int)
    ensures var idx := LastIndex(addr, ':');
            (host, port) == if |addr| > 1 && idx >= 0 then (addr[..idx], AtoiValue(addr[idx + 1..])) else (addr, 0)
  {
    host, port := addr, 0;
    if |addr| - 1 > 0 {
      var i := |addr| - 1;
      assert addr[..|addr|] == addr;
      while i >= 0
        invariant -1 <= i < |addr|
        invariant LastIndex(addr, ':') == LastIndex(addr[..i + 1], ':')
      {
        assert addr[..i + 1][..i] == addr[..i];
        if addr[i] == ':' {
          host := addr[..i];
          port := AtoiValue(addr[i + 1..]);
          return;
        }
        i := i - 1;
      }
    }
  }

  /** host:port, as newSentinelClient and tick print it. */
  function HostPort(host: string, port: int): string { host + ":" + IntString(port) }

  /** Both parsers read a printed address back, whatever colons the host has. */
  lemma AddressRoundTrip(host: string, port: int)
    requires MIN_INT64 <= port <= MAX_INT64
    ensures ParseSentinelAddr(host + ":" + IntString(port)) == (host, port)
    ensures var addr := HostPort(host, port); var idx := LastIndex(addr, ':');
            |addr| > 1 && idx >= 0 && (addr[..idx], AtoiValue(addr[idx + 1..])) == (host, port)
  {
    IntStringChars(port);
    var addr := HostPort(host, port);
    LastIndexFinds(host, ':', IntString(port));
    assert addr[..|host|] == host && addr[|host| + 1..] == IntString(port);
    AtoiOfIntString(port);
    AtoiValueOfAtoi(IntString(port));
  }

  /** An address without a port is kept and gets the default port exactly when it does not
      end in a colon and a number; so a bare IPv6 address ending in a decimal group is not. */
  lemma BareHostKept(host: string)
    ensures ParseSentinelAddr(host) == (host, 26379) <==>
            forall h: string, p: string :: host == h + ":" + p && ':' !in p ==> Atoi(p).None?
  {
    var idx := LastIndex(host, ':');
    if ParseSentinelAddr(host) == (host, DEFAULT_SENTINEL_PORT) {
      forall h: string, p: string | host == h + ":" + p && ':' !in p ensures Atoi(p).None? {
        LastIndexFinds(h, ':', p);
        assert host[..|h|] == h && host[|h| + 1..] == p;
      }
    } else {
      assert host == host[..idx] + ":" + host[idx + 1..];
    }
  }

  // ----- flat replies -----

  /** Later pairs win; a trailing key without a value is ignored. */
  function PairsMap(items: seq<string>): map<string, string> {
    var n := |items|;
    if n < 2 then map[]
    else if n % 2 == 1 then PairsMap(items[..n - 1])
    else PairsMap(items[..n - 2])[items[n - 2] := items[n - 1]]
  }

  method FlatSliceToMap(items: seq<string>) returns (m: map<string, string>)
    ensures m == PairsMap(items)
  {
    m := map[];
    var i := 0;
    while i + 1 < |items|
      invariant 0 <= i <= |items| && i % 2 == 0
      invariant m == PairsMap(items[..i])
    {
      assert items[..i + 2][..i] == items[..i];
      m := m[items[i] := items[i + 1]];
      i := i + 2;
    }
    if i < |items| {
      assert items[..|items| - 1] == items[..i];
    } else {
      assert items[..i] == items;
    }
  }

  function Flatten(m: map<string, string>, order: seq<string>): seq<string>
    requires forall k <- order :: k in m
  {
    if order == [] then []
    else
      var n := |order| - 1;
      Flatten(m, order[..n]) + [order[n], m[order[n]]]
  }

  /** With repeated keys the last value stands. */
  lemma LastPairWins(items: seq<string>, key: string, value: string)
    requires |items| % 2 == 0
    ensures PairsMap(items + [key, value]) == PairsMap(items)[key := value]
  {
    var all := items + [key, value];
    assert all[..|all| - 2] == items;
    assert |all| % 2 == 0 && all[|all| - 2] == key && all[|all| - 1] == value;
  }

  lemma {:induction false} PairsOfFlatten(m: map<string, string>, order: seq<string>)
    requires forall k <- order :: k in m
    ensures |Flatten(m, order)| % 2 == 0
    ensures PairsMap(Flatten(m, order)) == map k | k in order :: m[k]
  {
    if order != [] {
      var n := |order| - 1;
      PairsOfFlatten(m, order[..n]);
      LastPairWins(Flatten(m, order[..n]), order[n], m[order[n]]);
      assert order == order[..n] + [order[n]];
    }
  }

  /** A map sent as a flat list, in any order of its keys, is read back. */
  lemma FlattenRoundTrip(m: map<string, string>, order: seq<string>)
    requires forall k :: k in m <==> k in order
    ensures PairsMap(Flatten(m, order)) == m
  {
    PairsOfFlatten(m, order);
  }

  /** The list names the key at an even place, with a value behind it. */
  predicate KeyAt(items: seq<string>, i: int, key: string) {
    0 <= i && i % 2 == 0 && i + 1 < |items| && items[i] == key
  }

  /** A key is in the map if and only if the list names it, and has the value behind the
      place where the list names it last. */
  lemma {:induction false} LastValueWins(items: seq<string>, key: string)
    ensures key in PairsMap(items) <==> exists i :: KeyAt(items, i, key)
    ensures forall i | KeyAt(items, i, key) && (forall j | i < j :: !KeyAt(items, j, key)) ::
              key in PairsMap(items) && PairsMap(items)[key] == items[i + 1]
  {
    var n := |items|;
    if n >= 2 {
      var front := if n % 2 == 1 then items[..n - 1] else items[..n - 2];
      LastValueWins(front, key);
      if n % 2 == 1 {
        assert forall i :: KeyAt(items, i, key) <==> KeyAt(front, i, key);
      } else {
        OnePairMore(items, key);
        if key == items[n - 2] {
          assert KeyAt(items, n - 2, key);
        } else {
          assert forall i :: KeyAt(items, i, key) <==> KeyAt(front, i, key);
        }
      }
    }
  }

  lemma OnePairMore(items: seq<string>, key: string)
    requires |items| >= 2 && |items| % 2 == 0
    ensures var n := |items|;
      forall i :: KeyAt(items, i, key) <==> KeyAt(items[..n - 2], i, key) || (i == n - 2 && items[n - 2] == key)
  {
  }
}
