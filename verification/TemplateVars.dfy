/** internal/dns/restapi.go, buildVars: what each placeholder of a template stands for. The
    list of addresses is read back by a reader of JSON string lists (RFC 8259, sections 5
    and 7). */
module TemplateVars {
  import opened Text
  import opened Template
  import opened TemplateMeaning

  // ----- a reader of JSON string lists -----

  function HexValue(c: char): Option<nat> {
    if '0' <= c <= '9' then Some(c as int - '0' as int)
    else if 'a' <= c <= 'f' then Some(c as int - 'a' as int + 10)
    else if 'A' <= c <= 'F' then Some(c as int - 'A' as int + 10)
    else None
  }

  /** The four digits behind \u; halves of surrogate pairs are not characters. */
  function ReadCode(s: string): Option<char> {
    if |s| < 4 || exists i | 0 <= i < 4 :: HexValue(s[i]).None? then None
    else
      var v := 4096 * HexValue(s[0]).value + 256 * HexValue(s[1]).value
               + 16 * HexValue(s[2]).value + HexValue(s[3]).value;
      if v < 0xD800 || 0xE000 <= v < 0x10000 then Some(v as char) else None
  }

  /** One character of a string, and the text behind it. */
  function ReadChar(s: string): (r: Option<(char, string)>)
    requires s != ""
    ensures r.Some? ==> |r.value.1| < |s|
  {
    if s[0] < ' ' then None
    else if s[0] != '\\' then Some((s[0], s[1..]))
    else if |s| < 2 then None
    else if s[1] == '"' || s[1] == '\\' || s[1] == '/' then Some((s[1], s[2..]))
    else if s[1] == 'b' then Some(('\U{0008}', s[2..]))
    else if s[1] == 'f' then Some(('\U{000C}', s[2..]))
    else if s[1] == 'n' then Some(('\U{000A}', s[2..]))
    else if s[1] == 'r' then Some(('\U{000D}', s[2..]))
    else if s[1] == 't' then Some(('\U{0009}', s[2..]))
    else if s[1] == 'u' && ReadCode(s[2..]).Some? then Some((ReadCode(s[2..]).value, s[6..]))
    else None
  }

  /** The rest of a string whose opening quote has been read, and the text behind it. */
  function ReadString(s: string): (r: Option<(string, string)>)
    ensures r.Some? ==> |r.value.1| < |s|
    decreases |s|
  {
    if s == "" then None
    else if s[0] == '"' then Some(("", s[1..]))
    else if ReadChar(s).None? then None
    else
      var (c, rest) := ReadChar(s).value;
      var tail := ReadString(rest);
      if tail.None? then None else Some(([c] + tail.value.0, tail.value.1))
  }

  /** The strings of a list whose bracket has been read, up to its closing one. */
  function ReadElements(s: string): Option<seq<string>>
    decreases |s|
  {
    if s == "" || s[0] != '"' || ReadString(s[1..]).None? then None
    else
      var (v, rest) := ReadString(s[1..]).value;
      if rest == "]" then Some([v])
      else if rest == "" || rest[0] != ',' || ReadElements(rest[1..]).None? then None
      else Some([v] + ReadElements(rest[1..]).value)
  }

  function ReadList(s: string): Option<seq<string>> {
    if s == "[]" then Some([])
    else if s == "" || s[0] != '[' then None
    else ReadElements(s[1..])
  }

  // ----- what is printed is read back -----

  lemma HexRead(d: int)
    requires 0 <= d < 16
    ensures HexValue(Hex(d)) == Some(d)
  {
  }

  /** The control characters and those that matter to HTML. */
  lemma ReadLowEscape(c: char, t: string)
    requires c < '\U{0080}'
    ensures var s := ['\\', 'u', '0', '0', Hex(c as int / 16), Hex(c as int % 16)] + t; ReadChar(s) == Some((c, t))
  {
    var s := ['\\', 'u', '0', '0', Hex(c as int / 16), Hex(c as int % 16)] + t;
    HexRead(c as int / 16);
    HexRead(c as int % 16);
    assert s[2..][0] == '0' && s[2..][1] == '0' && s[2..][2] == Hex(c as int / 16) && s[2..][3] == Hex(c as int % 16);
    assert s[6..] == t;
  }

  lemma ReadSeparator(c: char, t: string)
    requires c == '\U{2028}' || c == '\U{2029}'
    ensures ReadChar(Escape(c) + t) == Some((c, t))
  {
    var s := Escape(c) + t;
    assert Escape(c) == "\\u2028" || Escape(c) == "\\u2029";
    assert s[2..][0] == '2' && s[2..][1] == '0' && s[2..][2] == '2' && s[2..][3] == s[5];
    assert s[6..] == t;
  }

  lemma ReadEscape(c: char, t: string)
    ensures Escape(c) != "" && Escape(c)[0] != '"' && ReadChar(Escape(c) + t) == Some((c, t))
  {
    var s := Escape(c) + t;
    if c == '\U{2028}' || c == '\U{2029}' {
      ReadSeparator(c, t);
    } else if |Escape(c)| == 6 {
      ReadLowEscape(c, t);
    } else if |Escape(c)| == 2 {
      assert s[2..] == t;
    } else {
      assert s[1..] == t;
    }
  }

  lemma ReadOneMore(c: char, t: string, v: string, rest: string)
    requires ReadString(t) == Some((v, rest))
    ensures ReadString(Escape(c) + t) == Some(([c] + v, rest))
  {
    ReadEscape(c, t);
    var s := Escape(c) + t;
    assert s != "" && s[0] == Escape(c)[0];
  }

  lemma ReadEnd(t: string)
    ensures ReadString(['"'] + t) == Some(("", t))
  {
    assert (['"'] + t)[1..] == t;
  }

  /** A string, escaped and closed, with t behind it. */
  function Closed(v: string, t: string): string { Escaped(v) + (['"'] + t) }

  lemma ClosedCons(v: string, t: string)
    ensures Closed("", t) == ['"'] + t
    ensures v != "" ==> Closed(v, t) == Escape(v[0]) + Closed(v[1..], t) && [v[0]] + v[1..] == v
  {
    if v != "" {
      assert Escape(v[0]) + Escaped(v[1..]) + (['"'] + t) == Escape(v[0]) + (Escaped(v[1..]) + (['"'] + t));
    }
  }

  lemma {:induction false} ReadEscaped(v: string, t: string)
    ensures ReadString(Closed(v, t)) == Some((v, t))
  {
    ClosedCons(v, t);
    if v == "" {
      ReadEnd(t);
    } else {
      ReadEscaped(v[1..], t);
      ReadOneMore(v[0], Closed(v[1..], t), v[1..], t);
    }
  }

  /** One string of the list, with its quotes. */
  function Quoted(v: string, t: string): string { ['"'] + Closed(v, t) }

  lemma LastElement(v: string)
    ensures ReadElements(Quoted(v, "]")) == Some([v])
  {
    ReadEscaped(v, "]");
    assert Quoted(v, "]")[1..] == Closed(v, "]");
  }

  lemma MoreElements(v: string, tail: string, vs: seq<string>)
    requires tail != "" && ReadElements(tail) == Some(vs)
    ensures ReadElements(Quoted(v, [','] + tail)) == Some([v] + vs)
  {
    var rest := [','] + tail;
    ReadEscaped(v, rest);
    assert Quoted(v, rest)[1..] == Closed(v, rest);
    assert rest[1..] == tail && rest != "]";
  }

  /** The elements of a list and its closing bracket. */
  function Bracketed(ips: seq<string>): (s: string)
    ensures s != ""
  {
    Elements(ips) + [']']
  }

  lemma BracketedCons(ips: seq<string>)
    requires ips != []
    ensures Bracketed(ips) == Quoted(ips[0], if |ips| == 1 then "]" else [','] + Bracketed(ips[1..]))
  {
    if |ips| > 1 {
      assert Bracketed(ips[1..]) == Elements(ips[1..]) + [']'];
    }
  }

  lemma {:induction false} ReadElementsOf(ips: seq<string>)
    requires ips != []
    ensures ReadElements(Bracketed(ips)) == Some(ips)
  {
    BracketedCons(ips);
    if |ips| == 1 {
      LastElement(ips[0]);
      assert [ips[0]] == ips;
    } else {
      ReadElementsOf(ips[1..]);
      MoreElements(ips[0], Bracketed(ips[1..]), ips[1..]);
      assert [ips[0]] + ips[1..] == ips;
    }
  }

  /** A printed list of any strings is read back, quotes, backslashes and control characters
      included. */
  lemma ListReadBack(ips: seq<string>)
    ensures ReadList(JsonArray(ips)) == Some(ips)
  {
    var s := JsonArray(ips);
    if ips != [] {
      ReadElementsOf(ips);
      assert s[1..] == Bracketed(ips) && |s| > 2;
    } else {
      assert s == "[]";
    }
  }

  // ----- the placeholders -----

  lemma MatchSelf(k: string)
    requires k in ORDER
    ensures Match(k, ORDER) == Some(k)
  {
    OrderIsAscending();
    MatchIsLongest(k, ORDER, k);
  }

  /** A template that is one placeholder: one token, and its value in one pass. */
  lemma Alone(k: string, vars: map<string, string>)
    requires k in ORDER && OrderCovers(vars)
    ensures Tokenize(Placeholder(k), ORDER) == [Ph(k)]
    ensures OnePass(Placeholder(k), ORDER, vars) == vars[k]
  {
    var s := Placeholder(k);
    MatchSelf(k);
    assert s[1..] == k && s[1 + |k|..] == "";
    assert OnePass("", ORDER, vars) == "" && Tokenize("", ORDER) == [];
    assert vars[k] + "" == vars[k] && [Ph(k)] + [] == [Ph(k)];
  }

  /** For dollar-free values the renderer gives the value too. */
  lemma RendersAlone(k: string, vars: map<string, string>)
    requires k in ORDER && Plain(vars)
    ensures OrderCovers(vars) && Sequential(Placeholder(k), ORDER, vars) == vars[k]
  {
    KeysDiffer();
    assert OrderCovers(vars);
    Alone(k, vars);
    SequentialIsOnePass(Placeholder(k), vars);
  }

  lemma PlaceholderTexts()
    ensures Placeholder(RECORD_TYPE) == "$record_type" && Placeholder(DOMAIN) == "$domain"
    ensures Placeholder(NAME) == "$name" && Placeholder(ZONE) == "$zone"
    ensures Placeholder(IPS) == "$ips" && Placeholder(TTL) == "$ttl" && Placeholder(IP) == "$ip"
  {
  }

  lemma ParamsAt(zone: string, name: string, recordType: string, ip: string, ips: seq<string>, ttl: int)
    ensures var vars := BuildVars(zone, name, recordType, ip, ips, ttl);
      && vars[ZONE] == zone && vars[NAME] == name && vars[RECORD_TYPE] == recordType && vars[IP] == ip
      && vars[IPS] == JsonArray(ips) && vars[TTL] == IntString(ttl)
      && vars[DOMAIN] == if zone != "" then name + "." + zone else name
  {
    KeysDiffer();
  }

  /** Whatever the parameters are, each placeholder stands for its own: the texts as they
      are, the decimal number and the JSON list such that they can be read back. */
  lemma PlaceholdersMean(zone: string, name: string, recordType: string, ip: string, ips: seq<string>, ttl: int)
    ensures var vars := BuildVars(zone, name, recordType, ip, ips, ttl);
      && OnePass("$zone", ORDER, vars) == zone && OnePass("$name", ORDER, vars) == name
      && OnePass("$record_type", ORDER, vars) == recordType && OnePass("$ip", ORDER, vars) == ip
      && ReadList(OnePass("$ips", ORDER, vars)) == Some(ips)
      && (MIN_INT64 <= ttl <= MAX_INT64 ==> Atoi(OnePass("$ttl", ORDER, vars)) == Some(ttl))
  {
    var vars := BuildVars(zone, name, recordType, ip, ips, ttl);
    PlaceholderTexts();
    ParamsAt(zone, name, recordType, ip, ips, ttl);
    forall k | k in ORDER ensures OnePass(Placeholder(k), ORDER, vars) == vars[k] {
      Alone(k, vars);
    }
    ListReadBack(ips);
    if MIN_INT64 <= ttl <= MAX_INT64 {
      AtoiOfIntString(ttl);
    }
  }

  lemma PlaceholderFirst(k: string, rest: string, vars: map<string, string>)
    requires OrderCovers(vars) && Match(k + rest, ORDER) == Some(k)
    ensures OnePass(Placeholder(k) + rest, ORDER, vars) == vars[k] + OnePass(rest, ORDER, vars)
  {
    var s := Placeholder(k) + rest;
    assert s[1..] == k + rest && s[1 + |k|..] == rest;
  }

  lemma LiteralFirst(c: char, rest: string, vars: map<string, string>)
    requires OrderCovers(vars) && c != '$'
    ensures OnePass([c] + rest, ORDER, vars) == [c] + OnePass(rest, ORDER, vars)
  {
    assert ([c] + rest)[1..] == rest;
  }

  /** Nothing else starts like name. */
  lemma NameMatches(rest: string)
    ensures Match(NAME + rest, ORDER) == Some(NAME)
  {
    var s := NAME + rest;
    OrderIsAscending();
    KeysDiffer();
    assert NAME <= s && s[0] == 'n';
    MatchIsLongest(s, ORDER, NAME);
    assert Match(s, ORDER).value[0] == s[0];
  }

  /** The name, a dot and the zone, one behind the other. */
  lemma NameDotZone(vars: map<string, string>)
    requires OrderCovers(vars)
    ensures OnePass(Placeholder(NAME) + (['.'] + Placeholder(ZONE)), ORDER, vars) == vars[NAME] + "." + vars[ZONE]
  {
    NameMatches(['.'] + Placeholder(ZONE));
    PlaceholderFirst(NAME, ['.'] + Placeholder(ZONE), vars);
    LiteralFirst('.', Placeholder(ZONE), vars);
    Alone(ZONE, vars);
    assert vars[NAME] + (['.'] + vars[ZONE]) == vars[NAME] + "." + vars[ZONE];
  }

  lemma NameInZoneText(tmpl: string)
    requires tmpl == "$name.$zone"
    ensures tmpl == Placeholder(NAME) + (['.'] + Placeholder(ZONE))
  {
  }

  /** And $domain stands for what $name.$zone does, or without a zone for what $name does. */
  lemma DomainMeans(zone: string, name: string, recordType: string, ip: string, ips: seq<string>, ttl: int,
                    nameInZone: string)
    requires nameInZone == "$name.$zone"
    ensures var vars := BuildVars(zone, name, recordType, ip, ips, ttl);
      && OnePass("$domain", ORDER, vars)
         == (if zone != "" then OnePass(nameInZone, ORDER, vars) else OnePass("$name", ORDER, vars))
      && OnePass(nameInZone, ORDER, vars) == name + "." + zone
  {
    var vars := BuildVars(zone, name, recordType, ip, ips, ttl);
    PlaceholderTexts();
    ParamsAt(zone, name, recordType, ip, ips, ttl);
    forall k | k in ORDER ensures OnePass(Placeholder(k), ORDER, vars) == vars[k] {
      Alone(k, vars);
    }
    NameDotZone(vars);
    NameInZoneText(nameInZone);
  }

  /** For dollar-free parameters the renderer itself gives just that for every placeholder. */
  lemma RendersMeaning(zone: string, name: string, recordType: string, ip: string, ips: seq<string>, ttl: int,
                       k: string)
    requires NoDollar(zone) && NoDollar(name) && NoDollar(recordType) && NoDollar(ip)
    requires forall i <- ips :: NoDollar(i)
    requires k in ORDER
    ensures var vars := BuildVars(zone, name, recordType, ip, ips, ttl);
      Sequential(Placeholder(k), ORDER, vars) == OnePass(Placeholder(k), ORDER, vars)
  {
    var vars := BuildVars(zone, name, recordType, ip, ips, ttl);
    BuildVarsPlain(zone, name, recordType, ip, ips, ttl);
    RendersAlone(k, vars);
    Alone(k, vars);
  }
}
