/** internal/dns/restapi.go: renderTemplate on the variables of buildVars. Replacing the
    variables one after the other is the same as replacing every placeholder once, by the
    longest variable name that matches -- exactly when no "$ip" comes to stand in front of
    an "s" while the variables that are replaced before "$ips" are filled in. */
module TemplateMeaning {
  import opened Text
  import opened Template

  // ----- the variables -----

  const RECORD_TYPE := "record_type"
  const DOMAIN := "domain"
  const NAME := "name"
  const ZONE := "zone"
  const IPS := "ips"
  const TTL := "ttl"
  const IP := "ip"

  const ORDER := [RECORD_TYPE, DOMAIN, NAME, ZONE, IPS, TTL, IP]

  /** The variables replaced before ips. */
  const EARLY := {RECORD_TYPE, DOMAIN, NAME, ZONE}

  const KEYS := {RECORD_TYPE, DOMAIN, NAME, ZONE, IPS, TTL, IP}

  function Hex(d: int): char
    requires 0 <= d < 16
  {
    if d < 10 then Digit(d) else 'a' + (d - 10) as char
  }

  /** encoding/json's escapes inside a string (the HTML ones included). */
  function Escape(c: char): string {
    if c == '"' || c == '\\' then ['\\', c]
    else if c == '\n' then ['\\', 'n']
    else if c == '\r' then ['\\', 'r']
    else if c == '\t' then ['\\', 't']
    else if c == '\U{0008}' then ['\\', 'b']
    else if c == '\U{000C}' then ['\\', 'f']
    else if c == '\U{2028}' then "\\u2028"
    else if c == '\U{2029}' then "\\u2029"
    else if c < ' ' || c == '<' || c == '>' || c == '&' then
      ['\\', 'u', '0', '0', Hex(c as int / 16), Hex(c as int % 16)]
    else [c]
  }

  function Escaped(s: string): string { if s == "" then "" else Escape(s[0]) + Escaped(s[1..]) }

  function Elements(ips: seq<string>): string {
    if ips == [] then ""
    else ['"'] + Escaped(ips[0]) + ['"'] + (if |ips| == 1 then "" else [','] + Elements(ips[1..]))
  }

  function JsonArray(ips: seq<string>): string { ['['] + Elements(ips) + [']'] }

  function BuildVars(zone: string, name: string, recordType: string, ip: string, ips: seq<string>, ttl: int)
    : (vars: map<string, string>)
    ensures OrderCovers(vars)
  {
    map[
      DOMAIN := if zone != "" then name + "." + zone else name,
      NAME := name,
      ZONE := zone,
      RECORD_TYPE := recordType,
      IP := ip,
      IPS := JsonArray(ips),
      TTL := IntString(ttl)
    ]
  }

  /** What BuildVars makes of dollar-free parameters. */
  ghost predicate Plain(vars: map<string, string>) {
    && vars.Keys == KEYS
    && (forall k <- KEYS :: NoDollar(vars[k]))
    && vars[IPS] != "" && vars[IPS][|vars[IPS]| - 1] == ']'
  }

  lemma {:induction false} EscapedPlain(s: string)
    requires NoDollar(s)
    ensures NoDollar(Escaped(s))
  {
    if s != "" {
      assert s[0] in s && NoDollar(s[1..]);
      EscapedPlain(s[1..]);
    }
  }

  lemma {:induction false} ElementsPlain(ips: seq<string>)
    requires forall ip <- ips :: NoDollar(ip)
    ensures NoDollar(Elements(ips))
  {
    if ips != [] {
      assert ips[0] in ips && forall ip <- ips[1..] :: ip in ips;
      EscapedPlain(ips[0]);
      ElementsPlain(ips[1..]);
    }
  }

  lemma BuildVarsPlain(zone: string, name: string, recordType: string, ip: string, ips: seq<string>, ttl: int)
    requires NoDollar(zone) && NoDollar(name) && NoDollar(recordType) && NoDollar(ip)
    requires forall i <- ips :: NoDollar(i)
    ensures Plain(BuildVars(zone, name, recordType, ip, ips, ttl))
  {
    KeysDiffer();
    ElementsPlain(ips);
    IntStringChars(ttl);
  }

  /** Only ip and ips start with the same character. */
  lemma KeysDiffer()
    ensures |RECORD_TYPE| == 11 && |DOMAIN| == 6 && |NAME| == |ZONE| == 4 && |IPS| == |TTL| == 3 && |IP| == 2
    ensures RECORD_TYPE[0] == 'r' && DOMAIN[0] == 'd' && NAME[0] == 'n' && ZONE[0] == 'z' && TTL[0] == 't'
    ensures IPS == ['i', 'p', 's'] && IP == ['i', 'p']
    ensures forall k <- KEYS :: NoDollar(k)
  {
  }

  lemma OrderIsAscending()
    ensures StrictlyAscending(ORDER) && Enumerates(ORDER, KEYS)
  {
    KeysDiffer();
    assert Less(NAME, ZONE) && Less(IPS, TTL);
  }

  // ----- filling in some of the variables -----

  function FillOne(t: Token, s: set<string>, vars: map<string, string>): seq<Token> {
    if t.Ph? && t.key in s && t.key in vars then Lits(vars[t.key]) else [t]
  }

  function Fill(ts: seq<Token>, s: set<string>, vars: map<string, string>): seq<Token> {
    if ts == [] then [] else FillOne(ts[0], s, vars) + Fill(ts[1..], s, vars)
  }

  predicate Over(ts: seq<Token>, keys: set<string>) { forall t <- ts :: t.Ph? ==> t.key in keys }

  lemma {:induction false} FillNone(ts: seq<Token>, vars: map<string, string>)
    ensures Fill(ts, {}, vars) == ts
  {
    if ts != [] {
      FillNone(ts[1..], vars);
    }
  }

  lemma {:induction false} SubstConcat(a: seq<Token>, b: seq<Token>, k: string, v: string)
    ensures Subst(a + b, k, v) == Subst(a, k, v) + Subst(b, k, v)
  {
    if a == [] {
      assert a + b == b;
    } else {
      assert (a + b)[1..] == a[1..] + b;
      SubstConcat(a[1..], b, k, v);
      assert SubstOne(a[0], k, v) + (Subst(a[1..], k, v) + Subst(b, k, v))
          == (SubstOne(a[0], k, v) + Subst(a[1..], k, v)) + Subst(b, k, v);
    }
  }

  lemma {:induction false} SubstLits(w: string, k: string, v: string)
    ensures Subst(Lits(w), k, v) == Lits(w)
  {
    if w != "" {
      assert Lits(w)[1..] == Lits(w[1..]);
      SubstLits(w[1..], k, v);
      assert [Lits(w)[0]] + Lits(w[1..]) == Lits(w);
    }
  }

  lemma SubstSingle(t: Token, k: string, v: string)
    ensures Subst([t], k, v) == SubstOne(t, k, v)
  {
    assert [t][1..] == [];
    assert Subst([], k, v) == [];
    assert SubstOne(t, k, v) + [] == SubstOne(t, k, v);
  }

  /** Filling in k after the variables of s is filling in the variables of s and k. */
  lemma {:induction false} SubstOfFill(ts: seq<Token>, s: set<string>, k: string, vars: map<string, string>)
    requires k in vars
    ensures Subst(Fill(ts, s, vars), k, vars[k]) == Fill(ts, s + {k}, vars)
  {
    if ts != [] {
      SubstOfFill(ts[1..], s, k, vars);
      SubstConcat(FillOne(ts[0], s, vars), Fill(ts[1..], s, vars), k, vars[k]);
      if ts[0].Ph? && ts[0].key in s && ts[0].key in vars {
        SubstLits(vars[ts[0].key], k, vars[k]);
      } else {
        SubstSingle(ts[0], k, vars[k]);
      }
    }
  }

  lemma {:induction false} FillKeeps(ts: seq<Token>, s: set<string>, vars: map<string, string>)
    requires Plain(vars) && Proper(ts) && Over(ts, KEYS)
    ensures Proper(Fill(ts, s, vars)) && Over(Fill(ts, s, vars), KEYS - s)
  {
    if ts != [] {
      assert ts[0] in ts && forall t <- ts[1..] :: t in ts;
      FillKeeps(ts[1..], s, vars);
      forall t | t in FillOne(ts[0], s, vars)
        ensures match t case Lit(c) => c != '$' case Ph(k) => NoDollar(k) && k in KEYS - s
      {
        if t != ts[0] {
          var i :| 0 <= i < |vars[ts[0].key]| && t == Lit(vars[ts[0].key][i]);
        }
      }
    }
  }

  lemma {:induction false} ExpandConcat(a: seq<Token>, b: seq<Token>, vars: map<string, string>)
    ensures Expand(a + b, vars) == Expand(a, vars) + Expand(b, vars)
  {
    if a == [] {
      assert a + b == b;
    } else {
      assert (a + b)[1..] == a[1..] + b;
      ExpandConcat(a[1..], b, vars);
      assert ExpandOne(a[0], vars) + (Expand(a[1..], vars) + Expand(b, vars))
          == (ExpandOne(a[0], vars) + Expand(a[1..], vars)) + Expand(b, vars);
    }
  }

  lemma {:induction false} ExpandLits(ts: seq<Token>, vars: map<string, string>)
    requires Over(ts, {})
    ensures Expand(ts, vars) == Show(ts)
  {
    if ts != [] {
      assert ts[0] in ts && forall t <- ts[1..] :: t in ts;
      ExpandLits(ts[1..], vars);
    }
  }

  /** Filling in some variables first does not change what the tokens stand for. */
  lemma {:induction false} ExpandOfFill(ts: seq<Token>, s: set<string>, vars: map<string, string>)
    ensures Expand(Fill(ts, s, vars), vars) == Expand(ts, vars)
  {
    if ts != [] {
      ExpandOfFill(ts[1..], s, vars);
      ExpandConcat(FillOne(ts[0], s, vars), Fill(ts[1..], s, vars), vars);
      ExpandFillOne(ts[0], s, vars);
    }
  }

  lemma ExpandFillOne(t: Token, s: set<string>, vars: map<string, string>)
    ensures Expand(FillOne(t, s, vars), vars) == ExpandOne(t, vars)
  {
    if t.Ph? && t.key in s && t.key in vars {
      ExpandLits(Lits(vars[t.key]), vars);
      ShowLits(vars[t.key]);
    } else {
      assert [t][1..] == [];
      assert Expand([], vars) == "";
    }
  }

  // ----- one replacement after the other -----

  /** No remaining placeholder starts like k. */
  lemma {:induction false} NoneStartsLike(ts: seq<Token>, keys: set<string>, k: string)
    requires Over(ts, keys) && k != ""
    requires forall other <- keys :: other == k || (other != "" && other[0] != k[0])
    ensures NoFalseMatch(ts, k)
  {
    if ts != [] {
      assert ts[0] in ts && forall t <- ts[1..] :: t in ts;
      NoneStartsLike(ts[1..], keys, k);
      if ts[0].Ph? && ts[0].key != k {
        assert (ts[0].key + Show(ts[1..]))[0] != k[0];
      }
    }
  }

  lemma ReplaceOneVariable(ts: seq<Token>, s: set<string>, k: string, vars: map<string, string>)
    requires Plain(vars) && Proper(ts) && Over(ts, KEYS) && k in KEYS
    requires NoFalseMatch(Fill(ts, s, vars), k)
    ensures ReplaceAll(Show(Fill(ts, s, vars)), Placeholder(k), vars[k]) == Show(Fill(ts, s + {k}, vars))
  {
    FillKeeps(ts, s, vars);
    ReplaceTokens(Fill(ts, s, vars), k, vars[k]);
    SubstOfFill(ts, s, k, vars);
  }

  lemma ReplaceDistinct(ts: seq<Token>, s: set<string>, k: string, vars: map<string, string>)
    requires Plain(vars) && Proper(ts) && Over(ts, KEYS) && k in KEYS
    requires k != IPS && (k == IP ==> IPS in s)
    ensures ReplaceAll(Show(Fill(ts, s, vars)), Placeholder(k), vars[k]) == Show(Fill(ts, s + {k}, vars))
  {
    KeysDiffer();
    FillKeeps(ts, s, vars);
    NoneStartsLike(Fill(ts, s, vars), KEYS - s, k);
    ReplaceOneVariable(ts, s, k, vars);
  }

  /** A "$ip" in front of an "s" reads as "$ips". */
  function Merge(ts: seq<Token>): seq<Token> {
    if |ts| >= 2 && ts[0] == Ph(IP) && ts[1] == Lit('s') then [Ph(IPS)] + Merge(ts[2..])
    else if ts == [] then []
    else [ts[0]] + Merge(ts[1..])
  }

  lemma {:induction false} MergeShows(ts: seq<Token>)
    ensures Show(Merge(ts)) == Show(ts)
  {
    if |ts| >= 2 && ts[0] == Ph(IP) && ts[1] == Lit('s') {
      MergeShows(ts[2..]);
      KeysDiffer();
      assert ts[1..][1..] == ts[2..];
      assert Placeholder(IPS) == Placeholder(IP) + ['s'];
      assert Placeholder(IPS) + Show(ts[2..]) == Placeholder(IP) + (['s'] + Show(ts[2..]));
    } else if ts != [] {
      MergeShows(ts[1..]);
    }
  }

  lemma {:induction false} MergeKeeps(ts: seq<Token>, keys: set<string>)
    requires Proper(ts) && Over(ts, keys) && IPS in keys
    ensures Proper(Merge(ts)) && Over(Merge(ts), keys)
  {
    KeysDiffer();
    if |ts| >= 2 && ts[0] == Ph(IP) && ts[1] == Lit('s') {
      assert forall t <- ts[2..] :: t in ts;
      MergeKeeps(ts[2..], keys);
    } else if ts != [] {
      assert ts[0] in ts && forall t <- ts[1..] :: t in ts;
      MergeKeeps(ts[1..], keys);
    }
  }

  lemma ReadsAsIps(t: Token, rest: seq<Token>)
    requires t.Ph? && t.key in KEYS && t.key != IPS
    requires IPS <= t.key + Show(rest)
    ensures t == Ph(IP) && rest != [] && rest[0] == Lit('s')
  {
    KeysDiffer();
    var s := t.key + Show(rest);
    assert s[0] == 'i' && s[2] == 's';
    assert t.key == IP;
    assert Show(rest)[0] == 's';
  }

  lemma {:induction false} MergedReadsRight(ts: seq<Token>)
    requires Over(ts, KEYS)
    ensures NoFalseMatch(Merge(ts), IPS)
  {
    if |ts| >= 2 && ts[0] == Ph(IP) && ts[1] == Lit('s') {
      assert forall t <- ts[2..] :: t in ts;
      MergedReadsRight(ts[2..]);
    } else if ts != [] {
      assert ts[0] in ts && forall t <- ts[1..] :: t in ts;
      MergedReadsRight(ts[1..]);
      var rest := Merge(ts[1..]);
      if ts[0].Ph? && ts[0].key != IPS && IPS <= ts[0].key + Show(rest) {
        ReadsAsIps(ts[0], rest);
        MergeHead(ts[1..]);
        assert false;
      }
    }
  }

  lemma MergeHead(ts: seq<Token>)
    requires Merge(ts) != [] && Merge(ts)[0] == Lit('s')
    ensures ts != [] && ts[0] == Lit('s')
  {
  }

  /** The tokens once the variables replaced before ips are filled in. */
  function Filled(tmpl: string, vars: map<string, string>): seq<Token> { Fill(Tokenize(tmpl, ORDER), EARLY, vars) }

  lemma {:induction false} TokenizeOver(s: string, ks: seq<string>)
    requires forall k <- ks :: k in KEYS
    ensures Over(Tokenize(s, ks), KEYS)
    decreases |s|
  {
    if s != "" {
      if s[0] == '$' && Match(s[1..], ks).Some? {
        TokenizeOver(s[1 + |Match(s[1..], ks).value|..], ks);
      } else {
        TokenizeOver(s[1..], ks);
      }
    }
  }

  lemma SequentialNext(tmpl: string, n: nat, vars: map<string, string>)
    requires vars.Keys == KEYS && n < |ORDER|
    ensures Sequential(tmpl, ORDER[..n + 1], vars)
         == ReplaceAll(Sequential(tmpl, ORDER[..n], vars), Placeholder(ORDER[n]), vars[ORDER[n]])
  {
    OneMoreKey(tmpl, ORDER, n, vars);
  }

  lemma OneMoreKey(tmpl: string, ks: seq<string>, n: nat, vars: map<string, string>)
    requires n < |ks| && forall k <- ks :: k in vars
    ensures Sequential(tmpl, ks[..n + 1], vars)
         == ReplaceAll(Sequential(tmpl, ks[..n], vars), Placeholder(ks[n]), vars[ks[n]])
  {
    assert ks[..n + 1][..n] == ks[..n] && ks[..n + 1][n] == ks[n];
  }

  /** One of the early variables, after some others. */
  lemma EarlyStep(tmpl: string, ts: seq<Token>, s: set<string>, n: nat, vars: map<string, string>)
    requires Plain(vars) && Proper(ts) && Over(ts, KEYS) && n < 4
    requires Sequential(tmpl, ORDER[..n], vars) == Show(Fill(ts, s, vars))
    ensures Sequential(tmpl, ORDER[..n + 1], vars) == Show(Fill(ts, s + {ORDER[n]}, vars))
  {
    KeysDiffer();
    SequentialNext(tmpl, n, vars);
    ReplaceDistinct(ts, s, ORDER[n], vars);
  }

  function FirstKeys(n: nat): set<string>
    requires n <= |ORDER|
  {
    if n == 0 then {} else FirstKeys(n - 1) + {ORDER[n - 1]}
  }

  lemma FourFirstKeys()
    ensures FirstKeys(4) == EARLY
  {
    assert FirstKeys(2) == {RECORD_TYPE, DOMAIN};
  }

  lemma {:induction false} EarlyPrefix(tmpl: string, ts: seq<Token>, n: nat, vars: map<string, string>)
    requires Plain(vars) && Proper(ts) && Over(ts, KEYS) && Show(ts) == tmpl && n <= 4
    ensures Sequential(tmpl, ORDER[..n], vars) == Show(Fill(ts, FirstKeys(n), vars))
  {
    if n == 0 {
      FillNone(ts, vars);
    } else {
      EarlyPrefix(tmpl, ts, n - 1, vars);
      EarlyStep(tmpl, ts, FirstKeys(n - 1), n - 1, vars);
    }
  }

  lemma EarlyReplacements(tmpl: string, vars: map<string, string>)
    requires Plain(vars) && Proper(Tokenize(tmpl, ORDER))
    ensures Sequential(tmpl, ORDER[..4], vars) == Show(Filled(tmpl, vars))
  {
    ShowTokenize(tmpl, ORDER);
    TokenizeOver(tmpl, ORDER);
    EarlyPrefix(tmpl, Tokenize(tmpl, ORDER), 4, vars);
    FourFirstKeys();
  }

  /** What is left after the early variables. */
  const LATE := {IPS, TTL, IP}

  lemma MergedTokens(tmpl: string, vars: map<string, string>)
    requires Plain(vars) && Proper(Tokenize(tmpl, ORDER))
    ensures var m := Merge(Filled(tmpl, vars));
      Proper(m) && Over(m, LATE) && Over(m, KEYS) && NoFalseMatch(m, IPS) && Show(m) == Show(Filled(tmpl, vars))
  {
    var ts := Filled(tmpl, vars);
    TokenizeOver(tmpl, ORDER);
    FillKeeps(Tokenize(tmpl, ORDER), EARLY, vars);
    KeysDiffer();
    assert KEYS - EARLY <= LATE <= KEYS;
    MergeShows(ts);
    MergeKeeps(ts, LATE);
    MergedReadsRight(ts);
  }

  lemma LateReplacements(m: seq<Token>, vars: map<string, string>)
    requires Plain(vars) && Proper(m) && Over(m, KEYS) && NoFalseMatch(m, IPS)
    ensures var s1 := ReplaceAll(Show(m), Placeholder(IPS), vars[IPS]);
      var s2 := ReplaceAll(s1, Placeholder(TTL), vars[TTL]);
      ReplaceAll(s2, Placeholder(IP), vars[IP]) == Show(Fill(m, LATE, vars))
  {
    FillNone(m, vars);
    KeysDiffer();
    ReplaceOneVariable(m, {}, IPS, vars);
    ReplaceDistinct(m, {IPS}, TTL, vars);
    ReplaceDistinct(m, {IPS, TTL}, IP, vars);
    assert {} + {IPS} == {IPS};
    assert {IPS} + {TTL} == {IPS, TTL};
    assert {IPS, TTL} + {IP} == LATE;
  }

  lemma AllFilled(m: seq<Token>, vars: map<string, string>)
    requires Plain(vars) && Proper(m) && Over(m, LATE)
    ensures Show(Fill(m, LATE, vars)) == Expand(m, vars)
  {
    FillOver(m, LATE, vars);
    ExpandLits(Fill(m, LATE, vars), vars);
    ExpandOfFill(m, LATE, vars);
  }

  lemma {:induction false} FillOver(ts: seq<Token>, s: set<string>, vars: map<string, string>)
    requires Over(ts, s) && s <= vars.Keys
    ensures Over(Fill(ts, s, vars), {})
  {
    if ts != [] {
      assert ts[0] in ts && forall t <- ts[1..] :: t in ts;
      FillOver(ts[1..], s, vars);
    }
  }

  /** What renderTemplate computes, on tokens. */
  lemma SequentialMerges(tmpl: string, vars: map<string, string>)
    requires Plain(vars) && Proper(Tokenize(tmpl, ORDER))
    ensures Sequential(tmpl, ORDER, vars) == Expand(Merge(Filled(tmpl, vars)), vars)
  {
    EarlyReplacements(tmpl, vars);
    MergedTokens(tmpl, vars);
    LateReplacements(Merge(Filled(tmpl, vars)), vars);
    AllFilled(Merge(Filled(tmpl, vars)), vars);
    SequentialNext(tmpl, 4, vars);
    SequentialNext(tmpl, 5, vars);
    SequentialNext(tmpl, 6, vars);
    assert ORDER[..7] == ORDER;
  }

  lemma OnePassKeepsTokens(tmpl: string, vars: map<string, string>)
    requires Plain(vars)
    ensures OnePass(tmpl, ORDER, vars) == Expand(Filled(tmpl, vars), vars)
  {
    OnePassExpands(tmpl, ORDER, vars);
    ExpandOfFill(Tokenize(tmpl, ORDER), EARLY, vars);
  }

  // ----- exactly when the two agree -----

  /** Some "$ip" stands in front of an "s". */
  function Misfires(ts: seq<Token>): nat {
    if |ts| >= 2 && ts[0] == Ph(IP) && ts[1] == Lit('s') then 1 + Misfires(ts[2..])
    else if ts == [] then 0
    else Misfires(ts[1..])
  }

  lemma MisfireStep(ts: seq<Token>, vars: map<string, string>)
    requires Plain(vars) && |ts| >= 2 && ts[0] == Ph(IP) && ts[1] == Lit('s')
    ensures Expand(ts, vars) == vars[IP] + ['s'] + Expand(ts[2..], vars)
    ensures Expand(Merge(ts), vars) == vars[IPS] + Expand(Merge(ts[2..]), vars)
  {
    KeysDiffer();
    assert IP in KEYS && IPS in KEYS;
    assert ts[1..][1..] == ts[2..];
    assert Expand(ts[1..], vars) == ['s'] + Expand(ts[2..], vars);
    assert vars[IP] + (['s'] + Expand(ts[2..], vars)) == vars[IP] + ['s'] + Expand(ts[2..], vars);
  }

  lemma OneMore(n: nat, d: int)
    ensures (1 + n) * d == d + n * d
  {
  }

  lemma {:induction false} MergedLength(ts: seq<Token>, vars: map<string, string>, d: int)
    requires Plain(vars) && d == |vars[IPS]| - |vars[IP]| - 1
    ensures |Expand(Merge(ts), vars)| == |Expand(ts, vars)| + Misfires(ts) * d
  {
    if |ts| >= 2 && ts[0] == Ph(IP) && ts[1] == Lit('s') {
      MisfireStep(ts, vars);
      MergedLength(ts[2..], vars, d);
      OneMore(Misfires(ts[2..]), d);
    } else if ts != [] {
      MergedLength(ts[1..], vars, d);
    }
  }

  /** With values of fitting lengths, the texts differ at the end of the first misfire. */
  lemma {:induction false} MisfireShows(ts: seq<Token>, vars: map<string, string>)
    requires Plain(vars) && |vars[IPS]| == |vars[IP]| + 1
    ensures Misfires(ts) > 0 ==> Expand(Merge(ts), vars) != Expand(ts, vars)
  {
    if |ts| >= 2 && ts[0] == Ph(IP) && ts[1] == Lit('s') {
      MisfireStep(ts, vars);
      var n := |vars[IP]|;
      assert Expand(ts, vars)[n] == 's';
      assert Expand(Merge(ts), vars)[n] == vars[IPS][n];
    } else if ts != [] {
      MisfireShows(ts[1..], vars);
      SamePrefix(ExpandOne(ts[0], vars), Expand(Merge(ts[1..]), vars), Expand(ts[1..], vars));
    }
  }

  lemma SamePrefix(a: string, x: string, y: string)
    ensures a + x == a + y <==> x == y
  {
    assert (a + x)[|a|..] == x && (a + y)[|a|..] == y;
  }

  lemma {:induction false} NoMisfireNoMerge(ts: seq<Token>)
    requires Misfires(ts) == 0
    ensures Merge(ts) == ts
  {
    if ts != [] {
      NoMisfireNoMerge(ts[1..]);
    }
  }

  lemma MergeChangesText(ts: seq<Token>, vars: map<string, string>)
    requires Plain(vars)
    ensures Expand(Merge(ts), vars) == Expand(ts, vars) <==> Misfires(ts) == 0
  {
    if Misfires(ts) == 0 {
      NoMisfireNoMerge(ts);
    } else {
      var d := |vars[IPS]| - |vars[IP]| - 1;
      MergedLength(ts, vars, d);
      NonZeroProduct(Misfires(ts), d);
      if d == 0 {
        MisfireShows(ts, vars);
      }
    }
  }

  lemma NonZeroProduct(n: nat, d: int)
    requires n > 0
    ensures n * d == 0 <==> d == 0
  {
  }

  // ----- the condition, read off the template -----

  /** The first character of the text that follows, when it is known before ips is
      replaced: a literal, or the start of a value filled in early. */
  function Next(ts: seq<Token>, vars: map<string, string>): Option<char> {
    if ts == [] then None
    else match ts[0]
         case Lit(c) => Some(c)
         case Ph(k) =>
           if k !in EARLY || k !in vars then None
           else if vars[k] != "" then Some(vars[k][0])
           else Next(ts[1..], vars)
  }

  /** Some $ip of the template has text starting with s behind it. */
  predicate IpBeforeS(ts: seq<Token>, vars: map<string, string>) {
    ts != [] && ((ts[0] == Ph(IP) && Next(ts[1..], vars) == Some('s')) || IpBeforeS(ts[1..], vars))
  }

  lemma {:induction false} NextIsHead(ts: seq<Token>, vars: map<string, string>)
    ensures Next(ts, vars) == Some('s') <==> Fill(ts, EARLY, vars) != [] && Fill(ts, EARLY, vars)[0] == Lit('s')
  {
    if ts != [] {
      NextIsHead(ts[1..], vars);
    }
  }

  /** Literals hold no placeholder, so they start no misfire. */
  lemma {:induction false} MisfiresAfterLits(v: string, ts: seq<Token>)
    ensures Misfires(Lits(v) + ts) == Misfires(ts)
  {
    if v == "" {
      assert Lits(v) + ts == ts;
    } else {
      assert (Lits(v) + ts)[1..] == Lits(v[1..]) + ts;
      MisfiresAfterLits(v[1..], ts);
    }
  }

  lemma {:induction false} MisfiresFound(ts: seq<Token>, vars: map<string, string>)
    ensures Misfires(Fill(ts, EARLY, vars)) > 0 <==> IpBeforeS(ts, vars)
  {
    if ts != [] {
      MisfiresFound(ts[1..], vars);
      var rest := Fill(ts[1..], EARLY, vars);
      if ts[0].Ph? && ts[0].key in EARLY && ts[0].key in vars {
        IpIsLate();
        MisfiresAfterLits(vars[ts[0].key], rest);
      } else {
        NextIsHead(ts[1..], vars);
        MisfiresAfterOne(ts[0], rest);
      }
    }
  }

  lemma IpIsLate()
    ensures IP !in EARLY
  {
    KeysDiffer();
  }

  lemma MisfiresAfterOne(t: Token, rest: seq<Token>)
    ensures Misfires([t] + rest) > 0
       <==> (t == Ph(IP) && rest != [] && rest[0] == Lit('s')) || Misfires(rest) > 0
  {
    assert ([t] + rest)[1..] == rest;
  }

  /** For a template whose dollar signs all start placeholders and values without dollar
      signs, replacing one variable after the other gives the one-pass result exactly when
      no $ip has text starting with s behind it. */
  lemma SequentialIsOnePass(tmpl: string, vars: map<string, string>)
    requires Plain(vars) && Proper(Tokenize(tmpl, ORDER))
    ensures Sequential(tmpl, ORDER, vars) == OnePass(tmpl, ORDER, vars)
       <==> !IpBeforeS(Tokenize(tmpl, ORDER), vars)
  {
    SequentialMerges(tmpl, vars);
    OnePassKeepsTokens(tmpl, vars);
    MergeChangesText(Filled(tmpl, vars), vars);
    MisfiresFound(Tokenize(tmpl, ORDER), vars);
  }

  /** Adjacent placeholders are separated by at least one literal character. */
  predicate Separated(ts: seq<Token>) {
    forall i :: 0 <= i < |ts| - 1 ==> !(ts[i].Ph? && ts[i + 1].Ph?)
  }

  /** The tokens never hold $ip in front of a literal s: that would have been $ips. */
  lemma {:induction false} SeparatedIsSafe(s: string, vars: map<string, string>)
    requires Separated(Tokenize(s, ORDER))
    ensures !IpBeforeS(Tokenize(s, ORDER), vars)
    decreases |s|
  {
    if s != "" {
      var ts := Tokenize(s, ORDER);
      if s[0] == '$' && Match(s[1..], ORDER).Some? {
        var k := Match(s[1..], ORDER).value;
        var rest := s[1 + |k|..];
        assert ts[1..] == Tokenize(rest, ORDER);
        SeparatedTail(ts);
        SeparatedIsSafe(rest, vars);
        if k == IP {
          OrderIsAscending();
          IpsWouldMatch(s[1..], ORDER);
          KeysDiffer();
          LiteralFollows(Ph(k), rest);
        }
      } else {
        assert ts[1..] == Tokenize(s[1..], ORDER);
        SeparatedTail(ts);
        SeparatedIsSafe(s[1..], vars);
      }
    }
  }

  lemma SeparatedTail(ts: seq<Token>)
    requires Separated(ts) && ts != []
    ensures Separated(ts[1..])
  {
    forall i | 0 <= i < |ts[1..]| - 1 ensures !(ts[1..][i].Ph? && ts[1..][i + 1].Ph?) {
      assert ts[1..][i] == ts[i + 1] && ts[1..][i + 1] == ts[i + 2];
    }
  }

  lemma IpsWouldMatch(s: string, ks: seq<string>)
    requires StrictlyAscending(ks) && IPS in ks && Match(s, ks) == Some(IP)
    ensures |s| > 2 ==> s[2] != 's'
  {
    KeysDiffer();
    if |s| > 2 && s[2] == 's' {
      assert IPS <= s;
      MatchIsLongest(s, ks, IPS);
      assert false;
    }
  }

  lemma LiteralFollows(t: Token, rest: string)
    requires t.Ph? && Separated([t] + Tokenize(rest, ORDER))
    ensures rest != "" ==> Tokenize(rest, ORDER)[0] == Lit(rest[0])
  {
    var ts := [t] + Tokenize(rest, ORDER);
    if rest != "" {
      assert ts[0].Ph? && ts[0 + 1] == Tokenize(rest, ORDER)[0];
    }
  }

  /** The rendering of a template with separated placeholders, whatever order the Go map is
      iterated in. */
  method RenderSeparated(tmpl: string, zone: string, name: string, recordType: string, ip: string,
                         ips: seq<string>, ttl: int, iteration: seq<string>) returns (result: string)
    requires NoDollar(zone) && NoDollar(name) && NoDollar(recordType) && NoDollar(ip)
    requires forall i <- ips :: NoDollar(i)
    requires Proper(Tokenize(tmpl, ORDER)) && Separated(Tokenize(tmpl, ORDER))
    requires Enumerates(iteration, KEYS)
    ensures OrderCovers(BuildVars(zone, name, recordType, ip, ips, ttl))
    ensures result == OnePass(tmpl, ORDER, BuildVars(zone, name, recordType, ip, ips, ttl))
  {
    var vars := BuildVars(zone, name, recordType, ip, ips, ttl);
    BuildVarsPlain(zone, name, recordType, ip, ips, ttl);
    OrderIsAscending();
    result := RenderTemplate(tmpl, vars, iteration);
    SequentialIsOnePass(tmpl, vars);
    SeparatedIsSafe(tmpl, vars);
  }

  predicate OrderCovers(vars: map<string, string>) { forall k <- ORDER :: k in vars }
}
