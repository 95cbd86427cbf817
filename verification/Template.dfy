/** internal/dns/restapi.go: renderTemplate replaces the variables one after the other,
    longest name first. When is that the same as replacing every placeholder once, by the
    longest variable name that matches? */
module Template {
  import opened Text

  // ----- the order of the keys -----

  /** Longer first, then alphabetically. */
  predicate Before(a: string, b: string) { |a| > |b| || (|a| == |b| && Less(a, b)) }

  lemma BeforeTotal(a: string, b: string)
    ensures Before(a, b) || a == b || Before(b, a)
    ensures !(Before(a, b) && Before(b, a)) && !Before(a, a)
  {
    LessTrichotomy(a, b);
    LessTrichotomy(a, a);
  }

  lemma BeforeTransitive(a: string, b: string, c: string)
    requires Before(a, b) && Before(b, c)
    ensures Before(a, c)
  {
    if |a| == |b| == |c| {
      LessTransitive(a, b, c);
    }
  }

  predicate NotAfter(a: string, b: string) { a == b || Before(a, b) }

  predicate Ascending(ks: seq<string>) { forall i, j :: 0 <= i < j < |ks| ==> NotAfter(ks[i], ks[j]) }

  predicate StrictlyAscending(ks: seq<string>) { forall i, j :: 0 <= i < j < |ks| ==> Before(ks[i], ks[j]) }

  ghost predicate Enumerates(ks: seq<string>, keys: set<string>) {
    (forall k :: k in keys <==> k in ks) && forall i, j :: 0 <= i < j < |ks| ==> ks[i] != ks[j]
  }

  /** The first i elements are in place. */
  ghost predicate Placed(s: seq<string>, i: nat) { forall a, b :: 0 <= a < i && a < b < |s| ==> NotAfter(s[a], s[b]) }

  /** Element i is the least of i .. j. */
  ghost predicate Least(s: seq<string>, i: nat, j: nat)
    requires i < |s| && j <= |s|
  {
    forall k :: i <= k < j ==> NotAfter(s[i], s[k])
  }

  function Swapped(s: seq<string>, i: nat, j: nat): seq<string>
    requires i < |s| && j < |s|
  {
    s[i := s[j]][j := s[i]]
  }

  lemma SwapKeepsElements(s: seq<string>, i: nat, j: nat)
    requires i < |s| && j < |s|
    ensures multiset(Swapped(s, i, j)) == multiset(s)
  {
  }

  /** An element that comes before the least of the others is the least. */
  lemma NewLeast(s: seq<string>, i: nat, j: nat, k: nat)
    requires i < j < |s| && Least(s, i, j) && Before(s[j], s[i]) && i <= k < j
    ensures NotAfter(s[j], s[k])
  {
    assert NotAfter(s[i], s[k]);
    if s[i] != s[k] {
      BeforeTransitive(s[j], s[i], s[k]);
    }
  }

  /** Comparing element j and swapping it to the front if it comes before. */
  lemma SwapStep(s: seq<string>, i: nat, j: nat)
    requires i < j < |s| && Placed(s, i) && Least(s, i, j)
    ensures var t := if Before(s[j], s[i]) then Swapped(s, i, j) else s; Placed(t, i) && Least(t, i, j + 1)
  {
    BeforeTotal(s[i], s[j]);
    if Before(s[j], s[i]) {
      var t := Swapped(s, i, j);
      forall k | i <= k < j + 1 ensures NotAfter(t[i], t[k]) {
        NewLeast(s, i, j, if k == j then i else k);
      }
    }
  }

  lemma PlacedNext(s: seq<string>, i: nat)
    requires i < |s| && Placed(s, i) && Least(s, i, |s|)
    ensures Placed(s, i + 1)
  {
  }

  /** The nested loops of renderTemplate, in place. */
  method SortKeys(keys: array<string>)
    modifies keys
    ensures Ascending(keys[..]) && multiset(keys[..]) == multiset(old(keys[..]))
  {
    var i := 0;
    while i < keys.Length
      invariant 0 <= i <= keys.Length
      invariant multiset(keys[..]) == multiset(old(keys[..]))
      invariant Placed(keys[..], i)
    {
      var j := i + 1;
      while j < keys.Length
        invariant i < j <= keys.Length
        invariant multiset(keys[..]) == multiset(old(keys[..]))
        invariant Placed(keys[..], i) && Least(keys[..], i, j)
      {
        ghost var s := keys[..];
        SwapStep(s, i, j);
        SwapKeepsElements(s, i, j);
        if |keys[j]| > |keys[i]| || (|keys[j]| == |keys[i]| && Less(keys[j], keys[i])) {
          keys[i], keys[j] := keys[j], keys[i];
          assert keys[..] == Swapped(s, i, j);
        }
        j := j + 1;
      }
      PlacedNext(keys[..], i);
      i := i + 1;
    }
  }

  /** Distinct keys have one ascending order. */
  lemma {:induction false} OrderUnique(ks: seq<string>, ls: seq<string>)
    requires StrictlyAscending(ks) && StrictlyAscending(ls)
    requires forall k :: k in ks <==> k in ls
    ensures ks == ls
  {
    if ks == [] {
      if ls != [] {
        HasMember(ls);
        assert false;
      }
    } else {
      assert ks[0] in ls && ls != [] && ls[0] in ks;
      FirstIsLeast(ks, ls);
      forall k ensures k in ks[1..] <==> k in ls[1..] {
        RestOf(ks, k);
        RestOf(ls, k);
      }
      OrderUnique(ks[1..], ls[1..]);
      assert ks == [ks[0]] + ks[1..] && ls == [ls[0]] + ls[1..];
    }
  }

  lemma HasMember(s: seq<string>)
    requires s != []
    ensures exists k :: k in s
  {
    assert s[0] in s;
  }

  lemma FirstIsLeast(ks: seq<string>, ls: seq<string>)
    requires StrictlyAscending(ks) && StrictlyAscending(ls) && ks != [] && ls != []
    requires ks[0] in ls && ls[0] in ks
    ensures ks[0] == ls[0]
  {
    BeforeTotal(ks[0], ls[0]);
  }

  lemma RestOf(ks: seq<string>, k: string)
    requires StrictlyAscending(ks) && ks != []
    ensures k in ks[1..] <==> k in ks && k != ks[0]
  {
    BeforeTotal(ks[0], ks[0]);
    assert ks == [ks[0]] + ks[1..];
  }

  // ----- rendering -----

  function Placeholder(k: string): string { ['$'] + k }

  /** The keys one after the other. */
  function Sequential(s: string, ks: seq<string>, vars: map<string, string>): string
    requires forall k <- ks :: k in vars
  {
    if ks == [] then s
    else
      var n := |ks| - 1;
      ReplaceAll(Sequential(s, ks[..n], vars), Placeholder(ks[n]), vars[ks[n]])
  }

  /** Whatever order the map is iterated in, the result is that of the ascending order. */
  method RenderTemplate(tmpl: string, vars: map<string, string>, iteration: seq<string>) returns (result: string)
    requires Enumerates(iteration, vars.Keys)
    ensures forall ks | Enumerates(ks, vars.Keys) && StrictlyAscending(ks) :: result == Sequential(tmpl, ks, vars)
    ensures exists ks :: Enumerates(ks, vars.Keys) && StrictlyAscending(ks)
  {
    var keys := new string[|iteration|](i requires 0 <= i < |iteration| => iteration[i]);
    assert keys[..] == iteration;
    SortKeys(keys);
    var sorted := keys[..];
    SortedEnumerates(iteration, sorted, vars.Keys);
    result := tmpl;
    for i := 0 to |sorted|
      invariant result == Sequential(tmpl, sorted[..i], vars)
    {
      assert sorted[..i + 1][..i] == sorted[..i];
      result := ReplaceAll(result, Placeholder(sorted[i]), vars[sorted[i]]);
    }
    assert sorted[..|sorted|] == sorted;
    OneOrder(sorted, vars.Keys);
  }

  lemma OneOrder(sorted: seq<string>, keys: set<string>)
    requires Enumerates(sorted, keys) && StrictlyAscending(sorted)
    ensures forall ks | Enumerates(ks, keys) && StrictlyAscending(ks) :: ks == sorted
  {
    forall ks | Enumerates(ks, keys) && StrictlyAscending(ks) ensures ks == sorted {
      OrderUnique(ks, sorted);
    }
  }

  lemma SortedEnumerates(iteration: seq<string>, sorted: seq<string>, keys: set<string>)
    requires Enumerates(iteration, keys) && Ascending(sorted) && multiset(sorted) == multiset(iteration)
    ensures Enumerates(sorted, keys) && StrictlyAscending(sorted)
  {
    forall k ensures k in sorted <==> k in iteration {
      assert k in multiset(sorted) <==> k in multiset(iteration);
    }
    DistinctCounts(iteration);
    if i, j :| 0 <= i < j < |sorted| && sorted[i] == sorted[j] {
      TwiceCounts(sorted, i, j);
      assert false;
    }
  }

  lemma {:induction false} DistinctCounts(s: seq<string>)
    requires forall i, j :: 0 <= i < j < |s| ==> s[i] != s[j]
    ensures forall k :: multiset(s)[k] <= 1
  {
    if s != [] {
      DistinctCounts(s[1..]);
      assert s == [s[0]] + s[1..];
      assert multiset(s) == multiset{s[0]} + multiset(s[1..]);
      assert s[0] !in s[1..];
    }
  }

  lemma TwiceCounts(s: seq<string>, i: nat, j: nat)
    requires i < j < |s| && s[i] == s[j]
    ensures multiset(s)[s[i]] >= 2
  {
    assert s == s[..j] + [s[j]] + s[j + 1..];
    assert s[i] in s[..j] by { assert s[..j][i] == s[i]; }
  }

  // ----- tokens -----

  datatype Token = Lit(c: char) | Ph(key: string)

  /** The first key that starts s; with the longest keys first, the longest. */
  function Match(s: string, ks: seq<string>): (m: Option<string>)
    ensures m.Some? ==> m.value in ks && m.value <= s
  {
    if ks == [] then None
    else if ks[0] <= s then Some(ks[0])
    else Match(s, ks[1..])
  }

  lemma {:induction false} MatchIsLongest(s: string, ks: seq<string>, k: string)
    requires StrictlyAscending(ks) && k in ks && k <= s
    ensures Match(s, ks).Some? && |Match(s, ks).value| >= |k|
  {
    if !(ks[0] <= s) {
      assert k in ks[1..] by { assert ks == [ks[0]] + ks[1..]; }
      MatchIsLongest(s, ks[1..], k);
    }
  }

  /** Every placeholder once, by the longest matching key; a dollar sign that starts none
      stays. This is what the template language means. */
  function OnePass(s: string, ks: seq<string>, vars: map<string, string>): string
    requires forall k <- ks :: k in vars
    decreases |s|
  {
    if s == "" then ""
    else if s[0] == '$' && Match(s[1..], ks).Some? then
      var k := Match(s[1..], ks).value;
      vars[k] + OnePass(s[1 + |k|..], ks, vars)
    else [s[0]] + OnePass(s[1..], ks, vars)
  }

  function Tokenize(s: string, ks: seq<string>): seq<Token>
    decreases |s|
  {
    if s == "" then []
    else if s[0] == '$' && Match(s[1..], ks).Some? then
      var k := Match(s[1..], ks).value;
      [Ph(k)] + Tokenize(s[1 + |k|..], ks)
    else [Lit(s[0])] + Tokenize(s[1..], ks)
  }

  function ShowOne(t: Token): string {
    match t
    case Lit(c) => [c]
    case Ph(k) => Placeholder(k)
  }

  function Show(ts: seq<Token>): string { if ts == [] then "" else ShowOne(ts[0]) + Show(ts[1..]) }

  function Lits(v: string): seq<Token> { seq(|v|, i requires 0 <= i < |v| => Lit(v[i])) }

  function SubstOne(t: Token, k: string, v: string): seq<Token> {
    if t == Ph(k) then Lits(v) else [t]
  }

  function Subst(ts: seq<Token>, k: string, v: string): seq<Token> {
    if ts == [] then [] else SubstOne(ts[0], k, v) + Subst(ts[1..], k, v)
  }

  function ExpandOne(t: Token, vars: map<string, string>): string {
    match t
    case Lit(c) => [c]
    case Ph(k) => if k in vars then vars[k] else ""
  }

  function Expand(ts: seq<Token>, vars: map<string, string>): string {
    if ts == [] then "" else ExpandOne(ts[0], vars) + Expand(ts[1..], vars)
  }

  predicate NoDollar(s: string) { '$' !in s }

  /** Tokens of a template whose dollar signs all start placeholders. */
  predicate Proper(ts: seq<Token>) {
    forall t <- ts :: match t case Lit(c) => c != '$' case Ph(k) => NoDollar(k)
  }

  lemma {:induction false} ShowTokenize(s: string, ks: seq<string>)
    ensures Show(Tokenize(s, ks)) == s
    decreases |s|
  {
    if s != "" {
      if s[0] == '$' && Match(s[1..], ks).Some? {
        var k := Match(s[1..], ks).value;
        ShowTokenize(s[1 + |k|..], ks);
        assert s == ['$'] + k + s[1 + |k|..];
      } else {
        ShowTokenize(s[1..], ks);
      }
    }
  }

  lemma {:induction false} OnePassExpands(s: string, ks: seq<string>, vars: map<string, string>)
    requires forall k <- ks :: k in vars
    ensures OnePass(s, ks, vars) == Expand(Tokenize(s, ks), vars)
    decreases |s|
  {
    if s != "" {
      if s[0] == '$' && Match(s[1..], ks).Some? {
        OnePassExpands(s[1 + |Match(s[1..], ks).value|..], ks, vars);
      } else {
        OnePassExpands(s[1..], ks, vars);
      }
    }
  }

  // ----- one replacement on tokens -----

  lemma PrefixTail(p: string, s: string)
    requires p != "" && p <= s
    ensures p[0] == s[0] && p[1..] <= s[1..]
  {
  }

  lemma ReplaceSkip(c: char, t: string, k: string, v: string)
    requires c != '$' || !(k <= t)
    ensures ReplaceAll([c] + t, Placeholder(k), v) == [c] + ReplaceAll(t, Placeholder(k), v)
  {
    var s, p := [c] + t, Placeholder(k);
    assert s[1..] == t && p[1..] == k;
    if p <= s {
      PrefixTail(p, s);
      assert false;
    }
  }

  lemma {:induction false} ReplaceSkipRun(w: string, t: string, k: string, v: string)
    requires NoDollar(w)
    ensures ReplaceAll(w + t, Placeholder(k), v) == w + ReplaceAll(t, Placeholder(k), v)
  {
    if w == "" {
      assert w + t == t;
    } else {
      assert w + t == [w[0]] + (w[1..] + t);
      ReplaceSkip(w[0], w[1..] + t, k, v);
      ReplaceSkipRun(w[1..], t, k, v);
    }
  }

  lemma ReplaceHit(k: string, t: string, v: string)
    ensures ReplaceAll(Placeholder(k) + t, Placeholder(k), v) == v + ReplaceAll(t, Placeholder(k), v)
  {
    var s, p := Placeholder(k) + t, Placeholder(k);
    assert s[..|p|] == p && s[|p|..] == t;
  }

  /** No other placeholder, with the text after it, reads as k. */
  predicate NoFalseMatch(ts: seq<Token>, k: string) {
    ts == [] || ((ts[0].Ph? && ts[0].key != k ==> !(k <= ts[0].key + Show(ts[1..]))) && NoFalseMatch(ts[1..], k))
  }

  /** Then replacing in the text is replacing the tokens. */
  lemma {:induction false} ReplaceTokens(ts: seq<Token>, k: string, v: string)
    requires Proper(ts) && NoFalseMatch(ts, k)
    ensures ReplaceAll(Show(ts), Placeholder(k), v) == Show(Subst(ts, k, v))
  {
    if ts != [] {
      assert ts[0] in ts && forall t <- ts[1..] :: t in ts;
      ReplaceTokens(ts[1..], k, v);
      ReplaceOne(ts[0], Show(ts[1..]), k, v);
      ShowConcat(SubstOne(ts[0], k, v), Subst(ts[1..], k, v));
    }
  }

  lemma ReplaceOne(t: Token, rest: string, k: string, v: string)
    requires Proper([t])
    requires t.Ph? && t.key != k ==> !(k <= t.key + rest)
    ensures ReplaceAll(ShowOne(t) + rest, Placeholder(k), v)
         == Show(SubstOne(t, k, v)) + ReplaceAll(rest, Placeholder(k), v)
  {
    assert t in [t];
    if t.Lit? {
      ReplaceSkip(t.c, rest, k, v);
    } else if t.key == k {
      ReplaceHit(k, rest, v);
      ShowLits(v);
    } else {
      ReplaceOther(t.key, rest, k, v);
    }
  }

  lemma ReplaceOther(key: string, rest: string, k: string, v: string)
    requires NoDollar(key) && !(k <= key + rest)
    ensures ReplaceAll(Placeholder(key) + rest, Placeholder(k), v)
         == Placeholder(key) + ReplaceAll(rest, Placeholder(k), v)
  {
    var after := ReplaceAll(rest, Placeholder(k), v);
    ReplaceSkip('$', key + rest, k, v);
    ReplaceSkipRun(key, rest, k, v);
    PlaceholderThen(key, rest);
    PlaceholderThen(key, after);
  }

  lemma PlaceholderThen(key: string, rest: string)
    ensures Placeholder(key) + rest == ['$'] + (key + rest)
  {
  }

  lemma {:induction false} ShowConcat(a: seq<Token>, b: seq<Token>)
    ensures Show(a + b) == Show(a) + Show(b)
  {
    if a == [] {
      assert a + b == b;
    } else {
      assert (a + b)[1..] == a[1..] + b;
      ShowConcat(a[1..], b);
    }
  }

  lemma {:induction false} ShowLits(v: string)
    ensures Show(Lits(v)) == v
  {
    if v != "" {
      assert Lits(v)[1..] == Lits(v[1..]);
      ShowLits(v[1..]);
    }
  }
}
