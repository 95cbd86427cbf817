/** internal/core/health_checker.go, what tick does with the collected pings: it replaces
    the status map and reports the nodes whose status changed. The results arrive in any
    order, one per listed sentinel (PingFanout), and maps are iterated in any order. */
module HealthChecker {
  import opened Text

  datatype PingResult = PingResult(name: string, connected: bool)
  datatype Transition = Transition(name: string, down: bool)

  /** The status of every node that answered or failed to; the last result counts. */
  function Latest(results: seq<PingResult>): map<string, bool> {
    if results == [] then map[]
    else
      var last := results[|results| - 1];
      Latest(results[..|results| - 1])[last.name := last.connected]
  }

  /** The last result of the name is result i. */
  predicate LastResult(results: seq<PingResult>, name: string, i: int) {
    0 <= i < |results| && results[i].name == name && forall j | i < j < |results| :: results[j].name != name
  }

  /** A node has a status if and only if some result is for it, and the status says whether
      the last one of them connected. */
  lemma {:induction false} LatestIsLast(results: seq<PingResult>, name: string)
    ensures name in Latest(results) <==> exists r <- results :: r.name == name
    ensures forall i | LastResult(results, name, i) :: name in Latest(results)
                                                       && Latest(results)[name] == results[i].connected
    ensures name in Latest(results) ==> exists i :: LastResult(results, name, i)
  {
    if results != [] {
      var n := |results| - 1;
      LatestIsLast(results[..n], name);
      assert results == results[..n] + [results[n]];
      if results[n].name == name {
        assert LastResult(results, name, n);
      } else {
        assert forall i :: LastResult(results, name, i) <==> LastResult(results[..n], name, i);
      }
    }
  }

  /** No node has two results. */
  predicate OneEach(results: seq<PingResult>) {
    forall i, j | 0 <= i < j < |results| :: results[i].name != results[j].name
  }

  /** Then the statuses are the results. */
  lemma LatestOfOneEach(results: seq<PingResult>, name: string, connected: bool)
    requires OneEach(results)
    ensures name in Latest(results) && Latest(results)[name] == connected <==> PingResult(name, connected) in results
  {
    LatestIsLast(results, name);
    if PingResult(name, connected) in results {
      var i :| 0 <= i < |results| && results[i] == PingResult(name, connected);
      assert LastResult(results, name, i);
    }
    if name in Latest(results) && Latest(results)[name] == connected {
      var i :| LastResult(results, name, i);
      assert results[i] == PingResult(name, connected);
    }
  }

  /** The change of one node between two ticks: only a node seen in both can change. */
  function ChangeOf(before: map<string, bool>, after: map<string, bool>, name: string): seq<bool> {
    if name in before && name in after && before[name] != after[name] then [!after[name]] else []
  }

  function Named(ts: seq<Transition>, name: string): seq<bool> {
    if ts == [] then []
    else Named(ts[..|ts| - 1], name) + if ts[|ts| - 1].name == name then [ts[|ts| - 1].down] else []
  }

  /** What a tick got from the store: an error, or a listing and its ping results. */
  datatype Listing = ListFailed | Listed(results: seq<PingResult>)

  predicate Empty(l: Listing) { l.ListFailed? || l.results == [] }

  lemma NamedAppend(ts: seq<Transition>, t: Transition, name: string)
    ensures Named(ts + [t], name) == Named(ts, name) + if t.name == name then [t.down] else []
  {
    assert (ts + [t])[..|ts|] == ts;
  }

  method CollectStatuses(results: seq<PingResult>) returns (newStatuses: map<string, bool>)
    ensures newStatuses == Latest(results)
  {
    newStatuses := map[];
    for i := 0 to |results|
      invariant newStatuses == Latest(results[..i])
    {
      assert results[..i + 1][..i] == results[..i];
      newStatuses := newStatuses[results[i].name := results[i].connected];
    }
    assert results[..|results|] == results;
  }

  method DetectTransitions(prevState: map<string, bool>, newStatuses: map<string, bool>)
    returns (transitions: seq<Transition>)
    ensures forall name :: Named(transitions, name) == ChangeOf(prevState, newStatuses, name)
  {
    transitions := [];
    var todo := newStatuses.Keys;
    while todo != {}
      invariant todo <= newStatuses.Keys
      invariant forall name ::
                  Named(transitions, name) == if name in todo then [] else ChangeOf(prevState, newStatuses, name)
      decreases todo
    {
      var name :| name in todo;
      ghost var before := transitions;
      var connected := newStatuses[name];
      var existed := name in prevState;
      if existed && prevState[name] && !connected {
        transitions := transitions + [Transition(name, true)];
        forall other { NamedAppend(before, Transition(name, true), other); }
      } else if existed && !prevState[name] && connected {
        transitions := transitions + [Transition(name, false)];
        forall other { NamedAppend(before, Transition(name, false), other); }
      }
      todo := todo - {name};
    }
  }

  lemma {:induction false} NamedHas(ts: seq<Transition>, name: string, down: bool)
    ensures down in Named(ts, name) <==> Transition(name, down) in ts
  {
    if ts != [] {
      var n := |ts| - 1;
      NamedHas(ts[..n], name, down);
      assert ts == ts[..n] + [ts[n]];
    }
  }

  /** A tick reports as down who was up and did not connect, and as up who was down and
      did. */
  lemma TransitionsOfPings(before: map<string, bool>, results: seq<PingResult>, ts: seq<Transition>)
    requires forall name :: Named(ts, name) == ChangeOf(before, Latest(results), name)
    ensures OneEach(results) ==>
      && (forall name, connected ::
            name in Latest(results) && Latest(results)[name] == connected <==> PingResult(name, connected) in results)
      && (forall name, connected :: Transition(name, connected) in ts <==>
            name in before && before[name] == connected && PingResult(name, !connected) in results)
  {
    if OneEach(results) {
      forall name, connected
        ensures name in Latest(results) && Latest(results)[name] == connected
           <==> PingResult(name, connected) in results
        ensures Transition(name, connected) in ts <==>
                name in before && before[name] == connected && PingResult(name, !connected) in results
      {
        LatestOfOneEach(results, name, connected);
        LatestOfOneEach(results, name, !connected);
        NamedHas(ts, name, connected);
        assert Named(ts, name) == ChangeOf(before, Latest(results), name);
      }
    }
  }

  class HealthChecker {
    var statuses: map<string, bool>
    var prevState: map<string, bool>

    constructor ()
      ensures statuses == map[] && prevState == map[]
    {
      statuses, prevState := map[], map[];
    }

    /** A failed or empty listing changes nothing. Otherwise both maps become the new
        statuses, and exactly the nodes whose status changed are reported, once each. */
    method Tick(listing: Listing) returns (transitions: seq<Transition>)
      modifies this
      ensures listing.ListFailed? || |listing.results| == 0 ==>
        transitions == [] && statuses == old(statuses) && prevState == old(prevState)
      ensures !Empty(listing) ==> statuses == prevState == Latest(listing.results)
      ensures !Empty(listing) ==>
        forall name :: Named(transitions, name) == ChangeOf(old(prevState), Latest(listing.results), name)
      ensures !Empty(listing) && OneEach(listing.results) ==>
        && (forall name, connected ::
              name in statuses && statuses[name] == connected <==> PingResult(name, connected) in listing.results)
        && (forall name, connected :: Transition(name, connected) in transitions <==>
              name in old(prevState) && old(prevState)[name] == connected
              && PingResult(name, !connected) in listing.results)
    {
      transitions := [];
      if listing.ListFailed? || |listing.results| == 0 {
        return;
      }
      var newStatuses := CollectStatuses(listing.results);
      transitions := DetectTransitions(prevState, newStatuses);
      TransitionsOfPings(prevState, listing.results, transitions);
      prevState := newStatuses;
      statuses := newStatuses;
    }

    /** Any sequence of ticks from the start. The transitions of a node that is in every
        non-empty listing are the changes of its observed status, in order. When every
        listing has one result per node, a tick reports a node as down if and only if it
        connected in the last non-empty listing before and does not connect now, and as up
        if and only if it is the other way round. */
    method RunTicks(listings: seq<Listing>) returns (emitted: seq<seq<Transition>>)
      requires prevState == map[] && statuses == map[]
      modifies this
      ensures statuses == prevState && |emitted| == |listings|
      ensures forall name | Present(listings, name) :: Emitted(emitted, name) == Flips(Observed(listings, name))
      ensures AllOneEach(listings) ==> Reported(listings, emitted)
    {
      emitted := [];
      for i := 0 to |listings|
        invariant statuses == prevState && |emitted| == i
        invariant AllOneEach(listings[..i]) ==> Reported(listings[..i], emitted) && PrevFits(listings[..i], prevState)
        invariant forall name | Present(listings[..i], name) :: Tracks(listings[..i], emitted, name, prevState)
      {
        ghost var before, soFar := prevState, emitted;
        var ts := Tick(listings[i]);
        emitted := emitted + [ts];
        assert listings[..i + 1] == listings[..i] + [listings[i]];
        ReportedNext(listings[..i], listings[i], soFar, ts, before, prevState);
        forall name | Present(listings[..i] + [listings[i]], name)
          ensures Tracks(listings[..i] + [listings[i]], soFar + [ts], name, prevState)
        {
          PresentBefore(listings[..i], listings[i], name);
          TracksNext(listings[..i], listings[i], soFar, ts, name, before, prevState);
        }
      }
      assert listings[..|listings|] == listings;
      forall name | Present(listings, name) ensures Emitted(emitted, name) == Flips(Observed(listings, name)) {
        assert Tracks(listings, emitted, name, prevState);
      }
    }
  }

  // ----- runs of ticks -----

  predicate AllOneEach(listings: seq<Listing>) { forall l <- listings :: Empty(l) || OneEach(l.results) }

  /** Listing j is the last one that is not empty. */
  predicate LastNonEmpty(listings: seq<Listing>, j: int) {
    0 <= j < |listings| && !Empty(listings[j]) && forall k | j < k < |listings| :: Empty(listings[k])
  }

  /** How the node answered when it was last asked. */
  ghost predicate LastSeen(listings: seq<Listing>, name: string, connected: bool) {
    exists j :: LastNonEmpty(listings, j) && PingResult(name, connected) in listings[j].results
  }

  ghost predicate PrevFits(listings: seq<Listing>, prevState: map<string, bool>) {
    forall name, connected :: name in prevState && prevState[name] == connected <==> LastSeen(listings, name, connected)
  }

  ghost predicate ReportDue(listings: seq<Listing>, i: nat, name: string, down: bool)
    requires i < |listings|
  {
    && !Empty(listings[i]) && PingResult(name, !down) in listings[i].results
    && LastSeen(listings[..i], name, down)
  }

  ghost predicate Reported(listings: seq<Listing>, emitted: seq<seq<Transition>>) {
    && |emitted| == |listings|
    && forall i: nat, name, down | i < |listings| ::
         Transition(name, down) in emitted[i] <==> ReportDue(listings, i, name, down)
  }

  lemma LastSeenNext(listings: seq<Listing>, l: Listing, name: string, connected: bool)
    ensures LastSeen(listings + [l], name, connected)
            <==> if Empty(l) then LastSeen(listings, name, connected) else PingResult(name, connected) in l.results
  {
    var more, n := listings + [l], |listings|;
    assert forall k | 0 <= k < n :: more[k] == listings[k];
    if Empty(l) {
      assert forall j :: LastNonEmpty(more, j) <==> LastNonEmpty(listings, j);
    } else {
      assert LastNonEmpty(more, n);
    }
  }

  lemma ReportedNext(listings: seq<Listing>, l: Listing, emitted: seq<seq<Transition>>, ts: seq<Transition>,
                     before: map<string, bool>, after: map<string, bool>)
    requires AllOneEach(listings) ==> Reported(listings, emitted) && PrevFits(listings, before)
    requires Empty(l) ==> ts == [] && after == before
    requires !Empty(l) && OneEach(l.results) ==>
      && (forall name, connected ::
            name in after && after[name] == connected <==> PingResult(name, connected) in l.results)
      && (forall name, connected :: Transition(name, connected) in ts <==>
            name in before && before[name] == connected && PingResult(name, !connected) in l.results)
    ensures AllOneEach(listings + [l]) ==> Reported(listings + [l], emitted + [ts]) && PrevFits(listings + [l], after)
  {
    var more := listings + [l];
    if AllOneEach(more) {
      assert l in more && forall x <- listings :: x in more;
      forall name, connected
        ensures name in after && after[name] == connected <==> LastSeen(more, name, connected)
      {
        LastSeenNext(listings, l, name, connected);
      }
      forall i: nat, name, down | i < |more|
        ensures Transition(name, down) in (emitted + [ts])[i] <==> ReportDue(more, i, name, down)
      {
        assert more[..i] == listings[..i];
        if i < |listings| {
          assert more[i] == listings[i] && (emitted + [ts])[i] == emitted[i];
        } else {
          assert listings[..i] == listings;
        }
      }
    }
  }

  ghost predicate Present(listings: seq<Listing>, name: string) {
    forall l <- listings :: !Empty(l) ==> name in Latest(l.results)
  }

  /** The statuses observed for a node, tick by tick. */
  ghost function Observed(listings: seq<Listing>, name: string): seq<bool>
    requires Present(listings, name)
  {
    if listings == [] then []
    else
      var front, last := listings[..|listings| - 1], listings[|listings| - 1];
      assert last in listings;
      Observed(front, name) + if Empty(last) then [] else [Latest(last.results)[name]]
  }

  function Emitted(emitted: seq<seq<Transition>>, name: string): seq<bool> {
    if emitted == [] then []
    else Emitted(emitted[..|emitted| - 1], name) + Named(emitted[|emitted| - 1], name)
  }

  /** The changes in a sequence of statuses: true when a node went down. */
  function Flips(bs: seq<bool>): seq<bool> {
    if |bs| < 2 then []
    else Flips(bs[..|bs| - 1]) + if bs[|bs| - 1] != bs[|bs| - 2] then [!bs[|bs| - 1]] else []
  }

  ghost predicate Tracks(listings: seq<Listing>, emitted: seq<seq<Transition>>, name: string,
                         prevState: map<string, bool>)
    requires Present(listings, name)
  {
    var bs := Observed(listings, name);
    && Emitted(emitted, name) == Flips(bs)
    && (bs == [] ==> prevState == map[])
    && (bs != [] ==> name in prevState && prevState[name] == bs[|bs| - 1])
  }

  lemma PresentBefore(listings: seq<Listing>, l: Listing, name: string)
    requires Present(listings + [l], name)
    ensures Present(listings, name) && (!Empty(l) ==> name in Latest(l.results))
    ensures Observed(listings + [l], name)
         == Observed(listings, name) + if Empty(l) then [] else [Latest(l.results)[name]]
  {
    assert l in listings + [l];
    assert forall x :: x in listings ==> x in listings + [l];
    assert (listings + [l])[..|listings|] == listings;
  }

  lemma TracksNext(
    listings: seq<Listing>, l: Listing, emitted: seq<seq<Transition>>, ts: seq<Transition>, name: string,
    before: map<string, bool>, after: map<string, bool>)
    requires Present(listings + [l], name) && Present(listings, name) && Tracks(listings, emitted, name, before)
    requires Empty(l) ==> ts == [] && after == before
    requires !Empty(l) ==> after == Latest(l.results) && Named(ts, name) == ChangeOf(before, after, name)
    ensures Tracks(listings + [l], emitted + [ts], name, after)
  {
    PresentBefore(listings, l, name);
    var bs := Observed(listings, name);
    assert (emitted + [ts])[..|emitted|] == emitted;
    if Empty(l) {
      assert bs + [] == bs;
      assert Flips(bs) + [] == Flips(bs);
    } else {
      var b := Latest(l.results)[name];
      assert (bs + [b])[..|bs|] == bs;
    }
  }

  /** How often a status changed. */
  function Changes(bs: seq<bool>): nat {
    if |bs| < 2 then 0 else Changes(bs[1..]) + if bs[0] != bs[1] then 1 else 0
  }

  lemma {:induction false} ChangesFromTheBack(bs: seq<bool>)
    requires |bs| >= 2
    ensures Changes(bs) == Changes(bs[..|bs| - 1]) + if bs[|bs| - 1] != bs[|bs| - 2] then 1 else 0
  {
    if |bs| > 2 {
      ChangesFromTheBack(bs[1..]);
      assert bs[1..][..|bs| - 2] == bs[..|bs| - 1][1..];
    }
  }

  /** Transitions strictly alternate between down and up, there are as many as status
      changes, the first is the opposite of the first status seen, and the last agrees
      with the current one. */
  lemma {:induction false} FlipsAlternate(bs: seq<bool>)
    ensures |Flips(bs)| == Changes(bs)
    ensures forall i :: 0 <= i < |Flips(bs)| - 1 ==> Flips(bs)[i] != Flips(bs)[i + 1]
    ensures Flips(bs) != [] ==> Flips(bs)[0] == bs[0] && Flips(bs)[|Flips(bs)| - 1] == !bs[|bs| - 1]
    ensures bs != [] && Flips(bs) == [] ==> bs[0] == bs[|bs| - 1]
  {
    if |bs| >= 2 {
      FlipsAlternate(bs[..|bs| - 1]);
      ChangesFromTheBack(bs);
    }
  }
}
