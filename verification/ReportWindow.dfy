/** The specification both stores implement: the reports of one key, in arrival order,
    are cut into fixed windows. A window is opened by the first report that falls outside
    the previous one and takes every report before opener + w; the count a report gets
    is its position in its own window. Times are integer milliseconds. */
module ReportWindow {

  datatype Report = Report(key: string, reporter: string, time: int)

  function KeyReports(log: seq<Report>, key: string): seq<Report> {
    if log == [] then []
    else
      var last := log[|log| - 1];
      KeyReports(log[..|log| - 1], key) + if last.key == key then [last] else []
  }

  function Followers(rs: seq<Report>, end: int): (n: nat)
    ensures n <= |rs|
  {
    if rs == [] || rs[0].time >= end then 0 else 1 + Followers(rs[1..], end)
  }

  function WindowLength(rs: seq<Report>, w: int): (n: nat)
    requires rs != []
    ensures 1 <= n <= |rs|
  {
    1 + Followers(rs[1..], rs[0].time + w)
  }

  predicate AllNonEmpty(ws: seq<seq<Report>>) { forall i :: 0 <= i < |ws| ==> |ws[i]| > 0 }

  /** Cut greedily from the front. */
  function Windows(rs: seq<Report>, w: int): (ws: seq<seq<Report>>)
    ensures AllNonEmpty(ws)
    ensures rs != [] ==> ws != []
  {
    if rs == [] then []
    else
      var n := WindowLength(rs, w);
      [rs[..n]] + Windows(rs[n..], w)
  }

  function Ranks(n: nat): seq<nat> { seq(n, i => i + 1) }

  /** The position of every report in its own window. */
  function Positions(rs: seq<Report>, w: int): seq<nat> {
    if rs == [] then []
    else
      var n := WindowLength(rs, w);
      Ranks(n) + Positions(rs[n..], w)
  }

  function LastWindow(rs: seq<Report>, w: int): (win: seq<Report>)
    requires rs != []
    ensures win != []
  {
    var ws := Windows(rs, w);
    ws[|ws| - 1]
  }

  /** The window a counter is in, if it has counted anything. */
  function Current(rs: seq<Report>, w: int): seq<Report> { if rs == [] then [] else LastWindow(rs, w) }

  /** The window that the report r falls into when win was the current one. */
  function Next(win: seq<Report>, r: Report, w: int): (next: seq<Report>)
    ensures next != []
  {
    if win != [] && r.time < win[0].time + w then win + [r] else [r]
  }

  // ----- one more report -----

  lemma {:induction false} FollowersAppend(rs: seq<Report>, r: Report, end: int)
    ensures Followers(rs + [r], end) ==
            if Followers(rs, end) == |rs| && r.time < end then |rs| + 1 else Followers(rs, end)
  {
    if rs == [] {
      assert [r][1..] == [];
    } else {
      assert (rs + [r])[1..] == rs[1..] + [r];
      FollowersAppend(rs[1..], r, end);
    }
  }

  /** Reports that all fit one window form one window. */
  lemma OneWindow(rs: seq<Report>, w: int)
    requires rs != [] && WindowLength(rs, w) == |rs|
    ensures Windows(rs, w) == [rs] && Positions(rs, w) == Ranks(|rs|) && LastWindow(rs, w) == rs
  {
    assert rs[..|rs|] == rs && rs[|rs|..] == [];
  }

  /** A window cut off the front leaves the later windows alone. */
  lemma LaterWindows(rs: seq<Report>, w: int, n: nat)
    requires rs != [] && n == WindowLength(rs, w) < |rs|
    ensures Windows(rs, w) == [rs[..n]] + Windows(rs[n..], w)
    ensures Positions(rs, w) == Ranks(n) + Positions(rs[n..], w)
    ensures LastWindow(rs, w) == LastWindow(rs[n..], w)
  {
  }

  lemma WindowLengthAppend(rs: seq<Report>, r: Report, w: int)
    requires rs != []
    ensures WindowLength(rs + [r], w) ==
            if WindowLength(rs, w) == |rs| && r.time < rs[0].time + w then |rs| + 1 else WindowLength(rs, w)
  {
    assert (rs + [r])[1..] == rs[1..] + [r];
    FollowersAppend(rs[1..], r, rs[0].time + w);
  }

  ghost predicate Appended(rs: seq<Report>, r: Report, w: int) {
    && LastWindow(rs + [r], w) == Next(Current(rs, w), r, w)
    && Positions(rs + [r], w) == Positions(rs, w) + [|Next(Current(rs, w), r, w)|]
  }

  /** The reports so far are one window. */
  lemma AppendToOneWindow(rs: seq<Report>, r: Report, w: int)
    requires rs != [] && WindowLength(rs, w) == |rs|
    ensures Appended(rs, r, w)
  {
    var all, n := rs + [r], |rs|;
    WindowLengthAppend(rs, r, w);
    OneWindow(rs, w);
    if r.time < rs[0].time + w {
      OneWindow(all, w);
      assert Ranks(n + 1) == Ranks(n) + [n + 1];
    } else {
      assert all[..n] == rs && all[n..] == [r];
      LaterWindows(all, w, n);
      OneWindow([r], w);
    }
  }

  /** A first window that is over plays no part. */
  lemma AppendAfterWindow(rs: seq<Report>, r: Report, w: int, n: nat)
    requires rs != [] && n == WindowLength(rs, w) < |rs| && Appended(rs[n..], r, w)
    ensures Appended(rs, r, w)
  {
    var all, later := rs + [r], rs[n..] + [r];
    WindowLengthAppend(rs, r, w);
    assert all[n..] == later;
    LaterWindows(rs, w, n);
    LaterWindows(all, w, n);
    assert LastWindow(all, w) == LastWindow(later, w) && Current(rs, w) == Current(rs[n..], w);
    SeqAssociates(Ranks(n), Positions(rs[n..], w), [|Next(Current(rs, w), r, w)|]);
  }

  lemma SeqAssociates(a: seq<nat>, b: seq<nat>, c: seq<nat>)
    ensures a + (b + c) == (a + b) + c
  {
  }

  /** Greedy windowing is incremental: only the last window decides about a new report. */
  lemma {:induction false} WindowsAppend(rs: seq<Report>, r: Report, w: int)
    ensures LastWindow(rs + [r], w) == Next(Current(rs, w), r, w)
    ensures Positions(rs + [r], w) == Positions(rs, w) + [|Next(Current(rs, w), r, w)|]
    decreases |rs|
  {
    if rs == [] {
      assert rs + [r] == [r];
      OneWindow([r], w);
    } else {
      var n := WindowLength(rs, w);
      if n < |rs| {
        WindowsAppend(rs[n..], r, w);
        AppendAfterWindow(rs, r, w, n);
      } else {
        AppendToOneWindow(rs, r, w);
      }
    }
  }

  // ----- two windows of different length -----

  /** The report falls between the ends of a window of w and of one of v. */
  predicate InSlack(win: seq<Report>, r: Report, w: int, v: int) {
    win != [] && win[0].time + w <= r.time < win[0].time + v
  }

  /** No report comes when a window of w is over but one of v would not be. */
  predicate SlackFree(rs: seq<Report>, w: int, v: int) {
    rs == []
    || (SlackFree(rs[..|rs| - 1], w, v) && !InSlack(Current(rs[..|rs| - 1], w), rs[|rs| - 1], w, v))
  }

  lemma SlackAppend(rs: seq<Report>, r: Report, w: int, v: int)
    ensures SlackFree(rs + [r], w, v) <==> SlackFree(rs, w, v) && !InSlack(Current(rs, w), r, w, v)
  {
    assert (rs + [r])[..|rs|] == rs;
  }

  ghost predicate SameExactly(rs: seq<Report>, w: int, v: int) {
    && |Positions(rs, w)| == |Positions(rs, v)|
    && (Positions(rs, w) == Positions(rs, v) <==> SlackFree(rs, w, v))
    && (SlackFree(rs, w, v) ==> Current(rs, w) == Current(rs, v))
  }

  /** The next counts, when the counts so far are equal exactly if no report was in the slack. */
  lemma NextCounts(
    a: seq<nat>, b: seq<nat>, win: seq<Report>, longer: seq<Report>, r: Report, w: int, v: int, free: bool)
    requires w <= v
    requires |a| == |b| && (a == b <==> free) && (free ==> win == longer)
    ensures a + [|Next(win, r, w)|] == b + [|Next(longer, r, v)|] <==> free && !InSlack(win, r, w, v)
    ensures free && !InSlack(win, r, w, v) ==> Next(win, r, w) == Next(longer, r, v)
  {
    AppendedEqual(a, b, |Next(win, r, w)|, |Next(longer, r, v)|);
    if free {
      NextExactly(win, r, w, v);
    }
  }

  lemma CurrentAppend(rs: seq<Report>, r: Report, w: int)
    ensures Current(rs + [r], w) == Next(Current(rs, w), r, w)
    ensures Positions(rs + [r], w) == Positions(rs, w) + [|Next(Current(rs, w), r, w)|]
  {
    WindowsAppend(rs, r, w);
  }

  lemma SameExactlyAppend(rs: seq<Report>, r: Report, w: int, v: int)
    requires w <= v
    requires SameExactly(rs, w, v)
    ensures SameExactly(rs + [r], w, v)
  {
    SlackAppend(rs, r, w, v);
    CurrentAppend(rs, r, w);
    CurrentAppend(rs, r, v);
    NextCounts(Positions(rs, w), Positions(rs, v), Current(rs, w), Current(rs, v), r, w, v, SlackFree(rs, w, v));
  }

  /** Longer windows give the same counts if and only if no report falls into that slack. */
  lemma {:induction false} SameCountsExactly(rs: seq<Report>, w: int, v: int)
    requires w <= v
    ensures |Positions(rs, w)| == |Positions(rs, v)|
    ensures Positions(rs, w) == Positions(rs, v) <==> SlackFree(rs, w, v)
    ensures SlackFree(rs, w, v) ==> Current(rs, w) == Current(rs, v)
  {
    if rs != [] {
      var n := |rs| - 1;
      SameCountsExactly(rs[..n], w, v);
      SameExactlyAppend(rs[..n], rs[n], w, v);
      assert rs == rs[..n] + [rs[n]];
    }
  }

  lemma NextExactly(win: seq<Report>, r: Report, w: int, v: int)
    requires w <= v
    ensures InSlack(win, r, w, v) ==> |Next(win, r, w)| != |Next(win, r, v)|
    ensures !InSlack(win, r, w, v) ==> Next(win, r, w) == Next(win, r, v)
  {
  }

  lemma AppendedEqual(a: seq<nat>, b: seq<nat>, x: nat, y: nat)
    requires |a| == |b|
    ensures a + [x] == b + [y] <==> a == b && x == y
  {
    if a + [x] == b + [y] {
      assert (a + [x])[..|a|] == a && (b + [y])[..|a|] == b;
      assert (a + [x])[|a|] == x && (b + [y])[|a|] == y;
    }
  }

  // ----- Windows is the only greedy cutting -----

  function Flatten(ws: seq<seq<Report>>): seq<Report> {
    if ws == [] then [] else ws[0] + Flatten(ws[1..])
  }

  ghost predicate InWindow(win: seq<Report>, w: int) {
    win != [] && forall i :: 1 <= i < |win| ==> win[i].time < win[0].time + w
  }

  /** Every report fits the window it is in and would not have fitted the one before. */
  ghost predicate GreedyCut(ws: seq<seq<Report>>, w: int) {
    ws == [] ||
    (&& InWindow(ws[0], w)
     && GreedyCut(ws[1..], w)
     && (|ws| > 1 ==> ws[1] != [] && ws[1][0].time >= ws[0][0].time + w))
  }

  lemma {:induction false} GreedyNonEmpty(ws: seq<seq<Report>>, w: int)
    requires GreedyCut(ws, w)
    ensures AllNonEmpty(ws)
  {
    if ws != [] {
      GreedyNonEmpty(ws[1..], w);
      assert forall i :: 0 < i < |ws| ==> ws[i] == ws[1..][i - 1];
    }
  }

  lemma {:induction false} FollowersExact(rs: seq<Report>, end: int, n: nat)
    requires n <= |rs|
    requires forall i :: 0 <= i < n ==> rs[i].time < end
    requires n < |rs| ==> rs[n].time >= end
    ensures Followers(rs, end) == n
  {
    if n > 0 {
      FollowersExact(rs[1..], end, n - 1);
    }
  }

  lemma {:induction false} FollowersBound(rs: seq<Report>, end: int)
    ensures var n := Followers(rs, end);
      (forall i :: 0 <= i < n ==> rs[i].time < end) && (n < |rs| ==> rs[n].time >= end)
  {
    if rs != [] && rs[0].time < end {
      FollowersBound(rs[1..], end);
      var n := Followers(rs, end);
      assert forall i :: 0 < i < |rs| ==> rs[i] == rs[1..][i - 1];
    }
  }

  lemma {:induction false} FlattenHead(ws: seq<seq<Report>>)
    requires ws != [] && AllNonEmpty(ws)
    ensures |Flatten(ws)| >= |ws[0]| && Flatten(ws)[..|ws[0]|] == ws[0]
    ensures Flatten(ws)[|ws[0]|..] == Flatten(ws[1..])
  {
  }

  /** The first window holds exactly the reports before its end. */
  lemma FirstWindowFits(rs: seq<Report>, w: int)
    requires rs != []
    ensures var n := WindowLength(rs, w);
      InWindow(rs[..n], w) && (n < |rs| ==> rs[n].time >= rs[0].time + w)
  {
    var n := WindowLength(rs, w);
    var first := rs[..n];
    FollowersBound(rs[1..], rs[0].time + w);
    assert forall i :: 1 <= i < n ==> first[i] == rs[1..][i - 1];
    assert n < |rs| ==> rs[n] == rs[1..][n - 1];
  }

  lemma {:induction false} WindowsAreGreedy(rs: seq<Report>, w: int)
    ensures Flatten(Windows(rs, w)) == rs && GreedyCut(Windows(rs, w), w)
    decreases |rs|
  {
    if rs != [] {
      var n := WindowLength(rs, w);
      FirstWindowFits(rs, w);
      WindowsAreGreedy(rs[n..], w);
      OpensWith(rs[n..], w);
      assert rs[..n] + rs[n..] == rs;
      GreedyCons(rs[..n], Windows(rs[n..], w), w);
    }
  }

  /** The first window starts with the first report. */
  lemma OpensWith(rs: seq<Report>, w: int)
    ensures var ws := Windows(rs, w);
      if rs == [] then ws == [] else ws != [] && ws[0] != [] && ws[0][0] == rs[0]
  {
  }

  lemma GreedyCons(first: seq<Report>, tail: seq<seq<Report>>, w: int)
    requires InWindow(first, w) && GreedyCut(tail, w)
    requires tail != [] ==> tail[0] != [] && tail[0][0].time >= first[0].time + w
    ensures GreedyCut([first] + tail, w) && Flatten([first] + tail) == first + Flatten(tail)
  {
    assert ([first] + tail)[1..] == tail;
  }

  /** A cutting of the reports is greedy exactly when it is Windows. */
  lemma {:induction false} WindowsUnique(ws: seq<seq<Report>>, rs: seq<Report>, w: int)
    ensures Flatten(ws) == rs && GreedyCut(ws, w) <==> ws == Windows(rs, w)
    decreases |ws|
  {
    WindowsAreGreedy(rs, w);
    if Flatten(ws) == rs && GreedyCut(ws, w) && ws != [] {
      GreedyNonEmpty(ws, w);
      FlattenHead(ws);
      var n := |ws[0]|;
      FirstWindowForced(ws, rs, w);
      WindowsUnique(ws[1..], rs[n..], w);
      assert ws == [ws[0]] + ws[1..];
    }
  }

  lemma FirstWindowForced(ws: seq<seq<Report>>, rs: seq<Report>, w: int)
    requires ws != [] && AllNonEmpty(ws) && GreedyCut(ws, w) && Flatten(ws) == rs
    ensures |rs| >= |ws[0]| && WindowLength(rs, w) == |ws[0]|
  {
    FlattenHead(ws);
    var n := |ws[0]|;
    assert forall i :: 0 <= i < n ==> rs[i] == ws[0][i];
    assert forall i :: 0 <= i < |rs| - 1 ==> rs[1..][i] == rs[i + 1];
    if n < |rs| {
      FlattenHead(ws[1..]);
      assert rs[n] == rs[n..][0] == ws[1][0];
    }
    FollowersExact(rs[1..], rs[0].time + w, n - 1);
  }

  // ----- triggers -----

  /** How many of the counts hit the target. */
  function Hits(counts: seq<nat>, target: int): nat {
    if counts == [] then 0
    else Hits(counts[..|counts| - 1], target) + if counts[|counts| - 1] == target then 1 else 0
  }

  /** How many of the windows are large enough. */
  function Reaching(ws: seq<seq<Report>>, target: int): nat {
    if ws == [] then 0 else (if |ws[0]| >= target then 1 else 0) + Reaching(ws[1..], target)
  }

  lemma {:induction false} HitsConcat(a: seq<nat>, b: seq<nat>, target: int)
    ensures Hits(a + b, target) == Hits(a, target) + Hits(b, target)
  {
    if b == [] {
      assert a + b == a;
    } else {
      assert (a + b)[..|a + b| - 1] == a + b[..|b| - 1];
      HitsConcat(a, b[..|b| - 1], target);
    }
  }

  lemma {:induction false} HitsInRanks(n: nat, target: int)
    ensures Hits(Ranks(n), target) == if 1 <= target <= n then 1 else 0
  {
    if n > 0 {
      assert Ranks(n)[..n - 1] == Ranks(n - 1);
      HitsInRanks(n - 1, target);
    }
  }

  /** Each window that reaches the target triggers once; a target below one never does. */
  lemma {:induction false} TriggersAreWindowsReached(rs: seq<Report>, w: int, target: int)
    ensures Hits(Positions(rs, w), target) ==
            if target >= 1 then Reaching(Windows(rs, w), target) else 0
    decreases |rs|
  {
    if rs != [] {
      var n := WindowLength(rs, w);
      TriggersAreWindowsReached(rs[n..], w, target);
      HitsConcat(Ranks(n), Positions(rs[n..], w), target);
      HitsInRanks(n, target);
      assert Windows(rs, w)[1..] == Windows(rs[n..], w);
    }
  }

  // ----- openers -----

  /** Report i is the first of a window. */
  predicate Opens(rs: seq<Report>, w: int, i: nat) {
    exists j | 0 <= j < |Windows(rs, w)| :: |Flatten(Windows(rs, w)[..j])| == i
  }

  lemma OpensLater(rs: seq<Report>, w: int, i: nat)
    requires rs != []
    ensures var n := WindowLength(rs, w);
      if i < n then Opens(rs, w, i) <==> i == 0 else Opens(rs, w, i) <==> Opens(rs[n..], w, i - n)
  {
    var n, ws := WindowLength(rs, w), Windows(rs, w);
    var later := Windows(rs[n..], w);
    assert ws == [rs[..n]] + later && Flatten(ws[..0]) == [];
    forall j | 0 < j < |ws| ensures |Flatten(ws[..j])| == n + |Flatten(later[..j - 1])| {
      assert ws[..j] == [rs[..n]] + later[..j - 1];
    }
    if i >= n && Opens(rs[n..], w, i - n) {
      var j :| 0 <= j < |later| && |Flatten(later[..j])| == i - n;
      assert |Flatten(ws[..j + 1])| == i;
    }
  }

  /** The count is 1 exactly for the report that opens its window. */
  lemma {:induction false} OpenersCountOne(rs: seq<Report>, w: int)
    ensures |Positions(rs, w)| == |rs|
    ensures forall i | 0 <= i < |rs| :: Positions(rs, w)[i] == 1 <==> Opens(rs, w, i)
    decreases |rs|
  {
    if rs != [] {
      var n := WindowLength(rs, w);
      OpenersCountOne(rs[n..], w);
      forall i | 0 <= i < |rs| ensures Positions(rs, w)[i] == 1 <==> Opens(rs, w, i) {
        OpensLater(rs, w, i);
        assert Positions(rs, w)[i] == if i < n then i + 1 else Positions(rs[n..], w)[i - n];
      }
    }
  }

  lemma {:induction false} AllReachOne(ws: seq<seq<Report>>)
    requires AllNonEmpty(ws)
    ensures Reaching(ws, 1) == |ws|
  {
    if ws != [] {
      AllReachOne(ws[1..]);
    }
  }

  // ----- distinct reporters -----

  function Reporters(rs: seq<Report>): set<string> { set r <- rs :: r.reporter }

  function By(rs: seq<Report>, name: string): nat {
    if rs == [] then 0 else (if rs[0].reporter == name then 1 else 0) + By(rs[1..], name)
  }

  function NotBy(rs: seq<Report>, name: string): seq<Report> {
    if rs == [] then []
    else if rs[0].reporter == name then NotBy(rs[1..], name)
    else [rs[0]] + NotBy(rs[1..], name)
  }

  lemma ReportersCons(r: Report, rs: seq<Report>)
    ensures Reporters([r] + rs) == {r.reporter} + Reporters(rs)
    ensures ([r] + rs)[1..] == rs
  {
    assert forall x :: x in [r] + rs <==> x == r || x in rs;
  }

  lemma {:induction false} WithoutOne(rs: seq<Report>, name: string, other: string)
    ensures |rs| == By(rs, name) + |NotBy(rs, name)|
    ensures By(NotBy(rs, name), other) == if other == name then 0 else By(rs, other)
    ensures Reporters(NotBy(rs, name)) == Reporters(rs) - {name}
  {
    if rs != [] {
      WithoutOne(rs[1..], name, other);
      assert rs == [rs[0]] + rs[1..];
      ReportersCons(rs[0], rs[1..]);
      ReportersCons(rs[0], NotBy(rs[1..], name));
    }
  }

  lemma {:induction false} ReportersBound(rs: seq<Report>, perReporter: nat)
    requires forall name :: By(rs, name) <= perReporter
    ensures |rs| <= perReporter * |Reporters(rs)|
    decreases |rs|
  {
    if rs != [] {
      var name := rs[0].reporter;
      var rest := NotBy(rs, name);
      WithoutOne(rs, name, name);
      forall other ensures By(rest, other) <= perReporter {
        WithoutOne(rs, name, other);
      }
      ReportersBound(rest, perReporter);
      assert rs[0] in rs && name in Reporters(rs);
      var d := |Reporters(rest)|;
      assert |Reporters(rs)| == d + 1;
      assert perReporter * (d + 1) == perReporter * d + perReporter;
    }
  }

  lemma {:induction false} ReportersAtMost(rs: seq<Report>)
    ensures |Reporters(rs)| <= |rs|
  {
    if rs != [] {
      ReportersAtMost(rs[1..]);
      assert rs == [rs[0]] + rs[1..];
      ReportersCons(rs[0], rs[1..]);
    }
  }

  /** A sentinel that reports twice leaves fewer sentinels than reports. */
  lemma RepeatedReporter(rs: seq<Report>, name: string)
    requires By(rs, name) >= 2
    ensures |Reporters(rs)| < |rs|
  {
    var rest := NotBy(rs, name);
    WithoutOne(rs, name, name);
    ReportersAtMost(rest);
    assert Reporters(rs) <= Reporters(rest) + {name};
    SubsetSize(Reporters(rs), Reporters(rest) + {name});
  }

  lemma {:induction false} SubsetSize(a: set<string>, b: set<string>)
    requires a <= b
    ensures |a| <= |b|
  {
    if a != {} {
      var x :| x in a;
      SubsetSize(a - {x}, b - {x});
    }
  }

  /** The reports of a window are as many as its sentinels exactly when no sentinel is in it
      twice. */
  lemma ReportsAreReportersExactly(rs: seq<Report>)
    ensures |Reporters(rs)| == |rs| <==> forall name :: By(rs, name) <= 1
  {
    ReportersAtMost(rs);
    if forall name :: By(rs, name) <= 1 {
      ReportersBound(rs, 1);
    } else {
      var name :| By(rs, name) > 1;
      RepeatedReporter(rs, name);
    }
  }

  lemma {:induction false} ByPrefix(rs: seq<Report>, q: nat, name: string)
    requires q <= |rs|
    ensures By(rs[..q], name) <= By(rs, name)
  {
    if q > 0 {
      assert rs[..q][1..] == rs[1..][..q - 1];
      ByPrefix(rs[1..], q - 1, name);
    }
  }

  /** A quorum of q reports, at most perReporter of them from any one sentinel in the
      window, comes from at least q / perReporter sentinels, rounded up. */
  lemma QuorumNeedsReporters(win: seq<Report>, q: nat, perReporter: nat)
    requires q <= |win| && perReporter >= 1
    requires forall name :: By(win, name) <= perReporter
    ensures |Reporters(win[..q])| >= Ceiling(q, perReporter)
  {
    forall name ensures By(win[..q], name) <= perReporter {
      ByPrefix(win, q, name);
    }
    ReportersBound(win[..q], perReporter);
    CeilingBound(q, perReporter, |Reporters(win[..q])|);
  }

  /** q / r, rounded up. */
  function Ceiling(q: nat, r: nat): (c: nat)
    requires r >= 1
    ensures r * c >= q && (c > 0 ==> r * (c - 1) < q)
  {
    (q + r - 1) / r
  }

  lemma CeilingBound(q: nat, r: nat, d: nat)
    requires r >= 1 && q <= r * d
    ensures d >= Ceiling(q, r)
  {
    var c := Ceiling(q, r);
    assert r * c <= q + r - 1;
    if c > d {
      MulMonotone(r, d + 1, c);
      assert false;
    }
  }

  lemma MulMonotone(r: nat, x: nat, y: nat)
    requires x <= y
    ensures r * x <= r * y
  {
  }
}
