/** internal/core/health_checker.go, the fan-out of tick: one goroutine dispatches a
    worker per listed sentinel through a semaphore of 10 and then collects one result per
    sentinel from a channel buffered for all of them. Every interleaving of the
    dispatcher and the workers is a run of this machine; a ping returns when it likes. */
module PingFanout {

  const MAX_CONCURRENT: nat := 10

  datatype Worker = NotStarted | Pinging | Sending | Sent | Gone

  /** Worker i is the one for the i-th listed sentinel, and i stands for its result. */
  datatype State = State(
    workers: seq<Worker>,
    dispatched: nat,
    semaphore: nat,
    channel: seq<nat>,
    collected: seq<nat>)

  function Start(n: nat): State { State(seq(n, _ => NotStarted), 0, 0, [], []) }

  datatype Step =
    | Dispatch
    | PingReturns(i: nat)
    | Send(i: nat)
    | Leave(i: nat)
    | Collect

  predicate At(s: State, i: nat, w: Worker) { i < |s.workers| && s.workers[i] == w }

  /** Dispatch blocks on a full semaphore, a send on a full buffer, a receive on an empty
      one. */
  predicate Enabled(s: State, step: Step) {
    match step
    case Dispatch => At(s, s.dispatched, NotStarted) && s.semaphore < MAX_CONCURRENT
    case PingReturns(i) => At(s, i, Pinging)
    case Send(i) => At(s, i, Sending) && |s.channel| < |s.workers|
    case Leave(i) => At(s, i, Sent) && s.semaphore > 0
    case Collect => s.dispatched == |s.workers| && |s.collected| < |s.workers| && s.channel != []
  }

  function Apply(s: State, step: Step): State
    requires Enabled(s, step)
  {
    match step
    case Dispatch =>
      s.(workers := s.workers[s.dispatched := Pinging], dispatched := s.dispatched + 1, semaphore := s.semaphore + 1)
    case PingReturns(i) => s.(workers := s.workers[i := Sending])
    case Send(i) => s.(workers := s.workers[i := Sent], channel := s.channel + [i])
    case Leave(i) => s.(workers := s.workers[i := Gone], semaphore := s.semaphore - 1)
    case Collect => s.(channel := s.channel[1..], collected := s.collected + [s.channel[0]])
  }

  ghost predicate Run(n: nat, states: seq<State>, steps: seq<Step>) {
    && |states| == |steps| + 1 && states[0] == Start(n)
    && forall i {:trigger steps[i]} :: 0 <= i < |steps| ==>
         Enabled(states[i], steps[i]) && states[i + 1] == Apply(states[i], steps[i])
  }

  predicate Finished(s: State) { |s.collected| == |s.workers| }

  // ----- invariants -----

  predicate Holds(w: Worker) { w.Pinging? || w.Sending? || w.Sent? }
  predicate HasSent(w: Worker) { w.Sent? || w.Gone? }

  function Holders(ws: seq<Worker>): nat {
    if ws == [] then 0 else (if Holds(ws[0]) then 1 else 0) + Holders(ws[1..])
  }

  function Senders(ws: seq<Worker>): nat {
    if ws == [] then 0 else (if HasSent(ws[0]) then 1 else 0) + Senders(ws[1..])
  }

  /** Steps left: each worker still has up to four, and each result one. */
  function Rank(w: Worker): nat {
    match w
    case NotStarted => 4
    case Pinging => 3
    case Sending => 2
    case Sent => 1
    case Gone => 0
  }

  function Ranks(ws: seq<Worker>): nat { if ws == [] then 0 else Rank(ws[0]) + Ranks(ws[1..]) }

  function Measure(s: State): int { Ranks(s.workers) + |s.workers| - |s.collected| }

  lemma {:induction false} UpdateCounts(ws: seq<Worker>, i: nat, w: Worker)
    requires i < |ws|
    ensures Holders(ws[i := w]) == Holders(ws) - (if Holds(ws[i]) then 1 else 0) + if Holds(w) then 1 else 0
    ensures Senders(ws[i := w]) == Senders(ws) - (if HasSent(ws[i]) then 1 else 0) + if HasSent(w) then 1 else 0
    ensures Ranks(ws[i := w]) == Ranks(ws) - Rank(ws[i]) + Rank(w)
  {
    if i == 0 {
      assert ws[i := w][1..] == ws[1..];
    } else {
      assert ws[i := w][1..] == ws[1..][i - 1 := w];
      UpdateCounts(ws[1..], i - 1, w);
    }
  }

  lemma {:induction false} StartCounts(n: nat)
    ensures Holders(Start(n).workers) == 0 && Senders(Start(n).workers) == 0
  {
    if n > 0 {
      assert Start(n).workers[1..] == Start(n - 1).workers;
      StartCounts(n - 1);
    }
  }

  ghost predicate Inv(s: State) {
    var results := s.collected + s.channel;
    && s.dispatched <= |s.workers|
    && (forall i | 0 <= i < |s.workers| :: s.workers[i].NotStarted? <==> i >= s.dispatched)
    && s.semaphore == Holders(s.workers) <= MAX_CONCURRENT
    && |results| == Senders(s.workers)
    && (forall i: nat :: i in results <==> i < |s.workers| && HasSent(s.workers[i]))
    && (forall i, j | 0 <= i < j < |results| :: results[i] != results[j])
  }

  lemma WorkerStep(s: State, step: Step)
    requires Inv(s) && Enabled(s, step) && (step.Dispatch? || step.PingReturns? || step.Leave?)
    ensures Inv(Apply(s, step))
  {
    match step
    case Dispatch => UpdateCounts(s.workers, s.dispatched, Pinging);
    case PingReturns(i) => UpdateCounts(s.workers, i, Sending);
    case Leave(i) => UpdateCounts(s.workers, i, Gone);
  }

  lemma SendStep(s: State, i: nat)
    requires Inv(s) && Enabled(s, Send(i))
    ensures Inv(Apply(s, Send(i)))
  {
    var s' := Apply(s, Send(i));
    UpdateCounts(s.workers, i, Sent);
    assert s'.collected + s'.channel == (s.collected + s.channel) + [i];
    assert i !in s.collected + s.channel;
  }

  lemma CollectStep(s: State)
    requires Inv(s) && Enabled(s, Collect)
    ensures Inv(Apply(s, Collect))
  {
    var s' := Apply(s, Collect);
    assert s'.collected + s'.channel == s.collected + s.channel;
  }

  lemma InvStep(s: State, step: Step)
    requires Inv(s) && Enabled(s, step)
    ensures Inv(Apply(s, step))
  {
    if step.Send? {
      SendStep(s, step.i);
    } else if step.Collect? {
      CollectStep(s);
    } else {
      WorkerStep(s, step);
    }
  }

  lemma {:induction false} InvAlways(n: nat, states: seq<State>, steps: seq<Step>, i: nat)
    requires Run(n, states, steps) && i < |states|
    ensures Inv(states[i]) && |states[i].workers| == n
  {
    if i == 0 {
      StartCounts(n);
    } else {
      InvAlways(n, states, steps, i - 1);
      InvStep(states[i - 1], steps[i - 1]);
    }
  }

  // ----- what the protocol promises -----

  /** Everyone in the set has a place of the semaphore. */
  lemma {:induction false} HoldersBound(ws: seq<Worker>, some: set<nat>)
    requires forall i <- some :: i < |ws| && Holds(ws[i])
    ensures |some| <= Holders(ws)
    decreases some
  {
    if some != {} {
      var i :| i in some;
      UpdateCounts(ws, i, Gone);
      HoldersBound(ws[i := Gone], some - {i});
    }
  }

  function Pings(s: State): set<nat> { set i: nat | i < |s.workers| && s.workers[i].Pinging? }

  /** At most 10 pings at a time, and a worker that wants to send never waits. */
  lemma BoundedAndNeverBlocks(n: nat, states: seq<State>, steps: seq<Step>, i: nat)
    requires Run(n, states, steps) && i < |states|
    ensures |Pings(states[i])| <= Holders(states[i].workers) <= 10
    ensures forall w | At(states[i], w, Sending) :: Enabled(states[i], Send(w))
  {
    InvAlways(n, states, steps, i);
    var s := states[i];
    HoldersBound(s.workers, Pings(s));
    forall w | At(s, w, Sending) ensures Enabled(s, Send(w)) {
      SendersBelow(s.workers, w);
    }
  }

  /** The first k sentinels are being pinged. */
  function Dispatched(n: nat, k: nat): State { State(seq(n, i => if i < k then Pinging else NotStarted), k, k, [], []) }

  /** And ten at a time there are in some run, with ten sentinels or more. */
  lemma TenAtOnce(n: nat) returns (states: seq<State>, steps: seq<Step>)
    requires n >= 10
    ensures Run(n, states, steps) && forall i: nat | i < 10 :: i in Pings(states[|steps|])
  {
    states, steps := seq(11, k requires 0 <= k => Dispatched(n, k)), seq(10, _ => Dispatch);
    assert states[0].workers == Start(n).workers;
    forall i | 0 <= i < |steps|
      ensures Enabled(states[i], steps[i]) && states[i + 1] == Apply(states[i], steps[i])
    {
      assert states[i + 1].workers == states[i].workers[i := Pinging];
    }
  }

  lemma {:induction false} SendersBelow(ws: seq<Worker>, i: nat)
    requires i < |ws| && !HasSent(ws[i])
    ensures Senders(ws) < |ws|
  {
    if i == 0 {
      SendersAtMost(ws[1..]);
    } else {
      SendersBelow(ws[1..], i - 1);
    }
  }

  lemma {:induction false} SendersAtMost(ws: seq<Worker>)
    ensures Senders(ws) <= |ws| && (Senders(ws) == |ws| <==> forall i :: 0 <= i < |ws| ==> HasSent(ws[i]))
  {
    if ws != [] {
      SendersAtMost(ws[1..]);
      if forall i :: 0 <= i < |ws| ==> HasSent(ws[i]) {
        assert forall i :: 0 <= i < |ws| - 1 ==> ws[1..][i] == ws[i + 1];
      } else {
        var i :| 0 <= i < |ws| && !HasSent(ws[i]);
        assert i > 0 ==> ws[1..][i - 1] == ws[i];
      }
    }
  }

  /** Until every result is collected some step can be taken. */
  lemma NoDeadlock(n: nat, states: seq<State>, steps: seq<Step>, i: nat)
    requires Run(n, states, steps) && i < |states| && !Finished(states[i])
    ensures exists step :: Enabled(states[i], step)
  {
    InvAlways(n, states, steps, i);
    var s := states[i];
    if w :| 0 <= w < |s.workers| && s.workers[w].Pinging? {
      assert Enabled(s, PingReturns(w));
    } else if w :| 0 <= w < |s.workers| && s.workers[w].Sending? {
      BoundedAndNeverBlocks(n, states, steps, i);
      assert Enabled(s, Send(w));
    } else if w :| 0 <= w < |s.workers| && s.workers[w].Sent? {
      HolderCounted(s.workers, w);
      assert Enabled(s, Leave(w));
    } else if s.dispatched < |s.workers| {
      NoHolders(s.workers);
      assert Enabled(s, Dispatch);
    } else {
      SendersAtMost(s.workers);
      assert Enabled(s, Collect);
    }
  }

  lemma {:induction false} HolderCounted(ws: seq<Worker>, i: nat)
    requires i < |ws| && Holds(ws[i])
    ensures Holders(ws) > 0
  {
    if i > 0 {
      HolderCounted(ws[1..], i - 1);
    }
  }

  lemma {:induction false} NoHolders(ws: seq<Worker>)
    requires forall i | 0 <= i < |ws| :: !Holds(ws[i])
    ensures Holders(ws) == 0
  {
    if ws != [] {
      NoHolders(ws[1..]);
    }
  }

  /** Every step brings the end closer, so no run is longer than five steps a sentinel. */
  lemma {:induction false} Terminates(n: nat, states: seq<State>, steps: seq<Step>, i: nat)
    requires Run(n, states, steps) && i < |states|
    ensures 0 <= Measure(states[i]) <= 5 * n - i
  {
    InvAlways(n, states, steps, i);
    if i == 0 {
      StartRanks(n);
    } else {
      Terminates(n, states, steps, i - 1);
      InvAlways(n, states, steps, i - 1);
      MeasureDrops(states[i - 1], steps[i - 1]);
    }
    SendersAtMost(states[i].workers);
  }

  lemma {:induction false} StartRanks(n: nat)
    ensures Ranks(Start(n).workers) == 4 * n
  {
    if n > 0 {
      assert Start(n).workers[1..] == Start(n - 1).workers;
      StartRanks(n - 1);
    }
  }

  lemma MeasureDrops(s: State, step: Step)
    requires Inv(s) && Enabled(s, step)
    ensures Measure(Apply(s, step)) == Measure(s) - 1
  {
    match step
    case Dispatch => UpdateCounts(s.workers, s.dispatched, Pinging);
    case PingReturns(i) => UpdateCounts(s.workers, i, Sending);
    case Send(i) => UpdateCounts(s.workers, i, Sent);
    case Leave(i) => UpdateCounts(s.workers, i, Gone);
    case Collect =>
  }

  /** When collection ends there is exactly one result for every listed sentinel. */
  lemma OneResultEach(n: nat, states: seq<State>, steps: seq<Step>, i: nat)
    requires Run(n, states, steps) && i < |states| && Finished(states[i])
    ensures forall w: nat :: w in states[i].collected <==> w < n
    ensures forall a, b | 0 <= a < b < |states[i].collected| :: states[i].collected[a] != states[i].collected[b]
  {
    InvAlways(n, states, steps, i);
    var s := states[i];
    SendersAtMost(s.workers);
    assert s.channel == [];
    assert s.collected + s.channel == s.collected;
  }
}
