/** internal/store/valkey.go, clusters, under concurrency: any number of managers save,
    delete and list clusters, and their server commands interleave. One step is one
    command; a call that takes no further step has crashed. No cluster is named like the
    index (ValkeyClusters says what happens then), so values and index are apart. */
module ClusterIndex {
  import opened Cluster
  import opened ClusterTable
  import ValkeyClusters

  /** A cluster that a listing has collected, and under which name. */
  datatype Entry = Entry(name: string, c: Cluster)

  /** Begun: nothing sent. Stored, Found and Removed are the middle of a save or delete.
      Listing holds the ids still to read and what was collected. */
  datatype Stage =
    | Begun | Stored | Found | Removed
    | Listing(rest: seq<string>, out: seq<Entry>)
    | Finished(out: seq<Entry>)

  datatype Call = Call(op: Op, stage: Stage)

  /** The log holds the completed saves and deletes in the order of their last command;
      disturbed are the names with a write in doubt or with two calls under way at once. */
  datatype State = State(
    values: map<string, Cluster>,
    index: set<string>,
    calls: map<nat, Call>,
    log: seq<Op>,
    disturbed: set<string>)

  const START := State(map[], {}, map[], [], {})

  datatype Step =
    | Begin(id: nat, op: Op)
    | Set(id: nat)
    | Sadd(id: nat)
    | SaveFails(id: nat, applied: bool)
    | Get(id: nat)
    | GetFails(id: nat)
    | Del(id: nat, applied: bool)
    | Srem(id: nat, applied: bool)
    | Smembers(id: nat, ids: seq<string>)
    | GetNext(id: nat, answered: bool)
    | Look(id: nat)

  predicate At(s: State, id: nat, stage: Stage) { id in s.calls && s.calls[id].stage == stage }

  /** The names a call reads or writes; a listing writes none. */
  predicate On(op: Op, name: string) {
    match op
    case Save(c) => c.masterName == name
    case Delete(n) => n == name
    case _ => false
  }

  predicate UnderWay(s: State, id: nat, name: string) {
    id in s.calls && On(s.calls[id].op, name) && !s.calls[id].stage.Finished?
  }

  predicate Busy(s: State, name: string) { exists id <- s.calls :: UnderWay(s, id, name) }

  predicate Enabled(s: State, step: Step) {
    match step
    case Begin(id, op) => id !in s.calls && (Changes(op) ==> Name(op) != ValkeyClusters.INDEX)
    case Set(id) => At(s, id, Begun) && s.calls[id].op.Save?
    case Sadd(id) => At(s, id, Stored)
    case SaveFails(id, _) => (At(s, id, Begun) && s.calls[id].op.Save?) || At(s, id, Stored)
    case Get(id) => At(s, id, Begun) && s.calls[id].op.Delete?
    case GetFails(id) => At(s, id, Begun) && s.calls[id].op.Delete?
    case Del(id, _) => At(s, id, Found)
    case Srem(id, _) => At(s, id, Removed)
    case Smembers(id, ids) => At(s, id, Begun) && s.calls[id].op.List? && (set n | n in ids) == s.index
    case GetNext(id, _) => id in s.calls && s.calls[id].stage.Listing? && s.calls[id].stage.rest != []
    case Look(id) => At(s, id, Begun) && s.calls[id].op.Get?
  }

  predicate Changes(op: Op) { op.Save? || op.Delete? }

  function Name(op: Op): string
    requires Changes(op)
  {
    match op case Save(c) => c.masterName case Delete(n) => n
  }

  function Moved(s: State, id: nat, stage: Stage): map<nat, Call>
    requires id in s.calls
  {
    s.calls[id := s.calls[id].(stage := stage)]
  }

  /** Every stage but Begun belongs to one kind of call. */
  predicate Typed(s: State) {
    forall id <- s.calls ::
      var call := s.calls[id];
      && (call.stage.Stored? ==> call.op.Save?)
      && (call.stage.Found? || call.stage.Removed? ==> call.op.Delete?)
      && (call.stage.Listing? ==> call.op.List?)
  }

  function Apply(s: State, step: Step): State
    requires Typed(s) && Enabled(s, step)
  {
    match step
    case Begin(id, op) =>
      s.(calls := s.calls[id := Call(op, Begun)],
         disturbed := s.disturbed + if Changes(op) && Busy(s, Name(op)) then {Name(op)} else {})
    case Set(id) =>
      var c := s.calls[id].op.c;
      s.(values := s.values[c.masterName := c], calls := Moved(s, id, Stored))
    case Sadd(id) =>
      var op := s.calls[id].op;
      s.(index := s.index + {op.c.masterName}, calls := Moved(s, id, Finished([])), log := s.log + [op])
    case SaveFails(id, applied) =>
      var c := s.calls[id].op.c;
      s.(values := if applied && s.calls[id].stage.Begun? then s.values[c.masterName := c] else s.values,
         index := if applied && s.calls[id].stage.Stored? then s.index + {c.masterName} else s.index,
         calls := Moved(s, id, Finished([])),
         disturbed := if s.calls[id].stage.Begun? && !applied then s.disturbed else s.disturbed + {c.masterName})
    case Get(id) =>
      var op := s.calls[id].op;
      if op.name in s.values then s.(calls := Moved(s, id, Found))
      else s.(calls := Moved(s, id, Finished([])), log := s.log + [op])
    case GetFails(id) =>
      // reported to the caller as "no such cluster"
      s.(calls := Moved(s, id, Finished([])))
    case Del(id, applied) =>
      var name := s.calls[id].op.name;
      s.(values := if applied then s.values - {name} else s.values, calls := Moved(s, id, Removed),
         disturbed := if applied then s.disturbed else s.disturbed + {name})
    case Srem(id, applied) =>
      var op := s.calls[id].op;
      s.(index := if applied then s.index - {op.name} else s.index, calls := Moved(s, id, Finished([])),
         log := s.log + [op], disturbed := if applied then s.disturbed else s.disturbed + {op.name})
    case Smembers(id, ids) => s.(calls := Moved(s, id, if ids == [] then Finished([]) else Listing(ids, [])))
    case GetNext(id, answered) =>
      var Listing(rest, out) := s.calls[id].stage;
      var found := if answered && rest[0] in s.values then [Entry(rest[0], s.values[rest[0]])] else [];
      if |rest| == 1 then s.(calls := Moved(s, id, Finished(out + found)))
      else s.(calls := Moved(s, id, Listing(rest[1..], out + found)))
    case Look(id) =>
      var name := s.calls[id].op.name;
      var found := if name in s.values then [Entry(name, s.values[name])] else [];
      s.(calls := Moved(s, id, Finished(found)))
  }

  ghost predicate Run(states: seq<State>, steps: seq<Step>) {
    && |states| == |steps| + 1 && states[0] == START
    && forall i {:trigger steps[i]} :: 0 <= i < |steps| ==>
         Typed(states[i]) && Enabled(states[i], steps[i]) && states[i + 1] == Apply(states[i], steps[i])
  }

  // ----- listings -----

  function Collected(stage: Stage): seq<Entry> {
    match stage case Listing(_, out) => out case Finished(out) => out case _ => []
  }

  /** At state i the entry was the stored value of its key. */
  predicate StoredAt(states: seq<State>, e: Entry, i: nat) {
    i < |states| && e.name in states[i].values && states[i].values[e.name] == e.c
  }

  /** The call is reading: a listing between its commands, or a lookup. */
  predicate ReadingAt(states: seq<State>, id: nat, i: nat) {
    && i < |states| && id in states[i].calls
    && (states[i].calls[id].stage.Listing? || (states[i].calls[id].stage.Begun? && states[i].calls[id].op.Get?))
  }

  lemma NewEntry(s: State, step: Step, id: nat, e: Entry)
    requires Typed(s) && Enabled(s, step) && id in Apply(s, step).calls
    requires e in Collected(Apply(s, step).calls[id].stage)
    requires id in s.calls ==> e !in Collected(s.calls[id].stage)
    ensures (step.GetNext? || step.Look?) && step.id == id && e.name in s.values && s.values[e.name] == e.c
  {
    if step.GetNext? && step.id == id {
      var Listing(rest, out) := s.calls[id].stage;
      var found := if step.answered && rest[0] in s.values then [Entry(rest[0], s.values[rest[0]])] else [];
      assert Collected(Apply(s, step).calls[id].stage) == out + found;
    }
  }

  /** Whatever interleaves with it, a listing or a lookup finds only clusters that were the
      value of their key while it was reading. */
  lemma {:induction false} ListedWasStored(states: seq<State>, steps: seq<Step>, n: nat, id: nat, e: Entry)
    requires Run(states, steps) && n < |states|
    requires id in states[n].calls && e in Collected(states[n].calls[id].stage)
    ensures exists i :: 0 <= i < n && ReadingAt(states, id, i) && StoredAt(states, e, i)
  {
    assert n > 0;
    var s := states[n - 1];
    var step := steps[n - 1];
    assert states[n] == Apply(s, step);
    if id in s.calls && e in Collected(s.calls[id].stage) {
      ListedWasStored(states, steps, n - 1, id, e);
    } else {
      NewEntry(s, step, id, e);
      assert ReadingAt(states, id, n - 1) && StoredAt(states, e, n - 1);
    }
  }

  predicate Lists(stage: Stage, name: string) { exists e <- Collected(stage) :: e.name == name }

  /** The name is listed or still to be read. */
  predicate Pending(stage: Stage, name: string) {
    (stage.Listing? && name in stage.rest) || ((stage.Listing? || stage.Finished?) && Lists(stage, name))
  }

  /** The listing asked for the name at step j and got nothing. */
  predicate Missed(states: seq<State>, steps: seq<Step>, id: nat, name: string, j: nat) {
    && j < |steps| && j < |states| && steps[j].GetNext? && steps[j].id == id
    && (!steps[j].answered || name !in states[j].values)
  }

  lemma PendingStep(s: State, step: Step, id: nat, name: string)
    requires Typed(s) && Enabled(s, step) && id in s.calls && Pending(s.calls[id].stage, name)
    requires step.GetNext? && step.id == id ==> step.answered && name in s.values
    ensures id in Apply(s, step).calls && Pending(Apply(s, step).calls[id].stage, name)
  {
    if step.GetNext? && step.id == id {
      var Listing(rest, out) := s.calls[id].stage;
      var found := if rest[0] in s.values then [Entry(rest[0], s.values[rest[0]])] else [];
      assert Collected(Apply(s, step).calls[id].stage) == out + found;
      assert rest == [rest[0]] + rest[1..];
      if Lists(s.calls[id].stage, name) {
        var e :| e in out && e.name == name;
        assert e in out + found;
      } else if rest[0] == name {
        assert found[0] in out + found;
      }
    }
  }

  lemma PendingFromStart(s: State, id: nat, ids: seq<string>, name: string)
    requires Typed(s) && Enabled(s, Smembers(id, ids)) && name in s.index
    ensures id in Apply(s, Smembers(id, ids)).calls
    ensures Pending(Apply(s, Smembers(id, ids)).calls[id].stage, name)
  {
    assert name in (set n | n in ids);
  }

  /** A listing overlooks nothing: a name that was in the index when it began is listed when
      it ends, unless its value was gone, or its answer lost, at one of the listing's GETs. */
  lemma {:induction false} ListedUnlessMissed(
    states: seq<State>, steps: seq<Step>, m: nat, n: nat, id: nat, name: string)
    requires Run(states, steps) && m < n < |states| && steps[m].Smembers? && steps[m].id == id
    requires name in states[m].index && forall j | m < j < n :: !Missed(states, steps, id, name, j)
    ensures id in states[n].calls && Pending(states[n].calls[id].stage, name)
    ensures states[n].calls[id].stage.Finished? ==> Lists(states[n].calls[id].stage, name)
  {
    if n == m + 1 {
      PendingFromStart(states[m], id, steps[m].ids, name);
    } else {
      ListedUnlessMissed(states, steps, m, n - 1, id, name);
      assert !Missed(states, steps, id, name, n - 1);
      PendingStep(states[n - 1], steps[n - 1], id, name);
    }
  }

  lemma NewValue(s: State, step: Step, name: string)
    requires Typed(s) && Enabled(s, step) && name in Apply(s, step).values
    requires name in s.values ==> s.values[name] != Apply(s, step).values[name]
    ensures (step.Set? || step.SaveFails?) && step.id in s.calls
    ensures s.calls[step.id].op == Save(Apply(s, step).values[name]) && Apply(s, step).values[name].masterName == name
  {
  }

  /** And every stored value was given to a save. */
  lemma {:induction false} StoredWasSaved(states: seq<State>, steps: seq<Step>, n: nat, name: string)
    requires Run(states, steps) && n < |states| && name in states[n].values
    ensures states[n].values[name].masterName == name
    ensures exists i, id ::
              0 <= i < n && id in states[i].calls && states[i].calls[id].op == Save(states[n].values[name])
  {
    assert n > 0;
    var s := states[n - 1];
    var step := steps[n - 1];
    assert states[n] == Apply(s, step);
    if name in s.values && s.values[name] == states[n].values[name] {
      StoredWasSaved(states, steps, n - 1, name);
    } else {
      NewValue(s, step, name);
      assert states[n - 1].calls[step.id].op == Save(states[n].values[name]);
    }
  }

  // ----- key and index -----

  predicate SameAt(a: map<string, Cluster>, b: map<string, Cluster>, name: string) {
    (name in a <==> name in b) && (name in a ==> a[name] == b[name])
  }

  /** Of an undisturbed name: at most one call is under way, and the key and the index are
      those of the table but for the commands that call has already sent. */
  ghost predicate Agrees(s: State, name: string) {
    var table := Table(s.log);
    && (forall i, j | UnderWay(s, i, name) && UnderWay(s, j, name) :: i == j)
    && (name in s.index <==> name in table)
    && (forall id | UnderWay(s, id, name) :: AgreesDuring(s.values, table, name, s.calls[id]))
    && (!Busy(s, name) ==> SameAt(s.values, table, name))
  }

  predicate AgreesDuring(values: map<string, Cluster>, table: map<string, Cluster>, name: string, call: Call) {
    match call.stage
    case Begun => SameAt(values, table, name)
    case Stored => call.op.Save? && name in values && values[name] == call.op.c
    case Found => SameAt(values, table, name) && name in values
    case Removed => name !in values
    case _ => false
  }

  ghost predicate Inv(s: State) {
    Typed(s) && forall name | name !in s.disturbed :: Agrees(s, name)
  }

  lemma TypedStep(s: State, step: Step)
    requires Typed(s) && Enabled(s, step)
    ensures Typed(Apply(s, step))
  {
  }

  lemma TableAppend(log: seq<Op>, op: Op)
    ensures Table(log + [op]) == After(Table(log), op)
  {
    assert (log + [op])[..|log|] == log;
  }

  /** A step of a call on another name, or of a listing. */
  predicate Elsewhere(s: State, step: Step, name: string) {
    if step.Begin? then !On(step.op, name) else step.id in s.calls && !On(s.calls[step.id].op, name)
  }

  lemma OtherData(s: State, step: Step, name: string)
    requires Typed(s) && Enabled(s, step) && Elsewhere(s, step, name)
    ensures var s' := Apply(s, step);
      && SameAt(s'.values, s.values, name) && SameAt(Table(s'.log), Table(s.log), name)
      && (name in s'.index <==> name in s.index)
  {
    if step.Sadd? || step.Srem? || step.Get? {
      TableAppend(s.log, s.calls[step.id].op);
    }
  }

  lemma OtherCalls(s: State, step: Step, name: string)
    requires Typed(s) && Enabled(s, step) && Elsewhere(s, step, name)
    ensures forall i :: UnderWay(Apply(s, step), i, name) <==> UnderWay(s, i, name)
    ensures forall i | UnderWay(s, i, name) :: Apply(s, step).calls[i] == s.calls[i]
  {
  }

  lemma SameCallsAgree(s: State, s': State, name: string)
    requires Agrees(s, name)
    requires SameAt(s'.values, s.values, name) && SameAt(Table(s'.log), Table(s.log), name)
    requires name in s'.index <==> name in s.index
    requires forall i :: UnderWay(s', i, name) <==> UnderWay(s, i, name)
    requires forall i | UnderWay(s, i, name) :: i in s'.calls && s'.calls[i] == s.calls[i]
    ensures Agrees(s', name)
  {
    if i :| i in s.calls && UnderWay(s, i, name) {
      assert UnderWay(s', i, name);
    }
    forall id | UnderWay(s', id, name)
      ensures AgreesDuring(s'.values, Table(s'.log), name, s'.calls[id])
    {
      assert UnderWay(s, id, name);
    }
  }

  lemma OtherStep(s: State, step: Step, name: string)
    requires Typed(s) && Enabled(s, step) && Elsewhere(s, step, name) && Agrees(s, name)
    ensures Agrees(Apply(s, step), name)
  {
    OtherData(s, step, name);
    OtherCalls(s, step, name);
    SameCallsAgree(s, Apply(s, step), name);
  }

  lemma BeginStep(s: State, step: Step, name: string)
    requires Typed(s) && Enabled(s, step) && Agrees(s, name)
    requires step.Begin? && On(step.op, name) && name !in Apply(s, step).disturbed
    ensures Agrees(Apply(s, step), name)
  {
    var s' := Apply(s, step);
    assert !Busy(s, name);
    assert forall i | UnderWay(s', i, name) :: i == step.id || UnderWay(s, i, name);
    assert UnderWay(s', step.id, name);
  }

  /** A step of the one call that is under way on the name. */
  predicate Own(s: State, step: Step, name: string)
    requires Typed(s) && Enabled(s, step)
  {
    !step.Begin? && step.id in s.calls && On(s.calls[step.id].op, name) && name !in Apply(s, step).disturbed
  }

  lemma OwnSave(s: State, step: Step, name: string)
    requires Typed(s) && Enabled(s, step) && Agrees(s, name) && Own(s, step, name) && s.calls[step.id].op.Save?
    ensures Agrees(Apply(s, step), name)
  {
    if step.Sadd? {
      TableAppend(s.log, s.calls[step.id].op);
    }
    OwnAfter(s, step, Apply(s, step), name);
  }

  lemma OwnGet(s: State, step: Step, name: string)
    requires Typed(s) && Enabled(s, step) && Agrees(s, name) && Own(s, step, name)
    requires step.Get? || step.GetFails?
    ensures Agrees(Apply(s, step), name)
  {
    TableAppend(s.log, s.calls[step.id].op);
    OwnAfter(s, step, Apply(s, step), name);
  }

  lemma OwnRemoval(s: State, step: Step, name: string)
    requires Typed(s) && Enabled(s, step) && Agrees(s, name) && Own(s, step, name)
    requires step.Del? || step.Srem?
    ensures Agrees(Apply(s, step), name)
  {
    TableAppend(s.log, s.calls[step.id].op);
    OwnAfter(s, step, Apply(s, step), name);
  }

  /** Nobody else is under way on the name, before or after. */
  lemma OwnAfter(s: State, step: Step, s': State, name: string)
    requires Typed(s) && Enabled(s, step) && s' == Apply(s, step) && Agrees(s, name) && Own(s, step, name)
    ensures UnderWay(s, step.id, name) && AgreesDuring(s.values, Table(s.log), name, s.calls[step.id])
    ensures forall i :: UnderWay(s', i, name) ==> i == step.id
    ensures step.id in s'.calls && (Busy(s', name) <==> !s'.calls[step.id].stage.Finished?)
  {
    assert UnderWay(s, step.id, name);
    assert forall i :: UnderWay(s', i, name) ==> UnderWay(s, i, name);
    if !s'.calls[step.id].stage.Finished? {
      assert UnderWay(s', step.id, name);
    }
  }

  lemma OwnStep(s: State, step: Step, name: string)
    requires Typed(s) && Enabled(s, step) && Agrees(s, name) && Own(s, step, name)
    ensures Agrees(Apply(s, step), name)
  {
    if s.calls[step.id].op.Save? {
      OwnSave(s, step, name);
    } else if step.Get? || step.GetFails? {
      OwnGet(s, step, name);
    } else {
      OwnRemoval(s, step, name);
    }
  }

  lemma AgreesStep(s: State, step: Step, name: string)
    requires Typed(s) && Enabled(s, step) && name !in Apply(s, step).disturbed && Agrees(s, name)
    ensures Agrees(Apply(s, step), name)
  {
    if step.Begin? {
      if On(step.op, name) {
        BeginStep(s, step, name);
      } else {
        OtherStep(s, step, name);
      }
    } else if On(s.calls[step.id].op, name) {
      OwnStep(s, step, name);
    } else {
      OtherStep(s, step, name);
    }
  }

  lemma {:induction false} InvAlways(states: seq<State>, steps: seq<Step>, n: nat)
    requires Run(states, steps) && n < |states|
    ensures Inv(states[n])
  {
    if n > 0 {
      InvAlways(states, steps, n - 1);
      TypedStep(states[n - 1], steps[n - 1]);
      forall name | name !in states[n].disturbed ensures Agrees(states[n], name) {
        assert name !in states[n - 1].disturbed;
        AgreesStep(states[n - 1], steps[n - 1], name);
      }
    }
  }

  /** While the calls on a name come one after the other, whatever happens to other names:
      between them the key holds what a plain map would and the index lists it exactly
      then. */
  lemma QuietNamesAgree(states: seq<State>, steps: seq<Step>, n: nat, name: string)
    requires Run(states, steps) && n < |states|
    requires name !in states[n].disturbed && !Busy(states[n], name)
    ensures SameAt(states[n].values, Table(states[n].log), name)
    ensures name in states[n].index <==> name in states[n].values
  {
    InvAlways(states, steps, n);
  }

  // ----- overlapping calls on one name -----

  predicate Sets(s: State, step: Step, name: string)
    requires Enabled(s, step)
  {
    || (step.Set? && s.calls[step.id].op.c.masterName == name)
    || (step.SaveFails? && step.applied && s.calls[step.id].stage.Begun? && s.calls[step.id].op.c.masterName == name)
  }

  predicate Dels(s: State, step: Step, name: string)
    requires Typed(s) && Enabled(s, step)
  {
    step.Del? && step.applied && s.calls[step.id].op.name == name
  }

  predicate Adds(s: State, step: Step, name: string)
    requires Typed(s) && Enabled(s, step)
  {
    || (step.Sadd? && s.calls[step.id].op.c.masterName == name)
    || (step.SaveFails? && step.applied && s.calls[step.id].stage.Stored? && s.calls[step.id].op.c.masterName == name)
  }

  predicate Rems(s: State, step: Step, name: string)
    requires Typed(s) && Enabled(s, step)
  {
    step.Srem? && step.applied && s.calls[step.id].op.name == name
  }

  /** Whether the last SET or DEL of the name was a SET, and whether the last SADD or SREM
      was a SADD. */
  ghost predicate LastIsSet(states: seq<State>, steps: seq<Step>, n: nat, name: string)
    requires Run(states, steps) && n < |states|
  {
    n > 0 && (Sets(states[n - 1], steps[n - 1], name)
              || (!Dels(states[n - 1], steps[n - 1], name) && LastIsSet(states, steps, n - 1, name)))
  }

  ghost predicate LastIsAdd(states: seq<State>, steps: seq<Step>, n: nat, name: string)
    requires Run(states, steps) && n < |states|
  {
    n > 0 && (Adds(states[n - 1], steps[n - 1], name)
              || (!Rems(states[n - 1], steps[n - 1], name) && LastIsAdd(states, steps, n - 1, name)))
  }

  /** In every interleaving: a name is saved but unlisted, or listed but not saved, exactly
      when the last command on its key and the last one on the index disagree. */
  lemma {:induction false} SplitExactlyWhenLastCommandsDisagree(
    states: seq<State>, steps: seq<Step>, n: nat, name: string)
    requires Run(states, steps) && n < |states|
    ensures name in states[n].values <==> LastIsSet(states, steps, n, name)
    ensures name in states[n].index <==> LastIsAdd(states, steps, n, name)
  {
    if n > 0 {
      SplitExactlyWhenLastCommandsDisagree(states, steps, n - 1, name);
      assert states[n] == Apply(states[n - 1], steps[n - 1]);
    }
  }

  lemma RunOneMore(states: seq<State>, steps: seq<Step>, step: Step) returns (longer: seq<State>)
    requires Run(states, steps) && Typed(states[|steps|]) && Enabled(states[|steps|], step)
    ensures longer == states + [Apply(states[|steps|], step)] && Run(longer, steps + [step])
  {
    longer := states + [Apply(states[|steps|], step)];
    var all := steps + [step];
    forall i | 0 <= i < |all|
      ensures Typed(longer[i]) && Enabled(longer[i], all[i]) && longer[i + 1] == Apply(longer[i], all[i])
    {
      assert i < |steps| ==> all[i] == steps[i] && longer[i] == states[i] && longer[i + 1] == states[i + 1];
    }
  }

  lemma FirstSave(c: Cluster) returns (states: seq<State>, steps: seq<Step>)
    requires c.masterName != ValkeyClusters.INDEX
    ensures Run(states, steps)
    ensures states[|steps|] ==
            State(map[c.masterName := c], {c.masterName}, map[0 := Call(Save(c), Finished([]))], [Save(c)], {})
  {
    states, steps := [START], [];
    states := RunOneMore(states, steps, Begin(0, Save(c)));
    steps := steps + [Begin(0, Save(c))];
    states := RunOneMore(states, steps, Set(0));
    steps := steps + [Set(0)];
    states := RunOneMore(states, steps, Sadd(0));
    steps := steps + [Sadd(0)];
  }

  /** The delete has removed the key but not yet the index entry. */
  lemma ThenHalfADelete(c: Cluster) returns (states: seq<State>, steps: seq<Step>)
    requires c.masterName != ValkeyClusters.INDEX
    ensures Run(states, steps)
    ensures states[|steps|] == State(map[], {c.masterName},
      map[0 := Call(Save(c), Finished([])), 1 := Call(Delete(c.masterName), Removed)], [Save(c)], {})
  {
    states, steps := FirstSave(c);
    states := RunOneMore(states, steps, Begin(1, Delete(c.masterName)));
    steps := steps + [Begin(1, Delete(c.masterName))];
    states := RunOneMore(states, steps, Step.Get(1));
    steps := steps + [Step.Get(1)];
    states := RunOneMore(states, steps, Del(1, true));
    steps := steps + [Del(1, true)];
  }

  /** Meanwhile the same cluster is saved. */
  lemma ThenASave(c: Cluster) returns (states: seq<State>, steps: seq<Step>)
    requires c.masterName != ValkeyClusters.INDEX
    ensures Run(states, steps) && HalfDeleted(states[|steps|], c)
  {
    states, steps := ThenHalfADelete(c);
    states := RunOneMore(states, steps, Begin(2, Save(c)));
    steps := steps + [Begin(2, Save(c))];
    states := RunOneMore(states, steps, Set(2));
    steps := steps + [Set(2)];
    states := RunOneMore(states, steps, Sadd(2));
    steps := steps + [Sadd(2)];
  }

  predicate HalfDeleted(s: State, c: Cluster) {
    && c.masterName in s.values && s.log == [Save(c), Save(c)]
    && s.calls == map[0 := Call(Save(c), Finished([])), 1 := Call(Delete(c.masterName), Removed),
                      2 := Call(Save(c), Finished([]))]
  }

  lemma SremSplits(s: State, c: Cluster)
    requires HalfDeleted(s, c)
    ensures Typed(s) && Enabled(s, Srem(1, true)) && Split(Apply(s, Srem(1, true)), c)
  {
  }

  /** A save that comes between the commands of a delete: both calls succeed, and the saved
      cluster is found by name but missing from every listing. */
  lemma SavedButUnlisted(c: Cluster) returns (states: seq<State>, steps: seq<Step>)
    requires c.masterName != ValkeyClusters.INDEX
    ensures Run(states, steps) && Split(states[|steps|], c)
  {
    states, steps := ThenASave(c);
    SremSplits(states[|steps|], c);
    states := RunOneMore(states, steps, Srem(1, true));
    steps := steps + [Srem(1, true)];
  }

  /** Every call finished well, the cluster has a value and no entry in the index. */
  predicate Split(s: State, c: Cluster) {
    && c.masterName in s.values && c.masterName !in s.index && !Busy(s, c.masterName)
    && s.log == [Save(c), Save(c), Delete(c.masterName)]
  }
}
