/** The two stores over any sequence of completed cluster operations: each answers like a
    plain map, up to the first operation that touches the name of Valkey's index. */
module ClusterStores {
  import opened Text
  import opened Cluster
  import opened ClusterTable
  import MemoryStore
  import ValkeyClusters

  datatype Answer =
    | Saved(ok: bool)
    | Existed(existed: bool)
    | Got(found: ValkeyClusters.Found)
    | Listed(ok: bool, clusters: set<Cluster>, length: nat)

  /** What a plain map answers. */
  function AnswerOf(table: map<string, Cluster>, op: Op): Answer {
    match op
    case Save(_) => Saved(true)
    case Delete(name) => Existed(name in table)
    case Get(name) => Got(if name in table then ValkeyClusters.Found.Cluster(table[name]) else ValkeyClusters.NotFound)
    case List => Listed(true, table.Values, |table|)
  }

  /** The operations the Valkey store cannot serve. */
  predicate TouchesIndex(table: map<string, Cluster>, op: Op) {
    || (op.Save? && op.c.masterName == ValkeyClusters.INDEX)
    || (op.Get? && op.name == ValkeyClusters.INDEX && table != map[])
  }

  lemma {:induction false} ListLength(list: seq<Cluster>, table: map<string, Cluster>)
    requires MemoryStore.SelfNamed(table) && MemoryStore.Lists(list, table)
    ensures |list| == |table| && (set c | c in list) == table.Values
  {
    forall n | n in table ensures list != [] {
      assert table[n] in list;
    }
    if list == [] {
      assert table.Keys == {};
    } else {
      var c := list[|list| - 1];
      var rest := table - {c.masterName};
      assert c in list && table == rest[c.masterName := c];
      forall d ensures d in list[..|list| - 1] <==> d.masterName in rest && rest[d.masterName] == d {
        if d in list && d != c {
          assert d in list[..|list| - 1];
        }
      }
      ListLength(list[..|list| - 1], rest);
    }
    forall v ensures v in table.Values <==> v in list {
      if v in table.Values {
        var n :| n in table && table[n] == v;
        assert v.masterName == n;
      }
      if v in list {
        assert table[v.masterName] == v;
      }
    }
  }

  method OnMemory(op: Op, store: MemoryStore.MemoryStore) returns (a: Answer)
    requires MemoryStore.SelfNamed(store.clusters)
    modifies store
    ensures a == AnswerOf(old(store.clusters), op) && store.clusters == After(old(store.clusters), op)
  {
    match op
    case Save(c) =>
      store.SaveCluster(c);
      a := Saved(true);
    case Delete(name) =>
      var existed := store.DeleteCluster(name);
      a := Existed(existed);
    case Get(name) =>
      var found := store.GetCluster(name);
      a := Got(if found.Some? then ValkeyClusters.Found.Cluster(found.value) else ValkeyClusters.NotFound);
    case List =>
      var list := store.ListClusters();
      ListLength(list, store.clusters);
      a := Listed(true, set c | c in list, |list|);
  }

  method OnValkey(op: Op, store: ValkeyClusters.ValkeyStore, ghost table: map<string, Cluster>) returns (a: Answer)
    requires ValkeyClusters.Holds(store.server.keys, table)
    modifies store.server
    ensures a == AnswerOf(table, op) <==> !TouchesIndex(table, op)
    ensures !TouchesIndex(table, op) ==> ValkeyClusters.Holds(store.server.keys, After(table, op))
  {
    match op
    case Save(c) =>
      var ok := store.SaveCluster(c, table);
      a := Saved(ok);
    case Delete(name) =>
      var existed := store.DeleteCluster(name, table);
      a := Existed(existed);
    case Get(name) =>
      var found := store.GetCluster(name, table);
      a := Got(found);
    case List =>
      var ok, list := store.ListClusters();
      ListLength(list, table);
      a := Listed(ok, set c | c in list, |list|);
  }

  method OnBoth(op: Op, memory: MemoryStore.MemoryStore, valkey: ValkeyClusters.ValkeyStore)
    returns (m: Answer, v: Answer)
    requires MemoryStore.SelfNamed(memory.clusters) && ValkeyClusters.Holds(valkey.server.keys, memory.clusters)
    modifies memory, valkey.server
    ensures m == AnswerOf(old(memory.clusters), op) && memory.clusters == After(old(memory.clusters), op)
    ensures m == v <==> !TouchesIndex(old(memory.clusters), op)
    ensures m == v ==> ValkeyClusters.Holds(valkey.server.keys, memory.clusters)
  {
    ghost var table := memory.clusters;
    v := OnValkey(op, valkey, table);
    m := OnMemory(op, memory);
  }

  /** The answers so far are the plain map's, and no operation touched the index. */
  ghost predicate Served(ops: seq<Op>, answers: seq<Answer>) {
    && |answers| <= |ops|
    && forall i | 0 <= i < |answers| ::
         answers[i] == AnswerOf(Table(ops[..i]), ops[i]) && !TouchesIndex(Table(ops[..i]), ops[i])
  }

  /** Runs both stores side by side until they disagree: the answers are those of a plain
      map, and they agree throughout exactly when no operation touches the index. */
  method RunBoth(ops: seq<Op>, memory: MemoryStore.MemoryStore, valkey: ValkeyClusters.ValkeyStore)
    returns (answers: seq<Answer>, agree: bool)
    requires memory.clusters == map[] && valkey.server.keys == map[]
    modifies memory, valkey.server
    ensures Served(ops, answers)
    ensures agree <==> |answers| == |ops|
    ensures !agree ==> TouchesIndex(Table(ops[..|answers|]), ops[|answers|])
    ensures agree ==> memory.clusters == Table(ops) && ValkeyClusters.Holds(valkey.server.keys, Table(ops))
  {
    answers := [];
    var n := 0;
    while n < |ops|
      invariant n == |answers| && Served(ops, answers)
      invariant memory.clusters == Table(ops[..n]) && ValkeyClusters.Holds(valkey.server.keys, memory.clusters)
    {
      TableIsSelfNamed(ops[..n]);
      TableNext(ops, n);
      var m, v := OnBoth(ops[n], memory, valkey);
      assert memory.clusters == Table(ops[..n + 1]);
      if m != v {
        return answers, false;
      }
      ServedOneMore(ops, answers, m);
      answers := answers + [m];
      n := n + 1;
    }
    agree := true;
    assert ops[..|ops|] == ops;
  }

  lemma ServedOneMore(ops: seq<Op>, answers: seq<Answer>, a: Answer)
    requires Served(ops, answers) && |answers| < |ops|
    requires a == AnswerOf(Table(ops[..|answers|]), ops[|answers|])
    requires !TouchesIndex(Table(ops[..|answers|]), ops[|answers|])
    ensures Served(ops, answers + [a])
  {
  }
}
