/** The cluster operations and the plain map that a store of clusters should behave like
    (internal/store/memory.go:198-240). */
module ClusterTable {
  import opened Cluster
  import MemoryStore

  datatype Op = Save(c: Cluster) | Delete(name: string) | Get(name: string) | List

  function After(table: map<string, Cluster>, op: Op): map<string, Cluster> {
    match op
    case Save(c) => table[c.masterName := c]
    case Delete(name) => table - {name}
    case _ => table
  }

  /** Saved and not deleted since, with the latest values. */
  function Table(ops: seq<Op>): map<string, Cluster> {
    if ops == [] then map[] else After(Table(ops[..|ops| - 1]), ops[|ops| - 1])
  }

  lemma {:induction false} TableIsSelfNamed(ops: seq<Op>)
    ensures MemoryStore.SelfNamed(Table(ops))
  {
    if ops != [] {
      TableIsSelfNamed(ops[..|ops| - 1]);
    }
  }

  /** The last operation on a name decides. */
  lemma {:induction false} LastOperationWins(ops: seq<Op>, i: nat, name: string)
    requires i < |ops|
    requires forall j | i < j < |ops| :: !(ops[j].Save? && ops[j].c.masterName == name) && ops[j] != Delete(name)
    ensures ops[i].Save? && ops[i].c.masterName == name ==> name in Table(ops) && Table(ops)[name] == ops[i].c
    ensures ops[i] == Delete(name) ==> name !in Table(ops)
  {
    if i < |ops| - 1 {
      LastOperationWins(ops[..|ops| - 1], i, name);
    }
  }

  lemma TableNext(ops: seq<Op>, n: nat)
    requires n < |ops|
    ensures Table(ops[..n + 1]) == After(Table(ops[..n]), ops[n])
  {
    assert ops[..n + 1][..n] == ops[..n];
  }
}
