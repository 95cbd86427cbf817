/** internal/store/valkey.go, clusters: one string key per cluster and one set key, the
    index, under the common prefix smgr:group:. Here no other manager comes in between
    the commands of a call; module ClusterIndex interleaves them. A key is written
    without the common prefix. The stored text stands for the cluster it decodes to. */
module ValkeyClusters {
  import opened Text
  import opened Cluster
  import opened MemoryStore

  /** The index is an ordinary key, and a cluster may bear its name. */
  const INDEX := "index"

  datatype Entry = Text(c: Cluster) | Names(members: set<string>)

  datatype Reply<+T> = Nil | Value(value: T) | WrongType

  class Server {
    var keys: map<string, Entry>

    constructor ()
      ensures keys == map[]
    {
      keys := map[];
    }

    method Set(key: string, c: Cluster)
      modifies this
      ensures keys == old(keys)[key := Text(c)]
    {
      keys := keys[key := Text(c)];
    }

    method Get(key: string) returns (r: Reply<Cluster>)
      ensures r == GetReply(keys, key)
    {
      r := GetReply(keys, key);
    }

    method Del(key: string)
      modifies this
      ensures keys == old(keys) - {key}
    {
      keys := keys - {key};
    }

    method Sadd(key: string, member: string) returns (ok: bool)
      modifies this
      ensures ok == !old(IsText(keys, key))
      ensures keys == if ok then old(keys)[key := Names(old(Members(keys, key)) + {member})] else old(keys)
    {
      ok := !IsText(keys, key);
      if ok {
        keys := keys[key := Names(Members(keys, key) + {member})];
      }
    }

    /** A set that loses its last member is gone. */
    method Srem(key: string, member: string) returns (ok: bool)
      modifies this
      ensures ok == !old(IsText(keys, key))
      ensures keys ==
              if !ok then old(keys)
              else if old(Members(keys, key)) - {member} == {} then old(keys) - {key}
              else old(keys)[key := Names(old(Members(keys, key)) - {member})]
    {
      ok := !IsText(keys, key);
      if ok {
        var left := Members(keys, key) - {member};
        keys := if left == {} then keys - {key} else keys[key := Names(left)];
      }
    }

    method Smembers(key: string) returns (r: Reply<seq<string>>)
      ensures r.WrongType? <==> IsText(keys, key)
      ensures r.Nil? <==> key !in keys
      ensures r.Value? ==> (forall n :: n in r.value <==> n in Members(keys, key)) && Distinct(r.value)
    {
      if IsText(keys, key) {
        return WrongType;
      }
      if key !in keys {
        return Nil;
      }
      var left := Members(keys, key);
      var ids := [];
      while left != {}
        invariant left <= Members(keys, key)
        invariant forall n :: n in ids <==> n in Members(keys, key) && n !in left
        invariant Distinct(ids)
        decreases |left|
      {
        var n :| n in left;
        ids := ids + [n];
        left := left - {n};
      }
      r := Value(ids);
    }
  }

  predicate IsText(keys: map<string, Entry>, key: string) { key in keys && keys[key].Text? }

  function Members(keys: map<string, Entry>, key: string): set<string> {
    if key in keys && keys[key].Names? then keys[key].members else {}
  }

  function GetReply(keys: map<string, Entry>, key: string): Reply<Cluster> {
    if key !in keys then Nil
    else match keys[key]
         case Text(c) => Value(c)
         case Names(_) => WrongType
  }

  predicate Distinct(names: seq<string>) { forall i, j :: 0 <= i < j < |names| ==> names[i] != names[j] }

  /** The keyspace that stands for a table of clusters. */
  ghost predicate Holds(keys: map<string, Entry>, table: map<string, Cluster>) {
    && SelfNamed(table) && INDEX !in table
    && (forall n | n != INDEX :: GetReply(keys, n) == if n in table then Value(table[n]) else Nil)
    && !IsText(keys, INDEX) && Members(keys, INDEX) == table.Keys
    && (INDEX in keys <==> table != map[])
  }

  datatype Found = Cluster(c: Cluster) | NotFound | Failed

  class ValkeyStore {
    const server: Server

    constructor (server: Server)
      ensures this.server == server
    {
      this.server := server;
    }

    /** Saved under any name but the index's. Saving that one destroys the index and then
        reports an error. */
    method SaveCluster(c: Cluster, ghost table: map<string, Cluster>) returns (ok: bool)
      requires Holds(server.keys, table)
      modifies server
      ensures ok <==> c.masterName != "index"
      ensures ok ==> Holds(server.keys, table[c.masterName := c])
      ensures !ok ==> server.keys == old(server.keys)[INDEX := Text(c)]
    {
      server.Set(c.masterName, c);
      ok := server.Sadd(INDEX, c.masterName);
    }

    method DeleteCluster(masterName: string, ghost table: map<string, Cluster>) returns (existed: bool)
      requires Holds(server.keys, table)
      modifies server
      ensures existed == (masterName in table) && Holds(server.keys, table - {masterName})
    {
      var r := server.Get(masterName);
      if !r.Value? {
        assert table - {masterName} == table;
        return false;
      }
      server.Del(masterName);
      var _ := server.Srem(INDEX, masterName);
      existed := true;
      assert table - {masterName} == map[] <==> table.Keys - {masterName} == {};
    }

    method GetCluster(masterName: string, ghost table: map<string, Cluster>) returns (found: Found)
      requires Holds(server.keys, table)
      ensures found ==
              if masterName in table then Found.Cluster(table[masterName])
              else if masterName == "index" && table != map[] then Failed
              else NotFound
    {
      var r := server.Get(masterName);
      found := match r case Nil => NotFound case Value(c) => Found.Cluster(c) case WrongType => Failed;
    }

    /** The index, then one GET per name; a name without a value is passed over. */
    method ListClusters() returns (ok: bool, list: seq<Cluster>)
      ensures IsText(server.keys, INDEX) ==> !ok && list == []
      ensures forall table | Holds(server.keys, table) :: ok && Lists(list, table)
    {
      list := [];
      var ids := server.Smembers(INDEX);
      if ids.WrongType? {
        return false, [];
      }
      ok := true;
      if ids.Nil? {
        return;
      }
      for i := 0 to |ids.value|
        invariant forall table | Holds(server.keys, table) ::
          |list| == i && forall j | 0 <= j < i :: ids.value[j] in table && list[j] == table[ids.value[j]]
      {
        var r := server.Get(ids.value[i]);
        if r.Value? {
          list := list + [r.value];
        }
      }
      forall table | Holds(server.keys, table) ensures Lists(list, table) {
        ListedAll(ids.value, list, table);
      }
    }
  }

  lemma ListedAll(ids: seq<string>, list: seq<Cluster>, table: map<string, Cluster>)
    requires SelfNamed(table) && Distinct(ids) && |ids| == |list|
    requires forall n :: n in ids <==> n in table
    requires forall j | 0 <= j < |ids| :: ids[j] in table && list[j] == table[ids[j]]
    ensures Lists(list, table)
  {
    forall c ensures c in list <==> c.masterName in table && table[c.masterName] == c {
      if c.masterName in table && table[c.masterName] == c {
        var j :| 0 <= j < |ids| && ids[j] == c.masterName;
        assert list[j] == c;
      }
    }
  }
}
