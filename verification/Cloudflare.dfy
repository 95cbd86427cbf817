/** internal/dns/cloudflare.go: a record with several values is several records of one
    name, listed, created, changed and deleted one by one. */
module Cloudflare {
  import opened RecordSet

  datatype Record = Record(name: string, recordType: string, content: string, ttl: int)

  datatype CfRecord = CfRecord(id: nat, content: string, ttl: int)

  function Matching(records: map<nat, Record>, name: string, recordType: string): set<nat> {
    set id | id in records && records[id].name == name && records[id].recordType == recordType
  }

  function Contents(records: map<nat, Record>, name: string, recordType: string): set<string> {
    set id <- Matching(records, name, recordType) :: records[id].content
  }

  /** No value is stored twice. */
  ghost predicate Distinct(records: map<nat, Record>, name: string, recordType: string) {
    forall a, b | a in Matching(records, name, recordType) && b in Matching(records, name, recordType) ::
      records[a].content == records[b].content ==> a == b
  }

  /** The records an operation on a name and type is about; what it creates is always an
      address record. */
  predicate Concerned(r: Record, name: string, recordType: string) {
    r.name == name && (r.recordType == recordType || r.recordType == "A")
  }

  /** All other records, of other names or types, are the same before and after. */
  ghost predicate SameElsewhere(before: map<nat, Record>, after: map<nat, Record>, name: string, recordType: string) {
    && (forall id | id in before && !Concerned(before[id], name, recordType) :: id in after && after[id] == before[id])
    && (forall id | id in after && !Concerned(after[id], name, recordType) :: id in before && after[id] == before[id])
  }

  /** The zone. Identifiers are positive and never reused; a call may fail, and a change
      that failed may still have been made. */
  class API {
    var records: map<nat, Record>
    var nextID: nat
    ghost var faults: nat

    ghost predicate Valid()
      reads this
    {
      nextID > 0 && forall id | id in records :: 0 < id < nextID
    }

    constructor ()
      ensures Valid() && records == map[] && faults == 0
    {
      records, nextID, faults := map[], 1, 0;
    }

    method List(name: string, recordType: string) returns (ok: bool, out: seq<CfRecord>)
      requires Valid()
      modifies this`faults
      ensures Valid() && if ok then faults == old(faults) else faults == old(faults) + 1
      ensures ok ==> Lists(records, name, recordType, out)
    {
      ok, out := *, [];
      if !ok {
        faults := faults + 1;
        return;
      }
      var todo := Matching(records, name, recordType);
      while todo != {}
        invariant todo <= Matching(records, name, recordType)
        invariant forall r <- out :: r.id in records && r.id !in todo && Shows(records, r)
        invariant forall r <- out :: r.id in Matching(records, name, recordType)
        invariant forall i, j :: 0 <= i < j < |out| ==> out[i].id != out[j].id
        invariant forall id | id in Matching(records, name, recordType) && id !in todo ::
                    CfRecord(id, records[id].content, records[id].ttl) in out
        decreases todo
      {
        var id :| id in todo;
        out := out + [CfRecord(id, records[id].content, records[id].ttl)];
        todo := todo - {id};
      }
    }

    method New(name: string, content: string, ttl: int) returns (ok: bool)
      requires Valid()
      modifies this
      ensures Valid() && if ok then faults == old(faults) else faults == old(faults) + 1
      ensures old(nextID) !in old(records)
      ensures
        || records == old(records)[old(nextID) := Record(name, "A", content, ttl)]
        || (!ok && records == old(records))
    {
      ok := *;
      var applied := *;
      if ok || applied {
        records := records[nextID := Record(name, "A", content, ttl)];
        nextID := nextID + 1;
      }
      if !ok {
        faults := faults + 1;
      }
    }

    method Update(id: nat, name: string, content: string, ttl: int) returns (ok: bool)
      requires Valid() && id in records
      modifies this
      ensures Valid() && if ok then faults == old(faults) else faults == old(faults) + 1
      ensures records == old(records)[id := Record(name, "A", content, ttl)] || (!ok && records == old(records))
    {
      ok := *;
      var applied := *;
      if ok || applied {
        records := records[id := Record(name, "A", content, ttl)];
      }
      if !ok {
        faults := faults + 1;
      }
    }

    method Delete(id: nat) returns (ok: bool)
      requires Valid()
      modifies this
      ensures Valid() && if ok then faults == old(faults) else faults == old(faults) + 1
      ensures records == old(records) - {id} || (!ok && records == old(records))
    {
      ok := *;
      var applied := *;
      if ok || applied {
        records := records - {id};
      }
      if !ok {
        faults := faults + 1;
      }
    }
  }

  ghost predicate Shows(records: map<nat, Record>, r: CfRecord)
    requires r.id in records
  {
    r.content == records[r.id].content && r.ttl == records[r.id].ttl
  }

  /** A listing has every matching record once, in any order. */
  ghost predicate Lists(records: map<nat, Record>, name: string, recordType: string, out: seq<CfRecord>) {
    && (forall r <- out :: r.id in Matching(records, name, recordType) && Shows(records, r))
    && (forall i, j :: 0 <= i < j < |out| ==> out[i].id != out[j].id)
    && (forall id | id in Matching(records, name, recordType) ::
          CfRecord(id, records[id].content, records[id].ttl) in out)
  }

  function Ids(out: seq<CfRecord>): set<nat> { set r <- out :: r.id }

  function FullName(name: string, zone: string): string { name + "." + zone }

  /** The full name starts with the record's name and a dot and ends in the zone, so in one
      zone different records have different names. */
  lemma FullNameInjective(a: string, b: string, zone: string)
    ensures a + "." <= FullName(a, zone) && FullName(a, zone)[|a| + 1..] == zone
    ensures FullName(a, zone) == FullName(b, zone) <==> a == b
  {
    var x, y := FullName(a, zone), FullName(b, zone);
    assert x[|a| + 1..] == zone && y[|b| + 1..] == zone && x[..|a|] == a && y[..|b|] == b;
    assert |x| == |a| + 1 + |zone| && |y| == |b| + 1 + |zone|;
  }

  class Provider {
    const api: API

    constructor (api: API)
      ensures this.api == api
    {
      this.api := api;
    }

    /** The address values of a record. */
    ghost function Values(zone: string, name: string): set<string>
      reads api
    {
      Contents(api.records, FullName(name, zone), "A")
    }

    ghost predicate Clean(zone: string, name: string)
      reads api
    {
      Distinct(api.records, FullName(name, zone), "A")
    }

    /** The deletion loops of UpdateRecord and UpdateRecordValues: errors are ignored. */
    method DeleteIgnoringErrors(out: seq<CfRecord>)
      requires api.Valid()
      modifies api
      ensures api.Valid() && api.faults >= old(api.faults)
      ensures Thinned(old(api.records), api.records, Ids(out))
      ensures api.faults == old(api.faults) ==> api.records.Keys !! Ids(out)
    {
      for i := 0 to |out|
        invariant api.Valid() && api.faults >= old(api.faults)
        invariant Thinned(old(api.records), api.records, Ids(out))
        invariant api.faults == old(api.faults) ==> forall k :: 0 <= k < i ==> out[k].id !in api.records
      {
        assert out[i] in out;
        var _ := api.Delete(out[i].id);
      }
    }

    /** The creation loop of UpdateRecordValues: it stops at the first error. */
    method CreateEach(fullName: string, values: seq<string>, ttl: int) returns (ok: bool)
      requires api.Valid()
      modifies api
      ensures api.Valid() && if ok then api.faults == old(api.faults) else api.faults > old(api.faults)
      ensures SameElsewhere(old(api.records), api.records, fullName, "A")
      ensures var before, after := Contents(old(api.records), fullName, "A"), Contents(api.records, fullName, "A");
        && before <= after <= before + ToSet(values)
        && (ok ==> after == before + ToSet(values))
        && (ok && before == {} && Distinct(old(api.records), fullName, "A") && NoDup(values) ==>
              Distinct(api.records, fullName, "A"))
    {
      ghost var before := Contents(api.records, fullName, "A");
      for i := 0 to |values|
        invariant api.Valid() && api.faults == old(api.faults)
        invariant SameElsewhere(old(api.records), api.records, fullName, "A")
        invariant Contents(api.records, fullName, "A") == before + ToSet(values[..i])
        invariant before == {} && Distinct(old(api.records), fullName, "A") && NoDup(values) ==>
                    Distinct(api.records, fullName, "A")
      {
        ghost var present := api.records;
        CreateEffect(present, fullName, "A", api.nextID, values[i], ttl);
        NextValue(values, i);
        ok := api.New(fullName, values[i], ttl);
        Chain(old(api.records), present, api.records, fullName, "A");
        if !ok {
          return false;
        }
      }
      assert values[..|values|] == values;
      return true;
    }

    method UpdateRecord(zone: string, name: string, recordType: string, value: string, ttl: int) returns (r: Outcome)
      requires api.Valid()
      modifies api
      ensures api.Valid() && api.faults >= old(api.faults) && r != Refused
      ensures SameElsewhere(old(api.records), api.records, FullName(name, zone), recordType)
      ensures recordType == "A" ==> Values(zone, name) <= old(Values(zone, name)) + {value}
      ensures recordType == "A" && r == Done ==> value in Values(zone, name)
      ensures recordType == "A" && api.faults == old(api.faults) ==>
                r == Done && Values(zone, name) == {value} && Clean(zone, name)
      // a record of another type is never created or kept: what is written is an address record
      ensures recordType != "A" && api.faults == old(api.faults) ==>
        && r == Done && value in Values(zone, name)
        && Matching(api.records, FullName(name, zone), recordType) == {}
    {
      var fullName := FullName(name, zone);
      var ok, existing := api.List(fullName, recordType);
      if !ok {
        return Failed;
      }
      if |existing| == 0 {
        CreateEffect(api.records, fullName, recordType, api.nextID, value, ttl);
        NothingListed(api.records, fullName, recordType, existing);
        ok := api.New(fullName, value, ttl);
        return if ok then Done else Failed;
      }
      r := KeepFirst(zone, name, recordType, existing, value, ttl);
    }

    /** The first record gets the value, the others go; errors of the deletions are ignored. */
    method KeepFirst(zone: string, name: string, recordType: string, existing: seq<CfRecord>, value: string, ttl: int)
      returns (r: Outcome)
      requires api.Valid() && existing != [] && Lists(api.records, FullName(name, zone), recordType, existing)
      modifies api
      ensures api.Valid() && api.faults >= old(api.faults) && r != Refused
      ensures SameElsewhere(old(api.records), api.records, FullName(name, zone), recordType)
      ensures recordType == "A" ==> Values(zone, name) <= old(Values(zone, name)) + {value}
      ensures recordType == "A" && r == Done ==> value in Values(zone, name)
      ensures recordType == "A" && api.faults == old(api.faults) ==>
                r == Done && Values(zone, name) == {value} && Clean(zone, name)
      ensures recordType != "A" && api.faults == old(api.faults) ==>
        && r == Done && value in Values(zone, name)
        && Matching(api.records, FullName(name, zone), recordType) == {}
    {
      var fullName, first, rest := FullName(name, zone), existing[0].id, existing[1..];
      ghost var listed := api.records;
      assert existing[0] in existing;
      var ok := api.Update(first, fullName, value, ttl);
      UpdateEffect(listed, fullName, recordType, first, value, ttl);
      if !ok {
        return Failed;
      }
      ghost var updated := api.records;
      DeleteIgnoringErrors(rest);
      RestDeleted(listed, updated, api.records, fullName, recordType, existing, value, ttl);
      return Done;
    }

    method UpdateRecordValues(zone: string, name: string, recordType: string, values: seq<string>, ttl: int)
      returns (r: Outcome)
      requires api.Valid()
      modifies api
      ensures api.Valid() && api.faults >= old(api.faults) && r != Refused
      ensures SameElsewhere(old(api.records), api.records, FullName(name, zone), recordType)
      ensures values == [] ==> r == Done && api.records == old(api.records)
      ensures recordType == "A" ==> Values(zone, name) <= old(Values(zone, name)) + ToSet(values)
      ensures recordType == "A" && r == Done ==> ToSet(values) <= Values(zone, name)
      ensures recordType == "A" && api.faults == old(api.faults) && values != [] ==>
                r == Done && Values(zone, name) == ToSet(values) && (NoDup(values) ==> Clean(zone, name))
      ensures recordType != "A" && api.faults == old(api.faults) && values != [] ==>
        && r == Done && ToSet(values) <= Values(zone, name)
        && Matching(api.records, FullName(name, zone), recordType) == {}
    {
      if |values| == 0 {
        return Done;
      }
      var fullName := FullName(name, zone);
      var ok, existing := api.List(fullName, recordType);
      if !ok {
        return Failed;
      }
      ghost var listed := api.records;
      DeleteIgnoringErrors(existing);
      AllDeleted(listed, api.records, fullName, recordType, existing);
      ghost var kept := api.records;
      ok := CreateEach(fullName, values, ttl);
      Chain(listed, kept, api.records, fullName, recordType);
      return if ok then Done else Failed;
    }

    method AddRecordValue(zone: string, name: string, recordType: string, value: string, ttl: int) returns (r: Outcome)
      requires api.Valid()
      modifies api
      ensures api.Valid() && api.faults >= old(api.faults) && r != Refused
      ensures SameElsewhere(old(api.records), api.records, FullName(name, zone), recordType)
      ensures r == Failed ==> api.faults > old(api.faults)
      ensures recordType == "A" ==>
                Values(zone, name) == old(Values(zone, name)) + {value}
                || (r == Failed && Values(zone, name) == old(Values(zone, name)))
      ensures recordType == "A" && old(Clean(zone, name)) ==> Clean(zone, name) || r == Failed
      ensures recordType != "A" && api.faults == old(api.faults)
              && value !in old(Contents(api.records, FullName(name, zone), recordType)) ==>
        && r == Done && value in Values(zone, name)
        && Contents(api.records, FullName(name, zone), recordType)
           == old(Contents(api.records, FullName(name, zone), recordType))
    {
      var fullName := FullName(name, zone);
      var ok, existing := api.List(fullName, recordType);
      if !ok {
        return Failed;
      }
      for i := 0 to |existing|
        invariant forall k :: 0 <= k < i ==> existing[k].content != value
      {
        if existing[i].content == value {
          AlreadyThere(api.records, fullName, recordType, existing, i);
          return Done;
        }
      }
      var newTTL := if |existing| > 0 && existing[0].ttl > 0 then existing[0].ttl else ttl;
      AddEffect(api.records, fullName, recordType, existing, api.nextID, value, newTTL);
      ok := api.New(fullName, value, newTTL);
      return if ok then Done else Failed;
    }

    method RemoveRecordValue(zone: string, name: string, recordType: string, value: string) returns (r: Outcome)
      requires api.Valid()
      modifies api
      ensures api.Valid() && api.faults >= old(api.faults)
      ensures SameElsewhere(old(api.records), api.records, FullName(name, zone), recordType)
      ensures r == Failed ==> api.faults > old(api.faults)
      ensures r == Refused ==> api.records == old(api.records)
      ensures recordType == "A" && old(Clean(zone, name)) ==>
        && Clean(zone, name)
        && (r == Refused ==> old(Values(zone, name)) == {value})
        && (r == Done ==> Values(zone, name) == old(Values(zone, name)) - {value} && old(Values(zone, name)) != {value})
        && (r == Failed ==>
              Values(zone, name) == old(Values(zone, name)) - {value} || Values(zone, name) == old(Values(zone, name)))
    {
      var fullName := FullName(name, zone);
      var ok, existing := api.List(fullName, recordType);
      if !ok {
        return Failed;
      }
      var targetID := 0;
      var i := 0;
      while i < |existing| && targetID == 0
        invariant i <= |existing|
        invariant targetID == 0 ==> forall k :: 0 <= k < i ==> existing[k].content != value
        invariant targetID != 0 ==> CfRecordWith(existing, targetID, value)
      {
        if existing[i].content == value {
          assert existing[i] in existing;
          targetID := existing[i].id;
        }
        i := i + 1;
      }
      if recordType == "A" {
        ContentsOfListing(api.records, fullName, existing);
      }
      if targetID == 0 {
        return Done;
      }
      if |existing| == 1 {
        return Refused;
      }
      if recordType == "A" && Distinct(api.records, fullName, "A") {
        RemoveEffect(api.records, fullName, existing, targetID, value);
      }
      ok := api.Delete(targetID);
      return if ok then Done else Failed;
    }

    method DeleteRecord(zone: string, name: string, recordType: string) returns (r: Outcome)
      requires api.Valid()
      modifies api
      ensures api.Valid() && api.faults >= old(api.faults) && r != Refused
      ensures SameElsewhere(old(api.records), api.records, FullName(name, zone), recordType)
      ensures r == Failed ==> api.faults > old(api.faults)
      ensures recordType == "A" ==> Values(zone, name) <= old(Values(zone, name))
      ensures recordType == "A" && r == Done ==> Values(zone, name) == {} && Clean(zone, name)
    {
      var fullName := FullName(name, zone);
      var ok, existing := api.List(fullName, recordType);
      if !ok {
        return Failed;
      }
      for i := 0 to |existing|
        invariant api.Valid() && api.faults == old(api.faults)
        invariant Thinned(old(api.records), api.records, Ids(existing))
        invariant forall k :: 0 <= k < i ==> existing[k].id !in api.records
      {
        assert existing[i] in existing;
        ok := api.Delete(existing[i].id);
        if !ok {
          AllDeleted(old(api.records), api.records, fullName, recordType, existing);
          return Failed;
        }
      }
      AllDeleted(old(api.records), api.records, fullName, recordType, existing);
      return Done;
    }
  }

  /** Some of the records in ids are gone, nothing else changed. */
  ghost predicate Thinned(before: map<nat, Record>, after: map<nat, Record>, ids: set<nat>) {
    && (forall id | id in after :: id in before && after[id] == before[id])
    && (forall id | id in before && id !in ids :: id in after)
  }

  lemma CreateEffect(before: map<nat, Record>, name: string, recordType: string, id: nat, value: string, ttl: int)
    requires id !in before
    ensures var after := before[id := Record(name, "A", value, ttl)];
      && SameElsewhere(before, after, name, recordType)
      && (forall t :: t != "A" ==> Matching(after, name, t) == Matching(before, name, t))
      && Matching(after, name, "A") == Matching(before, name, "A") + {id}
      && Contents(after, name, "A") == Contents(before, name, "A") + {value}
      && (Distinct(before, name, "A") && value !in Contents(before, name, "A") ==> Distinct(after, name, "A"))
  {
    var after := before[id := Record(name, "A", value, ttl)];
    ContentsExtend(before, after, name, id);
  }

  lemma ContentsExtend(before: map<nat, Record>, after: map<nat, Record>, name: string, id: nat)
    requires id !in before && id in after && after == before[id := after[id]]
    requires after[id].name == name && after[id].recordType == "A"
    ensures Matching(after, name, "A") == Matching(before, name, "A") + {id}
    ensures Contents(after, name, "A") == Contents(before, name, "A") + {after[id].content}
  {
    assert id in Matching(after, name, "A");
    forall v ensures v in Contents(after, name, "A") <==> v in Contents(before, name, "A") || v == after[id].content {
      if v in Contents(before, name, "A") {
        var k :| k in Matching(before, name, "A") && before[k].content == v;
        assert k in Matching(after, name, "A") && after[k].content == v;
      }
    }
  }

  lemma NextValue(values: seq<string>, i: nat)
    requires i < |values|
    ensures ToSet(values[..i + 1]) == ToSet(values[..i]) + {values[i]}
    ensures ToSet(values[..i + 1]) <= ToSet(values)
    ensures NoDup(values) ==> values[i] !in ToSet(values[..i])
  {
    assert values[..i + 1] == values[..i] + [values[i]];
  }

  lemma AddEffect(
    before: map<nat, Record>, name: string, recordType: string, existing: seq<CfRecord>,
    id: nat, value: string, ttl: int)
    requires id !in before && Lists(before, name, recordType, existing)
    requires forall k :: 0 <= k < |existing| ==> existing[k].content != value
    ensures var after := before[id := Record(name, "A", value, ttl)];
      && SameElsewhere(before, after, name, recordType)
      && Contents(after, name, "A") == Contents(before, name, "A") + {value}
      && (recordType == "A" && Distinct(before, name, "A") ==> Distinct(after, name, "A"))
  {
    CreateEffect(before, name, recordType, id, value, ttl);
    if recordType == "A" {
      ContentsOfListing(before, name, existing);
    }
  }

  lemma AlreadyThere(before: map<nat, Record>, name: string, recordType: string, existing: seq<CfRecord>, i: nat)
    requires i < |existing| && Lists(before, name, recordType, existing)
    ensures recordType == "A" ==> existing[i].content in Contents(before, name, "A")
    ensures recordType == "A" ==> Contents(before, name, "A") == Contents(before, name, "A") + {existing[i].content}
  {
    assert existing[i] in existing;
  }

  lemma NothingListed(records: map<nat, Record>, name: string, recordType: string, out: seq<CfRecord>)
    requires Lists(records, name, recordType, out) && out == []
    ensures Matching(records, name, recordType) == {} && Contents(records, name, recordType) == {}
    ensures Distinct(records, name, recordType)
  {
  }

  lemma UpdateEffect(before: map<nat, Record>, name: string, recordType: string, id: nat, value: string, ttl: int)
    requires id in before && before[id].name == name && before[id].recordType == recordType
    ensures var after := before[id := Record(name, "A", value, ttl)];
      && SameElsewhere(before, after, name, recordType) && SameElsewhere(before, before, name, recordType)
      && Contents(after, name, "A") <= Contents(before, name, "A") + {value}
      && value in Contents(after, name, "A")
  {
    var after := before[id := Record(name, "A", value, ttl)];
    assert id in Matching(after, name, "A");
    forall v | v in Contents(after, name, "A") ensures v in Contents(before, name, "A") + {value} {
      var k :| k in Matching(after, name, "A") && after[k].content == v;
      if k != id {
        assert k in Matching(before, name, "A");
      }
    }
  }

  /** UpdateRecord after its update, when the records after the first have been deleted
      or survived a failed deletion. */
  lemma RestDeleted(
    listed: map<nat, Record>, updated: map<nat, Record>, after: map<nat, Record>,
    name: string, recordType: string, existing: seq<CfRecord>, value: string, ttl: int)
    requires Lists(listed, name, recordType, existing) && existing != []
    requires updated == listed[existing[0].id := Record(name, "A", value, ttl)]
    requires Thinned(updated, after, Ids(existing[1..]))
    ensures SameElsewhere(listed, after, name, recordType)
    ensures recordType == "A" ==>
      && Contents(after, name, "A") <= Contents(listed, name, "A") + {value}
      && value in Contents(after, name, "A")
      && (after.Keys !! Ids(existing[1..]) ==> Contents(after, name, "A") == {value} && Distinct(after, name, "A"))
  {
    var first := existing[0].id;
    assert existing[0] in existing;
    RestIsMatching(listed, name, recordType, existing);
    assert first in after && after[first] == updated[first];
    if recordType == "A" {
      UpdateEffect(listed, name, recordType, first, value, ttl);
      ThinnedContents(updated, after, name, Ids(existing[1..]));
      assert first in Matching(after, name, "A");
      if after.Keys !! Ids(existing[1..]) {
        OnlyFirstLeft(listed, updated, after, name, existing, value, ttl);
      }
    }
  }

  /** The records behind the first are others that match. */
  lemma RestIsMatching(listed: map<nat, Record>, name: string, recordType: string, existing: seq<CfRecord>)
    requires Lists(listed, name, recordType, existing) && existing != []
    ensures forall id <- Ids(existing[1..]) :: id in Matching(listed, name, recordType) && id != existing[0].id
  {
    forall id | id in Ids(existing[1..]) ensures id in Matching(listed, name, recordType) && id != existing[0].id {
      var r :| r in existing[1..] && r.id == id;
      assert r in existing;
    }
  }

  lemma ThinnedContents(updated: map<nat, Record>, after: map<nat, Record>, name: string, gone: set<nat>)
    requires Thinned(updated, after, gone)
    ensures Contents(after, name, "A") <= Contents(updated, name, "A")
  {
    forall v | v in Contents(after, name, "A") ensures v in Contents(updated, name, "A") {
      var k :| k in Matching(after, name, "A") && after[k].content == v;
      assert k in Matching(updated, name, "A");
    }
  }

  lemma OnlyFirstLeft(
    listed: map<nat, Record>, updated: map<nat, Record>, after: map<nat, Record>,
    name: string, existing: seq<CfRecord>, value: string, ttl: int)
    requires Lists(listed, name, "A", existing) && existing != []
    requires updated == listed[existing[0].id := Record(name, "A", value, ttl)]
    requires Thinned(updated, after, Ids(existing[1..])) && after.Keys !! Ids(existing[1..])
    requires existing[0].id in Matching(after, name, "A")
    ensures Matching(after, name, "A") == {existing[0].id}
  {
    forall id | id in Matching(after, name, "A") ensures id == existing[0].id || id in Ids(existing[1..]) {
      FirstOrRest(listed, name, existing, id);
    }
  }

  lemma FirstOrRest(listed: map<nat, Record>, name: string, existing: seq<CfRecord>, id: nat)
    requires Lists(listed, name, "A", existing) && existing != []
    ensures id in Matching(listed, name, "A") ==> id == existing[0].id || id in Ids(existing[1..])
  {
    assert existing == [existing[0]] + existing[1..];
    if id in Matching(listed, name, "A") {
      assert CfRecord(id, listed[id].content, listed[id].ttl) in existing;
    }
  }

  ghost predicate CfRecordWith(out: seq<CfRecord>, id: nat, content: string) {
    exists r <- out :: r.id == id && r.content == content
  }

  lemma Chain(a: map<nat, Record>, b: map<nat, Record>, c: map<nat, Record>, name: string, recordType: string)
    requires SameElsewhere(a, b, name, recordType) && SameElsewhere(b, c, name, "A")
    ensures SameElsewhere(a, c, name, recordType)
  {
  }

  /** What the deletion loop leaves of the records it was given. */
  lemma AllDeleted(
    listed: map<nat, Record>, after: map<nat, Record>, name: string, recordType: string, existing: seq<CfRecord>)
    requires Lists(listed, name, recordType, existing) && Thinned(listed, after, Ids(existing))
    ensures SameElsewhere(listed, after, name, recordType)
    ensures Contents(after, name, "A") <= Contents(listed, name, "A")
    ensures recordType == "A" && after.Keys !! Ids(existing) ==>
      Matching(after, name, "A") == {} && Contents(after, name, "A") == {} && Distinct(after, name, "A")
  {
    forall v | v in Contents(after, name, "A") ensures v in Contents(listed, name, "A") {
      var k :| k in Matching(after, name, "A") && after[k].content == v;
      assert k in Matching(listed, name, "A");
    }
    if recordType == "A" {
      forall id | id in Matching(after, name, "A") ensures id in Ids(existing) {
        assert id in Matching(listed, name, "A");
        assert CfRecord(id, listed[id].content, listed[id].ttl) in existing;
      }
    }
  }

  lemma ContentsOfListing(records: map<nat, Record>, name: string, existing: seq<CfRecord>)
    requires Lists(records, name, "A", existing)
    ensures forall v :: v in Contents(records, name, "A") <==> exists r <- existing :: r.content == v
    ensures |existing| == 1 ==> Contents(records, name, "A") == {existing[0].content}
  {
    forall v | v in Contents(records, name, "A") ensures exists r <- existing :: r.content == v {
      var id :| id in Matching(records, name, "A") && records[id].content == v;
      assert CfRecord(id, v, records[id].ttl) in existing;
    }
    forall r | r in existing ensures r.content in Contents(records, name, "A") {
      assert r.id in Matching(records, name, "A");
    }
    if |existing| == 1 {
      assert existing[0] in existing;
    }
  }

  lemma RemoveEffect(before: map<nat, Record>, name: string, existing: seq<CfRecord>, id: nat, value: string)
    requires Lists(before, name, "A", existing) && Distinct(before, name, "A") && |existing| != 1
    requires CfRecordWith(existing, id, value)
    ensures var after := before - {id};
      && SameElsewhere(before, after, name, "A") && Distinct(after, name, "A")
      && Contents(after, name, "A") == Contents(before, name, "A") - {value}
      && Contents(before, name, "A") != {value}
  {
    var after := before - {id};
    var r :| r in existing && r.id == id && r.content == value;
    assert id in Matching(before, name, "A") && before[id].content == value;
    assert Matching(after, name, "A") == Matching(before, name, "A") - {id};
    forall v ensures v in Contents(after, name, "A") <==> v in Contents(before, name, "A") && v != value {
      if v in Contents(before, name, "A") && v != value {
        var k :| k in Matching(before, name, "A") && before[k].content == v;
        assert k in Matching(after, name, "A");
      }
    }
    var other := if existing[0].id == id then existing[1] else existing[0];
    assert other in existing && other.id != id;
    assert other.id in Matching(before, name, "A") && other.content in Contents(before, name, "A");
    assert other.content != value;
  }
}
