/** internal/dns/route53.go: every change is a read, a computation and one atomic upsert
    of the whole record set. */
module Route53 {
  import opened RecordSet

  datatype RRSet = RRSet(values: seq<string>, ttl: int)

  predicate Dotted(name: string) { name != "" && name[|name| - 1] == '.' }

  /** The hosted zone. A call may fail; a change that failed may still have been made. */
  class API {
    var sets: map<(string, string), RRSet>
    ghost var faults: nat

    /** The service stores every name with its closing dot. */
    ghost predicate Valid()
      reads this
    {
      forall key | key in sets :: Dotted(key.0)
    }

    constructor ()
      ensures Valid() && sets == map[] && faults == 0
    {
      sets, faults := map[], 0;
    }

    /** ListResourceRecordSets with one item: the record set asked for, or else whatever
        comes next in the zone, if anything. */
    method ListOne(name: string, recordType: string) returns (ok: bool, found: bool, key: (string, string), rs: RRSet)
      modifies this`faults
      ensures if ok then faults == old(faults) else faults == old(faults) + 1
      ensures ok && (name, recordType) in sets ==> found && key == (name, recordType)
      ensures ok && found ==> key in sets && rs == sets[key]
    {
      ok, found, key, rs := *, false, (name, recordType), RRSet([], 0);
      if !ok {
        faults := faults + 1;
      } else if key in sets {
        found, rs := true, sets[key];
      } else if sets != map[] {
        assert sets.Keys != {};
        key :| key in sets.Keys;
        found, rs := true, sets[key];
      }
    }

    method Upsert(name: string, recordType: string, values: seq<string>, ttl: int) returns (ok: bool)
      requires Valid() && Dotted(name)
      modifies this
      ensures Valid()
      ensures if ok then faults == old(faults) else faults == old(faults) + 1
      ensures sets == old(sets)[(name, recordType) := RRSet(values, ttl)] || (!ok && sets == old(sets))
    {
      ok := *;
      var applied := *;
      if ok || applied {
        sets := sets[(name, recordType) := RRSet(values, ttl)];
      }
      if !ok {
        faults := faults + 1;
      }
    }

    method Remove(name: string, recordType: string) returns (ok: bool)
      requires Valid()
      modifies this
      ensures Valid()
      ensures if ok then faults == old(faults) else faults == old(faults) + 1
      ensures sets == old(sets) - {(name, recordType)} || (!ok && sets == old(sets))
    {
      ok := *;
      var applied := *;
      if ok || applied {
        sets := sets - {(name, recordType)};
      }
      if !ok {
        faults := faults + 1;
      }
    }
  }

  /** The name with the closing dot that the service uses. */
  function Fqdn(recordName: string, zone: string): (f: string)
    ensures Dotted(f)
  {
    var name := recordName + "." + zone;
    if name[|name| - 1] == '.' then name else name + "."
  }

  function TrimDot(s: string): string {
    if Dotted(s) then s[..|s| - 1] else s
  }

  /** The full name is the record's name, a dot and the zone, closed by one dot. */
  lemma FqdnInZone(name: string, zone: string)
    ensures name + "." <= Fqdn(name, zone)
    ensures var rest := Fqdn(name, zone)[|name| + 1..];
      (rest == zone || rest == zone + ".") && (rest == zone <==> zone == "" || zone[|zone| - 1] == '.')
  {
    var full := name + "." + zone;
    assert full[|name| + 1..] == zone && (full + ".")[|name| + 1..] == zone + ".";
  }

  /** So in one zone different records have different names. */
  lemma FqdnInjective(a: string, b: string, zone: string)
    ensures Fqdn(a, zone) == Fqdn(b, zone) <==> a == b
  {
    FqdnInZone(a, zone);
    FqdnInZone(b, zone);
    if Fqdn(a, zone) == Fqdn(b, zone) {
      assert |a| == |b|;
      assert a == Fqdn(a, zone)[..|a|] && b == Fqdn(b, zone)[..|b|];
    }
  }

  lemma TrimDotInjective(a: string, b: string)
    requires Dotted(a) && Dotted(b) && TrimDot(a) == TrimDot(b)
    ensures a == b
  {
    assert a == TrimDot(a) + "." && b == TrimDot(b) + ".";
  }

  class Provider {
    const api: API

    constructor (api: API)
      ensures this.api == api
    {
      this.api := api;
    }

    /** The values stored for a record, none when it does not exist. */
    function Values(zone: string, name: string, recordType: string): seq<string>
      reads api
    {
      if (Fqdn(name, zone), recordType) in api.sets then api.sets[(Fqdn(name, zone), recordType)].values else []
    }

    /** What every operation promises: it succeeds with the effect of the reference, is
        refused without effect, or fails having done all of it or nothing; it fails only
        when an API call did; and no other record set changes. */
    twostate predicate Performs(zone: string, name: string, recordType: string, op: Op, outcome: Outcome)
      reads api
    {
      var before, after := old(Values(zone, name, recordType)), Values(zone, name, recordType);
      && (outcome == Done ==> after == ListAfter(before, op))
      && (outcome == Refused ==> after == before && op.Remove? && op.value in before && Without(before, op.value) == [])
      && (outcome == Failed ==> after == before || after == ListAfter(before, op))
      && (if outcome == Failed then api.faults > old(api.faults) else api.faults == old(api.faults))
      && (outcome == Done ==> !(op.Remove? && op.value in before && Without(before, op.value) == []))
      && (forall key :: key != (Fqdn(name, zone), recordType) ==>
            (key in api.sets <==> key in old(api.sets)) && (key in api.sets ==> api.sets[key] == old(api.sets)[key]))
    }

    method GetRecords(zone: string, name: string, recordType: string) returns (ok: bool, values: seq<string>, ttl: int)
      requires api.Valid()
      modifies api`faults
      ensures api.Valid()
      ensures if ok then api.faults == old(api.faults) else api.faults == old(api.faults) + 1
      ensures ok ==> values == Values(zone, name, recordType)
    {
      var f := Fqdn(name, zone);
      var found, key, rs;
      ok, found, key, rs := api.ListOne(f, recordType);
      values, ttl := [], 0;
      if ok && found && TrimDot(key.0) == TrimDot(f) && key.1 == recordType {
        TrimDotInjective(key.0, f);
        return ok, rs.values, rs.ttl;
      }
    }

    method UpdateRecord(zone: string, name: string, recordType: string, value: string, ttl: int) returns (r: Outcome)
      requires api.Valid()
      modifies api
      ensures api.Valid() && Performs(zone, name, recordType, Op.Update(value), r)
    {
      var ok := api.Upsert(Fqdn(name, zone), recordType, [value], ttl);
      return if ok then Done else Failed;
    }

    method UpdateRecordValues(zone: string, name: string, recordType: string, values: seq<string>, ttl: int)
      returns (r: Outcome)
      requires api.Valid()
      modifies api
      ensures api.Valid() && Performs(zone, name, recordType, Op.UpdateValues(values), r)
    {
      if |values| == 0 {
        return Done;
      }
      var ok := api.Upsert(Fqdn(name, zone), recordType, values, ttl);
      return if ok then Done else Failed;
    }

    method AddRecordValue(zone: string, name: string, recordType: string, value: string, ttl: int) returns (r: Outcome)
      requires api.Valid()
      modifies api
      ensures api.Valid() && Performs(zone, name, recordType, Op.Add(value), r)
    {
      var ok, existing, currentTTL := GetRecords(zone, name, recordType);
      if !ok {
        return Failed;
      }
      for i := 0 to |existing|
        invariant value !in existing[..i]
      {
        if existing[i] == value {
          return Done;
        }
      }
      assert existing[..|existing|] == existing;
      ok := api.Upsert(Fqdn(name, zone), recordType, existing + [value], if currentTTL > 0 then currentTTL else ttl);
      return if ok then Done else Failed;
    }

    method RemoveRecordValue(zone: string, name: string, recordType: string, value: string) returns (r: Outcome)
      requires api.Valid()
      modifies api
      ensures api.Valid() && Performs(zone, name, recordType, Op.Remove(value), r)
    {
      var ok, existing, currentTTL := GetRecords(zone, name, recordType);
      if !ok {
        return Failed;
      }
      var found, newVals := false, [];
      for i := 0 to |existing|
        invariant found <==> value in existing[..i]
        invariant newVals == Without(existing[..i], value)
      {
        assert existing[..i + 1][..i] == existing[..i];
        if existing[i] == value {
          found := true;
        } else {
          newVals := newVals + [existing[i]];
        }
      }
      assert existing[..|existing|] == existing;
      WithoutIsFilter(existing, value);
      if !found {
        return Done;
      }
      if |newVals| == 0 {
        return Refused;
      }
      ok := api.Upsert(Fqdn(name, zone), recordType, newVals, if currentTTL == 0 then 3 else currentTTL);
      return if ok then Done else Failed;
    }

    method DeleteRecord(zone: string, name: string, recordType: string) returns (r: Outcome)
      requires api.Valid()
      modifies api
      ensures api.Valid() && Performs(zone, name, recordType, Op.Delete, r)
    {
      var ok, existing, ttl := GetRecords(zone, name, recordType);
      if !ok {
        return Failed;
      }
      if |existing| == 0 {
        return Done;
      }
      ok := api.Remove(Fqdn(name, zone), recordType);
      return if ok then Done else Failed;
    }
  }
}
