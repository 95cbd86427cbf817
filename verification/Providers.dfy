/** Route53 and Cloudflare implement the same record: whatever sequence of operations is
    issued to both, they hold the same values and refuse the same calls. */
module Providers {
  import opened RecordSet
  import Route53
  import Cloudflare

  const ADDRESS := "A"

  method OnRoute53(p: Route53.Provider, zone: string, name: string, op: Op, ttl: int) returns (r: Outcome)
    requires p.api.Valid()
    modifies p.api
    ensures p.api.Valid() && p.Performs(zone, name, ADDRESS, op, r)
  {
    match op
    case Update(v) => r := p.UpdateRecord(zone, name, ADDRESS, v, ttl);
    case UpdateValues(vs) => r := p.UpdateRecordValues(zone, name, ADDRESS, vs, ttl);
    case Add(v) => r := p.AddRecordValue(zone, name, ADDRESS, v, ttl);
    case Remove(v) => r := p.RemoveRecordValue(zone, name, ADDRESS, v);
    case Delete => r := p.DeleteRecord(zone, name, ADDRESS);
  }

  method OnCloudflare(p: Cloudflare.Provider, zone: string, name: string, op: Op, ttl: int) returns (r: Outcome)
    requires p.api.Valid() && ProperOp(op)
    modifies p.api
    ensures p.api.Valid() && p.api.faults >= old(p.api.faults)
    ensures Cloudflare.SameElsewhere(old(p.api.records), p.api.records, Cloudflare.FullName(name, zone), ADDRESS)
    ensures old(p.Clean(zone, name)) && p.api.faults == old(p.api.faults) ==>
      && p.Clean(zone, name)
      && r == Answer(old(p.Values(zone, name)), op)
      && p.Values(zone, name) == After(old(p.Values(zone, name)), op)
  {
    match op
    case Update(v) => r := p.UpdateRecord(zone, name, ADDRESS, v, ttl);
    case UpdateValues(vs) => r := p.UpdateRecordValues(zone, name, ADDRESS, vs, ttl);
    case Add(v) => r := p.AddRecordValue(zone, name, ADDRESS, v, ttl);
    case Remove(v) => r := p.RemoveRecordValue(zone, name, ADDRESS, v);
    case Delete => r := p.DeleteRecord(zone, name, ADDRESS);
  }

  /** The Route53 promise, read as sets. */
  lemma ListAnswer(values: seq<string>, op: Op)
    requires NoDup(values)
    ensures op.Remove? && op.value in values && Without(values, op.value) == []
       <==> Answer(ToSet(values), op) == Refused
  {
    if op.Remove? {
      WithoutIsFilter(values, op.value);
      if Without(values, op.value) == [] {
        assert forall x :: x in values ==> x == op.value;
      } else {
        var w := Without(values, op.value)[0];
        assert w in Without(values, op.value) && w in ToSet(values);
      }
    }
  }

  predicate SameName(name: string, zone: string) {
    Route53.TrimDot(Route53.Fqdn(name, zone)) == Cloudflare.FullName(name, zone)
  }

  /** Both providers write under one domain name, up to the closing dot, exactly when the
      zone is given without one. */
  lemma SameDomainName(name: string, zone: string)
    ensures SameName(name, zone) <==> zone != "" && zone[|zone| - 1] != '.'
    ensures zone != "" && zone[|zone| - 1] != '.' ==>
              Route53.Fqdn(name, zone) == Cloudflare.FullName(name, zone) + "."
  {
    var full, f := name + "." + zone, Route53.Fqdn(name, zone);
    Route53.FqdnInZone(name, zone);
    Cloudflare.FullNameInjective(name, name, zone);
    assert f == f[..|name| + 1] + f[|name| + 1..] && f[..|name| + 1] == name + ".";
  }

  /** Every other record set is the same before and after. */
  ghost predicate OnlyThis(
    before: map<(string, string), Route53.RRSet>, after: map<(string, string), Route53.RRSet>, record: (string, string))
  {
    forall key :: key != record ==> (key in after <==> key in before) && (key in after ==> after[key] == before[key])
  }

  /** The same duplicate-free values in both. */
  ghost predicate Agree(r53: Route53.Provider, cf: Cloudflare.Provider, zone: string, name: string)
    reads r53.api, cf.api
  {
    && NoDup(r53.Values(zone, name, ADDRESS)) && cf.Clean(zone, name)
    && ToSet(r53.Values(zone, name, ADDRESS)) == cf.Values(zone, name)
  }

  method OnBoth(r53: Route53.Provider, cf: Cloudflare.Provider, zone: string, name: string, op: Op, ttl: int)
    returns (a: Outcome, b: Outcome)
    requires r53.api.Valid() && cf.api.Valid() && ProperOp(op)
    modifies r53.api, cf.api
    ensures r53.api.Valid() && cf.api.Valid()
    ensures r53.api.faults >= old(r53.api.faults) && cf.api.faults >= old(cf.api.faults)
    ensures old(Agree(r53, cf, zone, name)) && r53.api.faults == old(r53.api.faults)
            && cf.api.faults == old(cf.api.faults) ==>
      a == b && Agree(r53, cf, zone, name) && cf.Values(zone, name) == After(old(cf.Values(zone, name)), op)
    ensures Cloudflare.SameElsewhere(old(cf.api.records), cf.api.records, Cloudflare.FullName(name, zone), ADDRESS)
    ensures OnlyThis(old(r53.api.sets), r53.api.sets, (Route53.Fqdn(name, zone), ADDRESS))
  {
    ghost var values := r53.Values(zone, name, ADDRESS);
    if NoDup(values) {
      ListAnswer(values, op);
      ListCarriesSet(values, op);
    }
    a := OnRoute53(r53, zone, name, op, ttl);
    b := OnCloudflare(cf, zone, name, op, ttl);
  }

  /** Any sequence of proper operations on one address record, issued to both providers
      from the same duplicate-free contents: without API errors they stay equal and answer
      alike, under the same domain name when the zone is given without a closing dot; and
      with or without errors no record of another name or type is touched. */
  method RunBoth(r53: Route53.Provider, cf: Cloudflare.Provider, zone: string, name: string, ops: seq<Op>, ttl: int)
    returns (answers53: seq<Outcome>, answersCf: seq<Outcome>)
    requires r53.api.Valid() && cf.api.Valid()
    requires forall op <- ops :: ProperOp(op)
    requires NoDup(r53.Values(zone, name, ADDRESS)) && cf.Clean(zone, name)
    requires ToSet(r53.Values(zone, name, ADDRESS)) == cf.Values(zone, name)
    modifies r53.api, cf.api
    ensures r53.api.faults == old(r53.api.faults) && cf.api.faults == old(cf.api.faults) ==>
      && answers53 == answersCf
      && ToSet(r53.Values(zone, name, ADDRESS)) == cf.Values(zone, name) == Results(old(cf.Values(zone, name)), ops)
    ensures Cloudflare.SameElsewhere(old(cf.api.records), cf.api.records, Cloudflare.FullName(name, zone), ADDRESS)
    ensures OnlyThis(old(r53.api.sets), r53.api.sets, (Route53.Fqdn(name, zone), ADDRESS))
    ensures SameName(name, zone) <==> zone != "" && zone[|zone| - 1] != '.'
  {
    SameDomainName(name, zone);
    answers53, answersCf := [], [];
    for i := 0 to |ops|
      invariant r53.api.Valid() && cf.api.Valid()
      invariant r53.api.faults >= old(r53.api.faults) && cf.api.faults >= old(cf.api.faults)
      invariant r53.api.faults == old(r53.api.faults) && cf.api.faults == old(cf.api.faults) ==>
        && answers53 == answersCf && Agree(r53, cf, zone, name)
        && cf.Values(zone, name) == Results(old(cf.Values(zone, name)), ops[..i])
      invariant Cloudflare.SameElsewhere(old(cf.api.records), cf.api.records, Cloudflare.FullName(name, zone), ADDRESS)
      invariant OnlyThis(old(r53.api.sets), r53.api.sets, (Route53.Fqdn(name, zone), ADDRESS))
    {
      ghost var records := cf.api.records;
      assert ops[i] in ops && ops[..i + 1][..i] == ops[..i];
      var a, b := OnBoth(r53, cf, zone, name, ops[i], ttl);
      Cloudflare.Chain(old(cf.api.records), records, cf.api.records, Cloudflare.FullName(name, zone), ADDRESS);
      answers53, answersCf := answers53 + [a], answersCf + [b];
    }
    assert ops[..|ops|] == ops;
  }

  /** The operations that store a value. */
  predicate Stores(op: Op) { op.Update? || (op.UpdateValues? && op.values != []) || op.Add? }

  method StoreBoth(r53: Route53.Provider, cf: Cloudflare.Provider, zone: string, name: string,
                   recordType: string, op: Op, ttl: int)
    returns (a: Outcome, b: Outcome)
    requires r53.api.Valid() && cf.api.Valid() && recordType != ADDRESS && Stores(op)
    requires op.Add? ==> op.value !in Cloudflare.Contents(cf.api.records, Cloudflare.FullName(name, zone), recordType)
    modifies r53.api, cf.api
    ensures r53.api.faults == old(r53.api.faults) ==>
      a == Done && forall v <- PutValues(op) :: v in r53.Values(zone, name, recordType)
    ensures cf.api.faults == old(cf.api.faults) ==>
      && b == Done
      && (forall v <- PutValues(op) :: v in cf.Values(zone, name))
      && (forall v <- PutValues(op) ::
            v !in Cloudflare.Contents(cf.api.records, Cloudflare.FullName(name, zone), recordType))
  {
    match op
    case Update(v) =>
      a := r53.UpdateRecord(zone, name, recordType, v, ttl);
      b := cf.UpdateRecord(zone, name, recordType, v, ttl);
    case UpdateValues(vs) =>
      a := r53.UpdateRecordValues(zone, name, recordType, vs, ttl);
      b := cf.UpdateRecordValues(zone, name, recordType, vs, ttl);
      assert forall v <- vs :: v in ToSet(vs);
    case Add(v) =>
      a := r53.AddRecordValue(zone, name, recordType, v, ttl);
      b := cf.AddRecordValue(zone, name, recordType, v, ttl);
  }

  /** The agreement is about address records only: storing new values under any other type,
      whether or not it has records, is reported done by both without API errors, but only
      Route53 then has the values; Cloudflare has them as address records. */
  method OtherTypesDiverge(r53: Route53.Provider, cf: Cloudflare.Provider, zone: string, name: string,
                           recordType: string, op: Op, ttl: int)
    returns (a: Outcome, b: Outcome)
    requires r53.api.Valid() && cf.api.Valid() && recordType != ADDRESS && Stores(op)
    requires op.Add? ==> op.value !in Cloudflare.Contents(cf.api.records, Cloudflare.FullName(name, zone), recordType)
    modifies r53.api, cf.api
    ensures r53.api.faults == old(r53.api.faults) && cf.api.faults == old(cf.api.faults) ==>
      && a == b == Done
      && ToSet(r53.Values(zone, name, recordType))
         != Cloudflare.Contents(cf.api.records, Cloudflare.FullName(name, zone), recordType)
      && ToSet(PutValues(op)) <= cf.Values(zone, name)
  {
    a, b := StoreBoth(r53, cf, zone, name, recordType, op, ttl);
    var v := PutValues(op)[0];
    assert v in PutValues(op);
  }

  function Results(values: set<string>, ops: seq<Op>): set<string> {
    if ops == [] then values else After(Results(values, ops[..|ops| - 1]), ops[|ops| - 1])
  }
}
