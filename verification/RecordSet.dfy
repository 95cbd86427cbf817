/** What internal/dns/provider.go asks of a provider, for the values of one record: the
    reference both providers are measured against. */
module RecordSet {

  datatype Op =
    | Update(value: string)
    | UpdateValues(values: seq<string>)
    | Add(value: string)
    | Remove(value: string)
    | Delete

  /** Refused is the error for removing the last value; Failed is any API error. */
  datatype Outcome = Done | Refused | Failed

  function ToSet(values: seq<string>): set<string> { set v <- values }

  predicate NoDup(values: seq<string>) { forall i, j :: 0 <= i < j < |values| ==> values[i] != values[j] }

  /** An op as a caller may issue it: a list of values holds no value twice. */
  predicate ProperOp(op: Op) { op.UpdateValues? ==> NoDup(op.values) }

  function After(values: set<string>, op: Op): set<string> {
    match op
    case Update(v) => {v}
    case UpdateValues(vs) => if vs == [] then values else ToSet(vs)
    case Add(v) => values + {v}
    case Remove(v) => if values == {v} then values else values - {v}
    case Delete => {}
  }

  function Answer(values: set<string>, op: Op): Outcome {
    if op.Remove? && values == {op.value} then Refused else Done
  }

  /** The values that a change puts into the record. */
  function PutValues(op: Op): seq<string> {
    match op
    case Update(v) => [v]
    case UpdateValues(vs) => vs
    case Add(v) => [v]
    case _ => []
  }

  // ----- the same on ordered lists -----

  function Without(values: seq<string>, v: string): seq<string> {
    if values == [] then []
    else Without(values[..|values| - 1], v) + if values[|values| - 1] == v then [] else [values[|values| - 1]]
  }

  function ListAfter(values: seq<string>, op: Op): seq<string> {
    match op
    case Update(v) => [v]
    case UpdateValues(vs) => if vs == [] then values else vs
    case Add(v) => if v in values then values else values + [v]
    case Remove(v) => if Without(values, v) == [] then values else Without(values, v)
    case Delete => []
  }

  lemma {:induction false} WithoutIsFilter(values: seq<string>, v: string)
    ensures forall x :: x in Without(values, v) <==> x in values && x != v
    ensures NoDup(values) ==> NoDup(Without(values, v))
    ensures |Without(values, v)| <= |values|
    ensures v !in values ==> Without(values, v) == values
  {
    if values != [] {
      var front, last := values[..|values| - 1], values[|values| - 1];
      assert values == front + [last];
      WithoutIsFilter(front, v);
      if NoDup(values) {
        assert forall i, j :: 0 <= i < j < |front| ==> front[i] == values[i] && front[j] == values[j];
        assert forall i :: 0 <= i < |front| ==> values[i] != last;
        assert last !in Without(front, v);
      }
    }
  }

  /** Lists carry the sets: an op on a duplicate-free list gives a duplicate-free list of
      the values the op gives on sets. */
  lemma ListCarriesSet(values: seq<string>, op: Op)
    requires NoDup(values) && ProperOp(op)
    ensures ToSet(ListAfter(values, op)) == After(ToSet(values), op)
    ensures NoDup(ListAfter(values, op))
  {
    match op
    case Remove(v) =>
      WithoutIsFilter(values, v);
      if Without(values, v) == [] {
        assert forall x :: x in values ==> x == v;
        if values != [] {
          assert values[0] in values;
          assert ToSet(values) == {v};
        }
      } else {
        var w := Without(values, v)[0];
        assert w in Without(values, v) && w in ToSet(values) && w != v;
        assert ToSet(Without(values, v)) == ToSet(values) - {v};
      }
    case Add(v) =>
      assert forall x :: x in values + [v] <==> x in values || x == v;
    case _ =>
  }

  /** A record that has a value never loses its last one except by Delete. */
  lemma NeverEmptied(values: seq<string>, op: Op)
    requires values != [] && !op.Delete?
    ensures ListAfter(values, op) != []
  {
  }
}
