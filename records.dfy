/** A document collection: records keyed by an id the store issues in insertion order, so that
    ascending id order is the collection's natural order (the order an unsorted `find` or a
    `findOne` without an index scans in). */
module Records {
  import opened Base

  type RecordId = nat

  /** The least id in `[from, bound)` whose record satisfies `p`: a natural-order scan that stops
      at the first match. */
  function FirstFrom<V>(m: map<RecordId, V>, p: V -> bool, from: nat, bound: nat): (r: Option<RecordId>)
    ensures r.Some? ==> from <= r.value < bound && r.value in m && p(m[r.value])
    ensures r.Some? ==> forall k :: from <= k < r.value && k in m ==> !p(m[k])
    ensures r.None? ==> forall k :: from <= k < bound && k in m ==> !p(m[k])
    decreases bound - from
  {
    if from >= bound then None
    else if from in m && p(m[from]) then Some(from)
    else FirstFrom(m, p, from + 1, bound)
  }

  /** `findOne(filter)`: the first record in natural order that matches. */
  function FindFirst<V>(m: map<RecordId, V>, p: V -> bool, bound: nat): (r: Option<RecordId>)
    ensures r.Some? ==> r.value in m && p(m[r.value]) && forall k :: k < r.value && k in m ==> !p(m[k])
    ensures r.None? ==> forall k :: k < bound && k in m ==> !p(m[k])
  {
    FirstFrom(m, p, 0, bound)
  }

  /** Updating records without changing which of them match leaves the scan's answer unchanged. */
  lemma {:induction false} FirstFromStable<V>(m: map<RecordId, V>, m': map<RecordId, V>, p: V -> bool, from: nat, bound: nat)
    requires m.Keys == m'.Keys
    requires forall k :: k in m ==> p(m[k]) == p(m'[k])
    ensures FirstFrom(m, p, from, bound) == FirstFrom(m', p, from, bound)
    decreases bound - from
  {
    if from < bound {
      FirstFromStable(m, m', p, from + 1, bound);
    }
  }

  /** The entries of `m` with ids in `[from, bound)`, in ascending id order. */
  function ListFrom<V>(m: map<RecordId, V>, from: nat, bound: nat): seq<(RecordId, V)>
    decreases bound - from
  {
    if from >= bound then []
    else if from in m then [(from, m[from])] + ListFrom(m, from + 1, bound)
    else ListFrom(m, from + 1, bound)
  }

  /** The listing holds exactly the entries with ids in `[from, bound)`, each with its record,
      in strictly ascending id order. */
  lemma {:induction false} ListFromExactly<V>(m: map<RecordId, V>, from: nat, bound: nat)
    ensures forall i :: 0 <= i < |ListFrom(m, from, bound)| ==>
      var e := ListFrom(m, from, bound)[i]; from <= e.0 < bound && e.0 in m && m[e.0] == e.1
    ensures forall k :: from <= k < bound && k in m ==> (k, m[k]) in ListFrom(m, from, bound)
    ensures forall i, j :: 0 <= i < j < |ListFrom(m, from, bound)| ==>
      ListFrom(m, from, bound)[i].0 < ListFrom(m, from, bound)[j].0
    decreases bound - from
  {
    if from < bound {
      ListFromExactly(m, from + 1, bound);
      var rest := ListFrom(m, from + 1, bound);
      if from in m {
        var r := [(from, m[from])] + rest;
        assert ListFrom(m, from, bound) == r;
        assert forall i :: 1 <= i < |r| ==> r[i] == rest[i - 1];
        assert forall x :: x in rest ==> x in r;
      } else {
        assert ListFrom(m, from, bound) == rest;
      }
    }
  }

  /** `find({})`: every record, in natural order. */
  function Listing<V(==)>(m: map<RecordId, V>, bound: nat): (r: seq<(RecordId, V)>)
    requires forall k :: k in m ==> k < bound
    ensures forall i :: 0 <= i < |r| ==> r[i].0 in m && m[r[i].0] == r[i].1
    ensures forall k :: k in m ==> (k, m[k]) in r
    ensures forall i, j :: 0 <= i < j < |r| ==> r[i].0 < r[j].0
  {
    var r := ListFrom(m, 0, bound);
    ListFromExactly(m, 0, bound);
    r
  }
}
