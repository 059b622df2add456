/** Where chosen fields stand in the records of an event: every place once, in order. */
module Spots {
  import opened Records

  /** A field of a record, in its body or in its embedded message. */
  datatype Spot = Spot(record: nat, embedded: bool, index: nat)

  predicate Earlier(a: Spot, b: Spot) {
    a.record < b.record ||
    (a.record == b.record && ((!a.embedded && b.embedded) || (a.embedded == b.embedded && a.index < b.index)))
  }

  ghost predicate Ascends(spots: seq<Spot>) {
    forall i, j :: 0 <= i < j < |spots| ==> Earlier(spots[i], spots[j])
  }

  /** The spots of one section whose fields are chosen. */
  function SectionSpots(n: nat, embedded: bool, fields: seq<Field>, keep: Field -> bool): seq<Spot> {
    if fields == [] then []
    else
      var m := |fields| - 1;
      SectionSpots(n, embedded, fields[..m], keep) + if keep(fields[m]) then [Spot(n, embedded, m)] else []
  }

  /** Every chosen place of the section is there, once and in order. */
  lemma {:induction false} SectionSpotsAreExact(n: nat, embedded: bool, fields: seq<Field>, keep: Field -> bool)
    ensures Ascends(SectionSpots(n, embedded, fields, keep))
    ensures forall x :: x in SectionSpots(n, embedded, fields, keep) <==>
      x.record == n && x.embedded == embedded && x.index < |fields| && keep(fields[x.index])
  {
    if fields != [] {
      SectionSpotsAreExact(n, embedded, fields[..|fields| - 1], keep);
    }
  }

  lemma JoinedAscends(a: seq<Spot>, b: seq<Spot>)
    requires Ascends(a) && Ascends(b) && forall x, y :: x in a && y in b ==> Earlier(x, y)
    ensures Ascends(a + b)
  {
  }
}
