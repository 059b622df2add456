/** Emission order.  A batch of events is fixed by the set of its members: it is
    the unique list of them that ascends in first-observed sequence. */
module EventOrder {
  import opened Records

  ghost predicate Ascending(events: seq<Event>) {
    forall i, j :: 0 <= i < j < |events| ==> events[i].sequence < events[j].sequence
  }

  ghost predicate IsListing(events: seq<Event>, members: set<Event>) {
    Ascending(events) && forall e :: e in events <==> e in members
  }

  ghost predicate DistinctSequences(members: set<Event>) {
    forall e, f :: e in members && f in members && e.sequence == f.sequence ==> e == f
  }

  /** The ascending list of `members`; empty when two members share a sequence number. */
  ghost function Listing(members: set<Event>): seq<Event> {
    if exists events :: IsListing(events, members)
    then var events :| IsListing(events, members); events
    else []
  }

  lemma {:induction false} ListingIsUnique(left: seq<Event>, right: seq<Event>, members: set<Event>)
    requires IsListing(left, members) && IsListing(right, members)
    ensures left == right
  {
    if left != [] { assert left[0] in right; }
    if right != [] { assert right[0] in left; }
    if left != [] {
      assert left[0] == right[0];
      forall e ensures e in left[1..] <==> e in members - {left[0]} {
        if e in left[1..] { var i :| 1 <= i < |left| && left[i] == e; }
      }
      forall e ensures e in right[1..] <==> e in members - {left[0]} {
        if e in right[1..] { var i :| 1 <= i < |right| && right[i] == e; }
      }
      ListingIsUnique(left[1..], right[1..], members - {left[0]});
    }
  }

  /** Where a stable sort places an event: after every event that is not later. */
  function InsertionPoint(events: seq<Event>, e: Event): (p: nat)
    ensures p <= |events|
    ensures p > 0 ==> events[p - 1].sequence <= e.sequence
    ensures forall i :: p <= i < |events| ==> e.sequence < events[i].sequence
  {
    if events == [] || events[|events| - 1].sequence <= e.sequence then |events|
    else InsertionPoint(events[..|events| - 1], e)
  }

  function Inserted(events: seq<Event>, e: Event): seq<Event> {
    var p := InsertionPoint(events, e);
    events[..p] + [e] + events[p..]
  }

  lemma InsertedMembers(events: seq<Event>, e: Event, p: nat)
    requires p <= |events|
    ensures forall f :: f in events[..p] + [e] + events[p..] <==> f in events || f == e
  {
    assert events == events[..p] + events[p..];
  }

  lemma InsertedAscends(events: seq<Event>, e: Event, p: nat)
    requires Ascending(events) && p <= |events|
    requires p > 0 ==> events[p - 1].sequence < e.sequence
    requires p < |events| ==> e.sequence < events[p].sequence
    ensures Ascending(events[..p] + [e] + events[p..])
  {
  }

  lemma InsertedIsListing(events: seq<Event>, e: Event, members: set<Event>)
    requires IsListing(events, members)
    requires e !in members && DistinctSequences(members + {e})
    ensures IsListing(Inserted(events, e), members + {e})
  {
    var p := InsertionPoint(events, e);
    if p > 0 { assert events[p - 1] in members; }
    InsertedAscends(events, e, p);
    InsertedMembers(events, e, p);
  }

  lemma {:induction false} ListingExists(members: set<Event>)
    requires DistinctSequences(members)
    ensures IsListing(Listing(members), members)
    decreases members
  {
    if members == {} {
      assert IsListing([], members);
    } else {
      var e :| e in members;
      ListingExists(members - {e});
      InsertedIsListing(Listing(members - {e}), e, members - {e});
      assert members - {e} + {e} == members;
      assert IsListing(Inserted(Listing(members - {e}), e), members);
    }
  }

  /** Any way of listing the members in ascending order yields the same batch. */
  lemma ListingOf(events: seq<Event>, members: set<Event>)
    requires IsListing(events, members)
    ensures Listing(members) == events
  {
    ListingIsUnique(Listing(members), events, members);
  }

  lemma UniqueListing(members: set<Event>)
    requires DistinctSequences(members)
    ensures forall events :: IsListing(events, members) <==> events == Listing(members)
  {
    ListingExists(members);
    forall events | IsListing(events, members) ensures events == Listing(members) {
      ListingOf(events, members);
    }
  }

  ghost predicate PairwiseDistinct(ready: seq<Event>) {
    forall i, j :: 0 <= i < j < |ready| ==> ready[i].sequence != ready[j].sequence
  }

  ghost function Members(ready: seq<Event>): set<Event> {
    set e | e in ready
  }

  lemma NextMember(ready: seq<Event>, n: nat)
    requires PairwiseDistinct(ready) && n < |ready|
    ensures Members(ready[..n + 1]) == Members(ready[..n]) + {ready[n]}
    ensures ready[n] !in Members(ready[..n])
    ensures DistinctSequences(Members(ready[..n]) + {ready[n]})
  {
    assert ready[..n + 1] == ready[..n] + [ready[n]];
    forall e, f | e in ready && f in ready && e.sequence == f.sequence ensures e == f {
      var i :| 0 <= i < |ready| && ready[i] == e;
      var j :| 0 <= j < |ready| && ready[j] == f;
      assert i == j;
    }
  }

  /** A stable insertion sort by sequence; for distinct sequence numbers the
      result depends on the set of its input alone, whatever order it came in. */
  method OrderedEvents(ready: seq<Event>) returns (events: seq<Event>)
    requires PairwiseDistinct(ready)
    ensures events == Listing(Members(ready))
    ensures IsListing(events, Members(ready))
  {
    events := [];
    for n := 0 to |ready|
      invariant IsListing(events, Members(ready[..n]))
    {
      var p := |events|;
      while p > 0 && events[p - 1].sequence > ready[n].sequence
        invariant 0 <= p <= |events|
        invariant forall i :: p <= i < |events| ==> ready[n].sequence < events[i].sequence
      {
        p := p - 1;
      }
      NextMember(ready, n);
      PointIsInsertionPoint(events, ready[n], p);
      InsertedIsListing(events, ready[n], Members(ready[..n]));
      events := events[..p] + [ready[n]] + events[p..];
    }
    assert ready[..|ready|] == ready;
    ListingOf(events, Members(ready));
  }

  lemma {:induction false} PointIsInsertionPoint(events: seq<Event>, e: Event, p: nat)
    requires p <= |events|
    requires p > 0 ==> events[p - 1].sequence <= e.sequence
    requires forall i :: p <= i < |events| ==> e.sequence < events[i].sequence
    ensures p == InsertionPoint(events, e)
  {
    if p < |events| {
      PointIsInsertionPoint(events[..|events| - 1], e, p);
    }
  }
}
