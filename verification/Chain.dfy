/** Retained generations: their order, which of them form an unbroken chain to the
    active file, and where recovery starts. */
module Chain {
  import opened Follower
  import opened Lines
  import opened Records

  /** Generation numbers are 64-bit: subtracting from zero is not defined. */
  newtype uint64 = x: int | 0 <= x < 0x1_0000_0000_0000_0000

  /** A file next to the configured input: `.N` for a retained generation. */
  datatype Candidate = Candidate(identity: Identity, current: bool, number: uint64, content: seq<byte>)

  datatype Discovery = Nothing | Ambiguous | PathPending | Found(candidates: seq<Candidate>)

  /** Directory entries have distinct names, so at most one is the input path itself. */
  ghost predicate OnePath(entries: seq<Candidate>) {
    forall i, j :: 0 <= i < j < |entries| ==> !(entries[i].current && entries[j].current)
  }

  ghost predicate DistinctIdentities(cs: seq<Candidate>) {
    forall i, j :: 0 <= i < j < |cs| ==> cs[i].identity != cs[j].identity
  }

  /** Two retained files claim the same place in the order. */
  ghost predicate SamePlace(a: Candidate, b: Candidate) {
    !a.current && !b.current && a.number == b.number
  }

  ghost predicate Unambiguous(cs: seq<Candidate>) {
    forall i, j :: 0 <= i < j < |cs| ==> !SamePlace(cs[i], cs[j])
  }

  /** `a` is older than `b`. */
  predicate Older(a: Candidate, b: Candidate) {
    if a.current != b.current then !a.current else a.number > b.number
  }

  /** Oldest first, the active file last. */
  ghost predicate OldestFirst(cs: seq<Candidate>) {
    && (forall i, j :: 0 <= i < j < |cs| ==> Older(cs[i], cs[j]))
    && cs != [] && cs[|cs| - 1].current
    && (forall i :: 0 <= i < |cs| - 1 ==> !cs[i].current)
  }

  ghost predicate Descends(cs: seq<Candidate>) {
    forall i, j :: 0 <= i < j < |cs| ==> Older(cs[i], cs[j])
  }

  lemma InsertedDescends(cs: seq<Candidate>, c: Candidate, p: nat)
    requires Descends(cs) && p <= |cs|
    requires forall i :: 0 <= i < p ==> Older(cs[i], c)
    requires forall i :: p <= i < |cs| ==> Older(c, cs[i])
    ensures Descends(cs[..p] + [c] + cs[p..])
  {
  }

  lemma InsertedSame(cs: seq<Candidate>, c: Candidate, p: nat, done: seq<Candidate>)
    requires p <= |cs| && multiset(cs) == multiset(done)
    ensures multiset(cs[..p] + [c] + cs[p..]) == multiset(done + [c])
  {
    assert cs == cs[..p] + cs[p..];
  }

  /** Order the directory entries, or say why they have no order. */
  method Discover(entries: seq<Candidate>) returns (d: Discovery)
    requires OnePath(entries)
    ensures d.Nothing? <==> entries == []
    ensures d.Ambiguous? <==> !(DistinctIdentities(entries) && Unambiguous(entries))
    ensures d.PathPending? <==>
      entries != [] && DistinctIdentities(entries) && Unambiguous(entries) && forall c :: c in entries ==> !c.current
    ensures d.Found? ==>
      && d.candidates != [] && d.candidates[|d.candidates| - 1].current
      && forall i, j :: 0 <= i < j < |d.candidates| - 1 ==>
           !d.candidates[i].current && d.candidates[i].number > d.candidates[j].number
    ensures d.Found? ==>
      multiset(d.candidates) == multiset(entries) && OldestFirst(d.candidates) && DistinctIdentities(d.candidates)
  {
    if entries == [] {
      return Nothing;
    }
    for i := 0 to |entries|
      invariant forall a, b :: 0 <= a < b < |entries| && a < i ==>
        entries[a].identity != entries[b].identity && !SamePlace(entries[a], entries[b])
    {
      for j := i + 1 to |entries|
        invariant forall b :: i < b < j ==>
          entries[i].identity != entries[b].identity && !SamePlace(entries[i], entries[b])
      {
        if entries[i].identity == entries[j].identity ||
           (!entries[i].current && !entries[j].current && entries[i].number == entries[j].number) {
          assert entries[i].identity == entries[j].identity || SamePlace(entries[i], entries[j]);
          return Ambiguous;
        }
      }
    }
    var sorted := Sort(entries);
    if !sorted[|sorted| - 1].current {
      NoCurrent(entries, sorted);
      return PathPending;
    }
    SortedIsOldestFirst(entries, sorted);
    return Discovery.Found(sorted);
  }

  method Sort(entries: seq<Candidate>) returns (sorted: seq<Candidate>)
    requires OnePath(entries) && Unambiguous(entries)
    ensures Descends(sorted) && multiset(sorted) == multiset(entries)
    ensures |sorted| == |entries|
  {
    sorted := [];
    for n := 0 to |entries|
      invariant Descends(sorted) && multiset(sorted) == multiset(entries[..n])
    {
      sorted := Insert(entries, n, sorted);
    }
    assert entries[..|entries|] == entries;
    assert |multiset(sorted)| == |multiset(entries)|;
  }

  /** The next entry goes before the first one it is older than. */
  method Insert(entries: seq<Candidate>, n: nat, sorted: seq<Candidate>) returns (more: seq<Candidate>)
    requires OnePath(entries) && Unambiguous(entries) && n < |entries|
    requires Descends(sorted) && multiset(sorted) == multiset(entries[..n])
    ensures Descends(more) && multiset(more) == multiset(entries[..n + 1])
  {
    var c := entries[n];
    var p := InsertionPoint(entries, n, sorted);
    InsertedDescends(sorted, c, p);
    InsertedSame(sorted, c, p, entries[..n]);
    assert entries[..n + 1] == entries[..n] + [c];
    more := sorted[..p] + [c] + sorted[p..];
  }

  method InsertionPoint(entries: seq<Candidate>, n: nat, sorted: seq<Candidate>) returns (p: nat)
    requires OnePath(entries) && Unambiguous(entries) && n < |entries|
    requires Descends(sorted) && multiset(sorted) == multiset(entries[..n])
    ensures p <= |sorted| && forall i :: 0 <= i < p ==> Older(sorted[i], entries[n])
    ensures forall i :: p <= i < |sorted| ==> Older(entries[n], sorted[i])
  {
    p := |sorted|;
    while p > 0 && !Older(sorted[p - 1], entries[n])
      invariant 0 <= p <= |sorted|
      invariant forall i :: p <= i < |sorted| ==> Older(entries[n], sorted[i])
    {
      var k := IndexIn(sorted[p - 1], sorted, entries[..n]);
      assert !SamePlace(entries[k], entries[n]);
      p := p - 1;
    }
  }

  /** An element of a permutation is found in the original. */
  lemma IndexIn(c: Candidate, cs: seq<Candidate>, done: seq<Candidate>) returns (k: nat)
    requires c in cs && multiset(cs) == multiset(done)
    ensures k < |done| && done[k] == c
  {
    assert c in multiset(done);
    k :| 0 <= k < |done| && done[k] == c;
  }

  lemma NoCurrent(entries: seq<Candidate>, sorted: seq<Candidate>)
    requires multiset(sorted) == multiset(entries) && Descends(sorted) && sorted != [] && !sorted[|sorted| - 1].current
    ensures forall c :: c in entries ==> !c.current
  {
    forall c | c in entries ensures !c.current {
      assert c in multiset(sorted);
      var i :| 0 <= i < |sorted| && sorted[i] == c;
      if i < |sorted| - 1 { assert Older(sorted[i], sorted[|sorted| - 1]); }
    }
  }

  lemma SortedIsOldestFirst(entries: seq<Candidate>, sorted: seq<Candidate>)
    requires multiset(sorted) == multiset(entries) && Descends(sorted) && sorted != [] && sorted[|sorted| - 1].current
    requires OnePath(entries) && DistinctIdentities(entries)
    ensures OldestFirst(sorted) && DistinctIdentities(sorted)
    ensures exists c :: c in entries && c.current
  {
    var last := |sorted| - 1;
    var l := IndexIn(sorted[last], sorted, entries);
    forall i | 0 <= i < last ensures !sorted[i].current {
      assert Older(sorted[i], sorted[last]);
      var k := IndexIn(sorted[i], sorted, entries);
      var kept, active := entries[k].current, entries[l].current;
      assert active && (kept ==> k == l);
    }
    forall i, j | 0 <= i < j < |sorted| ensures sorted[i].identity != sorted[j].identity {
      assert Older(sorted[i], sorted[j]);
      var a := IndexIn(sorted[i], sorted, entries);
      var b := IndexIn(sorted[j], sorted, entries);
    }
  }

  // ---------- contiguity ----------

  /** The number the file before `newer` must carry, less one. */
  function Expected(newer: Candidate): uint64 { if newer.current then 0 else newer.number }

  predicate Link(older: Candidate, newer: Candidate) {
    !older.current && older.number != 0 && older.number - 1 == Expected(newer)
  }

  ghost predicate Contiguous(cs: seq<Candidate>) {
    forall i :: 0 <= i < |cs| - 1 ==> Link(cs[i], cs[i + 1])
  }

  /** The older file is retained and one above the newer, the active one counting as zero. */
  predicate OneAbove(older: Candidate, newer: Candidate) {
    !older.current && older.number as int == 1 + if newer.current then 0 else newer.number as int
  }

  lemma LinkInNumbers(older: Candidate, newer: Candidate)
    ensures Link(older, newer) <==> OneAbove(older, newer)
  {
  }

  lemma ContiguousInNumbers(cs: seq<Candidate>)
    ensures Contiguous(cs) <==> forall i :: 0 <= i < |cs| - 1 ==> OneAbove(cs[i], cs[i + 1])
  {
    forall i | 0 <= i < |cs| - 1 ensures Link(cs[i], cs[i + 1]) <==> OneAbove(cs[i], cs[i + 1]) {
      LinkInNumbers(cs[i], cs[i + 1]);
    }
  }

  /** The chain is broken behind file `n`, and nowhere before. */
  predicate BreaksAt(cs: seq<Candidate>, n: nat) {
    n + 1 < |cs| && !OneAbove(cs[n], cs[n + 1]) && forall j :: 0 <= j < n ==> OneAbove(cs[j], cs[j + 1])
  }

  /** Nothing, or the file behind which the first gap is. */
  method ValidateChain(cs: seq<Candidate>) returns (broken: Option<nat>)
    ensures broken.None? <==> Contiguous(cs)
    ensures broken.Some? ==> BreaksAt(cs, broken.value)
  {
    var i := 0;
    while i + 1 < |cs|
      invariant 0 <= i && (i < |cs| || i == 0)
      invariant forall j :: 0 <= j < i ==> Link(cs[j], cs[j + 1])
    {
      var older, newer := cs[i], cs[i + 1];
      var expected: uint64 := 0;
      if !newer.current {
        expected := newer.number;
      }
      if older.current || older.number == 0 || older.number - 1 != expected {
        assert !Link(cs[i], cs[i + 1]);
        return Some(i);
      }
      i := i + 1;
    }
    return None;
  }

  /** Where recovery starts: the oldest file from which the chain is unbroken. */
  method RecoveryStart(cs: seq<Candidate>) returns (start: nat)
    requires OldestFirst(cs)
    ensures start < |cs|
    ensures forall i :: 0 <= i < |cs| ==> (Contiguous(cs[i..]) <==> start <= i)
    ensures forall i :: start <= i < |cs| - 1 ==> cs[i].number as int == |cs| - 1 - i
    ensures start > 0 ==> !Link(cs[start - 1], cs[start]) && cs[start - 1].number as int != |cs| - start
  {
    start := |cs| - 1;
    while start > 0
      invariant 0 <= start < |cs|
      invariant forall i :: start <= i < |cs| - 1 ==> Link(cs[i], cs[i + 1]) && cs[i].number as int == |cs| - 1 - i
    {
      var older, newer := cs[start - 1], cs[start];
      var expected: uint64 := 0;
      if !newer.current {
        expected := newer.number;
      }
      if older.number == 0 || older.number - 1 != expected {
        break;
      }
      start := start - 1;
    }
    forall i | 0 <= i < |cs| ensures Contiguous(cs[i..]) <==> start <= i {
      SuffixIsContiguous(cs, start, i);
    }
  }

  lemma SuffixIsContiguous(cs: seq<Candidate>, start: nat, i: nat)
    requires start < |cs| && i < |cs|
    requires forall j :: start <= j < |cs| - 1 ==> Link(cs[j], cs[j + 1])
    requires start > 0 ==> !Link(cs[start - 1], cs[start])
    ensures Contiguous(cs[i..]) <==> start <= i
  {
    var suffix := cs[i..];
    if start <= i {
      forall j | 0 <= j < |suffix| - 1 ensures Link(suffix[j], suffix[j + 1]) {
        assert Link(cs[i + j], cs[i + j + 1]);
      }
    } else {
      assert suffix[start - 1 - i] == cs[start - 1] && suffix[start - i] == cs[start];
      assert !Link(suffix[start - 1 - i], suffix[start - 1 - i + 1]);
    }
  }
}
