/** Nothing is lost, duplicated, reordered or moved between keys: for every key,
    the records emitted so far followed by those still pending are exactly the
    records received so far.  EOE records carry no evidence and are set aside. */
module StreamPreservation {
  import opened Records
  import opened EventOrder
  import opened AssemblerSpec
  import opened AssemblerInvariants
  import opened Sequences

  // ---------- evidence ----------

  function Payload(k: Key, records: seq<Record>): seq<Record> {
    if records == [] then []
    else Payload(k, records[..|records| - 1]) +
         var r := records[|records| - 1]; if r.key == k && !r.kind.EOE? then [r] else []
  }

  lemma {:induction false} PayloadOfConcat(k: Key, a: seq<Record>, b: seq<Record>)
    ensures Payload(k, a + b) == Payload(k, a) + Payload(k, b)
  {
    if b == [] {
      assert a + b == a;
    } else {
      var front, last := b[..|b| - 1], b[|b| - 1];
      PayloadOfConcat(k, a, front);
      assert (a + b)[..|a + b| - 1] == a + front;
      Associate(Payload(k, a), Payload(k, front), if last.key == k && !last.kind.EOE? then [last] else []);
    }
  }

  lemma {:induction false} PayloadOfOthers(k: Key, records: seq<Record>)
    requires forall r :: r in records ==> r.key != k
    ensures Payload(k, records) == []
  {
    if records != [] { PayloadOfOthers(k, records[..|records| - 1]); }
  }

  /** The records of one key over a list of events, in emission order. */
  function Stream(k: Key, events: seq<Event>): seq<Record> {
    if events == [] then []
    else Stream(k, events[..|events| - 1]) + Payload(k, events[|events| - 1].records)
  }

  lemma {:induction false} StreamOfConcat(k: Key, a: seq<Event>, b: seq<Event>)
    ensures Stream(k, a + b) == Stream(k, a) + Stream(k, b)
  {
    if b == [] {
      assert a + b == a;
    } else {
      var front, last := b[..|b| - 1], b[|b| - 1];
      StreamOfConcat(k, a, front);
      assert (a + b)[..|a + b| - 1] == a + front;
      Associate(Stream(k, a), Stream(k, front), Payload(k, last.records));
    }
  }

  // ---------- who owns an event ----------

  ghost predicate Owns(k: Key, e: Event) {
    e.records != [] && forall r :: r in e.records ==> r.key == k
  }

  /** An event that has nothing to say about `k`. */
  ghost predicate Silent(k: Key, e: Event) {
    forall r :: r in e.records ==> r.key != k
  }

  lemma {:induction false} StreamOfOthers(k: Key, events: seq<Event>)
    requires forall i :: 0 <= i < |events| ==> Silent(k, events[i])
    ensures Stream(k, events) == []
  {
    if events != [] {
      PayloadOfOthers(k, events[|events| - 1].records);
      StreamOfOthers(k, events[..|events| - 1]);
    }
  }

  lemma StreamOfOne(k: Key, batch: seq<Event>, i: nat)
    requires i < |batch|
    requires forall j :: 0 <= j < |batch| && j != i ==> Silent(k, batch[j])
    ensures Stream(k, batch) == Payload(k, batch[i].records)
  {
    var a, b := batch[..i], batch[i + 1..];
    assert batch == a + ([batch[i]] + b);
    StreamOfOthers(k, a);
    StreamOfOthers(k, b);
    StreamOfConcat(k, a, [batch[i]] + b);
    StreamOfConcat(k, [batch[i]], b);
    assert Stream(k, [batch[i]]) == Stream(k, []) + Payload(k, batch[i].records);
  }

  lemma StreamOfTwo(k: Key, batch: seq<Event>, i: nat, j: nat)
    requires i < j < |batch|
    requires forall m :: 0 <= m < |batch| && m != i && m != j ==> Silent(k, batch[m])
    ensures Stream(k, batch) == Payload(k, batch[i].records) + Payload(k, batch[j].records)
  {
    var a, b := batch[..j], batch[j..];
    assert batch == a + b;
    StreamOfOne(k, a, i);
    StreamOfOne(k, b, 0);
    StreamOfConcat(k, a, b);
  }

  // ---------- the flow of one call, key by key ----------

  /** Everything a call must account for: what the key holds and what arrives. */
  ghost function Due(s: State, input: seq<Record>, k: Key): seq<Record> {
    Payload(k, Held(s, k)) + Payload(k, input)
  }

  /** Only a key that was pending or that arrives can be concerned. */
  ghost predicate Known(s: State, input: seq<Record>, k: Key) {
    k in s.pending || exists r :: r in input && r.key == k
  }

  /** The key emits nothing and still holds all that is due. */
  ghost predicate Stays(s: State, input: seq<Record>, o: Outcome, k: Key) {
    && (forall f :: f in o.events ==> Silent(k, f))
    && Payload(k, Held(o.state, k)) == Due(s, input, k)
    && (k in o.state.pending ==> o.state.pending[k].sequence == SequenceFor(s, k) && Known(s, input, k))
  }

  /** The key leaves in the single event `e`, with all that is due. */
  ghost predicate Departs(s: State, input: seq<Record>, o: Outcome, k: Key, e: Event) {
    && e in o.events && (forall f :: f in o.events && f != e ==> Silent(k, f))
    && Owns(k, e) && Known(s, input, k)
    && Payload(k, e.records) == Due(s, input, k)
    && e.sequence == SequenceFor(s, k)
    && k !in o.state.pending
  }

  ghost predicate Flows(s: State, input: seq<Record>, o: Outcome, k: Key) {
    Stays(s, input, o, k) || exists e :: Departs(s, input, o, k, e)
  }

  lemma JoinedHolds(k: Key, held: seq<Record>, record: Record)
    ensures Payload(k, held + [record]) == Payload(k, held) + Payload(k, [record])
    ensures record.key != k ==> Payload(k, [record]) == []
    ensures record.kind.EOE? ==> Payload(k, [record]) == []
  {
    PayloadOfConcat(k, held, [record]);
    assert [record][..0] == [];
  }

  lemma ExceptionalFlows(s: State, record: Record, o: Outcome, e: Event, k: Key)
    requires OwnsRecords(s.pending)
    requires o.events == {e}
    requires e.records == Held(s, record.key) + [record] && e.sequence == SequenceFor(s, record.key)
    requires record.key !in o.state.pending
    requires k != record.key ==>
      Held(o.state, k) == Held(s, k) &&
      (k in o.state.pending ==> k in s.pending && o.state.pending[k].sequence == s.pending[k].sequence)
    ensures Flows(s, [record], o, k)
  {
    if k == record.key {
      ExceptionalDeparts(s, record, o, e);
    } else {
      ExceptionalIsSilent(s, record, e, k);
      JoinedHolds(k, [], record);
      assert Due(s, [record], k) == Payload(k, Held(s, k));
      assert Stays(s, [record], o, k);
    }
  }

  lemma ExceptionalDeparts(s: State, record: Record, o: Outcome, e: Event)
    requires OwnsRecords(s.pending)
    requires o.events == {e}
    requires e.records == Held(s, record.key) + [record] && e.sequence == SequenceFor(s, record.key)
    requires record.key !in o.state.pending
    ensures Departs(s, [record], o, record.key, e)
  {
    assert record in [record];
    JoinedHolds(record.key, Held(s, record.key), record);
  }

  lemma ExceptionalIsSilent(s: State, record: Record, e: Event, k: Key)
    requires OwnsRecords(s.pending) && k != record.key
    requires e.records == Held(s, record.key) + [record]
    ensures Silent(k, e)
  {
  }

  lemma CloseFullGroupFlows(s: State, record: Record, k: Key)
    requires OwnsRecords(s.pending)
    requires record.key in s.pending && record.kind.EOE?
    ensures Flows(s, [record], CloseFullGroup(s, record.key), k)
  {
    var o := CloseFullGroup(s, record.key);
    assert record in [record];
    JoinedHolds(k, Held(s, record.key), record);
    if k == record.key {
      var e :| e in o.events;
      assert Departs(s, [record], o, k, e);
    } else {
      assert Stays(s, [record], o, k);
    }
  }

  lemma OthersStay(s: State, record: Record, o: Outcome, k: Key)
    requires k != record.key
    requires SameEvidence(s.pending, o.state.pending, record.key) &&
      o.state.pending.Keys <= s.pending.Keys + {record.key}
    requires forall f :: f in o.events ==> Owns(record.key, f)
    ensures Stays(s, [record], o, k)
  {
    JoinedHolds(k, [], record);
  }

  lemma OwnerStays(s: State, record: Record, o: Outcome, g: Group)
    requires OwnsRecords(s.pending)
    requires g.records == Held(s, record.key) + [record] && g.sequence == SequenceFor(s, record.key)
    requires record.key in o.state.pending && o.events == {} && o.state.pending[record.key] == g
    ensures Stays(s, [record], o, record.key)
  {
    assert record in [record];
    JoinedHolds(record.key, Held(s, record.key), record);
  }

  lemma OwnerDeparts(s: State, record: Record, o: Outcome, g: Group, completion: Completion)
    requires OwnsRecords(s.pending)
    requires g.records == Held(s, record.key) + [record] && g.sequence == SequenceFor(s, record.key)
    requires record.key !in o.state.pending && o.events == {Finished(record.key, g, completion, true)}
    ensures Departs(s, [record], o, record.key, Finished(record.key, g, completion, true))
  {
    assert record in [record];
    JoinedHolds(record.key, Held(s, record.key), record);
  }

  lemma OwnerFlows(s: State, record: Record, o: Outcome, g: Group, completion: Completion)
    requires OwnsRecords(s.pending)
    requires g.records == Held(s, record.key) + [record] && g.sequence == SequenceFor(s, record.key)
    requires if record.key in o.state.pending then o.events == {} && o.state.pending[record.key] == g
             else o.events == {Finished(record.key, g, completion, true)}
    ensures Flows(s, [record], o, record.key)
  {
    if record.key in o.state.pending {
      OwnerStays(s, record, o, g);
    } else {
      OwnerDeparts(s, record, o, g, completion);
    }
  }

  lemma ClosedFlows(cfg: Config, s: State, record: Record, now: int, k: Key)
    requires OwnsRecords(s.pending)
    ensures Flows(s, [record], Closed(cfg, s, record, now), k)
  {
    var o := Closed(cfg, s, record, now);
    JoinedShape(cfg, s, record, now);
    if k != record.key {
      OthersStay(s, record, o, k);
    } else {
      OwnerFlows(s, record, o, Extended(s, record, now), FinishCompletion(record.kind));
    }
  }

  lemma ExpiredAreSilent(cfg: Config, s: State, now: int, k: Key, f: Event)
    requires OwnsRecords(s.pending)
    requires f in ExpiredEvents(cfg, s, now)
    requires k in ExpiredKeys(cfg, s, now) ==> f != ExpiryEvent(cfg, s.clock.latest, k, s.pending[k])
    ensures Silent(k, f)
  {
    var l :| l in ExpiredKeys(cfg, s, now) && f == ExpiryEvent(cfg, s.clock.latest, l, s.pending[l]);
    assert l != k;
  }

  lemma ThenExpireFlows(cfg: Config, s: State, input: seq<Record>, o: Outcome, now: int, k: Key)
    requires Flows(s, input, o, k) && OwnsRecords(o.state.pending)
    ensures Flows(s, input, ThenExpire(cfg, o, now), k)
  {
    var p := ThenExpire(cfg, o, now);
    var expired := ExpiredEvents(cfg, o.state, now);
    if k in ExpiredKeys(cfg, o.state, now) {
      var e := ExpiryEvent(cfg, o.state.clock.latest, k, o.state.pending[k]);
      forall f | f in expired && f != e ensures Silent(k, f) { ExpiredAreSilent(cfg, o.state, now, k, f); }
      assert Departs(s, input, p, k, e);
    } else {
      forall f | f in expired ensures Silent(k, f) { ExpiredAreSilent(cfg, o.state, now, k, f); }
      if Stays(s, input, o, k) {
        assert Stays(s, input, p, k);
      } else {
        var e :| Departs(s, input, o, k, e);
        assert Departs(s, input, p, k, e);
      }
    }
  }

  lemma LoneEOEFlows(s: State, record: Record, k: Key)
    requires record.kind.EOE?
    ensures Flows(s, [record], Outcome(s.(pending := Remark(s.pending, record.key, false)), {}, None), k)
  {
    JoinedHolds(k, [], record);
    assert Stays(s, [record], Outcome(s.(pending := Remark(s.pending, record.key, false)), {}, None), k);
  }

  lemma OverflowFlows(cfg: Config, s: State, record: Record, now: int, name: LimitName, k: Key)
    requires OwnsRecords(s.pending)
    ensures Flows(s, [record], Overflow(cfg, s, record, now, name), k)
  {
    var o := Overflow(cfg, s, record, now, name);
    ExceptionalFlows(s, record, o,
      ExceptionalEvent(SequenceFor(s, record.key), record.key.id, Held(s, record.key) + [record]), k);
  }

  lemma AdmitFlows(cfg: Config, s: State, record: Record, now: int, k: Key)
    requires ValidConfig(cfg) && Invariant(cfg, s) && record.key !in s.rejected
    ensures Flows(s, [record], Admit(cfg, s, record, now), k)
  {
    if record.kind.EOE? && record.key !in s.pending {
      var o := Outcome(s.(pending := Remark(s.pending, record.key, false)), {}, None);
      LoneEOEFlows(s, record, k);
      RemarkingIsSound(cfg, s, record.key);
      ThenExpireFlows(cfg, s, [record], o, now, k);
    } else {
      match CheckLimits(cfg, s, record)
      case Some(name) => OverflowFlows(cfg, s, record, now, name, k);
      case None =>
        ClosedFlows(cfg, s, record, now, k);
        ClosedIsSound(cfg, s, record, now);
        ThenExpireFlows(cfg, s, [record], Closed(cfg, s, record, now), now, k);
    }
  }

  lemma DispatchFlows(cfg: Config, s: State, record: Record, now: int, k: Key)
    requires ValidConfig(cfg) && Invariant(cfg, s)
    ensures Flows(s, [record], Dispatch(cfg, s, record, now), k)
  {
    if record.key in s.rejected {
      assert [] + [record] == [record];
      ExceptionalFlows(s, record, Reject(s, record, now),
        ExceptionalEvent(SequenceFor(s, record.key), record.key.id, [record]), k);
    } else if ClosesFullGroup(cfg, s, record) {
      CloseFullGroupFlows(s, record, k);
    } else if record.key !in s.pending && s.spillSince.Some? {
      assert [] + [record] == [record];
      ExceptionalFlows(s, record, Fence(cfg, s, record, now),
        ExceptionalEvent(s.nextSequence, record.key.id, [record]), k);
    } else {
      AdmitFlows(cfg, s, record, now, k);
    }
  }

  // ---------- numbering of a batch ----------

  ghost predicate Evident(events: set<Event>) {
    forall e :: e in events ==> e.records != []
  }

  /** An event's number is that of its owner, so a call's events are all distinct. */
  lemma OwnerOf(s: State, input: seq<Record>, o: Outcome, e: Event)
    requires e in o.events && e.records != []
    requires Flows(s, input, o, e.records[0].key)
    ensures Departs(s, input, o, e.records[0].key, e)
  {
    assert !Silent(e.records[0].key, e);
  }

  lemma ExpiredAreEvident(cfg: Config, s: State, now: int)
    requires OwnsRecords(s.pending)
    ensures Evident(ExpiredEvents(cfg, s, now))
  {
  }

  lemma ClosedIsEvident(cfg: Config, s: State, record: Record, now: int)
    ensures Evident(Closed(cfg, s, record, now).events)
  {
    JoinedShape(cfg, s, record, now);
  }

  lemma AdmitIsEvident(cfg: Config, s: State, record: Record, now: int)
    requires ValidConfig(cfg) && Invariant(cfg, s) && record.key !in s.rejected
    ensures Evident(Admit(cfg, s, record, now).events)
  {
    if record.kind.EOE? && record.key !in s.pending {
      RemarkingIsSound(cfg, s, record.key);
      ExpiredAreEvident(cfg, s.(pending := Remark(s.pending, record.key, false)), now);
    } else if CheckLimits(cfg, s, record) == None {
      ClosedIsSound(cfg, s, record, now);
      ClosedIsEvident(cfg, s, record, now);
      ExpiredAreEvident(cfg, Closed(cfg, s, record, now).state, now);
    }
  }

  lemma DispatchIsEvident(cfg: Config, s: State, record: Record, now: int)
    requires ValidConfig(cfg) && Invariant(cfg, s)
    ensures Evident(Dispatch(cfg, s, record, now).events)
  {
    if record.key in s.rejected {
    } else if ClosesFullGroup(cfg, s, record) {
    } else if record.key !in s.pending && s.spillSince.Some? {
    } else {
      AdmitIsEvident(cfg, s, record, now);
    }
  }

  ghost predicate AllFlow(s: State, input: seq<Record>, o: Outcome) {
    Evident(o.events) && forall k :: Flows(s, input, o, k)
  }

  lemma FlowingEventsAreDistinct(s: State, input: seq<Record>, o: Outcome)
    requires Numbered(s.pending, s.nextSequence) && |input| <= 1 && AllFlow(s, input, o)
    ensures DistinctSequences(o.events)
  {
    forall e, f | e in o.events && f in o.events && e.sequence == f.sequence ensures e == f {
      var k, l := e.records[0].key, f.records[0].key;
      assert Flows(s, input, o, k) && Flows(s, input, o, l);
      OwnerOf(s, input, o, e);
      OwnerOf(s, input, o, f);
      assert k == l;
    }
  }

  // ---------- stale groups leave ahead of the record that found them ----------

  /** A stale event: its owner was pending and is swept away with it. */
  lemma StaleOwner(cfg: Config, s: State, now: int, e: Event)
    requires OwnsRecords(s.pending)
    requires e in ExpiredEvents(cfg, s, now)
    ensures e.records != []
    ensures
      var k := e.records[0].key;
      k in ExpiredKeys(cfg, s, now) && e == ExpiryEvent(cfg, s.clock.latest, k, s.pending[k])
  {
  }

  lemma StaleFirst(cfg: Config, s: State, now: int, input: seq<Record>, o: Outcome, e: Event, f: Event)
    requires OwnsRecords(s.pending) && Numbered(s.pending, s.nextSequence)
    requires AllFlow(Swept(cfg, s, now), input, o)
    requires e in ExpiredEvents(cfg, s, now) && f in o.events
    ensures e.sequence != f.sequence
    ensures e.records[0].key == f.records[0].key ==> e.sequence < f.sequence
  {
    StaleOwner(cfg, s, now, e);
    assert Flows(Swept(cfg, s, now), input, o, f.records[0].key);
    OwnerOf(Swept(cfg, s, now), input, o, f);
  }

  lemma StaleAreDistinct(cfg: Config, s: State, now: int)
    requires OwnsRecords(s.pending) && Numbered(s.pending, s.nextSequence)
    ensures DistinctSequences(ExpiredEvents(cfg, s, now))
  {
    forall e, f | e in ExpiredEvents(cfg, s, now) && f in ExpiredEvents(cfg, s, now) && e.sequence == f.sequence
      ensures e == f
    {
      StaleOwner(cfg, s, now, e);
      StaleOwner(cfg, s, now, f);
    }
  }

  lemma MergedAreDistinct(cfg: Config, s: State, now: int, input: seq<Record>, o: Outcome)
    requires OwnsRecords(s.pending) && Numbered(s.pending, s.nextSequence)
    requires |input| <= 1 && AllFlow(Swept(cfg, s, now), input, o)
    ensures DistinctSequences(ExpiredEvents(cfg, s, now) + o.events)
  {
    var stale := ExpiredEvents(cfg, s, now);
    StaleAreDistinct(cfg, s, now);
    FlowingEventsAreDistinct(Swept(cfg, s, now), input, o);
    forall e, f | e in stale && f in o.events ensures e.sequence != f.sequence {
      StaleFirst(cfg, s, now, input, o, e, f);
    }
  }

  lemma DispatchAllFlow(cfg: Config, s: State, record: Record, now: int)
    requires ValidConfig(cfg) && Invariant(cfg, s)
    ensures AllFlow(s, [record], Dispatch(cfg, s, record, now))
  {
    DispatchIsEvident(cfg, s, record, now);
    forall k ensures Flows(s, [record], Dispatch(cfg, s, record, now), k) {
      DispatchFlows(cfg, s, record, now, k);
    }
  }

  // ---------- one batch ----------

  /** If at most `e` speaks of `k`, the batch says of `k` what `e` says. */
  lemma BatchOfOne(k: Key, members: set<Event>, e: Event)
    requires DistinctSequences(members)
    requires e in members && forall f :: f in members && f != e ==> Silent(k, f)
    ensures Stream(k, Listing(members)) == Payload(k, e.records)
  {
    ListingExists(members);
    var batch := Listing(members);
    var i :| 0 <= i < |batch| && batch[i] == e;
    forall j | 0 <= j < |batch| && j != i ensures Silent(k, batch[j]) {
      assert batch[j] in members && batch[j] != e;
    }
    StreamOfOne(k, batch, i);
  }

  lemma BatchOfNone(k: Key, members: set<Event>)
    requires DistinctSequences(members)
    requires forall f :: f in members ==> Silent(k, f)
    ensures Stream(k, Listing(members)) == []
  {
    ListingExists(members);
    forall j | 0 <= j < |Listing(members)| ensures Silent(k, Listing(members)[j]) {
      assert Listing(members)[j] in members;
    }
    StreamOfOthers(k, Listing(members));
  }

  lemma BatchOfTwo(k: Key, members: set<Event>, e: Event, f: Event)
    requires DistinctSequences(members)
    requires e in members && f in members && e.sequence < f.sequence
    requires forall g :: g in members && g != e && g != f ==> Silent(k, g)
    ensures Stream(k, Listing(members)) == Payload(k, e.records) + Payload(k, f.records)
  {
    ListingExists(members);
    var batch := Listing(members);
    var i :| 0 <= i < |batch| && batch[i] == e;
    var j :| 0 <= j < |batch| && batch[j] == f;
    forall m | 0 <= m < |batch| && m != i && m != j ensures Silent(k, batch[m]) {
      assert batch[m] in members && batch[m] != e && batch[m] != f;
    }
    StreamOfTwo(k, batch, i, j);
  }

  lemma FlowingBatch(s: State, input: seq<Record>, o: Outcome, k: Key)
    requires DistinctSequences(o.events) && Flows(s, input, o, k)
    ensures Stream(k, Listing(o.events)) + Payload(k, Held(o.state, k)) == Due(s, input, k)
  {
    if Stays(s, input, o, k) {
      BatchOfNone(k, o.events);
    } else {
      var e :| Departs(s, input, o, k, e);
      BatchOfOne(k, o.events, e);
    }
  }

  lemma DueOfNothing(s: State, k: Key)
    ensures Due(s, [], k) == Payload(k, Held(s, k))
  {
  }

  lemma DueOfAbsent(s: State, input: seq<Record>, k: Key)
    requires k !in s.pending
    ensures Due(s, input, k) == Payload(k, input) && Payload(k, Held(s, k)) == []
  {
  }

  /** The key's group expired in the sweep; its record, if any, comes later. */
  lemma StaleBatch(cfg: Config, s: State, now: int, input: seq<Record>, o: Outcome, k: Key)
    requires OwnsRecords(s.pending) && Numbered(s.pending, s.nextSequence)
    requires |input| <= 1 && AllFlow(Swept(cfg, s, now), input, o)
    requires DistinctSequences(ExpiredEvents(cfg, s, now) + o.events)
    requires k in ExpiredKeys(cfg, s, now)
    ensures Stream(k, Listing(ExpiredEvents(cfg, s, now) + o.events)) + Payload(k, Held(o.state, k)) == Due(s, input, k)
  {
    var stale, swept := ExpiredEvents(cfg, s, now), Swept(cfg, s, now);
    var e := ExpiryEvent(cfg, s.clock.latest, k, s.pending[k]);
    assert Flows(swept, input, o, k);
    DueOfAbsent(swept, input, k);
    forall f | f in stale && f != e ensures Silent(k, f) { ExpiredAreSilent(cfg, s, now, k, f); }
    if Stays(swept, input, o, k) {
      BatchOfOne(k, stale + o.events, e);
    } else {
      var f :| Departs(swept, input, o, k, f);
      StaleFirst(cfg, s, now, input, o, e, f);
      BatchOfTwo(k, stale + o.events, e, f);
      DueOfAbsent(o.state, input, k);
    }
  }

  lemma FreshBatch(cfg: Config, s: State, now: int, input: seq<Record>, o: Outcome, k: Key)
    requires OwnsRecords(s.pending) && AllFlow(Swept(cfg, s, now), input, o)
    requires DistinctSequences(ExpiredEvents(cfg, s, now) + o.events)
    requires k !in ExpiredKeys(cfg, s, now)
    ensures Stream(k, Listing(ExpiredEvents(cfg, s, now) + o.events)) + Payload(k, Held(o.state, k)) == Due(s, input, k)
  {
    var stale, swept := ExpiredEvents(cfg, s, now), Swept(cfg, s, now);
    assert Flows(swept, input, o, k);
    assert Due(swept, input, k) == Due(s, input, k);
    forall f | f in stale ensures Silent(k, f) { ExpiredAreSilent(cfg, s, now, k, f); }
    if Stays(swept, input, o, k) {
      BatchOfNone(k, stale + o.events);
    } else {
      var f :| Departs(swept, input, o, k, f);
      BatchOfOne(k, stale + o.events, f);
    }
  }

  lemma MergedBatch(cfg: Config, s: State, now: int, input: seq<Record>, o: Outcome, k: Key)
    requires OwnsRecords(s.pending) && Numbered(s.pending, s.nextSequence)
    requires |input| <= 1 && AllFlow(Swept(cfg, s, now), input, o)
    ensures Stream(k, Listing(ExpiredEvents(cfg, s, now) + o.events)) + Payload(k, Held(o.state, k)) == Due(s, input, k)
  {
    MergedAreDistinct(cfg, s, now, input, o);
    if k in ExpiredKeys(cfg, s, now) {
      StaleBatch(cfg, s, now, input, o, k);
    } else {
      FreshBatch(cfg, s, now, input, o, k);
    }
  }

  // ---------- the other entry points ----------

  lemma FlushExpiredFlows(cfg: Config, s: State, now: int)
    requires OwnsRecords(s.pending)
    ensures AllFlow(s, [], FlushExpired(cfg, s, now))
  {
    var o := Outcome(ExpireRejected(cfg, s, now), {}, None);
    ExpiredAreEvident(cfg, s, now);
    assert ExpiredKeys(cfg, o.state, now) == ExpiredKeys(cfg, s, now);
    assert ExpiredEvents(cfg, o.state, now) == ExpiredEvents(cfg, s, now);
    assert FlushExpired(cfg, s, now) == ThenExpire(cfg, o, now);
    forall k ensures Flows(s, [], FlushExpired(cfg, s, now), k) {
      assert Stays(s, [], o, k);
      ThenExpireFlows(cfg, s, [], o, now, k);
    }
  }

  /** Every group leaves; `mark` is what the flush writes on its event. */
  lemma FlushFlows(s: State, o: Outcome, mark: Event -> Event, completion: Completion)
    requires OwnsRecords(s.pending)
    requires forall e :: mark(e).records == e.records && mark(e).sequence == e.sequence
    requires o.events == set k | k in s.pending :: mark(Finished(k, s.pending[k], completion, false))
    requires o.state.pending == map[]
    ensures AllFlow(s, [], o)
  {
    forall k ensures Flows(s, [], o, k) {
      forall f | f in o.events && (k in s.pending ==> f != mark(Finished(k, s.pending[k], completion, false)))
        ensures Silent(k, f)
      {
        var l :| l in s.pending && f == mark(Finished(l, s.pending[l], completion, false));
        assert f.records == s.pending[l].records;
      }
      if k in s.pending {
        assert Departs(s, [], o, k, mark(Finished(k, s.pending[k], completion, false)));
      } else {
        assert Stays(s, [], o, k);
      }
    }
  }

  lemma FlushAllFlows(s: State, completion: Completion)
    requires OwnsRecords(s.pending)
    ensures AllFlow(s, [], FlushAllWith(s, completion))
  {
    var mark := (e: Event) => e;
    assert FlushedEvents(s.pending, completion) == set k | k in s.pending ::
      mark(Finished(k, s.pending[k], completion, false));
    FlushFlows(s, FlushAllWith(s, completion), mark, completion);
  }

  lemma RejectUnkeyedLineFlows(s: State, source: SourcePosition, now: int)
    requires OwnsRecords(s.pending)
    ensures AllFlow(s, [], RejectUnkeyedLine(s, source, now))
  {
    var mark := (e: Event) => e.(exceptional := true);
    var o := RejectUnkeyedLine(s, source, now);
    assert o.events == set k | k in s.pending :: mark(Finished(k, s.pending[k], ByLineLimit, false));
    FlushFlows(s, o, mark, ByLineLimit);
  }

  lemma RejectKeyedLineShape(cfg: Config, s: State, key: Key, source: SourcePosition, now: int)
    ensures
      var o := RejectKeyedLine(cfg, s, key, source, now);
      && o.state.pending == s.pending - {key}
      && o.events == if key in s.pending
                     then {Finished(key, s.pending[key], ByLineLimit, false).(exceptional := true, sequence := 0)}
                       else {}
  {
  }

  /** One group leaves in one event, whatever the event is marked with. */
  lemma RemovalBatch(s: State, o: Outcome, key: Key, e: Event, k: Key)
    requires OwnsRecords(s.pending) && o.state.pending == s.pending - {key}
    requires if key in s.pending then o.events == {e} && e.records == s.pending[key].records else o.events == {}
    ensures Stream(k, Listing(o.events)) + Payload(k, Held(o.state, k)) == Due(s, [], k)
  {
    DueOfNothing(s, k);
    if k == key && k in s.pending {
      BatchOfOne(k, o.events, e);
      DueOfAbsent(o.state, [], k);
    } else {
      BatchOfNone(k, o.events);
    }
  }

  lemma RejectKeyedLineBatch(cfg: Config, s: State, key: Key, source: SourcePosition, now: int, k: Key)
    requires OwnsRecords(s.pending)
    ensures
      var o := RejectKeyedLine(cfg, s, key, source, now);
      Stream(k, Listing(o.events)) + Payload(k, Held(o.state, k)) == Due(s, [], k)
  {
    RejectKeyedLineShape(cfg, s, key, source, now);
    var e := if key in s.pending
      then Finished(key, s.pending[key], ByLineLimit, false).(exceptional := true, sequence := 0)
             else ExceptionalEvent(0, "", []);
    RemovalBatch(s, RejectKeyedLine(cfg, s, key, source, now), key, e, k);
  }

  // ---------- every call, every run ----------

  function Taken(op: Op): seq<Record> {
    if op.Add? then [op.record] else []
  }

  /** Everything an assembler has been given and has given back. */
  datatype History = History(state: State, input: seq<Record>, emitted: seq<Event>)

  ghost function Run(cfg: Config, ops: seq<Op>): History {
    if ops == [] then History(INITIAL, [], [])
    else
      var h, op := Run(cfg, ops[..|ops| - 1]), ops[|ops| - 1];
      var o := Step(cfg, h.state, op);
      History(o.state, h.input + Taken(op), h.emitted + Listing(o.events))
  }

  /** A call's events have distinct numbers, so they have exactly one ascending
      list, whatever order the tables were visited in. */
  lemma StepIsOrdered(cfg: Config, s: State, op: Op)
    requires ValidConfig(cfg) && Invariant(cfg, s)
    ensures forall batch :: IsListing(batch, Step(cfg, s, op).events) <==> batch == Listing(Step(cfg, s, op).events)
    ensures
      var batch := Listing(Step(cfg, s, op).events);
      && (forall e :: e in batch <==> e in Step(cfg, s, op).events)
      && forall i, j :: 0 <= i < j < |batch| ==> batch[i].sequence < batch[j].sequence
  {
    StepIsDistinct(cfg, s, op);
    UniqueListing(Step(cfg, s, op).events);
    assert IsListing(Listing(Step(cfg, s, op).events), Step(cfg, s, op).events);
  }

  lemma AddIsDistinct(cfg: Config, s: State, record: Record, now: int)
    requires ValidConfig(cfg) && Invariant(cfg, s)
    ensures DistinctSequences(AddRecovering(cfg, s, record, now).events)
  {
    SweepKeeps(cfg, s, now);
    DispatchAllFlow(cfg, Swept(cfg, s, now), record, now);
    MergedAreDistinct(cfg, s, now, [record], Dispatch(cfg, Swept(cfg, s, now), record, now));
  }

  lemma ExpireIsDistinct(cfg: Config, s: State, now: int)
    requires OwnsRecords(s.pending) && Numbered(s.pending, s.nextSequence)
    ensures DistinctSequences(FlushExpired(cfg, s, now).events)
  {
    FlushExpiredFlows(cfg, s, now);
    FlowingEventsAreDistinct(s, [], FlushExpired(cfg, s, now));
  }

  lemma FlushAllIsDistinct(s: State, completion: Completion)
    requires OwnsRecords(s.pending) && Numbered(s.pending, s.nextSequence)
    ensures DistinctSequences(FlushAllWith(s, completion).events)
  {
    FlushAllFlows(s, completion);
    FlowingEventsAreDistinct(s, [], FlushAllWith(s, completion));
  }

  lemma RejectUnkeyedIsDistinct(s: State, source: SourcePosition, now: int)
    requires OwnsRecords(s.pending) && Numbered(s.pending, s.nextSequence)
    ensures DistinctSequences(RejectUnkeyedLine(s, source, now).events)
  {
    RejectUnkeyedLineFlows(s, source, now);
    FlowingEventsAreDistinct(s, [], RejectUnkeyedLine(s, source, now));
  }

  lemma StepIsDistinct(cfg: Config, s: State, op: Op)
    requires ValidConfig(cfg) && Invariant(cfg, s)
    ensures DistinctSequences(Step(cfg, s, op).events)
  {
    match op
    case Add(record, now) => AddIsDistinct(cfg, s, record, now);
    case Expire(now) => ExpireIsDistinct(cfg, s, now);
    case FlushAll(completion) => FlushAllIsDistinct(s, completion);
    case RejectLine(Some(key), source, now) => RejectKeyedLineShape(cfg, s, key, source, now);
    case RejectLine(None, source, now) => RejectUnkeyedIsDistinct(s, source, now);
  }

  lemma AddPreservesStream(cfg: Config, s: State, record: Record, now: int, k: Key)
    requires ValidConfig(cfg) && Invariant(cfg, s)
    ensures
      var o := AddRecovering(cfg, s, record, now);
      Stream(k, Listing(o.events)) + Payload(k, Held(o.state, k)) == Due(s, [record], k)
  {
    SweepIsSound(cfg, s, now);
    DispatchAllFlow(cfg, Swept(cfg, s, now), record, now);
    MergedBatch(cfg, s, now, [record], Dispatch(cfg, Swept(cfg, s, now), record, now), k);
  }

  /** One call moves the records of a key from held to emitted and loses none. */
  lemma StepPreservesStream(cfg: Config, s: State, op: Op, k: Key)
    requires ValidConfig(cfg) && Invariant(cfg, s)
    ensures
      var o := Step(cfg, s, op);
      Stream(k, Listing(o.events)) + Payload(k, Held(o.state, k)) == Due(s, Taken(op), k)
  {
    match op
    case Add(record, now) => AddPreservesStream(cfg, s, record, now, k);
    case Expire(now) =>
      FlushExpiredFlows(cfg, s, now);
      FlowingBatch(s, [], FlushExpired(cfg, s, now), k);
    case FlushAll(completion) =>
      FlushAllFlows(s, completion);
      FlowingBatch(s, [], FlushAllWith(s, completion), k);
    case RejectLine(Some(key), source, now) =>
      RejectKeyedLineBatch(cfg, s, key, source, now, k);
    case RejectLine(None, source, now) =>
      RejectUnkeyedLineFlows(s, source, now);
      FlowingBatch(s, [], RejectUnkeyedLine(s, source, now), k);
  }

  lemma {:induction false} RunKeepsInvariant(cfg: Config, ops: seq<Op>)
    requires ValidConfig(cfg)
    ensures Invariant(cfg, Run(cfg, ops).state)
  {
    if ops != [] {
      RunKeepsInvariant(cfg, ops[..|ops| - 1]);
      StepKeepsInvariant(cfg, Run(cfg, ops[..|ops| - 1]).state, ops[|ops| - 1]);
    } else {
      ClearingKeeps(cfg, INITIAL);
    }
  }

  lemma Regroup(emitted: seq<Record>, batch: seq<Record>, after: seq<Record>, before: seq<Record>, input: seq<Record>)
    requires batch + after == before + input
    ensures (emitted + batch) + after == (emitted + before) + input
  {
    assert (emitted + batch) + after == emitted + (batch + after);
  }

  lemma ExtendStream(k: Key, h: History, input: seq<Record>, o: Outcome)
    requires Stream(k, h.emitted) + Payload(k, Held(h.state, k)) == Payload(k, h.input)
    requires Stream(k, Listing(o.events)) + Payload(k, Held(o.state, k)) == Due(h.state, input, k)
    ensures Stream(k, h.emitted + Listing(o.events)) + Payload(k, Held(o.state, k)) == Payload(k, h.input + input)
  {
    StreamOfConcat(k, h.emitted, Listing(o.events));
    PayloadOfConcat(k, h.input, input);
    Regroup(Stream(k, h.emitted), Stream(k, Listing(o.events)), Payload(k, Held(o.state, k)),
            Payload(k, Held(h.state, k)), Payload(k, input));
  }

  /** The theorem: over every run, per key, emitted then pending is exactly received. */
  lemma {:induction false} StreamPreserved(cfg: Config, ops: seq<Op>, k: Key)
    requires ValidConfig(cfg)
    ensures
      var h := Run(cfg, ops);
      Stream(k, h.emitted) + Payload(k, Held(h.state, k)) == Payload(k, h.input)
  {
    if ops != [] {
      var before, op := ops[..|ops| - 1], ops[|ops| - 1];
      var h := Run(cfg, before);
      StreamPreserved(cfg, before, k);
      RunKeepsInvariant(cfg, before);
      StepPreservesStream(cfg, h.state, op, k);
      ExtendStream(k, h, Taken(op), Step(cfg, h.state, op));
    }
  }
}
