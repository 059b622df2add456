/** The event assembler as it runs: tables updated in place, byte counters kept
    incrementally, maps visited in an arbitrary order.  Every entry point is proved
    to do exactly what `AssemblerSpec` says and to keep `AssemblerInvariants`. */
module Assembler {
  import opened Records
  import opened Totals
  import opened EventOrder
  import opened AssemblerInvariants
  import opened SafePosition
  import Spec = AssemblerSpec
  import opened AssemblerSpec
  import opened StreamPreservation
  import Envelope

  function Rank(groups: map<Key, Group>, k: Key): nat {
    if k in groups then groups[k].sequence else 0
  }

  ghost predicate KeysAscend(ids: seq<Key>, groups: map<Key, Group>) {
    forall i, j :: 0 <= i < j < |ids| ==> Rank(groups, ids[i]) < Rank(groups, ids[j])
  }

  lemma InsertedKeyAscends(ids: seq<Key>, groups: map<Key, Group>, id: Key, p: nat)
    requires KeysAscend(ids, groups) && p <= |ids|
    requires forall i :: 0 <= i < p ==> Rank(groups, ids[i]) < Rank(groups, id)
    requires forall i :: p <= i < |ids| ==> Rank(groups, id) < Rank(groups, ids[i])
    ensures KeysAscend(ids[..p] + [id] + ids[p..], groups)
  {
  }

  lemma InsertedKeyMembers(ids: seq<Key>, id: Key, p: nat)
    requires p <= |ids|
    ensures forall k :: k in ids[..p] + [id] + ids[p..] <==> k in ids || k == id
  {
    assert ids == ids[..p] + ids[p..];
  }

  /** Insertion sort of group keys by first-observed sequence. */
  method SortKeys(ids: seq<Key>, groups: map<Key, Group>, ghost next: nat) returns (sorted: seq<Key>)
    requires forall id :: id in ids ==> id in groups
    requires forall i, j :: 0 <= i < j < |ids| ==> ids[i] != ids[j]
    requires Numbered(groups, next)
    ensures forall id :: id in sorted <==> id in ids
    ensures KeysAscend(sorted, groups)
  {
    sorted := [];
    for n := 0 to |ids|
      invariant forall id :: id in sorted <==> id in ids[..n]
      invariant KeysAscend(sorted, groups)
    {
      var id := ids[n];
      var p := |sorted|;
      while p > 0 && Rank(groups, sorted[p - 1]) > Rank(groups, id)
        invariant 0 <= p <= |sorted|
        invariant forall i :: p <= i < |sorted| ==> Rank(groups, id) < Rank(groups, sorted[i])
      {
        p := p - 1;
      }
      if p > 0 {
        assert sorted[p - 1] in ids[..n];
        assert Rank(groups, sorted[p - 1]) < Rank(groups, id);
      }
      InsertedKeyAscends(sorted, groups, id, p);
      InsertedKeyMembers(sorted, id, p);
      sorted := sorted[..p] + [id] + sorted[p..];
      assert ids[..n + 1] == ids[..n] + [id];
    }
    assert ids[..|ids|] == ids;
  }

  class Assembler {
    const cfg: Config
    var pending: map<Key, Group>
    var pendingBytes: int
    var rejected: map<Key, Rejection>
    var rejectionBytes: int
    var spillSince: Option<int>
    var spillSource: SourcePosition
    var nextSequence: nat
    var latestAuditTime: Option<int>
    var latestAuditNode: string
    var latestNodePresent: bool

    ghost function Snapshot(): State
      reads this
    {
      State(pending, rejected, spillSince, spillSource, nextSequence,
            Clock(latestAuditTime, latestAuditNode, latestNodePresent))
    }

    /** The counters agree with the tables they summarize. */
    ghost predicate Counted()
      reads this
    {
      pendingBytes == PendingTotal(pending) && rejectionBytes == RejectedTotal(rejected)
    }

    ghost predicate Valid()
      reads this
    {
      ValidConfig(cfg) && Counted() && Invariant(cfg, Snapshot())
    }

    constructor (cfg: Config)
      requires ValidConfig(cfg)
      ensures Valid() && this.cfg == cfg && Snapshot() == INITIAL
    {
      this.cfg := cfg;
      pending, pendingBytes, rejected, rejectionBytes := map[], 0, map[], 0;
      spillSince, spillSource, nextSequence := None, NO_POSITION, 0;
      latestAuditTime, latestAuditNode, latestNodePresent := None, "", false;
    }

    /** Remove a group and give its bytes back one record at a time. */
    method Finish(k: Key, completion: Completion, complete: bool) returns (e: Event)
      requires Counted() && k in pending
      modifies this`pending, this`pendingBytes
      ensures Counted()
      ensures pending == old(pending) - {k}
      ensures e == Finished(k, old(pending[k]), completion, complete)
    {
      var g := pending[k];
      ghost var weights := PendingWeights(pending);
      TotalWithout(weights, k);
      pending := pending - {k};
      assert PendingWeights(pending) == weights - {k};
      var i := 0;
      while i < |g.records|
        invariant 0 <= i <= |g.records|
        invariant pendingBytes == PendingTotal(pending) + weights[k] - Bytes(g.records[..i])
        invariant pending == old(pending) - {k}
      {
        assert g.records[..i + 1][..i] == g.records[..i];
        pendingBytes := pendingBytes - g.records[i].sourceBytes;
        i := i + 1;
      }
      assert g.records[..|g.records|] == g.records;
      e := Event(g.sequence, false, g.mixedNode, k.id, g.records, complete, completion);
    }
  
    /** The groups that are due, in whatever order the table yields them. */
    method CollectExpired(now: int) returns (ids: seq<Key>)
      ensures forall i, j :: 0 <= i < j < |ids| ==> ids[i] != ids[j]
      ensures forall id :: id in ids <==> id in ExpiredKeys(cfg, Snapshot(), now)
    {
      ids := [];
      var todo := pending.Keys;
      while todo != {}
        invariant todo <= pending.Keys
        invariant forall i, j :: 0 <= i < j < |ids| ==> ids[i] != ids[j]
        invariant forall id :: id in ids <==> id in ExpiredKeys(cfg, Snapshot(), now) && id !in todo
        decreases todo
      {
        var id :| id in todo;
        todo := todo - {id};
        if WallExpired(cfg, pending[id], now) || WatermarkExpired(cfg, latestAuditTime, pending[id]) {
          ids := ids + [id];
        }
      }
    }

    /** Finish the chosen groups in order. */
    method FinishExpired(ids: seq<Key>) returns (ready: seq<Event>)
      requires Counted()
      requires forall id :: id in ids ==> id in pending
      requires forall i, j :: 0 <= i < j < |ids| ==> ids[i] != ids[j]
      modifies this`pending, this`pendingBytes
      ensures Counted()
      ensures pending == old(pending) - KeySet(ids)
      ensures ready == Expiries(cfg, latestAuditTime, old(pending), ids)
    {
      ready := [];
      for n := 0 to |ids|
        invariant Counted()
        invariant pending == old(pending) - KeySet(ids[..n])
        invariant ready == Expiries(cfg, latestAuditTime, old(pending), ids[..n])
      {
        var id := ids[n];
        NextExpiry(cfg, latestAuditTime, old(pending), ids, n);
        var completion := if WatermarkExpired(cfg, latestAuditTime, pending[id]) then ByWatermark else ByTimeout;
        var e := Finish(id, completion, completion == ByWatermark);
        ready := ready + [e];
      }
      assert ids[..|ids|] == ids;
    }

    /** Emit every group whose watermark or inactivity timeout has elapsed. */
    method Expired(now: int) returns (ready: seq<Event>)
      requires Counted() && Numbered(pending, nextSequence)
      modifies this`pending, this`pendingBytes
      ensures Counted()
      ensures Snapshot() == Spec.ExpirePending(cfg, old(Snapshot()), now)
      ensures ready == Listing(ExpiredEvents(cfg, old(Snapshot()), now))
      ensures IsListing(ready, ExpiredEvents(cfg, old(Snapshot()), now))
    {
      var ids := CollectExpired(now);
      ids := SortKeys(ids, pending, nextSequence);
      AscendingKeysDiffer(ids, pending);
      ready := FinishExpired(ids);
      assert KeySet(ids) == ExpiredKeys(cfg, old(Snapshot()), now);
      ExpiryBatch(cfg, old(Snapshot()), now, ids);
    }

    /** Close one rejected key. */
    method Forget(k: Key)
      requires Counted() && k in rejected
      modifies this`rejected, this`rejectionBytes
      ensures Counted()
      ensures rejected == old(rejected) - {k}
    {
      ghost var weights := RejectedWeights(rejected);
      TotalWithout(weights, k);
      rejectionBytes := rejectionBytes - rejected[k].keyBytes;
      rejected := rejected - {k};
      assert RejectedWeights(rejected) == weights - {k};
    }

    method ExpireRejected(now: int)
      requires Counted()
      modifies this`rejected, this`rejectionBytes, this`spillSince, this`spillSource
      ensures Counted()
      ensures Snapshot() == Spec.ExpireRejected(cfg, old(Snapshot()), now)
    {
      var todo := rejected.Keys;
      while todo != {}
        invariant Counted()
        invariant todo <= old(rejected).Keys
        invariant forall k :: k in rejected <==>
          k in old(rejected) && (k in todo || RejectionLive(cfg, old(rejected)[k], now))
        invariant forall k :: k in rejected ==> rejected[k] == old(rejected)[k]
        invariant spillSince == old(spillSince) && spillSource == old(spillSource)
        decreases todo
      {
        var k :| k in todo;
        todo := todo - {k};
        if !RejectionLive(cfg, rejected[k], now) {
          Forget(k);
        }
      }
      assert rejected == Spec.ExpireRejected(cfg, old(Snapshot()), now).rejected;
      if SpillExpired(cfg, spillSince, now) {
        spillSince := None;
        spillSource := NO_POSITION;
      }
    }

    method StartSpill(now: int, source: SourcePosition)
      modifies this`spillSince, this`spillSource
      ensures Snapshot() == Spec.StartSpill(old(Snapshot()), now, source)
    {
      if spillSince.None? || (source.valid && (!spillSource.valid || StartsBefore(source, spillSource))) {
        spillSource := source;
      }
      spillSince := Some(now);
    }

    /** Record a tainted key if there is room, else raise the fence. */
    method Isolate(k: Key, pin: SourcePosition, spillPin: SourcePosition, now: int)
      requires Counted() && k !in rejected
      modifies this`rejected, this`rejectionBytes, this`spillSince, this`spillSource
      ensures Counted()
      ensures Snapshot() == Spec.Isolate(cfg, old(Snapshot()), k, pin, spillPin, now)
    {
      var keyBytes := |k.id| + |k.node|;
      if |rejected| < cfg.maxPendingEvents && keyBytes <= cfg.maxPendingBytes - rejectionBytes {
        NewKeyBytes(rejected, k, Rejection(pin, now, keyBytes));
        rejected := rejected[k := Rejection(pin, now, keyBytes)];
        rejectionBytes := rejectionBytes + keyBytes;
      } else {
        StartSpill(now, spillPin);
      }
    }

    /** The limit check reads the counters; the specification recomputes the sums. */
    function CheckLimits(record: Record): (limit: Option<LimitName>)
      requires Counted()
      reads this
      ensures limit == Spec.CheckLimits(cfg, Snapshot(), record)
    {
      if record.key !in pending && |pending| >= cfg.maxPendingEvents then Some(PendingEvents)
      else if record.key in pending && |pending[record.key].records| >= cfg.maxRecordsPerEvent
        then Some(RecordsPerEvent)
      else if record.sourceBytes > cfg.maxPendingBytes - pendingBytes then Some(PendingBytes)
      else None
    }

    method UnmarkAll()
      requires Counted()
      modifies this`pending
      ensures Counted()
      ensures pending == Unmarked(old(pending), old(pending).Keys)
    {
      var todo := pending.Keys;
      ghost var done := {};
      while todo != {}
        invariant done + todo == old(pending).Keys
        invariant pending == Unmarked(old(pending), done)
        decreases todo
      {
        var k :| k in todo;
        UnmarkedNext(old(pending), done, k);
        todo, done := todo - {k}, done + {k};
        pending := pending[k := pending[k].(hasAuditTS := false)];
      }
      assert done == old(pending).Keys;
      SameWeights(old(pending), pending);
    }

    method ObserveAuditTime(timestamp: int, key: Key)
      requires Counted()
      modifies this`pending, this`latestAuditTime, this`latestAuditNode, this`latestNodePresent
      ensures Counted()
      ensures var ends := EpochEnds(cfg, old(Snapshot()).clock, timestamp, key);
              pending == if ends then Unmarked(old(pending), old(pending).Keys) else old(pending)
      ensures Snapshot().clock == Observed(cfg, old(Snapshot()).clock, timestamp, key)
    {
      if latestAuditTime.Some? && (key.node != latestAuditNode || key.nodePresent != latestNodePresent) {
        UnmarkAll();
        latestAuditTime := None;
      }
      latestAuditNode, latestNodePresent := key.node, key.nodePresent;
      if latestAuditTime.Some? {
        var forwardWindow := MINUTE;
        if cfg.timeout > forwardWindow / 2 {
          forwardWindow := cfg.timeout;
          if cfg.timeout <= MAX_DURATION / 2 {
            forwardWindow := 2 * forwardWindow;
          }
        }
        var delta := Sub(timestamp, latestAuditTime.value);
        if delta > forwardWindow || delta <= -cfg.timeout {
          UnmarkAll();
          latestAuditTime := Some(timestamp);
          return;
        }
      }
      if latestAuditTime.None? || timestamp > latestAuditTime.value {
        latestAuditTime := Some(timestamp);
      }
    }

    /** Every group of the same audit ID with the other kind of node name is ambiguous. */
    method MarkMixed(key: Key) returns (mixed: bool)
      requires Counted()
      modifies this`pending
      ensures Counted()
      ensures pending == Remark(old(pending), key, false)
      ensures mixed <==> AnyMixes(old(pending).Keys, key)
    {
      mixed := false;
      var todo := pending.Keys;
      ghost var done := {};
      while todo != {}
        invariant done + todo == old(pending).Keys
        invariant pending == Mixed(old(pending), key, done)
        invariant mixed <==> AnyMixes(done, key)
        decreases todo
      {
        var l :| l in todo;
        MixedNext(old(pending), key, done, l);
        todo, done := todo - {l}, done + {l};
        if MixesWith(l, key) {
          pending := pending[l := pending[l].(mixedNode := true)];
          mixed := true;
        }
      }
      assert done == old(pending).Keys;
      MixedAll(old(pending), key);
    }

    /** Open the group of a new key; its audit time may end the watermark epoch. */
    method Open(record: Record, mixed: bool)
      requires Counted() && record.key !in pending
      modifies this`pending, this`nextSequence, this`latestAuditTime, this`latestAuditNode, this`latestNodePresent
      ensures Counted()
      ensures Snapshot() == OpenedState(cfg, old(Snapshot()), record, mixed)
    {
      var g := Group([], nextSequence, 0, 0, false, mixed);
      nextSequence := nextSequence + 1;
      if record.auditTime.Some? {
        g := g.(auditTime := record.auditTime.value, hasAuditTS := true);
        ObserveAuditTime(record.auditTime.value, record.key);
      }
      NewWeight(pending, record.key, g);
      pending := pending[record.key := g];
    }

    method Append(record: Record, now: int)
      requires Counted() && record.key in pending
      modifies this`pending, this`pendingBytes
      ensures Counted()
      ensures Snapshot() == GrownState(old(Snapshot()), record, now)
    {
      GrownWeight(pending, record, now);
      pending := pending[record.key := pending[record.key].(records := pending[record.key].records + [record],
                                                            lastSeen := now)];
      pendingBytes := pendingBytes + record.sourceBytes;
    }

    /** Let a record whose limits were checked join its group. */
    method Join(record: Record, now: int, mixed: bool, ghost s: State)
      requires Counted() && Snapshot() == s.(pending := Remark(s.pending, record.key, false))
      requires mixed <==> AnyMixes(s.pending.Keys, record.key)
      modifies this`pending, this`pendingBytes, this`nextSequence
      modifies this`latestAuditTime, this`latestAuditNode, this`latestNodePresent
      ensures Counted()
      ensures Snapshot() == Joined(cfg, s, record, now)
    {
      var known := record.key in pending;
      if !known {
        Open(record, mixed);
      }
      Append(record, now);
      JoinedInSteps(cfg, s, record, now, mixed);
    }

    /** Join, and finish the group if the record closes it. */
    method JoinAndClose(record: Record, now: int, known: bool, mixed: bool, ghost s: State) returns (ready: seq<Event>)
      requires Counted() && Snapshot() == s.(pending := Remark(s.pending, record.key, false))
      requires known == (record.key in s.pending) && (mixed <==> AnyMixes(s.pending.Keys, record.key))
      modifies this`pending, this`pendingBytes, this`nextSequence
      modifies this`latestAuditTime, this`latestAuditNode, this`latestNodePresent
      ensures Counted()
      ensures var o := Closed(cfg, s, record, now);
              Snapshot() == o.state && Members(ready) == o.events && |ready| <= 1
    {
      Join(record, now, mixed, s);
      ready := FinishIfClosed(record.key, record.kind, known);
    }

    /** A closing record finishes its group at once; PROCTITLE only one that already existed. */
    method FinishIfClosed(k: Key, kind: Kind, known: bool) returns (ready: seq<Event>)
      requires Counted() && k in pending
      modifies this`pending, this`pendingBytes
      ensures Counted()
      ensures pending == if Finishes(kind, known) then old(pending) - {k} else old(pending)
      ensures ready == if Finishes(kind, known) then [Finished(k, old(pending)[k], FinishCompletion(kind), true)]
        else []
    {
      ready := [];
      if kind.Proctitle? && known {
        var e := Finish(k, ByProctitle, true);
        ready := [e];
      } else if Closes(kind) {
        var e := Finish(k, if kind.EOE? then ByEOE else BySingleRecord, true);
        ready := [e];
      }
    }

    /** Check the limits and admit; an EOE without cached records contains no data. */
    method AdmitOne(record: Record, now: int) returns (ready: seq<Event>, limit: Option<LimitName>)
      requires Counted()
      modifies this`pending, this`pendingBytes, this`nextSequence
      modifies this`latestAuditTime, this`latestAuditNode, this`latestNodePresent
      ensures Counted()
      ensures limit == AdmissionLimit(cfg, old(Snapshot()), record)
      ensures limit.Some? ==> Snapshot() == old(Snapshot()).(pending := Remark(old(pending), record.key, false))
      ensures limit.None? ==> var o := Admitted(cfg, old(Snapshot()), record, now);
                              Snapshot() == o.state && Members(ready) == o.events && |ready| <= 1
    {
      ghost var s := Snapshot();
      var known := record.key in pending;
      var mixed := MarkMixed(record.key);
      ready, limit := [], None;
      if record.kind != EOE || known {
        RemarkedLimits(cfg, s, record);
        limit := CheckLimits(record);
        if limit.None? {
          ready := JoinAndClose(record, now, known, mixed, s);
        }
      }
    }

    /** Normal admission.  A limit leaves the tables as they were, but for the marks. */
    method AddAt(record: Record, now: int) returns (events: seq<Event>, limit: Option<LimitName>)
      requires Valid() && record.key !in rejected
      modifies this`pending, this`pendingBytes, this`nextSequence
      modifies this`latestAuditTime, this`latestAuditNode, this`latestNodePresent
      ensures Counted()
      ensures limit == AdmissionLimit(cfg, old(Snapshot()), record)
      ensures limit.Some? ==> Snapshot() == old(Snapshot()).(pending := Remark(old(pending), record.key, false))
      ensures limit.None? ==> var o := Admit(cfg, old(Snapshot()), record, now);
                              Snapshot() == o.state && IsListing(events, o.events)
    {
      var ready;
      ready, limit := AdmitOne(record, now);
      if limit.Some? {
        return [], limit;
      }
      AdmittedIsSound(cfg, old(Snapshot()), record, now);
      var expired := Expired(now);
      ReadyThenExpired(cfg, old(Snapshot()), record, now, ready, expired);
      events := OrderedEvents(ready + expired);
    }

    /** Wrap records as physical evidence under the number of their key. */
    method Exceptional(k: Key, known: bool, sequence: nat, records: seq<Record>) returns (e: Event)
      modifies this`nextSequence
      ensures nextSequence == old(nextSequence) + if known then 0 else 1
      ensures e == ExceptionalEvent(if known then sequence else old(nextSequence), k.id, records)
    {
      var number := sequence;
      if !known {
        number := nextSequence;
        nextSequence := nextSequence + 1;
      }
      e := Event(number, true, false, k.id, records, false, ByAssemblyLimit);
    }

    method Reject(record: Record, now: int) returns (e: Event)
      requires Counted() && record.key in rejected
      modifies this`rejected, this`rejectionBytes, this`nextSequence
      ensures Counted()
      ensures var o := Spec.Reject(old(Snapshot()), record, now); Snapshot() == o.state && o.events == {e}
    {
      var k := record.key;
      if Terminal(record.kind) {
        Forget(k);
      } else {
        SameKeyBytes(rejected, k, now);
        rejected := rejected[k := rejected[k].(lastSeen := now)];
      }
      e := Exceptional(k, k in pending, if k in pending then pending[k].sequence else 0, [record]);
    }

    method Fence(record: Record, now: int) returns (e: Event)
      requires Counted() && record.key !in pending && record.key !in rejected && spillSince.Some?
      modifies this`rejected, this`rejectionBytes, this`spillSince, this`spillSource, this`nextSequence
      ensures Counted()
      ensures var o := Spec.Fence(cfg, old(Snapshot()), record, now); Snapshot() == o.state && o.events == {e}
    {
      if !Terminal(record.kind) {
        Isolate(record.key, spillSource, record.source, now);
      }
      e := Exceptional(record.key, false, 0, [record]);
    }

    /** Take whatever a key holds out of the pending table. */
    method TakeOut(k: Key) returns (records: seq<Record>)
      requires Counted()
      modifies this`pending, this`pendingBytes
      ensures Counted() && pending == old(pending) - {k}
      ensures records == Held(old(Snapshot()), k)
    {
      records := [];
      if k in pending {
        var finished := Finish(k, ByAssemblyLimit, false);
        records := finished.records;
      }
    }

    /** The record did not fit: its key leaves the pending table as an exception. */
    method Overflow(record: Record, now: int, name: LimitName) returns (e: Event, limit: Limit)
      requires Counted() && record.key !in rejected
      modifies this`pending, this`pendingBytes, this`rejected, this`rejectionBytes
      modifies this`spillSince, this`spillSource, this`nextSequence
      ensures Counted()
      ensures Snapshot() == AfterOverflow(cfg, old(Snapshot()), record, now)
      ensures e ==
        ExceptionalEvent(SequenceFor(old(Snapshot()), record.key), record.key.id,
                         Held(old(Snapshot()), record.key) + [record])
      ensures limit == Limit(name, LimitValue(cfg, name), record.key, |e.records|)
    {
      var k := record.key;
      var known, sequence := k in pending, if k in pending then pending[k].sequence else 0;
      var records := TakeOut(k);
      records := records + [record];
      if !Terminal(record.kind) {
        Isolate(k, records[0].source, records[0].source, now);
      }
      e := Exceptional(k, known, sequence, records);
      limit := Limit(name, LimitValue(cfg, name), k, |records|);
    }

    /** Admit a record on merit, or isolate its key if a limit is reached. */
    method AdmitOrOverflow(record: Record, now: int) returns (events: seq<Event>, diagnostic: Option<Limit>)
      requires Valid() && record.key !in rejected
      modifies this
      ensures Counted()
      ensures var o := Admit(cfg, old(Snapshot()), record, now);
              Snapshot() == o.state && IsListing(events, o.events) && diagnostic == o.limit
    {
      ghost var s := Snapshot();
      var limit;
      events, limit := AddAt(record, now);
      if limit.None? {
        AdmittedIsSound(cfg, s, record, now);
        return events, None;
      }
      OverflowInSteps(cfg, s, record, now, limit.value);
      var e, reached := Overflow(record, now, limit.value);
      return [e], Some(reached);
    }

    /** The four ways a record can be taken once stale state is swept. */
    method Dispatch(record: Record, now: int) returns (events: seq<Event>, diagnostic: Option<Limit>)
      requires Valid()
      modifies this
      ensures Counted()
      ensures var o := Spec.Dispatch(cfg, old(Snapshot()), record, now);
              Snapshot() == o.state && IsListing(events, o.events) && diagnostic == o.limit
    {
      var k := record.key;
      if k in rejected {
        var e := Reject(record, now);
        return [e], None;
      }
      if k in pending && record.kind.EOE? &&
         (|pending[k].records| >= cfg.maxRecordsPerEvent || record.sourceBytes > cfg.maxPendingBytes - pendingBytes) {
        var e := Finish(k, ByEOE, true);
        return [e], None;
      }
      if k !in pending && spillSince.Some? {
        var e := Fence(record, now);
        return [e], None;
      }
      events, diagnostic := AdmitOrOverflow(record, now);
    }

    /** Add a record; every returned event must be delivered before a checkpoint
        advances.  Stale evidence is collected first and merged in order. */
    method AddRecovering(record: Record, now: int) returns (events: seq<Event>, diagnostic: Option<Limit>)
      requires Valid()
      modifies this
      ensures Valid()
      ensures var o := Spec.AddRecovering(cfg, old(Snapshot()), record, now);
              Snapshot() == o.state && events == Listing(o.events) && diagnostic == o.limit
    {
      ghost var s := Snapshot();
      SweepIsSound(cfg, s, now);
      StepKeepsInvariant(cfg, s, Add(record, now));
      var expired := Expired(now);
      ExpireRejected(now);
      events, diagnostic := Dispatch(record, now);
      ghost var o := Spec.Dispatch(cfg, Swept(cfg, s, now), record, now);
      MergeIsListing(cfg, s, record, now, expired, events);
      if |expired| == 0 {
        ListingOf(events, ExpiredEvents(cfg, s, now) + o.events);
        return;
      }
      events := OrderedEvents(expired + events);
    }

    method FlushExpired(now: int) returns (events: seq<Event>)
      requires Valid()
      modifies this
      ensures Valid()
      ensures var o := Spec.FlushExpired(cfg, old(Snapshot()), now);
              Snapshot() == o.state && events == Listing(o.events)
    {
      ghost var s := Snapshot();
      StepKeepsInvariant(cfg, s, Expire(now));
      SweepIsSound(cfg, s, now);
      ExpireRejected(now);
      ExpiryIgnoresRejections(cfg, s, now);
      events := Expired(now);
    }

    /** Finish every group, in whatever order the table yields them. */
    method FinishAll(completion: Completion) returns (ready: seq<Event>, ghost ids: seq<Key>)
      requires Counted()
      modifies this`pending, this`pendingBytes
      ensures Counted() && pending == map[]
      ensures KeySet(ids) == old(pending).Keys
      ensures Different(ids)
      ensures ready == Flushes(old(pending), completion, ids)
    {
      ready, ids := [], [];
      while pending.Keys != {}
        invariant Counted()
        invariant KeySet(ids) <= old(pending).Keys
        invariant pending == old(pending) - KeySet(ids)
        invariant Different(ids)
        invariant ready == Flushes(old(pending), completion, ids)
        decreases pending.Keys
      {
        var k :| k in pending.Keys;
        NextFlush(old(pending), completion, ids, k);
        var e := Finish(k, completion, false);
        ready, ids := ready + [e], ids + [k];
      }
      assert forall k :: k in old(pending) ==> k in pending || k in KeySet(ids);
    }

    method FlushGroups(completion: Completion) returns (events: seq<Event>)
      requires Counted() && Numbered(pending, nextSequence)
      modifies this`pending, this`pendingBytes
      ensures Counted() && pending == map[]
      ensures events == Listing(FlushedEvents(old(pending), completion))
    {
      var ready;
      ghost var ids;
      ready, ids := FinishAll(completion);
      FlushBatch(old(Snapshot()), completion, ids);
      events := OrderedEvents(ready);
    }

    method ForgetAll()
      requires Counted()
      modifies this`rejected, this`rejectionBytes, this`spillSince, this`spillSource
      ensures Counted()
      ensures rejected == map[] && spillSince == None && spillSource == NO_POSITION
    {
      rejected, rejectionBytes := map[], 0;
      spillSince, spillSource := None, NO_POSITION;
      assert RejectedWeights(rejected) == map[];
    }

    /** Emit everything pending with the supplied incomplete boundary and forget every taint. */
    method FlushAllWith(completion: Completion) returns (events: seq<Event>)
      requires Valid()
      modifies this
      ensures Valid()
      ensures var o := Spec.FlushAllWith(old(Snapshot()), completion);
              Snapshot() == o.state && events == Listing(o.events)
    {
      ClearingKeeps(cfg, Snapshot());
      events := Drain(completion);
    }

    method Drain(completion: Completion) returns (events: seq<Event>)
      requires Counted() && Numbered(pending, nextSequence)
      modifies this`pending, this`pendingBytes, this`rejected, this`rejectionBytes, this`spillSince, this`spillSource
      ensures Counted() && Snapshot() == Cleared(old(Snapshot()))
      ensures events == Listing(FlushedEvents(old(pending), completion))
    {
      ForgetAll();
      events := FlushGroups(completion);
    }

    /** Isolate an oversized physical line by the key that its retained prefix yields. */
    method RejectPhysicalLine(prefix: string, source: SourcePosition, now: int) returns (events: seq<Event>)
      requires Valid()
      modifies this
      ensures Valid()
      ensures var o := Step(cfg, old(Snapshot()), RejectLine(Envelope.KeyOf(prefix), source, now));
              Snapshot() == o.state && events == Listing(o.events)
    {
      var envelope := Envelope.ReadPrefix(prefix);
      events := RejectBy(envelope, source, now);
    }

    method RejectBy(envelope: Option<Key>, source: SourcePosition, now: int) returns (events: seq<Event>)
      requires Valid()
      modifies this
      ensures Valid()
      ensures var o := Step(cfg, old(Snapshot()), RejectLine(envelope, source, now));
              Snapshot() == o.state && events == Listing(o.events)
    {
      StepKeepsInvariant(cfg, Snapshot(), RejectLine(envelope, source, now));
      if envelope.None? {
        events := RejectUnkeyed(source, now);
      } else {
        events := RejectKeyed(envelope.value, source, now);
      }
    }

    /** Without an envelope everything pending goes out as evidence and the fence rises. */
    method RejectUnkeyed(source: SourcePosition, now: int) returns (events: seq<Event>)
      requires Valid()
      modifies this
      ensures Counted()
      ensures var o := RejectUnkeyedLine(old(Snapshot()), source, now);
              Snapshot() == o.state && events == Listing(o.events)
    {
      events := FlushAllWith(ByLineLimit);
      ListingMarks(old(Snapshot()), source, now, events);
      events := seq(|events|, i requires 0 <= i < |events| => events[i].(exceptional := true));
      StartSpill(now, source);
    }

    method RejectKeyed(k: Key, source: SourcePosition, now: int) returns (events: seq<Event>)
      requires Counted()
      modifies this
      ensures Counted()
      ensures var o := RejectKeyedLine(cfg, old(Snapshot()), k, source, now);
              Snapshot() == o.state && events == Listing(o.events)
    {
      var pin := source;
      events := [];
      if k in pending {
        var e := Finish(k, ByLineLimit, false);
        events := [e.(exceptional := true, sequence := 0)];
        if |e.records| > 0 {
          pin := e.records[0].source;
        }
      }
      assert k !in old(pending) ==> old(pending) - {k} == old(pending);
      if k in rejected {
        SameKeyBytes(rejected, k, now);
        rejected := rejected[k := rejected[k].(lastSeen := now)];
      } else {
        Isolate(k, pin, pin, now);
      }
      ListingOf(events, RejectKeyedLine(cfg, old(Snapshot()), k, source, now).events);
    }

    /** Fold the held records into the earliest position, group by group. */
    method EarliestHeld(fallback: SourcePosition) returns (safe: SourcePosition, ghost seen: set<SourcePosition>)
      ensures IsEarliest(seen, fallback, safe)
      ensures forall p :: p in seen <==> p.valid && HeldAt(pending, p)
    {
      safe, seen := fallback, {};
      var todo := pending.Keys;
      ghost var done := map[];
      while todo != {}
        invariant IsEarliest(seen, fallback, safe)
        invariant done.Keys + todo == pending.Keys && done.Keys !! todo
        invariant forall k :: k in done ==> done[k] == pending[k]
        invariant forall p :: p in seen <==> p.valid && HeldAt(done, p)
        decreases todo
      {
        var k :| k in todo;
        ghost var before := seen;
        safe, seen := EarliestInGroup(pending[k].records, fallback, safe, seen);
        HeldNext(done, k, pending[k], before, seen);
        todo, done := todo - {k}, done[k := pending[k]];
      }
      assert done == pending;
    }

    /** The earliest unresolved source line, or `fallback` when nothing is unresolved. */
    method SafeSourcePosition(fallback: SourcePosition) returns (safe: SourcePosition)
      ensures IsSafe(Snapshot(), fallback, safe)
    {
      ghost var seen;
      safe, seen := EarliestHeld(fallback);
      var todo := rejected.Keys;
      ghost var held, done := seen, map[];
      while todo != {}
        invariant IsEarliest(seen, fallback, safe)
        invariant done.Keys + todo == rejected.Keys && done.Keys !! todo
        invariant forall k :: k in done ==> done[k] == rejected[k]
        invariant forall p :: p in seen <==> p in held || (p.valid && RejectedAt(done, p))
        decreases todo
      {
        var k :| k in todo;
        var candidate := rejected[k].source;
        EarlierIsEarliest(seen, fallback, safe, candidate);
        safe := Earlier(safe, candidate);
        if candidate.valid { seen := seen + {candidate}; }
        RejectedNext(done, k, rejected[k]);
        todo, done := todo - {k}, done[k := rejected[k]];
      }
      assert done == rejected;
      EarlierIsEarliest(seen, fallback, safe, spillSource);
      safe := Earlier(safe, spillSource);
      if spillSource.valid { seen := seen + {spillSource}; }
      EarliestIsSafe(Snapshot(), seen, fallback, safe);
    }
  }

  method EarliestInGroup(records: seq<Record>, fallback: SourcePosition, start: SourcePosition,
                         ghost before: set<SourcePosition>)
    returns (safe: SourcePosition, ghost seen: set<SourcePosition>)
    requires IsEarliest(before, fallback, start)
    ensures IsEarliest(seen, fallback, safe)
    ensures forall p :: p in seen <==>
      p in before || (p.valid && exists i :: 0 <= i < |records| && records[i].source == p)
  {
    safe, seen := start, before;
    for n := 0 to |records|
      invariant IsEarliest(seen, fallback, safe)
      invariant forall p :: p in seen <==> p in before || (p.valid && exists i :: 0 <= i < n && records[i].source == p)
    {
      var candidate := records[n].source;
      EarlierIsEarliest(seen, fallback, safe, candidate);
      safe := Earlier(safe, candidate);
      if candidate.valid { seen := seen + {candidate}; }
    }
  }

  lemma HeldNext(done: map<Key, Group>, k: Key, g: Group, before: set<SourcePosition>, seen: set<SourcePosition>)
    requires k !in done
    requires forall p :: p in before <==> p.valid && HeldAt(done, p)
    requires forall p :: p in seen <==>
      p in before || (p.valid && exists i :: 0 <= i < |g.records| && g.records[i].source == p)
    ensures forall p :: p in seen <==> p.valid && HeldAt(done[k := g], p)
  {
    var next := done[k := g];
    forall p ensures HeldAt(next, p) <==>
      HeldAt(done, p) || exists i :: 0 <= i < |g.records| && g.records[i].source == p {
      if HeldAt(done, p) {
        var l, i :| l in done && 0 <= i < |done[l].records| && done[l].records[i].source == p;
        assert next[l].records[i].source == p;
      }
      if i :| 0 <= i < |g.records| && g.records[i].source == p { assert next[k].records[i].source == p; }
    }
  }

  lemma RejectedNext(done: map<Key, Rejection>, k: Key, r: Rejection)
    requires k !in done
    ensures forall p :: RejectedAt(done[k := r], p) <==> RejectedAt(done, p) || p == r.source
  {
    var next := done[k := r];
    assert next[k].source == r.source;
    forall p | RejectedAt(done, p) ensures RejectedAt(next, p) {
      var l :| l in done && done[l].source == p;
      assert next[l].source == p;
    }
  }

  ghost function Flushes(groups: map<Key, Group>, completion: Completion, ids: seq<Key>): seq<Event>
    requires KeySet(ids) <= groups.Keys
  {
    seq(|ids|,
        i requires 0 <= i < |ids| => assert ids[i] in KeySet(ids); Finished(ids[i], groups[ids[i]], completion, false))
  }

  lemma NextFlush(groups: map<Key, Group>, completion: Completion, ids: seq<Key>, k: Key)
    requires KeySet(ids) <= groups.Keys && k in groups && k !in KeySet(ids) && Different(ids)
    ensures KeySet(ids + [k]) == KeySet(ids) + {k} && Different(ids + [k])
    ensures groups - KeySet(ids + [k]) == groups - KeySet(ids) - {k}
    ensures Flushes(groups, completion, ids + [k]) == Flushes(groups, completion, ids) +
      [Finished(k, groups[k], completion, false)]
  {
    assert KeySet(ids + [k]) == KeySet(ids) + {k};
  }

  lemma FlushBatch(s: State, completion: Completion, ids: seq<Key>)
    requires Numbered(s.pending, s.nextSequence)
    requires KeySet(ids) == s.pending.Keys
    requires Different(ids)
    ensures PairwiseDistinct(Flushes(s.pending, completion, ids))
    ensures Members(Flushes(s.pending, completion, ids)) == FlushedEvents(s.pending, completion)
  {
    var ready, members := Flushes(s.pending, completion, ids), FlushedEvents(s.pending, completion);
    assert forall i :: 0 <= i < |ids| ==> ids[i] in KeySet(ids);
    forall e ensures e in ready <==> e in members {
      if e in members {
        var k :| k in s.pending && e == Finished(k, s.pending[k], completion, false);
        assert k in KeySet(ids);
        var i :| 0 <= i < |ids| && ids[i] == k;
        assert ready[i] == e;
      }
    }
  }

  /** Marking every event of a flush as exceptional keeps its order. */
  lemma ListingMarks(s: State, source: SourcePosition, now: int, events: seq<Event>)
    requires Numbered(s.pending, s.nextSequence)
    requires events == Listing(FlushedEvents(s.pending, ByLineLimit))
    ensures
      seq(|events|, i requires 0 <= i < |events| => events[i].(exceptional := true))
      == Listing(RejectUnkeyedLine(s, source, now).events)
  {
    var plain, marked := FlushedEvents(s.pending, ByLineLimit), RejectUnkeyedLine(s, source, now).events;
    var batch := seq(|events|, i requires 0 <= i < |events| => events[i].(exceptional := true));
    ListingExists(plain);
    forall e ensures e in batch <==> e in marked {
      if e in batch {
        var i :| 0 <= i < |batch| && batch[i] == e;
        assert events[i] in plain;
      }
      if e in marked {
        var k :| k in s.pending && e == Finished(k, s.pending[k], ByLineLimit, false).(exceptional := true);
        assert Finished(k, s.pending[k], ByLineLimit, false) in plain;
        var i :| 0 <= i < |events| && events[i] == Finished(k, s.pending[k], ByLineLimit, false);
        assert batch[i] == e;
      }
    }
    ListingOf(batch, marked);
  }

  lemma ExpiryIgnoresRejections(cfg: Config, s: State, now: int)
    ensures ExpiredKeys(cfg, Spec.ExpireRejected(cfg, s, now), now) == ExpiredKeys(cfg, s, now)
    ensures ExpiredEvents(cfg, Spec.ExpireRejected(cfg, s, now), now) == ExpiredEvents(cfg, s, now)
  {
    var t := Spec.ExpireRejected(cfg, s, now);
    assert ExpiredKeys(cfg, t, now) == ExpiredKeys(cfg, s, now);
    assert ExpiredEvents(cfg, t, now) == ExpiredEvents(cfg, s, now);
  }

  /** Stale evidence and the record's own events share no number, so the merge is a listing. */
  lemma MergeIsListing(cfg: Config, s: State, record: Record, now: int, expired: seq<Event>, events: seq<Event>)
    requires ValidConfig(cfg) && Invariant(cfg, s)
    requires IsListing(expired, ExpiredEvents(cfg, s, now))
    requires IsListing(events, Spec.Dispatch(cfg, Swept(cfg, s, now), record, now).events)
    ensures PairwiseDistinct(expired + events)
    ensures Members(expired + events) == Spec.AddRecovering(cfg, s, record, now).events
    ensures |expired| == 0 ==> IsListing(events, Spec.AddRecovering(cfg, s, record, now).events)
  {
    var o := Spec.Dispatch(cfg, Swept(cfg, s, now), record, now);
    SweepIsSound(cfg, s, now);
    DispatchAllFlow(cfg, Swept(cfg, s, now), record, now);
    forall e, f | e in ExpiredEvents(cfg, s, now) && f in o.events ensures e.sequence != f.sequence {
      StaleFirst(cfg, s, now, [record], o, e, f);
    }
    JoinedListings(expired, ExpiredEvents(cfg, s, now), events, o.events);
    if |expired| == 0 {
      assert forall e :: e in ExpiredEvents(cfg, s, now) <==> e in expired;
    }
  }

  ghost function AfterOverflow(cfg: Config, m: State, record: Record, now: int): State {
    var k := record.key;
    var pin := (Held(m, k) + [record])[0].source;
    var taken := m.(pending := m.pending - {k});
    (if Terminal(record.kind) then taken else Spec.Isolate(cfg, taken, k, pin, pin, now))
      .(nextSequence := m.nextSequence + if k in m.pending then 0 else 1)
  }

  /** Remarking first does not change what the overflow sees of the key. */
  lemma RemarkedKey(s: State, k: Key)
    ensures var m := s.(pending := Remark(s.pending, k, false));
            && Held(m, k) == Held(s, k) && SequenceFor(m, k) == SequenceFor(s, k) &&
              (k in m.pending <==> k in s.pending)
            && Evicted(s, k) ==
              m.(pending := m.pending - {k}, nextSequence := m.nextSequence + if k in m.pending then 0 else 1)
  {
  }

  /** Counting after isolating is isolating after counting. */
  lemma IsolationIgnoresNumbers(cfg: Config, s: State, k: Key, pin: SourcePosition, now: int, next: nat)
    ensures Spec.Isolate(cfg, s, k, pin, pin, now).(nextSequence := next) ==
      Spec.Isolate(cfg, s.(nextSequence := next), k, pin, pin, now)
  {
  }

  lemma OverflowInSteps(cfg: Config, s: State, record: Record, now: int, name: LimitName)
    ensures
      var k, m := record.key, s.(pending := Remark(s.pending, record.key, false));
      var records := Held(m, k) + [record];
      Spec.Overflow(cfg, s, record, now, name) ==
      Outcome(AfterOverflow(cfg, m, record, now), {ExceptionalEvent(SequenceFor(m, k), k.id, records)},
              Some(Limit(name, LimitValue(cfg, name), k, |records|)))
  {
    var k, m := record.key, s.(pending := Remark(s.pending, record.key, false));
    RemarkedKey(s, k);
    IsolationIgnoresNumbers(cfg, m.(pending := m.pending - {k}), k, (Held(m, k) + [record])[0].source, now,
                            Evicted(s, k).nextSequence);
  }

  lemma NewKeyBytes(rejected: map<Key, Rejection>, k: Key, r: Rejection)
    requires k !in rejected
    ensures RejectedTotal(rejected[k := r]) == RejectedTotal(rejected) + r.keyBytes
  {
    TotalWith(RejectedWeights(rejected), k, r.keyBytes);
    assert RejectedWeights(rejected[k := r]) == RejectedWeights(rejected)[k := r.keyBytes];
  }

  lemma SameKeyBytes(rejected: map<Key, Rejection>, k: Key, now: int)
    requires k in rejected
    ensures RejectedTotal(rejected[k := rejected[k].(lastSeen := now)]) == RejectedTotal(rejected)
  {
    assert RejectedWeights(rejected[k := rejected[k].(lastSeen := now)]) == RejectedWeights(rejected);
  }

  ghost function AdmissionLimit(cfg: Config, s: State, record: Record): Option<LimitName> {
    if record.kind.EOE? && record.key !in s.pending then None else Spec.CheckLimits(cfg, s, record)
  }

  /** Admission up to, but not including, the expiry that follows it. */
  ghost function Admitted(cfg: Config, s: State, record: Record, now: int): Outcome {
    if record.kind.EOE? && record.key !in s.pending
    then Outcome(s.(pending := Remark(s.pending, record.key, false)), {}, None)
    else Closed(cfg, s, record, now)
  }

  lemma JoinedInSteps(cfg: Config, s: State, record: Record, now: int, mixed: bool)
    requires mixed <==> AnyMixes(s.pending.Keys, record.key)
    ensures
      var marked := s.(pending := Remark(s.pending, record.key, false));
      Joined(cfg, s, record, now) ==
      GrownState(if record.key in s.pending then marked else OpenedState(cfg, marked, record, mixed), record, now)
  {
    var k, marked := record.key, s.(pending := Remark(s.pending, record.key, false));
    var joined := Joined(cfg, s, record, now);
    if k in s.pending {
      assert joined.pending == GrownState(marked, record, now).pending;
    } else {
      assert Unmarked(marked.pending, marked.pending.Keys) == Remark(s.pending, k, true);
      assert [] + [record] == [record];
      assert joined.pending == GrownState(OpenedState(cfg, marked, record, mixed), record, now).pending;
    }
  }

  lemma AdmittedIsSound(cfg: Config, s: State, record: Record, now: int)
    requires ValidConfig(cfg) && Invariant(cfg, s) && record.key !in s.rejected
    requires AdmissionLimit(cfg, s, record) == None
    ensures Sound(cfg, Admitted(cfg, s, record, now).state)
    ensures Admit(cfg, s, record, now) == ThenExpire(cfg, Admitted(cfg, s, record, now), now)
  {
    if record.kind.EOE? && record.key !in s.pending {
      RemarkingIsSound(cfg, s, record.key);
    } else {
      ClosedIsSound(cfg, s, record, now);
    }
  }

  lemma RemarkedLimits(cfg: Config, s: State, record: Record)
    ensures Spec.CheckLimits(cfg, s.(pending := Remark(s.pending, record.key, false)), record) ==
      Spec.CheckLimits(cfg, s, record)
  {
    var marked := Remark(s.pending, record.key, false);
    MixedAll(s.pending, record.key);
    assert marked.Keys == s.pending.Keys;
    assert |marked| == |marked.Keys|;
  }

  lemma ReadyThenExpired(cfg: Config, s: State, record: Record, now: int, ready: seq<Event>, expired: seq<Event>)
    requires ValidConfig(cfg) && Invariant(cfg, s) && record.key !in s.rejected
    requires AdmissionLimit(cfg, s, record) == None
    requires |ready| <= 1 && Members(ready) == Admitted(cfg, s, record, now).events
    requires IsListing(expired, ExpiredEvents(cfg, Admitted(cfg, s, record, now).state, now))
    ensures PairwiseDistinct(ready + expired)
    ensures Members(ready + expired) == Admit(cfg, s, record, now).events
  {
    var o := Admitted(cfg, s, record, now);
    assert IsListing(ready, o.events);
    forall e, f | e in o.events && f in ExpiredEvents(cfg, o.state, now) ensures e.sequence != f.sequence {
      ClosedThenExpired(cfg, s, record, now, e, f);
    }
    JoinedListings(ready, o.events, expired, ExpiredEvents(cfg, o.state, now));
  }

  lemma ClosedThenExpired(cfg: Config, s: State, record: Record, now: int, e: Event, f: Event)
    requires OwnsRecords(s.pending) && Numbered(s.pending, s.nextSequence)
    requires e in Closed(cfg, s, record, now).events
    requires f in ExpiredEvents(cfg, Closed(cfg, s, record, now).state, now)
    ensures e.sequence != f.sequence
  {
    JoinedOwnership(cfg, s, record, now);
    OneThenExpired(cfg, Joined(cfg, s, record, now), Closed(cfg, s, record, now).state, record.key, now, f);
  }

  /** An expired group never carries the number of the group that just closed. */
  lemma OneThenExpired(cfg: Config, joined: State, closed: State, k: Key, now: int, f: Event)
    requires Numbered(joined.pending, joined.nextSequence) && k in joined.pending
    requires closed.pending == joined.pending - {k}
    requires f in ExpiredEvents(cfg, closed, now)
    ensures f.sequence != joined.pending[k].sequence
  {
    var l :| l in ExpiredKeys(cfg, closed, now) && f == ExpiryEvent(cfg, closed.clock.latest, l, closed.pending[l]);
    assert f.sequence == joined.pending[l].sequence;
  }

  /** Two ascending lists with no number in common, one after the other. */
  lemma JoinedListings(a: seq<Event>, left: set<Event>, b: seq<Event>, right: set<Event>)
    requires IsListing(a, left) && IsListing(b, right)
    requires forall e, f :: e in left && f in right ==> e.sequence != f.sequence
    ensures PairwiseDistinct(a + b)
    ensures Members(a + b) == left + right
  {
    forall i, j | 0 <= i < j < |a + b| ensures (a + b)[i].sequence != (a + b)[j].sequence {
      if i < |a| <= j { assert a[i] in left && b[j - |a|] in right; }
    }
  }

  function Opened(record: Record, sequence: nat, mixed: bool): Group {
    Group([], sequence, 0, if record.auditTime.Some? then record.auditTime.value else 0, record.auditTime.Some?, mixed)
  }

  ghost function OpenedState(cfg: Config, s: State, record: Record, mixed: bool): State {
    var ends := record.auditTime.Some? && EpochEnds(cfg, s.clock, record.auditTime.value, record.key);
    s.(pending := (if ends then Unmarked(s.pending, s.pending.Keys) else s.pending)
                    [record.key := Opened(record, s.nextSequence, mixed)],
       nextSequence := s.nextSequence + 1,
       clock := if record.auditTime.Some? then Observed(cfg, s.clock, record.auditTime.value, record.key) else s.clock)
  }

  ghost function GrownState(s: State, record: Record, now: int): State
    requires record.key in s.pending
  {
    s.(pending := s.pending[record.key := Grown(s.pending[record.key], record, now)])
  }

  function Grown(g: Group, record: Record, now: int): Group {
    g.(records := g.records + [record], lastSeen := now)
  }

  lemma NewWeight(pending: map<Key, Group>, k: Key, g: Group)
    requires k !in pending && g.records == []
    ensures PendingTotal(pending[k := g]) == PendingTotal(pending)
  {
    TotalWith(PendingWeights(pending), k, 0);
    assert PendingWeights(pending[k := g]) == PendingWeights(pending)[k := 0];
  }

  lemma GrownWeight(pending: map<Key, Group>, record: Record, now: int)
    requires record.key in pending
    ensures PendingTotal(pending[record.key := Grown(pending[record.key], record, now)]) == PendingTotal(pending) +
      record.sourceBytes
  {
    var k := record.key;
    var before, after := PendingWeights(pending), PendingWeights(pending[k := Grown(pending[k], record, now)]);
    BytesAppended(pending[k].records, record);
    TotalWithout(before, k);
    TotalWithout(after, k);
    OtherWeights(pending, k, Grown(pending[k], record, now));
  }

  lemma OtherWeights(pending: map<Key, Group>, k: Key, g: Group)
    ensures PendingWeights(pending[k := g]) - {k} == PendingWeights(pending) - {k}
  {
  }

  /** The groups of `keys` have been compared with the node presence of `key`. */
  ghost function Mixed(groups: map<Key, Group>, key: Key, keys: set<Key>): map<Key, Group> {
    map k | k in groups :: if k in keys && MixesWith(k, key) then groups[k].(mixedNode := true) else groups[k]
  }

  ghost predicate AnyMixes(keys: set<Key>, key: Key) {
    exists l :: l in keys && MixesWith(l, key)
  }

  lemma MixedAll(groups: map<Key, Group>, key: Key)
    ensures Mixed(groups, key, groups.Keys) == Remark(groups, key, false)
    ensures PendingTotal(Remark(groups, key, false)) == PendingTotal(groups)
  {
    assert Mixed(groups, key, groups.Keys) == Remark(groups, key, false);
    SameWeights(groups, Remark(groups, key, false));
  }

  lemma MixedNext(groups: map<Key, Group>, key: Key, done: set<Key>, l: Key)
    requires l in groups
    ensures Mixed(groups, key, done + {l}) ==
            var m := Mixed(groups, key, done); if MixesWith(l, key) then m[l := m[l].(mixedNode := true)] else m
    ensures AnyMixes(done + {l}, key) <==> AnyMixes(done, key) || MixesWith(l, key)
  {
    assert l in done + {l};
    if AnyMixes(done, key) {
      var k :| k in done && MixesWith(k, key);
      assert k in done + {l};
    }
  }

  /** The groups of `keys` have left the watermark epoch. */
  ghost function Unmarked(groups: map<Key, Group>, keys: set<Key>): map<Key, Group> {
    map k | k in groups :: if k in keys then groups[k].(hasAuditTS := false) else groups[k]
  }

  lemma UnmarkedNext(groups: map<Key, Group>, done: set<Key>, k: Key)
    requires k in groups
    ensures Unmarked(groups, done + {k}) ==
            var m := Unmarked(groups, done); m[k := m[k].(hasAuditTS := false)]
  {
  }

  lemma SameWeights(before: map<Key, Group>, after: map<Key, Group>)
    requires after.Keys == before.Keys
    requires forall k :: k in before ==> after[k].records == before[k].records
    ensures PendingTotal(after) == PendingTotal(before)
  {
    assert PendingWeights(after) == PendingWeights(before);
  }

  ghost predicate Different(ids: seq<Key>) {
    forall i, j :: 0 <= i < j < |ids| ==> ids[i] != ids[j]
  }

  ghost function KeySet(ids: seq<Key>): set<Key> { set id | id in ids }

  ghost function Expiries(cfg: Config, latest: Option<int>, groups: map<Key, Group>, ids: seq<Key>): seq<Event>
    requires forall id :: id in ids ==> id in groups
  {
    seq(|ids|, i requires 0 <= i < |ids| => ExpiryEvent(cfg, latest, ids[i], groups[ids[i]]))
  }

  lemma NextExpiry(cfg: Config, latest: Option<int>, groups: map<Key, Group>, ids: seq<Key>, n: nat)
    requires forall id :: id in ids ==> id in groups
    requires forall i, j :: 0 <= i < j < |ids| ==> ids[i] != ids[j]
    requires n < |ids|
    ensures ids[n] !in KeySet(ids[..n])
    ensures groups - KeySet(ids[..n]) - {ids[n]} == groups - KeySet(ids[..n + 1])
    ensures Expiries(cfg, latest, groups, ids[..n + 1]) ==
            Expiries(cfg, latest, groups, ids[..n]) + [ExpiryEvent(cfg, latest, ids[n], groups[ids[n]])]
  {
    assert ids[..n + 1] == ids[..n] + [ids[n]];
  }

  lemma AscendingKeysDiffer(ids: seq<Key>, groups: map<Key, Group>)
    requires KeysAscend(ids, groups)
    ensures forall i, j :: 0 <= i < j < |ids| ==> ids[i] != ids[j]
  {
    forall i, j | 0 <= i < j < |ids| ensures ids[i] != ids[j] {
      assert Rank(groups, ids[i]) < Rank(groups, ids[j]);
    }
  }

  lemma ExpiryBatch(cfg: Config, s: State, now: int, ids: seq<Key>)
    requires forall id :: id in ids <==> id in ExpiredKeys(cfg, s, now)
    requires KeysAscend(ids, s.pending)
    ensures IsListing(Expiries(cfg, s.clock.latest, s.pending, ids), ExpiredEvents(cfg, s, now))
    ensures Expiries(cfg, s.clock.latest, s.pending, ids) == Listing(ExpiredEvents(cfg, s, now))
  {
    var members, ready := ExpiredEvents(cfg, s, now), Expiries(cfg, s.clock.latest, s.pending, ids);
    forall i, j | 0 <= i < j < |ready| ensures ready[i].sequence < ready[j].sequence {
      assert Rank(s.pending, ids[i]) < Rank(s.pending, ids[j]);
      assert ids[i] in ids && ids[j] in ids;
    }
    forall e ensures e in ready <==> e in members {
      if e in members {
        var k :| k in ExpiredKeys(cfg, s, now) && e == ExpiryEvent(cfg, s.clock.latest, k, s.pending[k]);
        var i :| 0 <= i < |ids| && ids[i] == k;
        assert ready[i] == e;
      }
      if i :| 0 <= i < |ready| && ready[i] == e { assert ids[i] in ids; }
    }
    ListingOf(ready, members);
  }
}
