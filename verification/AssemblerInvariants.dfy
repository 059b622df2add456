/** What every call keeps: memory budgets, ownership of records by their key,
    separation of pending from rejected keys, unique sequence numbers, and the
    soundness of the watermark clock. */
module AssemblerInvariants {
  import opened Records
  import opened Totals
  import opened EventOrder
  import opened AssemblerSpec

  // ---------- the invariants ----------

  ghost predicate OwnsRecords(pending: map<Key, Group>) {
    forall k :: k in pending ==>
      pending[k].records != [] && forall r :: r in pending[k].records ==> r.key == k
  }

  ghost predicate Numbered(pending: map<Key, Group>, nextSequence: nat) {
    && (forall k :: k in pending ==> pending[k].sequence < nextSequence)
    && (forall k, l :: k in pending && l in pending && pending[k].sequence == pending[l].sequence ==> k == l)
  }

  ghost predicate PendingBudget(cfg: Config, pending: map<Key, Group>) {
    && |pending| <= cfg.maxPendingEvents
    && (forall k :: k in pending ==> |pending[k].records| <= cfg.maxRecordsPerEvent)
    && PendingTotal(pending) <= cfg.maxPendingBytes
  }

  ghost predicate RejectedBudget(cfg: Config, rejected: map<Key, Rejection>) {
    |rejected| <= cfg.maxPendingEvents && RejectedTotal(rejected) <= cfg.maxPendingBytes
  }

  ghost predicate Separate(pending: map<Key, Group>, rejected: map<Key, Rejection>) {
    forall k :: k in pending ==> k !in rejected
  }

  /** A marked group belongs to the current epoch and carries the time of its first record. */
  ghost predicate InEpoch(clock: Clock, k: Key, g: Group) {
    && clock.latest.Some?
    && k.node == clock.node && k.nodePresent == clock.nodePresent
    && g.auditTime <= clock.latest.value
    && g.records != [] && g.records[0].auditTime == Some(g.auditTime)
  }

  ghost predicate Epochal(pending: map<Key, Group>, clock: Clock) {
    forall k :: k in pending && pending[k].hasAuditTS ==> InEpoch(clock, k, pending[k])
  }

  ghost predicate Young(cfg: Config, pending: map<Key, Group>, clock: Clock) {
    forall k :: k in pending ==> !WatermarkExpired(cfg, clock.latest, pending[k])
  }

  /** Everything but the age bound, which holds only between calls. */
  ghost predicate Sound(cfg: Config, s: State) {
    && OwnsRecords(s.pending)
    && Numbered(s.pending, s.nextSequence)
    && PendingBudget(cfg, s.pending)
    && Epochal(s.pending, s.clock)
    && RejectedBudget(cfg, s.rejected)
    && Separate(s.pending, s.rejected)
  }

  ghost predicate Invariant(cfg: Config, s: State) {
    Sound(cfg, s) && Young(cfg, s.pending, s.clock)
  }

  // ---------- shrinking tables ----------

  lemma FewerWeights(pending: map<Key, Group>, keys: set<Key>)
    ensures PendingWeights(pending - keys) == PendingWeights(pending) - keys
  {
  }

  lemma FewerGroups(cfg: Config, pending: map<Key, Group>, keys: set<Key>)
    requires PendingBudget(cfg, pending)
    ensures PendingBudget(cfg, pending - keys)
  {
    FewerWeights(pending, keys);
    TotalShrinks(PendingWeights(pending), keys);
    SubsetCardinality((pending - keys).Keys, pending.Keys);
  }

  lemma FewerRejections(cfg: Config, rejected: map<Key, Rejection>, kept: map<Key, Rejection>)
    requires RejectedBudget(cfg, rejected)
    requires kept.Keys <= rejected.Keys
    requires forall k :: k in kept ==> kept[k].keyBytes == rejected[k].keyBytes
    ensures RejectedBudget(cfg, kept)
  {
    var gone := rejected.Keys - kept.Keys;
    assert RejectedWeights(kept) == RejectedWeights(rejected) - gone;
    TotalShrinks(RejectedWeights(rejected), gone);
    SubsetCardinality(kept.Keys, rejected.Keys);
  }

  lemma SweepIsSound(cfg: Config, s: State, now: int)
    requires Sound(cfg, s)
    ensures Sound(cfg, ExpirePending(cfg, s, now))
    ensures Sound(cfg, ExpireRejected(cfg, s, now))
    ensures Sound(cfg, Swept(cfg, s, now))
  {
    FewerGroups(cfg, s.pending, ExpiredKeys(cfg, s, now));
    FewerRejections(cfg, s.rejected, ExpireRejected(cfg, s, now).rejected);
  }

  lemma SweepKeeps(cfg: Config, s: State, now: int)
    requires Invariant(cfg, s)
    ensures Invariant(cfg, Swept(cfg, s, now))
  {
    SweepIsSound(cfg, s, now);
  }

  // ---------- isolation ----------

  lemma IsolationIsSound(cfg: Config, s: State, key: Key, pin: SourcePosition, spillPin: SourcePosition, now: int)
    requires Sound(cfg, s)
    requires key !in s.pending && key !in s.rejected
    ensures Sound(cfg, Isolate(cfg, s, key, pin, spillPin, now))
  {
    if Trackable(cfg, s, key) {
      MoreRejections(cfg, s.rejected, key, Rejection(pin, now, KeyBytes(key)));
    }
  }

  lemma MoreRejections(cfg: Config, rejected: map<Key, Rejection>, key: Key, r: Rejection)
    requires RejectedBudget(cfg, rejected) && key !in rejected
    requires |rejected| < cfg.maxPendingEvents && r.keyBytes <= cfg.maxPendingBytes - RejectedTotal(rejected)
    ensures RejectedBudget(cfg, rejected[key := r])
  {
    TotalWith(RejectedWeights(rejected), key, r.keyBytes);
    assert RejectedWeights(rejected[key := r]) == RejectedWeights(rejected)[key := r.keyBytes];
  }

  lemma IsolationKeeps(cfg: Config, s: State, key: Key, pin: SourcePosition, spillPin: SourcePosition, now: int)
    requires Invariant(cfg, s)
    requires key !in s.pending && key !in s.rejected
    ensures Invariant(cfg, Isolate(cfg, s, key, pin, spillPin, now))
  {
    IsolationIsSound(cfg, s, key, pin, spillPin, now);
  }

  // ---------- admission ----------

  /** Groups other than that of `k` keep their evidence and their number. */
  ghost predicate SameEvidence(before: map<Key, Group>, after: map<Key, Group>, k: Key) {
    forall l :: l in before && l != k ==>
      l in after && after[l].records == before[l].records && after[l].sequence == before[l].sequence
  }

  lemma OwnershipKept(before: map<Key, Group>, after: map<Key, Group>, k: Key, next: nat, next': nat)
    requires OwnsRecords(before) && Numbered(before, next) && next <= next'
    requires SameEvidence(before, after, k) && after.Keys <= before.Keys + {k}
    requires k in after ==> after[k].records != [] && forall r :: r in after[k].records ==> r.key == k
    requires k in after ==> after[k].sequence < next' &&
                            (if k in before then after[k].sequence == before[k].sequence else next <= after[k].sequence)
    ensures OwnsRecords(after) && Numbered(after, next')
  {
    forall i, j | i in after && j in after && after[i].sequence == after[j].sequence ensures i == j {
      assert i != k ==> before[i].sequence == after[i].sequence < next;
      assert j != k ==> before[j].sequence == after[j].sequence < next;
    }
  }

  lemma RemarkedBudget(cfg: Config, pending: map<Key, Group>, key: Key, epochEnds: bool)
    requires PendingBudget(cfg, pending)
    ensures PendingBudget(cfg, Remark(pending, key, epochEnds))
  {
    var after := Remark(pending, key, epochEnds);
    assert PendingWeights(after) == PendingWeights(pending);
    assert after.Keys == pending.Keys;
    assert |after| == |after.Keys|;
  }

  lemma RemarkingIsSound(cfg: Config, s: State, key: Key)
    requires Sound(cfg, s)
    ensures Sound(cfg, s.(pending := Remark(s.pending, key, false)))
  {
    RemarkedBudget(cfg, s.pending, key, false);
  }

  /** What admission does to each group, in the terms the invariants speak of. */
  lemma JoinedShape(cfg: Config, s: State, record: Record, now: int)
    ensures
      var k, joined := record.key, Joined(cfg, s, record, now).pending;
      && joined.Keys == s.pending.Keys + {k}
      && joined[k] == Extended(s, record, now)
      && SameEvidence(s.pending, joined, k)
  {
  }

  lemma JoinedCount(pending: map<Key, Group>, joined: map<Key, Group>, k: Key)
    requires joined.Keys == pending.Keys + {k}
    ensures |joined| == |pending| + if k in pending then 0 else 1
  {
    assert |joined.Keys| == |joined| && |pending.Keys| == |pending|;
    if k in pending { assert joined.Keys == pending.Keys; }
  }

  lemma JoinedLengths(cfg: Config, s: State, record: Record, now: int)
    requires ValidConfig(cfg) && PendingBudget(cfg, s.pending)
    requires CheckLimits(cfg, s, record) == None
    ensures
      var joined := Joined(cfg, s, record, now).pending;
      forall l :: l in joined ==> |joined[l].records| <= cfg.maxRecordsPerEvent
  {
    JoinedShape(cfg, s, record, now);
  }

  lemma JoinedBudget(cfg: Config, s: State, record: Record, now: int)
    requires ValidConfig(cfg) && PendingBudget(cfg, s.pending)
    requires CheckLimits(cfg, s, record) == None
    ensures PendingBudget(cfg, Joined(cfg, s, record, now).pending)
  {
    JoinedShape(cfg, s, record, now);
    JoinedLengths(cfg, s, record, now);
    JoinedTotal(cfg, s, record, now);
    JoinedCount(s.pending, Joined(cfg, s, record, now).pending, record.key);
  }

  lemma JoinedWeights(cfg: Config, s: State, record: Record, now: int)
    ensures
      var k, joined := record.key, Joined(cfg, s, record, now).pending;
      PendingWeights(joined) - {k} == PendingWeights(s.pending) - {k}
  {
    JoinedShape(cfg, s, record, now);
  }

  lemma JoinedTotal(cfg: Config, s: State, record: Record, now: int)
    ensures PendingTotal(Joined(cfg, s, record, now).pending) == PendingTotal(s.pending) + record.sourceBytes
  {
    var k, joined := record.key, Joined(cfg, s, record, now).pending;
    var before, after := PendingWeights(s.pending), PendingWeights(joined);
    JoinedWeights(cfg, s, record, now);
    TotalWithout(after, k);
    BytesAppended(if k in s.pending then s.pending[k].records else [], record);
    if k in s.pending {
      TotalWithout(before, k);
    } else {
      assert before - {k} == before;
      assert joined[k].records == [] + [record];
    }
  }

  lemma BytesAppended(records: seq<Record>, record: Record)
    ensures Bytes(records + [record]) == Bytes(records) + record.sourceBytes
  {
    assert (records + [record])[..|records|] == records;
  }

  lemma JoinedEpoch(cfg: Config, s: State, record: Record, now: int)
    requires Epochal(s.pending, s.clock)
    requires OwnsRecords(s.pending)
    ensures Epochal(Joined(cfg, s, record, now).pending, Joined(cfg, s, record, now).clock)
  {
    var joined := Joined(cfg, s, record, now);
    forall k | k in joined.pending && joined.pending[k].hasAuditTS
      ensures InEpoch(joined.clock, k, joined.pending[k])
    {
      if k in s.pending { assert InEpoch(s.clock, k, s.pending[k]); }
    }
  }

  lemma JoinedOwnership(cfg: Config, s: State, record: Record, now: int)
    requires OwnsRecords(s.pending) && Numbered(s.pending, s.nextSequence)
    ensures
      var joined := Joined(cfg, s, record, now);
      OwnsRecords(joined.pending) && Numbered(joined.pending, joined.nextSequence)
  {
    var joined := Joined(cfg, s, record, now);
    JoinedShape(cfg, s, record, now);
    OwnershipKept(s.pending, joined.pending, record.key, s.nextSequence, joined.nextSequence);
  }

  lemma JoiningIsSound(cfg: Config, s: State, record: Record, now: int)
    requires ValidConfig(cfg) && Sound(cfg, s)
    requires record.key !in s.rejected
    requires CheckLimits(cfg, s, record) == None
    ensures Sound(cfg, Joined(cfg, s, record, now))
  {
    JoinedShape(cfg, s, record, now);
    JoinedOwnership(cfg, s, record, now);
    JoinedBudget(cfg, s, record, now);
    JoinedEpoch(cfg, s, record, now);
  }

  // ---------- every call keeps the invariant ----------

  lemma RejectKeeps(cfg: Config, s: State, record: Record, now: int)
    requires Invariant(cfg, s) && record.key in s.rejected
    ensures Invariant(cfg, Reject(s, record, now).state)
  {
    FewerRejections(cfg, s.rejected, Reject(s, record, now).state.rejected);
  }

  lemma CountingKeeps(cfg: Config, s: State)
    requires Invariant(cfg, s)
    ensures Invariant(cfg, s.(nextSequence := s.nextSequence + 1))
  {
  }

  lemma FenceKeeps(cfg: Config, s: State, record: Record, now: int)
    requires Invariant(cfg, s) && record.key !in s.pending && record.key !in s.rejected
    ensures Invariant(cfg, Fence(cfg, s, record, now).state)
  {
    CountingKeeps(cfg, s);
    if !Terminal(record.kind) {
      IsolationKeeps(cfg, s.(nextSequence := s.nextSequence + 1), record.key, s.spillSource, record.source, now);
    }
  }

  lemma DroppingIsSound(cfg: Config, s: State, keys: set<Key>, next: nat)
    requires Sound(cfg, s) && s.nextSequence <= next
    ensures Sound(cfg, s.(pending := s.pending - keys, nextSequence := next))
  {
    FewerGroups(cfg, s.pending, keys);
  }

  lemma DroppingKeeps(cfg: Config, s: State, keys: set<Key>, next: nat)
    requires Invariant(cfg, s) && s.nextSequence <= next
    ensures Invariant(cfg, s.(pending := s.pending - keys, nextSequence := next))
  {
    DroppingIsSound(cfg, s, keys, next);
  }

  lemma CloseFullGroupKeeps(cfg: Config, s: State, k: Key)
    requires Invariant(cfg, s) && k in s.pending
    ensures Invariant(cfg, CloseFullGroup(s, k).state)
  {
    DroppingIsSound(cfg, s, {k}, s.nextSequence);
  }

  lemma EvictionKeeps(cfg: Config, s: State, k: Key)
    requires Invariant(cfg, s)
    ensures Invariant(cfg, Evicted(s, k))
  {
    RemarkingIsSound(cfg, s, k);
    DroppingIsSound(cfg, s.(pending := Remark(s.pending, k, false)), {k}, Evicted(s, k).nextSequence);
  }

  lemma OverflowKeeps(cfg: Config, s: State, record: Record, now: int, name: LimitName)
    requires Invariant(cfg, s) && record.key !in s.rejected
    ensures Invariant(cfg, Overflow(cfg, s, record, now, name).state)
  {
    var pin := (Held(s, record.key) + [record])[0].source;
    EvictionKeeps(cfg, s, record.key);
    IsolationKeeps(cfg, Evicted(s, record.key), record.key, pin, pin, now);
  }

  lemma ClosedIsSound(cfg: Config, s: State, record: Record, now: int)
    requires ValidConfig(cfg) && Sound(cfg, s) && record.key !in s.rejected
    requires CheckLimits(cfg, s, record) == None
    ensures Sound(cfg, Closed(cfg, s, record, now).state)
  {
    var joined := Joined(cfg, s, record, now);
    JoiningIsSound(cfg, s, record, now);
    DroppingIsSound(cfg, joined, {record.key}, joined.nextSequence);
  }

  lemma ExpiryLeavesYoung(cfg: Config, o: Outcome, now: int)
    requires Sound(cfg, o.state)
    ensures Invariant(cfg, ThenExpire(cfg, o, now).state)
  {
    SweepIsSound(cfg, o.state, now);
  }

  lemma AdmitKeeps(cfg: Config, s: State, record: Record, now: int)
    requires ValidConfig(cfg) && Invariant(cfg, s) && record.key !in s.rejected
    ensures Invariant(cfg, Admit(cfg, s, record, now).state)
  {
    if record.kind.EOE? && record.key !in s.pending {
      RemarkingIsSound(cfg, s, record.key);
      ExpiryLeavesYoung(cfg, Outcome(s.(pending := Remark(s.pending, record.key, false)), {}, None), now);
    } else {
      match CheckLimits(cfg, s, record)
      case Some(name) => OverflowKeeps(cfg, s, record, now, name);
      case None =>
        ClosedIsSound(cfg, s, record, now);
        ExpiryLeavesYoung(cfg, Closed(cfg, s, record, now), now);
    }
  }

  lemma DispatchKeeps(cfg: Config, s: State, record: Record, now: int)
    requires ValidConfig(cfg) && Invariant(cfg, s)
    ensures Invariant(cfg, Dispatch(cfg, s, record, now).state)
  {
    if record.key in s.rejected {
      RejectKeeps(cfg, s, record, now);
    } else if ClosesFullGroup(cfg, s, record) {
      CloseFullGroupKeeps(cfg, s, record.key);
    } else if record.key !in s.pending && s.spillSince.Some? {
      FenceKeeps(cfg, s, record, now);
    } else {
      AdmitKeeps(cfg, s, record, now);
    }
  }

  lemma RefreshedRejectionKeeps(cfg: Config, s: State, k: Key, now: int)
    requires Invariant(cfg, s) && k in s.rejected
    ensures Invariant(cfg, s.(rejected := s.rejected[k := s.rejected[k].(lastSeen := now)]))
  {
    FewerRejections(cfg, s.rejected, s.rejected[k := s.rejected[k].(lastSeen := now)]);
  }

  lemma RejectKeyedLineKeeps(cfg: Config, s: State, k: Key, source: SourcePosition, now: int)
    requires Invariant(cfg, s)
    ensures Invariant(cfg, RejectKeyedLine(cfg, s, k, source, now).state)
  {
    var removed := s.(pending := s.pending - {k});
    DroppingKeeps(cfg, s, {k}, s.nextSequence);
    if k in s.rejected {
      RefreshedRejectionKeeps(cfg, removed, k, now);
    } else {
      var pin := if Held(s, k) != [] then Held(s, k)[0].source else source;
      IsolationKeeps(cfg, removed, k, pin, pin, now);
    }
  }

  lemma ClearingKeeps(cfg: Config, s: State)
    ensures Invariant(cfg, Cleared(s))
  {
  }

  /** Budgets, ownership, separation, numbering and watermark soundness survive any call. */
  lemma StepKeepsInvariant(cfg: Config, s: State, op: Op)
    requires ValidConfig(cfg) && Invariant(cfg, s)
    ensures Invariant(cfg, Step(cfg, s, op).state)
  {
    match op
    case Add(record, now) =>
      SweepIsSound(cfg, s, now);
      DispatchKeeps(cfg, Swept(cfg, s, now), record, now);
    case Expire(now) =>
      SweepIsSound(cfg, s, now);
      SweepIsSound(cfg, ExpireRejected(cfg, s, now), now);
    case FlushAll(completion) => ClearingKeeps(cfg, s);
    case RejectLine(Some(k), source, now) => RejectKeyedLineKeeps(cfg, s, k, source, now);
    case RejectLine(None, source, now) => ClearingKeeps(cfg, s);
  }
}
