/** Watermark completion is sound: stream age completes an event only on the word
    of a sufficiently newer record of the same node, in one continuous epoch. */
module Watermark {
  import opened Records
  import opened AssemblerSpec
  import opened AssemblerInvariants
  import opened StreamPreservation
  import opened Isolation
  import opened Arrivals

  /** `record` opens a group, continues the epoch of `s`, comes from the node of
      `first` and is at least the timeout newer than it. */
  ghost predicate Outdates(cfg: Config, s: State, record: Record, first: Record) {
    && MovesClock(s, record)
    && !EpochEnds(cfg, s.clock, record.auditTime.value, record.key)
    && record.key.node == first.key.node && record.key.nodePresent == first.key.nodePresent
    && first.auditTime.Some? && first.auditTime.value + cfg.timeout <= record.auditTime.value
  }

  /** A group whose first record is `first` still carries its audit time. */
  ghost predicate Marked(s: State, first: Record) {
    exists k ::
      k in s.pending && s.pending[k].hasAuditTS && s.pending[k].records != [] && s.pending[k].records[0] == first
  }

  lemma ExpiredByWatermark(cfg: Config, s: State, now: int, e: Event)
    requires OwnsRecords(s.pending)
    requires e in ExpiredEvents(cfg, s, now) && e.completion == ByWatermark
    ensures e.records != []
    ensures
      var k := e.records[0].key;
      k in s.pending && e.records == s.pending[k].records && WatermarkExpired(cfg, s.clock.latest, s.pending[k])
  {
    StaleOwner(cfg, s, now, e);
  }

  /** Between calls no group is due by watermark, so a sweep never completes one. */
  lemma SweepCompletesNothing(cfg: Config, s: State, now: int, e: Event)
    requires OwnsRecords(s.pending) && Young(cfg, s.pending, s.clock)
    requires e in ExpiredEvents(cfg, s, now)
    ensures e.completion != ByWatermark && !e.complete
  {
    StaleOwner(cfg, s, now, e);
  }

  lemma JoinedExpiry(cfg: Config, s: State, record: Record, now: int, k: Key)
    requires ValidConfig(cfg) && Invariant(cfg, s)
    requires
      var joined := Joined(cfg, s, record, now);
      k in joined.pending && WatermarkExpired(cfg, joined.clock.latest, joined.pending[k])
    ensures k in s.pending && k != record.key && s.pending[k].hasAuditTS &&
      Outdates(cfg, s, record, s.pending[k].records[0])
  {
    var joined := Joined(cfg, s, record, now);
    JoinedShape(cfg, s, record, now);
    if k == record.key {
      OwnGroupIsYoung(cfg, s, record, now);
    } else {
      assert !WatermarkExpired(cfg, s.clock.latest, s.pending[k]) && InEpoch(s.clock, k, s.pending[k]);
    }
  }

  /** The record's own group never comes due by the record's own time. */
  lemma OwnGroupIsYoung(cfg: Config, s: State, record: Record, now: int)
    requires ValidConfig(cfg) && Invariant(cfg, s)
    ensures var joined := Joined(cfg, s, record, now);
            !WatermarkExpired(cfg, joined.clock.latest, joined.pending[record.key])
  {
    if record.key in s.pending { assert !WatermarkExpired(cfg, s.clock.latest, s.pending[record.key]); }
  }

  lemma ClosedExpiry(cfg: Config, s: State, record: Record, now: int, k: Key)
    requires ValidConfig(cfg) && Invariant(cfg, s)
    requires
      var after := Closed(cfg, s, record, now).state;
      k in after.pending && WatermarkExpired(cfg, after.clock.latest, after.pending[k])
    ensures k in s.pending && s.pending[k].hasAuditTS && Outdates(cfg, s, record, s.pending[k].records[0])
    ensures Closed(cfg, s, record, now).state.pending[k].records == s.pending[k].records
  {
    JoinedExpiry(cfg, s, record, now, k);
    JoinedShape(cfg, s, record, now);
  }

  lemma AdmitCompletesOutdated(cfg: Config, s: State, record: Record, now: int, e: Event)
    requires ValidConfig(cfg) && Invariant(cfg, s) && record.key !in s.rejected
    requires CheckLimits(cfg, s, record) == None
    requires e in ExpiredEvents(cfg, Closed(cfg, s, record, now).state, now) && e.completion == ByWatermark
    ensures e.records != [] && Outdates(cfg, s, record, e.records[0]) && Marked(s, e.records[0])
  {
    ClosedIsSound(cfg, s, record, now);
    ExpiredByWatermark(cfg, Closed(cfg, s, record, now).state, now, e);
    ClosedExpiry(cfg, s, record, now, e.records[0].key);
  }

  lemma LoneEOECompletesNothing(cfg: Config, s: State, key: Key, now: int, e: Event)
    requires Invariant(cfg, s)
    requires e in ExpiredEvents(cfg, s.(pending := Remark(s.pending, key, false)), now)
    ensures e.completion != ByWatermark
  {
    var marked := s.(pending := Remark(s.pending, key, false));
    RemarkingIsSound(cfg, s, key);
    assert Young(cfg, marked.pending, marked.clock);
    SweepCompletesNothing(cfg, marked, now, e);
  }

  /** Only admission expires groups after the sweep; every other branch emits an
      event under another completion. */
  lemma OnlyAdmissionExpires(cfg: Config, s: State, record: Record, now: int, e: Event)
    requires e in Dispatch(cfg, s, record, now).events && e.completion == ByWatermark
    ensures record.key !in s.rejected && Dispatch(cfg, s, record, now) == Admit(cfg, s, record, now)
  {
  }

  lemma AdmissionExpiry(cfg: Config, s: State, record: Record, now: int, e: Event)
    requires e in Admit(cfg, s, record, now).events && e.completion == ByWatermark
    requires !(record.kind.EOE? && record.key !in s.pending)
    ensures CheckLimits(cfg, s, record) == None
    ensures e in ExpiredEvents(cfg, Closed(cfg, s, record, now).state, now)
  {
  }

  lemma DispatchCompletesOutdated(cfg: Config, s: State, record: Record, now: int, e: Event)
    requires ValidConfig(cfg) && Invariant(cfg, s)
    requires e in Dispatch(cfg, s, record, now).events && e.completion == ByWatermark
    ensures e.records != [] && Outdates(cfg, s, record, e.records[0]) && Marked(s, e.records[0])
  {
    OnlyAdmissionExpires(cfg, s, record, now, e);
    if record.kind.EOE? && record.key !in s.pending {
      LoneEOECompletesNothing(cfg, s, record.key, now, e);
    } else {
      AdmissionExpiry(cfg, s, record, now, e);
      AdmitCompletesOutdated(cfg, s, record, now, e);
    }
  }

  lemma StepCompletesOutdated(cfg: Config, s: State, op: Op, e: Event)
    requires ValidConfig(cfg) && Invariant(cfg, s)
    requires e in Step(cfg, s, op).events && e.completion == ByWatermark
    requires op.Add? || op.Expire?
    ensures op.Add? && e.records != []
    ensures Outdates(cfg, Swept(cfg, s, op.now), op.record, e.records[0]) && Marked(s, e.records[0])
  {
    if e in ExpiredEvents(cfg, s, op.now) { SweepCompletesNothing(cfg, s, op.now, e); }
    SweepKeeps(cfg, s, op.now);
    DispatchCompletesOutdated(cfg, Swept(cfg, s, op.now), op.record, op.now, e);
    MarkedThroughSweep(cfg, s, op.now, e.records[0]);
  }

  // ---------- the epoch in between ----------

  /** The record joins a group: its key is not tainted, no fence bars it, no limit
      refuses it, and it is no EOE that closes a group without joining it. */
  ghost predicate Joins(cfg: Config, s: State, record: Record) {
    && record.key !in s.rejected
    && (record.key in s.pending || (s.spillSince.None? && !record.kind.EOE?))
    && CheckLimits(cfg, s, record).None?
    && !ClosesFullGroup(cfg, s, record)
  }

  /** The call admits a record whose node or audit time breaks the epoch. */
  ghost predicate BreaksEpoch(cfg: Config, s: State, op: Op) {
    op.Add? && Joins(cfg, Swept(cfg, s, op.now), op.record) && RecordEndsEpoch(cfg, Swept(cfg, s, op.now), op.record)
  }

  /** The record finds no group of its key. */
  ghost predicate Opens(s: State, record: Record) { record.key !in s.pending }

  /** The call gives the record while no group of its key is pending. */
  ghost predicate GivesFirst(cfg: Config, s: State, op: Op, first: Record) {
    op.Add? && op.record == first && Opens(Swept(cfg, s, op.now), first)
  }

  lemma MarkedBefore(s: State, t: State, k: Key)
    requires k in t.pending && t.pending[k].hasAuditTS && t.pending[k].records != []
    requires k in s.pending && s.pending[k].hasAuditTS && s.pending[k].records != [] &&
      s.pending[k].records[0] == t.pending[k].records[0]
    ensures Marked(s, t.pending[k].records[0])
  {
  }

  lemma JoinedOrigin(cfg: Config, s: State, record: Record, now: int, k: Key)
    requires OwnsRecords(s.pending)
    requires k in Joined(cfg, s, record, now).pending && Joined(cfg, s, record, now).pending[k].hasAuditTS
    ensures Joined(cfg, s, record, now).pending[k].records != []
    ensures
      var first := Joined(cfg, s, record, now).pending[k].records[0];
      (Opens(s, record) && first == record) || (!RecordEndsEpoch(cfg, s, record) && Marked(s, first))
  {
    var joined := Joined(cfg, s, record, now);
    JoinedShape(cfg, s, record, now);
    if k in s.pending { MarkedBefore(s, joined, k); }
  }

  lemma AdmitOrigin(cfg: Config, s: State, record: Record, now: int, k: Key)
    requires OwnsRecords(s.pending) && record.key !in s.rejected
    requires record.key in s.pending || s.spillSince.None?
    requires !ClosesFullGroup(cfg, s, record)
    requires k in Admit(cfg, s, record, now).state.pending && Admit(cfg, s, record, now).state.pending[k].hasAuditTS
    ensures Admit(cfg, s, record, now).state.pending[k].records != []
    ensures
      var first := Admit(cfg, s, record, now).state.pending[k].records[0];
      (Opens(s, record) && first == record) ||
        (!(Joins(cfg, s, record) && RecordEndsEpoch(cfg, s, record)) && Marked(s, first))
  {
    if record.kind.EOE? && record.key !in s.pending {
      MarkedBefore(s, Admit(cfg, s, record, now).state, k);
    } else if CheckLimits(cfg, s, record).None? {
      JoinedOrigin(cfg, s, record, now, k);
    } else {
      MarkedBefore(s, Admit(cfg, s, record, now).state, k);
    }
  }

  lemma DispatchOrigin(cfg: Config, s: State, record: Record, now: int, k: Key)
    requires OwnsRecords(s.pending)
    requires k in Dispatch(cfg, s, record, now).state.pending &&
      Dispatch(cfg, s, record, now).state.pending[k].hasAuditTS
    ensures Dispatch(cfg, s, record, now).state.pending[k].records != []
    ensures
      var first := Dispatch(cfg, s, record, now).state.pending[k].records[0];
      (Opens(s, record) && first == record) ||
        (!(Joins(cfg, s, record) && RecordEndsEpoch(cfg, s, record)) && Marked(s, first))
  {
    if record.key in s.rejected || ClosesFullGroup(cfg, s, record) || (record.key !in s.pending && s.spillSince.Some?) {
      MarkedBefore(s, Dispatch(cfg, s, record, now).state, k);
    } else {
      AdmitOrigin(cfg, s, record, now, k);
    }
  }

  lemma SweptOrigin(cfg: Config, s: State, op: Op, first: Record)
    requires OwnsRecords(s.pending)
    requires Marked(Step(cfg, s, op).state, first)
    ensures GivesFirst(cfg, s, op, first) || (!BreaksEpoch(cfg, s, op) && Marked(s, first))
  {
    var after := Step(cfg, s, op).state;
    var k :| k in after.pending && after.pending[k].hasAuditTS && after.pending[k].records != [] &&
      after.pending[k].records[0] == first;
    match op
    case Add(record, now) =>
      DispatchOrigin(cfg, Swept(cfg, s, now), record, now, k);
      if !GivesFirst(cfg, s, op, first) { MarkedThroughSweep(cfg, s, now, first); }
    case Expire(now) => MarkedBefore(s, after, k);
    case FlushAll(_) =>
    case RejectLine(_, _, _) => MarkedBefore(s, after, k);
  }

  lemma MarkedThroughSweep(cfg: Config, s: State, now: int, first: Record)
    requires Marked(Swept(cfg, s, now), first)
    ensures Marked(s, first)
  {
  }

  // ---------- in plain terms ----------

  /** The call takes in a record of another node than the clock's, or one that jumps. */
  ghost predicate BreaksOff(cfg: Config, s: State, op: Op) {
    op.Add? && Enters(cfg, s, op.record, op.now) && Breaks(cfg, Rested(cfg, s, op.now), op.record)
  }

  /** The call gives the record when nothing of its key is pending but what is idle. */
  ghost predicate Begins(cfg: Config, s: State, op: Op, first: Record) {
    op.Add? && op.record == first && first.key !in Rested(cfg, s, op.now).pending
  }

  lemma JoiningIsEntering(cfg: Config, w: State, record: Record)
    ensures Joins(cfg, w, record) <==> Applies(cfg, w, record) && BoundHit(cfg, w, record).None?
  {
    RoomIsKnown(cfg, w, record);
    BoundsAreKnown(cfg, w, record);
  }

  lemma BreakIsPlain(cfg: Config, s: State, op: Op)
    requires ValidConfig(cfg) && Invariant(cfg, s)
    ensures BreaksEpoch(cfg, s, op) <==> BreaksOff(cfg, s, op)
  {
    if op.Add? {
      SweptIsRested(cfg, s, op.now);
      JoiningIsEntering(cfg, Rested(cfg, s, op.now), op.record);
      BreakIsExact(cfg, Rested(cfg, s, op.now), op.record);
    }
  }

  /** A marked group was opened by this call, or was marked before it and the call
      did not break the epoch. */
  lemma StepOrigin(cfg: Config, s: State, op: Op, first: Record)
    requires ValidConfig(cfg) && Invariant(cfg, s) && Marked(Step(cfg, s, op).state, first)
    ensures Begins(cfg, s, op, first) || (!BreaksOff(cfg, s, op) && Marked(s, first))
  {
    SweptOrigin(cfg, s, op, first);
    BreakIsPlain(cfg, s, op);
    if op.Add? { SweptIsRested(cfg, s, op.now); }
  }

  /** The record opened its group at call `i` and no call since then broke the epoch. */
  ghost predicate InOneEpoch(cfg: Config, ops: seq<Op>, i: nat, first: Record) {
    && i < |ops| && Begins(cfg, StateAt(cfg, ops, i), ops[i], first)
    && forall m :: i < m < |ops| ==> !BreaksOff(cfg, StateAt(cfg, ops, m), ops[m])
  }

  /** One more call does not change what came before it. */
  lemma SameBefore(cfg: Config, ops: seq<Op>, op: Op, m: nat)
    requires m <= |ops|
    ensures StateAt(cfg, ops + [op], m) == StateAt(cfg, ops, m)
    ensures (ops + [op])[m] == if m < |ops| then ops[m] else op
  {
    assert (ops + [op])[..m] == ops[..m];
  }

  lemma InOneEpochFurther(cfg: Config, ops: seq<Op>, i: nat, first: Record, op: Op)
    requires InOneEpoch(cfg, ops, i, first) && !BreaksOff(cfg, Run(cfg, ops).state, op)
    ensures InOneEpoch(cfg, ops + [op], i, first)
  {
    var more := ops + [op];
    SameBefore(cfg, ops, op, i);
    assert ops[..|ops|] == ops;
    forall m | i < m < |more| ensures !BreaksOff(cfg, StateAt(cfg, more, m), more[m]) {
      SameBefore(cfg, ops, op, m);
    }
  }

  lemma NothingIsMarkedAtFirst(cfg: Config, ops: seq<Op>, first: Record)
    requires Marked(Run(cfg, ops).state, first)
    ensures ops != []
  {
  }

  lemma RunOrigin(cfg: Config, before: seq<Op>, op: Op, first: Record)
    requires ValidConfig(cfg) && Marked(Run(cfg, before + [op]).state, first)
    ensures
      var s := Run(cfg, before).state;
      Begins(cfg, s, op, first) || (!BreaksOff(cfg, s, op) && Marked(s, first))
  {
    assert (before + [op])[..|before|] == before;
    RunKeepsInvariant(cfg, before);
    StepOrigin(cfg, Run(cfg, before).state, op, first);
  }

  lemma {:induction false} MarkedSince(cfg: Config, ops: seq<Op>, first: Record) returns (i: nat)
    requires ValidConfig(cfg) && Marked(Run(cfg, ops).state, first)
    ensures InOneEpoch(cfg, ops, i, first)
    decreases |ops|
  {
    NothingIsMarkedAtFirst(cfg, ops, first);
    var before, op := ops[..|ops| - 1], ops[|ops| - 1];
    assert ops == before + [op];
    RunOrigin(cfg, before, op, first);
    if Begins(cfg, Run(cfg, before).state, op, first) {
      assert ops[..|before|] == before;
      i := |ops| - 1;
    } else {
      i := MarkedSince(cfg, before, first);
      InOneEpochFurther(cfg, before, i, first, op);
    }
  }

  /** `record` opens a group, comes from the node of the clock and of `first`, is within
      the window around the newest audit time and at least the timeout newer than `first`. */
  predicate Completes(cfg: Config, w: State, record: Record, first: Record) {
    && Opening(w, record) && w.clock.latest.Some?
    && !Jumps(cfg.timeout, w.clock.latest.value, record.auditTime.value)
    && record.key.node == w.clock.node == first.key.node
    && record.key.nodePresent == w.clock.nodePresent == first.key.nodePresent
    && first.auditTime.Some? && record.auditTime.value - first.auditTime.value >= cfg.timeout
  }

  lemma OutdatesIsPlain(cfg: Config, w: State, record: Record, first: Record)
    requires ValidConfig(cfg) && Invariant(cfg, w) && Outdates(cfg, w, record, first) && w.clock.latest.Some?
    ensures Completes(cfg, w, record, first)
  {
    JumpIsExact(cfg, w.clock.latest.value, record.auditTime.value);
  }

  lemma MarkedHasClock(s: State, first: Record)
    requires Epochal(s.pending, s.clock) && Marked(s, first)
    ensures s.clock.latest.Some?
  {
    var k :| k in s.pending && s.pending[k].hasAuditTS && s.pending[k].records != [] &&
      s.pending[k].records[0] == first;
  }

  lemma StepCompletes(cfg: Config, s: State, op: Op, e: Event)
    requires ValidConfig(cfg) && Invariant(cfg, s) && (op.Add? || op.Expire?)
    requires e in Step(cfg, s, op).events && e.completion == ByWatermark
    ensures op.Add? && e.records != [] && Marked(s, e.records[0])
    ensures Completes(cfg, Rested(cfg, s, op.now), op.record, e.records[0])
  {
    StepCompletesOutdated(cfg, s, op, e);
    MarkedHasClock(s, e.records[0]);
    SweptIsRested(cfg, s, op.now);
    RestedIsSound(cfg, s, op.now);
    OutdatesIsPlain(cfg, Rested(cfg, s, op.now), op.record, e.records[0]);
  }

  lemma LineCompletesNothing(cfg: Config, s: State, op: Op, e: Event)
    requires op.RejectLine? && e in Step(cfg, s, op).events
    ensures e.completion != ByWatermark
  {
  }

  /** The theorem: over every run, an event completes by watermark only in the call
      that admits a record which outdates the event's first record, and since that
      first record opened its group no call in between changed the node or broke the clock.
      (A flush writes whatever completion its caller names.) */
  lemma WatermarkIsSound(cfg: Config, ops: seq<Op>, op: Op, e: Event)
    requires ValidConfig(cfg)
    requires e in Step(cfg, Run(cfg, ops).state, op).events && e.completion == ByWatermark
    requires !op.FlushAll?
    ensures op.Add? && e.records != []
    ensures Completes(cfg, Rested(cfg, Run(cfg, ops).state, op.now), op.record, e.records[0])
    ensures exists i :: InOneEpoch(cfg, ops, i, e.records[0])
  {
    RunKeepsInvariant(cfg, ops);
    if op.RejectLine? { LineCompletesNothing(cfg, Run(cfg, ops).state, op, e); }
    StepCompletes(cfg, Run(cfg, ops).state, op, e);
    var i := MarkedSince(cfg, ops, e.records[0]);
  }
}
