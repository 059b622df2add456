/** What a call answers, told from the outside: for each way a record can meet the
    state, the whole new state and every event, in numbers and contents and not in
    the terms the specification is built from. */
module Arrivals {
  import opened Records
  import opened Totals
  import opened AssemblerSpec
  import opened AssemblerInvariants
  import opened StreamPreservation

  // ---------- sizes ----------

  /** The source bytes of some records, and of all that is held. */
  function Volume(records: seq<Record>): nat {
    if records == [] then 0 else records[0].sourceBytes + Volume(records[1..])
  }

  ghost function HeldVolume(s: State): nat {
    Total(map k | k in s.pending :: Volume(s.pending[k].records))
  }

  function KeyLength(k: Key): nat { |k.id| + |k.node| }

  /** The lengths of all keys that are tracked as rejected. */
  ghost function TrackedLength(s: State): nat {
    Total(map k | k in s.rejected :: KeyLength(k))
  }

  lemma {:induction false} VolumeIsBytes(records: seq<Record>)
    ensures Volume(records) == Bytes(records)
  {
    if |records| > 1 {
      var front, last := records[..|records| - 1], records[|records| - 1];
      VolumeIsBytes(records[1..]);
      VolumeIsBytes(front);
      VolumeIsBytes(front[1..]);
      assert records[1..][..|records| - 2] == front[1..];
    } else if records != [] {
      assert records[1..] == [] && records[..0] == [];
    }
  }

  lemma HeldVolumeIsTotal(s: State)
    ensures HeldVolume(s) == PendingTotal(s.pending)
  {
    forall k | k in s.pending ensures Volume(s.pending[k].records) == Bytes(s.pending[k].records) {
      VolumeIsBytes(s.pending[k].records);
    }
    assert (map k | k in s.pending :: Volume(s.pending[k].records)) == PendingWeights(s.pending);
  }

  /** Every rejected key is counted with its own length. */
  ghost predicate Sized(s: State) {
    forall k :: k in s.rejected ==> s.rejected[k].keyBytes == KeyLength(k)
  }

  lemma TrackedLengthIsTotal(s: State)
    requires Sized(s)
    ensures TrackedLength(s) == RejectedTotal(s.rejected)
  {
    assert (map k | k in s.rejected :: KeyLength(k)) == RejectedWeights(s.rejected);
  }

  lemma IsolationKeepsSizes(cfg: Config, s: State, k: Key, pin: SourcePosition, spillPin: SourcePosition, now: int)
    requires Sized(s)
    ensures Sized(Isolate(cfg, s, k, pin, spillPin, now))
  {
  }

  lemma OverflowKeepsSizes(cfg: Config, s: State, record: Record, now: int, name: LimitName)
    requires Sized(s)
    ensures Sized(Overflow(cfg, s, record, now, name).state)
  {
    var pin := (Held(s, record.key) + [record])[0].source;
    IsolationKeepsSizes(cfg, Evicted(s, record.key), record.key, pin, pin, now);
  }

  lemma ClosingTracksNothing(cfg: Config, s: State, record: Record, now: int)
    ensures ThenExpire(cfg, Closed(cfg, s, record, now), now).state.rejected == s.rejected
  {
  }

  lemma AdmissionTracksNothing(cfg: Config, s: State, record: Record, now: int)
    requires (record.kind.EOE? && record.key !in s.pending) || CheckLimits(cfg, s, record).None?
    ensures Admit(cfg, s, record, now).state.rejected == s.rejected
  {
    ClosingTracksNothing(cfg, s, record, now);
  }

  lemma AdmissionKeepsSizes(cfg: Config, s: State, record: Record, now: int)
    requires Sized(s)
    ensures Sized(Admit(cfg, s, record, now).state)
  {
    if (record.kind.EOE? && record.key !in s.pending) || CheckLimits(cfg, s, record).None? {
      AdmissionTracksNothing(cfg, s, record, now);
    } else {
      OverflowKeepsSizes(cfg, s, record, now, CheckLimits(cfg, s, record).value);
    }
  }

  lemma DispatchKeepsSizes(cfg: Config, s: State, record: Record, now: int)
    requires Sized(s)
    ensures Sized(Dispatch(cfg, s, record, now).state)
  {
    if record.key in s.rejected || ClosesFullGroup(cfg, s, record) {
    } else if record.key !in s.pending && s.spillSince.Some? {
      IsolationKeepsSizes(cfg, s.(nextSequence := s.nextSequence + 1), record.key, s.spillSource, record.source, now);
    } else {
      AdmissionKeepsSizes(cfg, s, record, now);
    }
  }

  lemma LineKeepsSizes(cfg: Config, s: State, k: Key, source: SourcePosition, now: int)
    requires Sized(s)
    ensures Sized(RejectKeyedLine(cfg, s, k, source, now).state)
  {
    var pin := if Held(s, k) != [] then Held(s, k)[0].source else source;
    if k !in s.rejected { IsolationKeepsSizes(cfg, s.(pending := s.pending - {k}), k, pin, pin, now); }
  }

  lemma StepKeepsSizes(cfg: Config, s: State, op: Op)
    requires Sized(s)
    ensures Sized(Step(cfg, s, op).state)
  {
    match op
    case Add(record, now) => DispatchKeepsSizes(cfg, Swept(cfg, s, now), record, now);
    case Expire(_) =>
    case FlushAll(_) =>
    case RejectLine(Some(k), source, now) => LineKeepsSizes(cfg, s, k, source, now);
    case RejectLine(None, _, _) =>
  }

  // ---------- idleness ----------

  /** Nothing was heard of it for the timeout. */
  predicate Idle(cfg: Config, lastSeen: int, now: int) { now - lastSeen >= cfg.timeout }

  ghost function IdleKeys(cfg: Config, s: State, now: int): set<Key> {
    set k | k in s.pending && Idle(cfg, s.pending[k].lastSeen, now)
  }

  /** The state once everything idle is gone. */
  ghost function Rested(cfg: Config, s: State, now: int): State {
    var fallen := s.spillSince.Some? && Idle(cfg, s.spillSince.value, now);
    State(s.pending - IdleKeys(cfg, s, now),
          map k | k in s.rejected && !Idle(cfg, s.rejected[k].lastSeen, now) :: s.rejected[k],
          if fallen then None else s.spillSince, if fallen then NO_POSITION else s.spillSource,
          s.nextSequence, s.clock)
  }

  /** A group that leaves because of its idleness: incomplete, as it stands. */
  function IdleEvent(k: Key, g: Group): Event {
    Event(g.sequence, false, g.mixedNode, k.id, g.records, false, ByTimeout)
  }

  ghost function IdleEvents(cfg: Config, s: State, now: int): set<Event> {
    set k | k in IdleKeys(cfg, s, now) :: IdleEvent(k, s.pending[k])
  }

  lemma ExpiredAreIdle(cfg: Config, s: State, now: int)
    requires Young(cfg, s.pending, s.clock)
    ensures ExpiredKeys(cfg, s, now) == IdleKeys(cfg, s, now)
    ensures ExpiredEvents(cfg, s, now) == IdleEvents(cfg, s, now)
  {
    forall k | k in s.pending ensures k in ExpiredKeys(cfg, s, now) <==> k in IdleKeys(cfg, s, now) {
      assert !WatermarkExpired(cfg, s.clock.latest, s.pending[k]);
    }
    forall k | k in IdleKeys(cfg, s, now)
      ensures ExpiryEvent(cfg, s.clock.latest, k, s.pending[k]) == IdleEvent(k, s.pending[k])
    {
      assert !WatermarkExpired(cfg, s.clock.latest, s.pending[k]);
    }
  }

  lemma RejectedRest(cfg: Config, s: State, now: int)
    ensures ExpireRejected(cfg, s, now).rejected ==
            map k | k in s.rejected && !Idle(cfg, s.rejected[k].lastSeen, now) :: s.rejected[k]
  {
  }

  lemma SweptIsRested(cfg: Config, s: State, now: int)
    requires Young(cfg, s.pending, s.clock)
    ensures Swept(cfg, s, now) == Rested(cfg, s, now)
    ensures FlushExpired(cfg, s, now).state == Rested(cfg, s, now)
    ensures ExpiredEvents(cfg, s, now) == IdleEvents(cfg, s, now)
  {
    ExpiredAreIdle(cfg, s, now);
    RejectedRest(cfg, s, now);
    RejectedRest(cfg, ExpirePending(cfg, s, now), now);
    ExpiredAreIdle(cfg, ExpireRejected(cfg, s, now), now);
  }

  /** A tick takes out exactly what is idle. */
  lemma TickIsExact(cfg: Config, s: State, now: int)
    requires Invariant(cfg, s)
    ensures Step(cfg, s, Expire(now)) == Outcome(Rested(cfg, s, now), IdleEvents(cfg, s, now), None)
  {
    SweptIsRested(cfg, s, now);
  }

  /** Nothing in the state is idle. */
  ghost predicate Awake(cfg: Config, s: State, now: int) {
    forall k :: k in s.pending ==> !Idle(cfg, s.pending[k].lastSeen, now)
  }

  lemma RestedIsSound(cfg: Config, s: State, now: int)
    requires Invariant(cfg, s)
    ensures Invariant(cfg, Rested(cfg, s, now)) && Awake(cfg, Rested(cfg, s, now), now)
    ensures Sized(s) ==> Sized(Rested(cfg, s, now))
  {
    SweptIsRested(cfg, s, now);
    SweepKeeps(cfg, s, now);
  }

  // ---------- what a record meets ----------

  /** Physical evidence outside any normalized event. */
  function ExceptionOf(sequence: nat, k: Key, records: seq<Record>): Event {
    Event(sequence, true, false, k.id, records, false, ByAssemblyLimit)
  }

  /** A record of a tainted key is evidence; any but a plain record ends the taint. */
  ghost function TaintedAnswer(w: State, record: Record, now: int): Outcome
    requires record.key in w.rejected
  {
    var k := record.key;
    Outcome(w.(rejected := if record.kind.Plain? then w.rejected[k := w.rejected[k].(lastSeen := now)]
                           else w.rejected - {k},
               nextSequence := w.nextSequence + 1),
            {ExceptionOf(w.nextSequence, k, [record])}, None)
  }

  lemma TaintedIsExact(cfg: Config, w: State, record: Record, now: int)
    requires Separate(w.pending, w.rejected) && record.key in w.rejected
    ensures Dispatch(cfg, w, record, now) == TaintedAnswer(w, record, now)
  {
  }

  /** An EOE that finds no room in its group closes it without joining. */
  ghost predicate MeetsFullGroup(cfg: Config, w: State, record: Record) {
    && record.kind.EOE? && record.key in w.pending
    && (|w.pending[record.key].records| >= cfg.maxRecordsPerEvent ||
        HeldVolume(w) + record.sourceBytes > cfg.maxPendingBytes)
  }

  function FullGroupAnswer(w: State, k: Key): Outcome
    requires k in w.pending
  {
    var g := w.pending[k];
    Outcome(w.(pending := w.pending - {k}), {Event(g.sequence, false, g.mixedNode, k.id, g.records, true, ByEOE)}, None)
  }

  lemma FullGroupIsExact(cfg: Config, w: State, record: Record, now: int)
    requires record.key !in w.rejected && MeetsFullGroup(cfg, w, record)
    ensures Dispatch(cfg, w, record, now) == FullGroupAnswer(w, record.key)
  {
    HeldVolumeIsTotal(w);
  }

  lemma RoomIsKnown(cfg: Config, w: State, record: Record)
    ensures ClosesFullGroup(cfg, w, record) <==> MeetsFullGroup(cfg, w, record)
  {
    HeldVolumeIsTotal(w);
  }

  /** There is room to track one more rejected key. */
  ghost predicate Room(cfg: Config, w: State, k: Key) {
    |w.rejected| < cfg.maxPendingEvents && TrackedLength(w) + KeyLength(k) <= cfg.maxPendingBytes
  }

  function EarlierOf(known: SourcePosition, source: SourcePosition): SourcePosition {
    if source.valid &&
       (!known.valid || source.generation < known.generation ||
        (source.generation == known.generation && source.start < known.start))
    then source else known
  }

  /** The key is remembered at `pin`, or the fence rises or is renewed at `spillPin`. */
  ghost function Remembered(cfg: Config, w: State, k: Key, pin: SourcePosition, spillPin: SourcePosition,
                            now: int): State {
    if Room(cfg, w, k) then w.(rejected := w.rejected[k := Rejection(pin, now, KeyLength(k))])
    else w.(spillSince := Some(now),
            spillSource := if w.spillSince.None? then spillPin else EarlierOf(w.spillSource, spillPin))
  }

  lemma IsolatedIsRemembered(cfg: Config, w: State, k: Key, pin: SourcePosition, spillPin: SourcePosition, now: int)
    requires Sized(w)
    ensures Isolate(cfg, w, k, pin, spillPin, now) == Remembered(cfg, w, k, pin, spillPin, now)
  {
    TrackedLengthIsTotal(w);
  }

  /** A record of an unknown key behind the fence is evidence; a plain one leaves its
      key remembered where the fence was raised, or renews the fence. */
  ghost function FencedAnswer(cfg: Config, w: State, record: Record, now: int): Outcome {
    var k, counted := record.key, w.(nextSequence := w.nextSequence + 1);
    Outcome(if record.kind.Plain? then Remembered(cfg, counted, k, w.spillSource, record.source, now) else counted,
            {ExceptionOf(w.nextSequence, k, [record])}, None)
  }

  lemma FencedIsExact(cfg: Config, w: State, record: Record, now: int)
    requires Sized(w) && record.key !in w.rejected && record.key !in w.pending && w.spillSince.Some?
    ensures Dispatch(cfg, w, record, now) == FencedAnswer(cfg, w, record, now)
  {
    IsolatedIsRemembered(cfg, w.(nextSequence := w.nextSequence + 1), record.key, w.spillSource, record.source, now);
  }

  /** Groups of the same identifier, named on one side and unnamed on the other. */
  predicate Ambiguous(l: Key, k: Key) { l.id == k.id && l.nodePresent != k.nodePresent }

  ghost function WithMarks(pending: map<Key, Group>, k: Key): map<Key, Group> {
    map l | l in pending :: pending[l].(mixedNode := pending[l].mixedNode || Ambiguous(l, k))
  }

  lemma MarksAreKnown(pending: map<Key, Group>, k: Key)
    ensures Remark(pending, k, false) == WithMarks(pending, k)
  {
  }

  /** Right after a sweep at the same time nothing is due. */
  lemma NothingMoreIsDue(cfg: Config, w: State, now: int)
    requires Young(cfg, w.pending, w.clock) && Awake(cfg, w, now)
    ensures ExpiredKeys(cfg, w, now) == {}
    ensures ExpirePending(cfg, w, now) == w && ExpiredEvents(cfg, w, now) == {}
  {
    forall k | k in w.pending ensures k !in ExpiredKeys(cfg, w, now) {
      assert !WatermarkExpired(cfg, w.clock.latest, w.pending[k]);
    }
    assert w.pending - {} == w.pending;
  }

  /** A lone EOE only marks ambiguous groups. */
  ghost function LoneAnswer(w: State, k: Key): Outcome { Outcome(w.(pending := WithMarks(w.pending, k)), {}, None) }

  lemma LoneIsExact(cfg: Config, w: State, record: Record, now: int)
    requires Invariant(cfg, w) && Awake(cfg, w, now)
    requires record.key !in w.rejected && record.key !in w.pending && w.spillSince.None? && record.kind.EOE?
    ensures Dispatch(cfg, w, record, now) == LoneAnswer(w, record.key)
  {
    var marked := w.(pending := WithMarks(w.pending, record.key));
    MarksAreKnown(w.pending, record.key);
    RemarkingIsSound(cfg, w, record.key);
    assert Young(cfg, marked.pending, marked.clock);
    NothingMoreIsDue(cfg, marked, now);
    LoneIsMarking(cfg, w, record, now);
  }

  lemma LoneIsMarking(cfg: Config, w: State, record: Record, now: int)
    requires record.key !in w.rejected && record.key !in w.pending && w.spillSince.None? && record.kind.EOE?
    ensures Dispatch(cfg, w, record, now) ==
            ThenExpire(cfg, Outcome(w.(pending := Remark(w.pending, record.key, false)), {}, None), now)
  {
  }

  /** The first configured bound that leaves no room for the record. */
  ghost function BoundHit(cfg: Config, w: State, record: Record): Option<(LimitName, nat)> {
    var k := record.key;
    if k !in w.pending && |w.pending| >= cfg.maxPendingEvents then Some((PendingEvents, cfg.maxPendingEvents))
    else if k in w.pending && |w.pending[k].records| >= cfg.maxRecordsPerEvent
      then Some((RecordsPerEvent, cfg.maxRecordsPerEvent))
    else if HeldVolume(w) + record.sourceBytes > cfg.maxPendingBytes then Some((PendingBytes, cfg.maxPendingBytes))
    else None
  }

  lemma BoundsAreKnown(cfg: Config, w: State, record: Record)
    ensures match BoundHit(cfg, w, record)
            case None => CheckLimits(cfg, w, record) == None
            case Some(bound) => CheckLimits(cfg, w, record) == Some(bound.0) && LimitValue(cfg, bound.0) == bound.1
  {
    HeldVolumeIsTotal(w);
  }

  /** The record is for the pending table: its key is not tainted, no fence bars it, and
      it is no EOE without a group or with a full one. */
  ghost predicate Applies(cfg: Config, w: State, record: Record) {
    && record.key !in w.rejected
    && (record.key in w.pending || (w.spillSince.None? && !record.kind.EOE?))
    && !MeetsFullGroup(cfg, w, record)
  }

  /** A record that hits a bound takes its whole group out as evidence. */
  ghost function RefusedAnswer(cfg: Config, w: State, record: Record, now: int, bound: (LimitName, nat)): Outcome {
    var k, known := record.key, record.key in w.pending;
    var records := (if known then w.pending[k].records else []) + [record];
    var left := w.(pending := WithMarks(w.pending, k) - {k}, nextSequence := w.nextSequence + if known then 0 else 1);
    Outcome(if record.kind.Plain? then Remembered(cfg, left, k, records[0].source, records[0].source, now) else left,
            {ExceptionOf(if known then w.pending[k].sequence else w.nextSequence, k, records)},
            Some(Limit(bound.0, bound.1, k, |records|)))
  }

  lemma OverflowIsRefused(cfg: Config, w: State, record: Record, now: int, bound: (LimitName, nat))
    requires Sized(w) && LimitValue(cfg, bound.0) == bound.1
    ensures Overflow(cfg, w, record, now, bound.0) == RefusedAnswer(cfg, w, record, now, bound)
  {
    var k := record.key;
    var pin := (Held(w, k) + [record])[0].source;
    MarksAreKnown(w.pending, k);
    IsolatedIsRemembered(cfg, Evicted(w, k), k, pin, pin, now);
  }

  lemma RefusedIsExact(cfg: Config, w: State, record: Record, now: int)
    requires Sized(w) && Applies(cfg, w, record) && BoundHit(cfg, w, record).Some?
    ensures Dispatch(cfg, w, record, now) == RefusedAnswer(cfg, w, record, now, BoundHit(cfg, w, record).value)
  {
    RoomIsKnown(cfg, w, record);
    BoundsAreKnown(cfg, w, record);
    OverflowIsRefused(cfg, w, record, now, BoundHit(cfg, w, record).value);
    assert Dispatch(cfg, w, record, now) == Admit(cfg, w, record, now);
  }

  // ---------- the watermark clock ----------

  /** The record would move the clock: it opens a group and carries an audit time. */
  predicate Opening(w: State, record: Record) { record.key !in w.pending && record.auditTime.Some? }

  /** More than twice the timeout ahead of the newest audit time, and more than a
      minute, or at least the timeout behind it.  A timeout above half the longest
      duration is not doubled, and the longest one is never exceeded. */
  predicate Jumps(timeout: int, latest: int, time: int) {
    latest - time >= timeout ||
    if 2 * timeout <= 0x7FFF_FFFF_FFFF_FFFF then time - latest > 60_000_000_000 && time - latest > 2 * timeout
    else time - latest > timeout && timeout < 0x7FFF_FFFF_FFFF_FFFF
  }

  /** The clock has a newest time, of another node. */
  predicate OfOtherNode(clock: Clock, k: Key) {
    clock.latest.Some? && !(k.node == clock.node && k.nodePresent == clock.nodePresent)
  }

  predicate Breaks(cfg: Config, w: State, record: Record) {
    && Opening(w, record) && w.clock.latest.Some?
    && (OfOtherNode(w.clock, record.key) || Jumps(cfg.timeout, w.clock.latest.value, record.auditTime.value))
  }

  lemma JumpIsExact(cfg: Config, latest: int, time: int)
    requires ValidConfig(cfg)
    ensures ClockJump(cfg, latest, time) <==> Jumps(cfg.timeout, latest, time)
  {
  }

  lemma BreakIsExact(cfg: Config, w: State, record: Record)
    requires ValidConfig(cfg)
    ensures RecordEndsEpoch(cfg, w, record) <==> Breaks(cfg, w, record)
  {
    if MovesClock(w, record) && w.clock.latest.Some? {
      JumpIsExact(cfg, w.clock.latest.value, record.auditTime.value);
    }
  }

  /** The clock after the record: a new epoch starts at it, an old one keeps its maximum. */
  function ClockAfter(cfg: Config, w: State, record: Record): Clock {
    if !Opening(w, record) then w.clock
    else
      var time, k := record.auditTime.value, record.key;
      Clock(Some(if w.clock.latest.Some? && !Breaks(cfg, w, record) && time < w.clock.latest.value
                 then w.clock.latest.value else time), k.node, k.nodePresent)
  }

  lemma ClockIsExact(cfg: Config, w: State, record: Record, now: int)
    requires ValidConfig(cfg)
    ensures Joined(cfg, w, record, now).clock == ClockAfter(cfg, w, record)
  {
    BreakIsExact(cfg, w, record);
  }

  // ---------- records that join ----------

  /** Which boundary the record is, if any: a PROCTITLE only of a group that is pending. */
  function BoundaryOf(w: State, record: Record): Option<Completion> {
    match record.kind
    case EOE => Some(ByEOE)
    case Single => Some(BySingleRecord)
    case Proctitle => if record.key in w.pending then Some(ByProctitle) else None
    case Plain => None
  }

  /** The group of the record once it has joined. */
  ghost function OwnGroup(w: State, record: Record, now: int): Group {
    var k := record.key;
    if k in w.pending then w.pending[k].(records := w.pending[k].records + [record], lastSeen := now)
    else
      var mixed := exists l :: l in w.pending && Ambiguous(l, k);
      match record.auditTime
      case Some(time) => Group([record], w.nextSequence, now, time, true, mixed)
      case None => Group([record], w.nextSequence, now, 0, false, mixed)
  }

  /** Another group: what it learns of ambiguity and of the end of its epoch. */
  function OtherGroup(cfg: Config, w: State, record: Record, l: Key): Group
    requires l in w.pending
  {
    var g := w.pending[l];
    g.(mixedNode := g.mixedNode || Ambiguous(l, record.key), hasAuditTS := g.hasAuditTS && !Breaks(cfg, w, record))
  }

  /** The record opens a group in the epoch of `g` and is at least the timeout newer. */
  predicate Outdated(cfg: Config, w: State, record: Record, g: Group) {
    && Opening(w, record) && !Breaks(cfg, w, record)
    && g.hasAuditTS && record.auditTime.value - g.auditTime >= cfg.timeout
  }

  ghost function OutdatedKeys(cfg: Config, w: State, record: Record): set<Key> {
    set l | l in w.pending && l != record.key && Outdated(cfg, w, record, w.pending[l])
  }

  ghost function JoinedTable(cfg: Config, w: State, record: Record, now: int): map<Key, Group> {
    map l | l in w.pending.Keys + {record.key} ::
      if l == record.key then OwnGroup(w, record, now) else OtherGroup(cfg, w, record, l)
  }

  function WatermarkEvent(l: Key, g: Group): Event {
    Event(g.sequence, false, g.mixedNode, l.id, g.records, true, ByWatermark)
  }

  ghost function OwnEvents(w: State, record: Record, now: int): set<Event> {
    match BoundaryOf(w, record)
    case None => {}
    case Some(boundary) =>
      var g := OwnGroup(w, record, now);
      {Event(g.sequence, false, g.mixedNode, record.key.id, g.records, true, boundary)}
  }

  ghost function WatermarkEvents(cfg: Config, w: State, record: Record): set<Event> {
    set l | l in OutdatedKeys(cfg, w, record) :: WatermarkEvent(l, OtherGroup(cfg, w, record, l))
  }

  /** The record joins its group; the group leaves if the record is its boundary, and
      other groups leave as complete events if the record's audit time outdates them. */
  ghost function JoinedAnswer(cfg: Config, w: State, record: Record, now: int): Outcome {
    var gone := OutdatedKeys(cfg, w, record) + if BoundaryOf(w, record).Some? then {record.key} else {};
    Outcome(w.(pending := JoinedTable(cfg, w, record, now) - gone,
               nextSequence := w.nextSequence + (if record.key in w.pending then 0 else 1),
               clock := ClockAfter(cfg, w, record)),
            OwnEvents(w, record, now) + WatermarkEvents(cfg, w, record), None)
  }

  lemma TableIsExact(cfg: Config, w: State, record: Record, now: int)
    requires ValidConfig(cfg)
    ensures Joined(cfg, w, record, now).pending == JoinedTable(cfg, w, record, now)
  {
    BreakIsExact(cfg, w, record);
  }

  /** What the record takes out by its own kind. */
  ghost function ClosedAnswer(cfg: Config, w: State, record: Record, now: int): Outcome {
    var table := JoinedTable(cfg, w, record, now);
    Outcome(w.(pending := if BoundaryOf(w, record).Some? then table - {record.key} else table,
               nextSequence := w.nextSequence + (if record.key in w.pending then 0 else 1),
               clock := ClockAfter(cfg, w, record)),
            OwnEvents(w, record, now), None)
  }

  lemma ClosingIsKnown(cfg: Config, w: State, record: Record, now: int)
    requires ValidConfig(cfg)
    ensures Closed(cfg, w, record, now) == ClosedAnswer(cfg, w, record, now)
  {
    TableIsExact(cfg, w, record, now);
    ClockIsExact(cfg, w, record, now);
  }

  lemma OthersAreDue(cfg: Config, w: State, record: Record, now: int, l: Key)
    requires ValidConfig(cfg) && Invariant(cfg, w) && l in w.pending && l != record.key
    ensures WatermarkExpired(cfg, ClockAfter(cfg, w, record).latest, OtherGroup(cfg, w, record, l)) <==>
            Outdated(cfg, w, record, w.pending[l])
  {
    assert !WatermarkExpired(cfg, w.clock.latest, w.pending[l]);
    if w.pending[l].hasAuditTS { assert InEpoch(w.clock, l, w.pending[l]); }
  }

  lemma OwnIsNotDue(cfg: Config, w: State, record: Record, now: int)
    requires ValidConfig(cfg) && Invariant(cfg, w)
    ensures !WatermarkExpired(cfg, ClockAfter(cfg, w, record).latest, OwnGroup(w, record, now))
    ensures !WallExpired(cfg, OwnGroup(w, record, now), now)
  {
    if record.key in w.pending { assert !WatermarkExpired(cfg, w.clock.latest, w.pending[record.key]); }
  }

  lemma OtherIsDue(cfg: Config, w: State, record: Record, now: int, l: Key)
    requires ValidConfig(cfg) && Invariant(cfg, w) && Awake(cfg, w, now) && l in w.pending && l != record.key
    ensures var c := ClosedAnswer(cfg, w, record, now).state;
            l in ExpiredKeys(cfg, c, now) <==> l in OutdatedKeys(cfg, w, record)
  {
    OthersAreDue(cfg, w, record, now, l);
    assert !Idle(cfg, w.pending[l].lastSeen, now);
  }

  lemma OwnIsNotExpired(cfg: Config, w: State, record: Record, now: int)
    requires ValidConfig(cfg) && Invariant(cfg, w)
    ensures record.key !in ExpiredKeys(cfg, ClosedAnswer(cfg, w, record, now).state, now)
  {
    OwnIsNotDue(cfg, w, record, now);
  }

  lemma ThenDueAreOutdated(cfg: Config, w: State, record: Record, now: int)
    requires ValidConfig(cfg) && Invariant(cfg, w) && Awake(cfg, w, now)
    ensures ExpiredKeys(cfg, ClosedAnswer(cfg, w, record, now).state, now) == OutdatedKeys(cfg, w, record)
  {
    var due := ExpiredKeys(cfg, ClosedAnswer(cfg, w, record, now).state, now);
    OwnIsNotExpired(cfg, w, record, now);
    assert due <= w.pending.Keys + {record.key};
    forall l | l in w.pending && l != record.key ensures l in due <==> l in OutdatedKeys(cfg, w, record) {
      OtherIsDue(cfg, w, record, now, l);
    }
  }

  lemma ThenDueEvents(cfg: Config, w: State, record: Record, now: int)
    requires ValidConfig(cfg) && Invariant(cfg, w) && Awake(cfg, w, now)
    ensures ExpiredEvents(cfg, ClosedAnswer(cfg, w, record, now).state, now) == WatermarkEvents(cfg, w, record)
  {
    var c := ClosedAnswer(cfg, w, record, now).state;
    ThenDueAreOutdated(cfg, w, record, now);
    forall l | l in OutdatedKeys(cfg, w, record)
      ensures ExpiryEvent(cfg, c.clock.latest, l, c.pending[l]) == WatermarkEvent(l, OtherGroup(cfg, w, record, l))
    {
      OthersAreDue(cfg, w, record, now, l);
    }
  }

  lemma JoiningIsAdmission(cfg: Config, w: State, record: Record, now: int)
    requires Applies(cfg, w, record) && BoundHit(cfg, w, record).None?
    ensures Dispatch(cfg, w, record, now) == ThenExpire(cfg, Closed(cfg, w, record, now), now)
  {
    RoomIsKnown(cfg, w, record);
    BoundsAreKnown(cfg, w, record);
  }

  lemma GoneTogether(table: map<Key, Group>, k: Key, own: set<Key>, gone: set<Key>)
    requires own == {} || own == {k}
    ensures (if own != {} then table - {k} else table) - gone == table - (gone + own)
  {
  }

  lemma ExpiryOf(cfg: Config, o: Outcome, now: int, gone: set<Key>, stale: set<Event>)
    requires ExpiredKeys(cfg, o.state, now) == gone && ExpiredEvents(cfg, o.state, now) == stale
    ensures ThenExpire(cfg, o, now) ==
            Outcome(o.state.(pending := o.state.pending - gone), o.events + stale, o.limit)
  {
  }

  lemma ThenExpireIsAnswer(cfg: Config, w: State, record: Record, now: int)
    requires ValidConfig(cfg) && Invariant(cfg, w) && Awake(cfg, w, now)
    ensures ThenExpire(cfg, ClosedAnswer(cfg, w, record, now), now) == JoinedAnswer(cfg, w, record, now)
  {
    ThenDueAreOutdated(cfg, w, record, now);
    ThenDueEvents(cfg, w, record, now);
    ExpiryOf(cfg, ClosedAnswer(cfg, w, record, now), now, OutdatedKeys(cfg, w, record),
             WatermarkEvents(cfg, w, record));
    AnswerInSteps(cfg, w, record, now);
  }

  lemma AnswerInSteps(cfg: Config, w: State, record: Record, now: int)
    ensures var c := ClosedAnswer(cfg, w, record, now);
            JoinedAnswer(cfg, w, record, now) ==
              Outcome(c.state.(pending := c.state.pending - OutdatedKeys(cfg, w, record)),
                      c.events + WatermarkEvents(cfg, w, record), c.limit)
  {
    GoneTogether(JoinedTable(cfg, w, record, now), record.key,
                 if BoundaryOf(w, record).Some? then {record.key} else {}, OutdatedKeys(cfg, w, record));
  }

  lemma JoinedIsExact(cfg: Config, w: State, record: Record, now: int)
    requires ValidConfig(cfg) && Invariant(cfg, w) && Awake(cfg, w, now)
    requires Applies(cfg, w, record) && BoundHit(cfg, w, record).None?
    ensures Dispatch(cfg, w, record, now) == JoinedAnswer(cfg, w, record, now)
  {
    JoiningIsAdmission(cfg, w, record, now);
    ClosingIsKnown(cfg, w, record, now);
    ThenExpireIsAnswer(cfg, w, record, now);
  }

  // ---------- the whole answer ----------

  /** What a record is answered in a state in which nothing is idle. */
  ghost function Answer(cfg: Config, w: State, record: Record, now: int): Outcome {
    if record.key in w.rejected then TaintedAnswer(w, record, now)
    else if MeetsFullGroup(cfg, w, record) then FullGroupAnswer(w, record.key)
    else if record.key !in w.pending && w.spillSince.Some? then FencedAnswer(cfg, w, record, now)
    else if record.key !in w.pending && record.kind.EOE? then LoneAnswer(w, record.key)
    else
      match BoundHit(cfg, w, record)
      case Some(bound) => RefusedAnswer(cfg, w, record, now, bound)
      case None => JoinedAnswer(cfg, w, record, now)
  }

  lemma AnswerIsExact(cfg: Config, w: State, record: Record, now: int)
    requires ValidConfig(cfg) && Invariant(cfg, w) && Sized(w) && Awake(cfg, w, now)
    ensures Dispatch(cfg, w, record, now) == Answer(cfg, w, record, now)
  {
    if record.key in w.rejected {
      TaintedIsExact(cfg, w, record, now);
    } else if MeetsFullGroup(cfg, w, record) {
      FullGroupIsExact(cfg, w, record, now);
    } else if record.key !in w.pending && w.spillSince.Some? {
      FencedIsExact(cfg, w, record, now);
    } else if record.key !in w.pending && record.kind.EOE? {
      LoneIsExact(cfg, w, record, now);
    } else if BoundHit(cfg, w, record).Some? {
      RefusedIsExact(cfg, w, record, now);
    } else {
      JoinedIsExact(cfg, w, record, now);
    }
  }

  /** The theorem: every record is answered by the idle groups, which leave as they
      stand, and by what the record meets once they are gone. */
  lemma ArrivalIsExact(cfg: Config, s: State, record: Record, now: int)
    requires ValidConfig(cfg) && Invariant(cfg, s) && Sized(s)
    ensures var a := Answer(cfg, Rested(cfg, s, now), record, now);
            Step(cfg, s, Add(record, now)) == Outcome(a.state, IdleEvents(cfg, s, now) + a.events, a.limit)
  {
    SweptIsRested(cfg, s, now);
    RestedIsSound(cfg, s, now);
    AnswerIsExact(cfg, Rested(cfg, s, now), record, now);
  }

  // ---------- what follows for closing and for the clock ----------

  /** The record goes into the pending table at the call. */
  ghost predicate Enters(cfg: Config, s: State, record: Record, now: int) {
    Applies(cfg, Rested(cfg, s, now), record) && BoundHit(cfg, Rested(cfg, s, now), record).None?
  }

  /** The records of the group, the arriving one last. */
  ghost function Gathered(cfg: Config, s: State, record: Record, now: int): seq<Record> {
    var pending := Rested(cfg, s, now).pending;
    (if record.key in pending then pending[record.key].records else []) + [record]
  }

  /** The one event of the call, idle groups aside, that speaks of the record's key. */
  ghost predicate OnlyEvent(cfg: Config, s: State, record: Record, now: int, e: Event) {
    var events := Step(cfg, s, Add(record, now)).events;
    && e in events && e.records == Gathered(cfg, s, record, now)
    && forall f :: f in events && f !in IdleEvents(cfg, s, now) && f != e ==> Silent(record.key, f)
  }

  lemma WatermarkEventsAreOthers(cfg: Config, w: State, record: Record, e: Event)
    requires OwnsRecords(w.pending)
    requires e in WatermarkEvents(cfg, w, record)
    ensures Silent(record.key, e) && e.completion == ByWatermark
  {
  }

  lemma EnteringIsExact(cfg: Config, s: State, record: Record, now: int)
    requires ValidConfig(cfg) && Invariant(cfg, s) && Sized(s) && Enters(cfg, s, record, now)
    ensures var a := JoinedAnswer(cfg, Rested(cfg, s, now), record, now);
            Step(cfg, s, Add(record, now)) == Outcome(a.state, IdleEvents(cfg, s, now) + a.events, None)
  {
    ArrivalIsExact(cfg, s, record, now);
  }

  /** `e` is the only event that speaks of the key. */
  ghost predicate Only(events: set<Event>, k: Key, e: Event) {
    e in events && forall f :: f in events && f != e ==> Silent(k, f)
  }

  lemma OwnEventIsOnly(cfg: Config, w: State, record: Record, now: int) returns (e: Event)
    requires OwnsRecords(w.pending) && BoundaryOf(w, record).Some?
    ensures Only(JoinedAnswer(cfg, w, record, now).events, record.key, e)
    ensures record.key !in JoinedAnswer(cfg, w, record, now).state.pending
    ensures e.records == (if record.key in w.pending then w.pending[record.key].records else []) + [record]
    ensures e.complete && !e.exceptional && e.completion == BoundaryOf(w, record).value
  {
    var g := OwnGroup(w, record, now);
    e := Event(g.sequence, false, g.mixedNode, record.key.id, g.records, true, BoundaryOf(w, record).value);
    assert OwnEvents(w, record, now) == {e};
    forall f | f in JoinedAnswer(cfg, w, record, now).events && f != e ensures Silent(record.key, f) {
      WatermarkEventsAreOthers(cfg, w, record, f);
    }
  }

  lemma NoOwnEvent(cfg: Config, w: State, record: Record, now: int)
    requires OwnsRecords(w.pending) && BoundaryOf(w, record).None?
    ensures forall f :: f in JoinedAnswer(cfg, w, record, now).events ==> Silent(record.key, f)
  {
    forall f | f in JoinedAnswer(cfg, w, record, now).events ensures Silent(record.key, f) {
      WatermarkEventsAreOthers(cfg, w, record, f);
    }
  }

  lemma GroupStays(cfg: Config, w: State, record: Record, now: int)
    requires BoundaryOf(w, record).None?
    ensures var pending, k := JoinedAnswer(cfg, w, record, now).state.pending, record.key;
            k in pending && pending[k] == OwnGroup(w, record, now)
  {
  }

  lemma OnlyOfCall(idle: set<Event>, events: set<Event>, k: Key, e: Event)
    requires Only(events, k, e)
    ensures e in idle + events && forall f :: f in idle + events && f !in idle && f != e ==> Silent(k, f)
  {
  }

  lemma NoneOfCall(idle: set<Event>, events: set<Event>, k: Key)
    requires forall f :: f in events ==> Silent(k, f)
    ensures forall f :: f in idle + events && f !in idle ==> Silent(k, f)
  {
  }

  /** The theorem on boundaries: an EOE, a single-record type and the PROCTITLE of a
      pending key take the group out, with the record, as one complete event. */
  lemma BoundaryClosesGroup(cfg: Config, s: State, record: Record, now: int)
    requires ValidConfig(cfg) && Invariant(cfg, s) && Sized(s) && Enters(cfg, s, record, now)
    requires record.kind.EOE? || record.kind.Single? ||
             (record.kind.Proctitle? && record.key in Rested(cfg, s, now).pending)
    ensures record.key !in Step(cfg, s, Add(record, now)).state.pending
    ensures exists e :: OnlyEvent(cfg, s, record, now, e) && e.complete && !e.exceptional && e.completion ==
              match record.kind case EOE => ByEOE case Single => BySingleRecord case _ => ByProctitle
  {
    var w := Rested(cfg, s, now);
    RestedIsSound(cfg, s, now);
    EnteringIsExact(cfg, s, record, now);
    var e := OwnEventIsOnly(cfg, w, record, now);
    OnlyOfCall(IdleEvents(cfg, s, now), JoinedAnswer(cfg, w, record, now).events, record.key, e);
    assert OnlyEvent(cfg, s, record, now, e);
  }

  /** The group stays with these records, heard of now, and no event speaks of it. */
  ghost predicate StaysOpen(o: Outcome, idle: set<Event>, k: Key, records: seq<Record>, now: int) {
    && k in o.state.pending && o.state.pending[k].records == records && o.state.pending[k].lastSeen == now
    && forall f :: f in o.events && f !in idle ==> Silent(k, f)
  }

  lemma AnswerStaysOpen(cfg: Config, w: State, record: Record, now: int, o: Outcome, idle: set<Event>)
    requires OwnsRecords(w.pending) && BoundaryOf(w, record).None?
    requires var a := JoinedAnswer(cfg, w, record, now); o == Outcome(a.state, idle + a.events, None)
    ensures StaysOpen(o, idle, record.key,
                      (if record.key in w.pending then w.pending[record.key].records else []) + [record], now)
  {
    GroupStays(cfg, w, record, now);
    NoOwnEvent(cfg, w, record, now);
    NoneOfCall(idle, JoinedAnswer(cfg, w, record, now).events, record.key);
  }

  lemma EnteringStaysOpen(cfg: Config, w: State, record: Record, now: int, o: Outcome, idle: set<Event>)
    requires Invariant(cfg, w) && (record.kind.Plain? || (record.kind.Proctitle? && record.key !in w.pending))
    requires var a := JoinedAnswer(cfg, w, record, now); o == Outcome(a.state, idle + a.events, None)
    ensures StaysOpen(o, idle, record.key,
                      (if record.key in w.pending then w.pending[record.key].records else []) + [record], now)
  {
    AnswerStaysOpen(cfg, w, record, now, o, idle);
  }

  /** Any other record stays pending with its group, and no event speaks of it. */
  lemma OthersStayOpen(cfg: Config, s: State, record: Record, now: int, o: Outcome)
    requires ValidConfig(cfg) && Invariant(cfg, s) && Sized(s) && Enters(cfg, s, record, now)
    requires record.kind.Plain? || (record.kind.Proctitle? && record.key !in Rested(cfg, s, now).pending)
    requires o == Step(cfg, s, Add(record, now))
    ensures StaysOpen(o, IdleEvents(cfg, s, now), record.key, Gathered(cfg, s, record, now), now)
  {
    RestedIsSound(cfg, s, now);
    EnteringIsExact(cfg, s, record, now);
    EnteringStaysOpen(cfg, Rested(cfg, s, now), record, now, o, IdleEvents(cfg, s, now));
  }

  lemma IdleIsNotWatermark(cfg: Config, s: State, now: int, e: Event)
    requires e in IdleEvents(cfg, s, now)
    ensures e.completion == ByTimeout && !e.complete
  {
  }

  lemma BreakOf(cfg: Config, w: State, record: Record, now: int)
    requires Breaks(cfg, w, record)
    ensures
      var a := JoinedAnswer(cfg, w, record, now);
      && (forall l :: l in a.state.pending && l != record.key ==> !a.state.pending[l].hasAuditTS)
      && (forall e :: e in a.events ==> e.completion != ByWatermark)
      && a.state.clock == Clock(record.auditTime, record.key.node, record.key.nodePresent)
  {
    assert OutdatedKeys(cfg, w, record) == {};
  }

  /** The theorem on the clock: a record of another node, or one that jumps, unmarks
      every group and completes nothing. */
  lemma BreakUnmarksAll(cfg: Config, s: State, record: Record, now: int)
    requires ValidConfig(cfg) && Invariant(cfg, s) && Sized(s) && Enters(cfg, s, record, now)
    requires Breaks(cfg, Rested(cfg, s, now), record)
    ensures
      var o := Step(cfg, s, Add(record, now));
      && (forall l :: l in o.state.pending && l != record.key ==> !o.state.pending[l].hasAuditTS)
      && (forall e :: e in o.events ==> e.completion != ByWatermark)
      && o.state.clock == Clock(record.auditTime, record.key.node, record.key.nodePresent)
  {
    EnteringIsExact(cfg, s, record, now);
    BreakOf(cfg, Rested(cfg, s, now), record, now);
    forall e | e in IdleEvents(cfg, s, now) ensures e.completion != ByWatermark { IdleIsNotWatermark(cfg, s, now, e); }
  }

  /** Within the epoch every mark stays, the clock keeps its maximum, and exactly the
      marked groups that the record outdates leave complete. */
  lemma EpochKeepsMarks(cfg: Config, s: State, record: Record, now: int)
    requires ValidConfig(cfg) && Invariant(cfg, s) && Sized(s) && Enters(cfg, s, record, now)
    requires !Breaks(cfg, Rested(cfg, s, now), record)
    ensures
      var w, o := Rested(cfg, s, now), Step(cfg, s, Add(record, now));
      && (forall l :: l in w.pending && l != record.key ==>
            (l in o.state.pending <==> !Outdated(cfg, w, record, w.pending[l])))
      && (forall l :: l in o.state.pending && l != record.key ==>
            l in w.pending && o.state.pending[l].hasAuditTS == w.pending[l].hasAuditTS)
      && (forall l :: l in w.pending && l != record.key && Outdated(cfg, w, record, w.pending[l]) ==>
            WatermarkEvent(l, OtherGroup(cfg, w, record, l)) in o.events)
  {
    EnteringIsExact(cfg, s, record, now);
  }

  // ---------- flushes and oversized lines ----------

  ghost function Empty(s: State, since: Option<int>, source: SourcePosition): State {
    State(map[], map[], since, source, s.nextSequence, s.clock)
  }

  lemma FlushIsExact(cfg: Config, s: State, completion: Completion)
    ensures Step(cfg, s, FlushAll(completion)) == Outcome(
      Empty(s, None, NO_POSITION),
      set k | k in s.pending ::
        Event(s.pending[k].sequence, false, s.pending[k].mixedNode, k.id, s.pending[k].records, false, completion),
      None)
  {
  }

  /** Without a key everything pending goes out as evidence and the fence rises here. */
  lemma UnkeyedLineIsExact(cfg: Config, s: State, source: SourcePosition, now: int)
    ensures Step(cfg, s, RejectLine(None, source, now)) == Outcome(
      Empty(s, Some(now), source),
      set k | k in s.pending ::
        Event(s.pending[k].sequence, true, s.pending[k].mixedNode, k.id, s.pending[k].records, false, ByLineLimit),
      None)
  {
  }

  /** With a key its group goes out as evidence without a number, and the key is
      remembered at the first line it held, or its taint is renewed. */
  lemma KeyedLineIsExact(cfg: Config, s: State, k: Key, source: SourcePosition, now: int)
    requires Invariant(cfg, s) && Sized(s)
    ensures
      var known, left := k in s.pending, s.(pending := s.pending - {k});
      var pin := if known then s.pending[k].records[0].source else source;
      Step(cfg, s, RejectLine(Some(k), source, now)) == Outcome(
        if k in s.rejected then left.(rejected := s.rejected[k := s.rejected[k].(lastSeen := now)])
        else Remembered(cfg, left, k, pin, pin, now),
        if known then {Event(0, true, s.pending[k].mixedNode, k.id, s.pending[k].records, false, ByLineLimit)} else {},
        None)
  {
    var left := s.(pending := s.pending - {k});
    var pin := if Held(s, k) != [] then Held(s, k)[0].source else source;
    IsolatedIsRemembered(cfg, left, k, pin, pin, now);
  }

  // ---------- over every run ----------

  lemma {:induction false} RunIsSized(cfg: Config, ops: seq<Op>)
    ensures Sized(Run(cfg, ops).state)
  {
    if ops != [] {
      RunIsSized(cfg, ops[..|ops| - 1]);
      StepKeepsSizes(cfg, Run(cfg, ops[..|ops| - 1]).state, ops[|ops| - 1]);
    }
  }

  /** In every run a record is answered so, whatever came before. */
  lemma RunAnswers(cfg: Config, ops: seq<Op>, record: Record, now: int)
    requires ValidConfig(cfg)
    ensures
      var s := Run(cfg, ops).state;
      var a := Answer(cfg, Rested(cfg, s, now), record, now);
      Step(cfg, s, Add(record, now)) == Outcome(a.state, IdleEvents(cfg, s, now) + a.events, a.limit)
  {
    RunKeepsInvariant(cfg, ops);
    RunIsSized(cfg, ops);
    ArrivalIsExact(cfg, Run(cfg, ops).state, record, now);
  }
}
