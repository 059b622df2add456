/** What one call on the event assembler does, as a function of the state before
    it.  The state holds no byte counters and fixes no iteration order: sums are
    recomputed from the tables, and the events of a call are a set whose emission
    order is `EventOrder.Listing`. */
module AssemblerSpec {
  import opened Records
  import opened Totals

  const MINUTE: int := 60_000_000_000
  const MAX_DURATION: int := 0x7FFF_FFFF_FFFF_FFFF

  /** Durations and instants are in nanoseconds. */
  datatype Config = Config(timeout: int, maxPendingEvents: nat, maxRecordsPerEvent: nat, maxPendingBytes: nat)

  /** What the collector's option parser demands of the configured values. */
  ghost predicate ValidConfig(cfg: Config) {
    && 0 < cfg.timeout <= MAX_DURATION
    && 0 < cfg.maxPendingEvents
    && 0 < cfg.maxRecordsPerEvent
    && 0 < cfg.maxPendingBytes
  }

  datatype Group = Group(
    records: seq<Record>, sequence: nat, lastSeen: int,
    auditTime: int, hasAuditTS: bool, mixedNode: bool)

  datatype Rejection = Rejection(source: SourcePosition, lastSeen: int, keyBytes: nat)

  /** The newest audit time of the current epoch and the node it came from. */
  datatype Clock = Clock(latest: Option<int>, node: string, nodePresent: bool)

  datatype State = State(
    pending: map<Key, Group>, rejected: map<Key, Rejection>,
    spillSince: Option<int>, spillSource: SourcePosition, nextSequence: nat, clock: Clock)

  const INITIAL := State(map[], map[], None, NO_POSITION, 0, Clock(None, "", false))

  datatype LimitName = PendingEvents | RecordsPerEvent | PendingBytes
  datatype Limit = Limit(name: LimitName, value: nat, key: Key, observedRecords: nat)

  datatype Outcome = Outcome(state: State, events: set<Event>, limit: Option<Limit>)

  /** EOE and single-record types close a group by themselves. */
  predicate Closes(kind: Kind) { kind.EOE? || kind.Single? }

  /** PROCTITLE, too, leaves no unresolved tail behind it. */
  predicate Terminal(kind: Kind) { Closes(kind) || kind.Proctitle? }

  function KeyBytes(key: Key): nat { |key.id| + |key.node| }

  function Bytes(records: seq<Record>): nat {
    if records == [] then 0
    else Bytes(records[..|records| - 1]) + records[|records| - 1].sourceBytes
  }

  ghost function PendingWeights(pending: map<Key, Group>): map<Key, nat> {
    map k | k in pending :: Bytes(pending[k].records)
  }

  ghost function RejectedWeights(rejected: map<Key, Rejection>): map<Key, nat> {
    map k | k in rejected :: rejected[k].keyBytes
  }

  ghost function PendingTotal(pending: map<Key, Group>): nat { Total(PendingWeights(pending)) }

  ghost function RejectedTotal(rejected: map<Key, Rejection>): nat { Total(RejectedWeights(rejected)) }

  // ---------- expiry ----------

  predicate WallExpired(cfg: Config, g: Group, now: int) { g.lastSeen + cfg.timeout <= now }

  predicate WatermarkExpired(cfg: Config, latest: Option<int>, g: Group) {
    g.hasAuditTS && latest.Some? && g.auditTime + cfg.timeout <= latest.value
  }

  ghost function ExpiredKeys(cfg: Config, s: State, now: int): set<Key> {
    set k | k in s.pending &&
            (WallExpired(cfg, s.pending[k], now) || WatermarkExpired(cfg, s.clock.latest, s.pending[k]))
  }

  function Finished(k: Key, g: Group, completion: Completion, complete: bool): Event {
    Event(g.sequence, false, g.mixedNode, k.id, g.records, complete, completion)
  }

  /** Stream age completes an event; idle wall time only bounds it. */
  function ExpiryEvent(cfg: Config, latest: Option<int>, k: Key, g: Group): Event {
    if WatermarkExpired(cfg, latest, g) then Finished(k, g, ByWatermark, true)
    else Finished(k, g, ByTimeout, false)
  }

  ghost function ExpiredEvents(cfg: Config, s: State, now: int): set<Event> {
    set k | k in ExpiredKeys(cfg, s, now) :: ExpiryEvent(cfg, s.clock.latest, k, s.pending[k])
  }

  ghost function ExpirePending(cfg: Config, s: State, now: int): State {
    s.(pending := s.pending - ExpiredKeys(cfg, s, now))
  }

  predicate RejectionLive(cfg: Config, r: Rejection, now: int) { now < r.lastSeen + cfg.timeout }

  predicate SpillExpired(cfg: Config, since: Option<int>, now: int) {
    since.Some? && since.value + cfg.timeout <= now
  }

  ghost function ExpireRejected(cfg: Config, s: State, now: int): State {
    s.(rejected := map k | k in s.rejected && RejectionLive(cfg, s.rejected[k], now) :: s.rejected[k],
       spillSince := if SpillExpired(cfg, s.spillSince, now) then None else s.spillSince,
       spillSource := if SpillExpired(cfg, s.spillSince, now) then NO_POSITION else s.spillSource)
  }

  // ---------- isolation bookkeeping ----------

  function StartSpill(s: State, now: int, source: SourcePosition): State {
    s.(spillSince := Some(now),
       spillSource :=
         if s.spillSince.None? ||
            (source.valid && (!s.spillSource.valid || StartsBefore(source, s.spillSource)))
         then source else s.spillSource)
  }

  /** Metadata room for one more rejected key. */
  ghost predicate Trackable(cfg: Config, s: State, key: Key) {
    && |s.rejected| < cfg.maxPendingEvents
    && KeyBytes(key) <= cfg.maxPendingBytes - RejectedTotal(s.rejected)
  }

  /** Remember a tainted key individually, or raise the global fence. */
  ghost function Isolate(cfg: Config, s: State, key: Key, pin: SourcePosition, spillPin: SourcePosition,
                         now: int): State {
    if Trackable(cfg, s, key) then s.(rejected := s.rejected[key := Rejection(pin, now, KeyBytes(key))])
    else StartSpill(s, now, spillPin)
  }

  function ExceptionalEvent(sequence: nat, id: string, records: seq<Record>): Event {
    Event(sequence, true, false, id, records, false, ByAssemblyLimit)
  }

  // ---------- normal admission ----------

  /** Named and unnamed producers of one audit ID are ambiguous while both are pending. */
  predicate MixesWith(k: Key, key: Key) { k.id == key.id && k.nodePresent != key.nodePresent }

  /** Before a record of `key` is admitted every group learns whether it is
      mixed with that key and whether its epoch is over. */
  ghost function Remark(pending: map<Key, Group>, key: Key, epochEnds: bool): map<Key, Group> {
    map k | k in pending ::
      pending[k].(mixedNode := pending[k].mixedNode || MixesWith(k, key),
                  hasAuditTS := pending[k].hasAuditTS && !epochEnds)
  }

  ghost function CheckLimits(cfg: Config, s: State, record: Record): Option<LimitName> {
    if record.key !in s.pending && |s.pending| >= cfg.maxPendingEvents then Some(PendingEvents)
    else if record.key in s.pending && |s.pending[record.key].records| >= cfg.maxRecordsPerEvent
      then Some(RecordsPerEvent)
    else if record.sourceBytes > cfg.maxPendingBytes - PendingTotal(s.pending) then Some(PendingBytes)
    else None
  }

  function LimitValue(cfg: Config, name: LimitName): nat {
    match name
    case PendingEvents => cfg.maxPendingEvents
    case RecordsPerEvent => cfg.maxRecordsPerEvent
    case PendingBytes => cfg.maxPendingBytes
  }

  /** Saturating difference of two instants. */
  function Sub(left: int, right: int): int {
    if left - right > MAX_DURATION then MAX_DURATION
    else if left - right < -MAX_DURATION - 1 then -MAX_DURATION - 1
    else left - right
  }

  function ForwardWindow(timeout: int): int {
    if timeout > MINUTE / 2 then
      if timeout <= MAX_DURATION / 2 then 2 * timeout else timeout
    else MINUTE
  }

  predicate ClockJump(cfg: Config, latest: int, timestamp: int) {
    var delta := Sub(timestamp, latest);
    delta > ForwardWindow(cfg.timeout) || delta <= -cfg.timeout
  }

  predicate ForeignNode(clock: Clock, key: Key) {
    clock.latest.Some? && (key.node != clock.node || key.nodePresent != clock.nodePresent)
  }

  /** A node change or a clock discontinuity starts a new watermark epoch. */
  predicate EpochEnds(cfg: Config, clock: Clock, timestamp: int, key: Key) {
    ForeignNode(clock, key) || (clock.latest.Some? && ClockJump(cfg, clock.latest.value, timestamp))
  }

  function Observed(cfg: Config, clock: Clock, timestamp: int, key: Key): Clock {
    Clock(if clock.latest.None? || EpochEnds(cfg, clock, timestamp, key) || timestamp > clock.latest.value
          then Some(timestamp) else clock.latest,
          key.node, key.nodePresent)
  }

  /** Only the first record of a group moves the clock. */
  predicate MovesClock(s: State, record: Record) {
    record.key !in s.pending && record.auditTime.Some?
  }

  predicate RecordEndsEpoch(cfg: Config, s: State, record: Record) {
    MovesClock(s, record) && EpochEnds(cfg, s.clock, record.auditTime.value, record.key)
  }

  /** The group of `record` once the record has joined it. */
  ghost function Extended(s: State, record: Record, now: int): Group {
    var k := record.key;
    if k in s.pending then s.pending[k].(records := s.pending[k].records + [record], lastSeen := now)
    else Group([record], s.nextSequence, now,
               if record.auditTime.Some? then record.auditTime.value else 0, record.auditTime.Some?,
               exists l :: l in s.pending && MixesWith(l, k))
  }

  /** Admit a record whose limits were checked: open its group if needed and append. */
  ghost function Joined(cfg: Config, s: State, record: Record, now: int): State {
    s.(pending := Remark(s.pending, record.key, RecordEndsEpoch(cfg, s, record))
                    [record.key := Extended(s, record, now)],
       nextSequence := if record.key in s.pending then s.nextSequence else s.nextSequence + 1,
       clock := if MovesClock(s, record) then Observed(cfg, s.clock, record.auditTime.value, record.key) else s.clock)
  }

  predicate Finishes(kind: Kind, known: bool) { (kind.Proctitle? && known) || Closes(kind) }

  function FinishCompletion(kind: Kind): Completion {
    match kind
    case EOE => ByEOE
    case Proctitle => ByProctitle
    case _ => BySingleRecord
  }

  /** The group of a closing record leaves the table as a complete event. */
  ghost function Closed(cfg: Config, s: State, record: Record, now: int): Outcome {
    var joined := Joined(cfg, s, record, now);
    var k := record.key;
    if Finishes(record.kind, k in s.pending)
    then Outcome(joined.(pending := joined.pending - {k}),
                 {Finished(k, joined.pending[k], FinishCompletion(record.kind), true)}, None)
    else Outcome(joined, {}, None)
  }

  /** Groups that the record's own audit time made stale leave in the same batch. */
  ghost function ThenExpire(cfg: Config, o: Outcome, now: int): Outcome {
    Outcome(ExpirePending(cfg, o.state, now), o.events + ExpiredEvents(cfg, o.state, now), o.limit)
  }

  /** The records a key already holds in the pending table. */
  function Held(s: State, k: Key): seq<Record> {
    if k in s.pending then s.pending[k].records else []
  }

  /** The number under which the next event of a key is emitted. */
  function SequenceFor(s: State, k: Key): nat {
    if k in s.pending then s.pending[k].sequence else s.nextSequence
  }

  /** The key leaves the pending table; a key without a group uses up a fresh number. */
  ghost function Evicted(s: State, k: Key): State {
    s.(pending := Remark(s.pending, k, false) - {k},
       nextSequence := if k in s.pending then s.nextSequence else s.nextSequence + 1)
  }

  /** A record that does not fit takes its whole group out as physical evidence. */
  ghost function Overflow(cfg: Config, s: State, record: Record, now: int, name: LimitName): Outcome {
    var k := record.key;
    var records := Held(s, k) + [record];
    Outcome(if Terminal(record.kind) then Evicted(s, k)
            else Isolate(cfg, Evicted(s, k), k, records[0].source, records[0].source, now),
            {ExceptionalEvent(SequenceFor(s, k), k.id, records)},
            Some(Limit(name, LimitValue(cfg, name), k, |records|)))
  }

  ghost function Admit(cfg: Config, s: State, record: Record, now: int): Outcome {
    if record.kind.EOE? && record.key !in s.pending then
      ThenExpire(cfg, Outcome(s.(pending := Remark(s.pending, record.key, false)), {}, None), now)
    else
      match CheckLimits(cfg, s, record)
      case Some(name) => Overflow(cfg, s, record, now, name)
      case None => ThenExpire(cfg, Closed(cfg, s, record, now), now)
  }

  // ---------- the collector's entry points ----------

  /** A record of a key already known to be tainted. */
  ghost function Reject(s: State, record: Record, now: int): Outcome
    requires record.key in s.rejected
  {
    var k := record.key;
    var r := s.rejected[k];
    Outcome(s.(rejected := if Terminal(record.kind) then s.rejected - {k} else s.rejected[k := r.(lastSeen := now)],
               nextSequence := if k in s.pending then s.nextSequence else s.nextSequence + 1),
            {ExceptionalEvent(SequenceFor(s, k), k.id, [record])}, None)
  }

  /** A record of an unknown key while the fence stands. */
  ghost function Fence(cfg: Config, s: State, record: Record, now: int): Outcome {
    var counted := s.(nextSequence := s.nextSequence + 1);
    Outcome(if Terminal(record.kind) then counted
            else Isolate(cfg, counted, record.key, s.spillSource, record.source, now),
            {ExceptionalEvent(s.nextSequence, record.key.id, [record])}, None)
  }

  /** EOE closes a full group without being retained. */
  ghost predicate ClosesFullGroup(cfg: Config, s: State, record: Record) {
    && record.key in s.pending
    && record.kind.EOE?
    && (|s.pending[record.key].records| >= cfg.maxRecordsPerEvent ||
        record.sourceBytes > cfg.maxPendingBytes - PendingTotal(s.pending))
  }

  ghost function CloseFullGroup(s: State, k: Key): Outcome
    requires k in s.pending
  {
    Outcome(s.(pending := s.pending - {k}), {Finished(k, s.pending[k], ByEOE, true)}, None)
  }

  ghost function Dispatch(cfg: Config, s: State, record: Record, now: int): Outcome {
    if record.key in s.rejected then Reject(s, record, now)
    else if ClosesFullGroup(cfg, s, record) then CloseFullGroup(s, record.key)
    else if record.key !in s.pending && s.spillSince.Some? then Fence(cfg, s, record, now)
    else Admit(cfg, s, record, now)
  }

  /** State after stale groups and stale isolation entries are swept. */
  ghost function Swept(cfg: Config, s: State, now: int): State {
    ExpireRejected(cfg, ExpirePending(cfg, s, now), now)
  }

  ghost function AddRecovering(cfg: Config, s: State, record: Record, now: int): Outcome {
    var o := Dispatch(cfg, Swept(cfg, s, now), record, now);
    o.(events := ExpiredEvents(cfg, s, now) + o.events)
  }

  ghost function FlushExpired(cfg: Config, s: State, now: int): Outcome {
    Outcome(ExpirePending(cfg, ExpireRejected(cfg, s, now), now), ExpiredEvents(cfg, s, now), None)
  }

  ghost function FlushedEvents(pending: map<Key, Group>, completion: Completion): set<Event> {
    set k | k in pending :: Finished(k, pending[k], completion, false)
  }

  function Cleared(s: State): State {
    s.(pending := map[], rejected := map[], spillSince := None, spillSource := NO_POSITION)
  }

  ghost function FlushAllWith(s: State, completion: Completion): Outcome {
    Outcome(Cleared(s), FlushedEvents(s.pending, completion), None)
  }

  /** An oversized line whose envelope is unusable: nothing pending can be trusted. */
  ghost function RejectUnkeyedLine(s: State, source: SourcePosition, now: int): Outcome {
    Outcome(StartSpill(Cleared(s), now, source),
            set k | k in s.pending :: Finished(k, s.pending[k], ByLineLimit, false).(exceptional := true), None)
  }

  /** An oversized line with a usable envelope isolates its key. */
  ghost function RejectKeyedLine(cfg: Config, s: State, k: Key, source: SourcePosition, now: int): Outcome {
    var removed := s.(pending := s.pending - {k});
    var pin := if Held(s, k) != [] then Held(s, k)[0].source else source;
    Outcome(if k in s.rejected then removed.(rejected := s.rejected[k := s.rejected[k].(lastSeen := now)])
            else Isolate(cfg, removed, k, pin, pin, now),
            if k in s.pending
            then {Finished(k, s.pending[k], ByLineLimit, false).(exceptional := true, sequence := 0)} else {},
            None)
  }

  datatype Op =
    | Add(record: Record, now: int)
    | Expire(now: int)
    | FlushAll(completion: Completion)
    | RejectLine(envelope: Option<Key>, source: SourcePosition, now: int)

  ghost function Step(cfg: Config, s: State, op: Op): Outcome {
    match op
    case Add(record, now) => AddRecovering(cfg, s, record, now)
    case Expire(now) => FlushExpired(cfg, s, now)
    case FlushAll(completion) => FlushAllWith(s, completion)
    case RejectLine(Some(k), source, now) => RejectKeyedLine(cfg, s, k, source, now)
    case RejectLine(None, source, now) => RejectUnkeyedLine(s, source, now)
  }
}
