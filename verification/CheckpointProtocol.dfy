/** The follow loop as a state machine over volatile and durable state: read a line,
    tick, sync the sink, save the checkpoint, and crash between any two of these.
    A lineage is a list of file generations; a process numbers generations from the
    one it was started in, while a checkpoint names a file by its identity. */
module CheckpointProtocol {
  import opened Records
  import opened EventOrder
  import opened AssemblerSpec
  import opened AssemblerInvariants
  import opened StreamPreservation
  import opened SafePosition

  // ---------- the source ----------

  /** A place in the lineage: file index, then byte offset. */
  datatype Point = Point(file: nat, offset: nat)

  predicate Lt(a: Point, b: Point) {
    a.file < b.file || (a.file == b.file && a.offset < b.offset)
  }

  predicate Le(a: Point, b: Point) { a == b || Lt(a, b) }

  datatype Body =
    | Parsed(key: Key, kind: Kind, auditTime: Option<int>)
    | Malformed
    | Oversized(envelope: Option<Key>)

  datatype Line = Line(start: Point, end: Point, bytes: nat, raw: string, body: Body)

  /** An EOE record never stays held; whether it is written is settled when it is read. */
  predicate Evidential(line: Line) {
    line.body.Parsed? ==> !line.body.kind.EOE?
  }

  function SourceOf(files: seq<Identity>, base: nat, line: Line): SourcePosition
    requires base <= line.start.file < |files|
  {
    var id := files[line.start.file];
    SourcePosition("", id.device, id.inode, line.start.file - base, line.start.offset, line.start.offset, line.bytes,
                   true)
  }

  function RecordOf(files: seq<Identity>, base: nat, line: Line): Record
    requires base <= line.start.file < |files| && line.body.Parsed?
  {
    Record(line.body.key, line.body.kind, line.bytes, SourceOf(files, base, line), line.body.auditTime, line.raw)
  }

  // ---------- the sink's view ----------

  datatype Output =
    | Canonical(event: Event)
    | PhysicalRecord(record: Record)
    | ParseFailure(source: SourcePosition, raw: string)
    | LineException(source: SourcePosition, raw: string)

  predicate At(p: SourcePosition, id: Identity, line: Line) {
    p.valid && p.device == id.device && p.inode == id.inode && p.start == line.start.offset
  }

  /** The record is that physical line, content and place. */
  predicate IsRecordOf(r: Record, id: Identity, line: Line) {
    && line.body.Parsed? && At(r.source, id, line)
    && r.key == line.body.key && r.kind == line.body.kind && r.raw == line.raw
  }

  ghost predicate Accounts(o: Output, id: Identity, line: Line) {
    match o
    case Canonical(e) => exists r :: r in e.records && IsRecordOf(r, id, line)
    case PhysicalRecord(r) => IsRecordOf(r, id, line)
    case ParseFailure(p, raw) => line.body.Malformed? && At(p, id, line) && raw == line.raw
    case LineException(p, raw) => line.body.Oversized? && At(p, id, line) && raw == line.raw
  }

  ghost predicate Accounted(outputs: seq<Output>, id: Identity, line: Line) {
    exists o :: o in outputs && Accounts(o, id, line)
  }

  function PhysicalRecords(records: seq<Record>): seq<Output> {
    seq(|records|, i requires 0 <= i < |records| => PhysicalRecord(records[i]))
  }

  /** An exceptional event is written record by record, any other as one document. */
  function Written(events: seq<Event>): seq<Output> {
    if events == [] then []
    else
      var e := events[|events| - 1];
      Written(events[..|events| - 1]) + if e.exceptional then PhysicalRecords(e.records) else [Canonical(e)]
  }

  // ---------- one line, one tick ----------

  datatype Effect = Effect(state: State, outputs: seq<Output>)

  ghost function Emit(o: Outcome): Effect {
    Effect(o.state, Written(Listing(o.events)))
  }

  /** A malformed or oversized line still expires pending evidence first. */
  ghost function HandleLine(cfg: Config, files: seq<Identity>, base: nat, s: State, line: Line, now: int,
                            later: int): Effect
    requires base <= line.start.file < |files|
  {
    var source := SourceOf(files, base, line);
    match line.body
    case Parsed(_, _, _) => Emit(AddRecovering(cfg, s, RecordOf(files, base, line), now))
    case Malformed =>
      var swept := Emit(FlushExpired(cfg, s, now));
      Effect(swept.state, swept.outputs + [ParseFailure(source, line.raw)])
    case Oversized(envelope) =>
      var swept := Emit(FlushExpired(cfg, s, now));
      var isolated := Emit(Step(cfg, swept.state, RejectLine(envelope, source, later)));
      Effect(isolated.state, swept.outputs + isolated.outputs + [LineException(source, line.raw)])
  }

  // ---------- evidence is held or written ----------

  lemma {:induction false} PayloadMembers(k: Key, records: seq<Record>, r: Record)
    ensures r in Payload(k, records) <==> r in records && r.key == k && !r.kind.EOE?
  {
    if records != [] {
      PayloadMembers(k, records[..|records| - 1], r);
      assert records == records[..|records| - 1] + [records[|records| - 1]];
    }
  }

  lemma {:induction false} StreamMembers(k: Key, events: seq<Event>, r: Record)
    requires r in Stream(k, events)
    ensures exists e :: e in events && r in e.records
  {
    var front, e := events[..|events| - 1], events[|events| - 1];
    if r in Stream(k, front) {
      StreamMembers(k, front, r);
    } else {
      PayloadMembers(k, e.records, r);
      assert e in events;
    }
  }

  lemma {:induction false} WrittenMembers(events: seq<Event>, e: Event, r: Record, id: Identity, line: Line)
    requires e in events && r in e.records && IsRecordOf(r, id, line)
    ensures Accounted(Written(events), id, line)
  {
    var front, last := events[..|events| - 1], events[|events| - 1];
    if e in front {
      WrittenMembers(front, e, r, id, line);
      var o :| o in Written(front) && Accounts(o, id, line);
      assert o in Written(events);
    } else if e.exceptional {
      var i :| 0 <= i < |e.records| && e.records[i] == r;
      assert PhysicalRecords(e.records)[i] == PhysicalRecord(r);
      assert PhysicalRecord(r) in Written(events);
    } else {
      assert Canonical(e) in Written(events);
    }
  }

  /** The line's record waits in the pending table. */
  ghost predicate Waiting(s: State, id: Identity, line: Line) {
    line.body.Parsed? && Evidential(line) && exists r :: r in Held(s, line.body.key) && IsRecordOf(r, id, line)
  }

  /** A call writes out or keeps every evidential record it held or was given. */
  lemma StepAccounts(cfg: Config, s: State, op: Op, r: Record, id: Identity, line: Line)
    requires ValidConfig(cfg) && Invariant(cfg, s)
    requires r in Held(s, r.key) || r in Taken(op)
    requires IsRecordOf(r, id, line) && Evidential(line)
    ensures Waiting(Step(cfg, s, op).state, id, line) || Accounted(Emit(Step(cfg, s, op)).outputs, id, line)
  {
    var k, o := r.key, Step(cfg, s, op);
    StepPreservesStream(cfg, s, op, k);
    PayloadMembers(k, Held(s, k), r);
    PayloadMembers(k, Taken(op), r);
    PayloadMembers(k, Held(o.state, k), r);
    assert r in Due(s, Taken(op), k);
    if r !in Payload(k, Held(o.state, k)) {
      StreamMembers(k, Listing(o.events), r);
      var e :| e in Listing(o.events) && r in e.records;
      WrittenMembers(Listing(o.events), e, r, id, line);
    }
  }

  lemma StepKeepsWaiting(cfg: Config, s: State, op: Op, id: Identity, line: Line)
    requires ValidConfig(cfg) && Invariant(cfg, s)
    requires Waiting(s, id, line)
    ensures Waiting(Step(cfg, s, op).state, id, line) || Accounted(Emit(Step(cfg, s, op)).outputs, id, line)
  {
    var r :| r in Held(s, line.body.key) && IsRecordOf(r, id, line);
    StepAccounts(cfg, s, op, r, id, line);
  }

  lemma AccountedInPart(part: seq<Output>, whole: seq<Output>, id: Identity, line: Line)
    requires Accounted(part, id, line)
    requires forall o :: o in part ==> o in whole
    ensures Accounted(whole, id, line)
  {
  }

  /** What waited before a line is read still waits after it or was written. */
  lemma ProcessKeepsWaiting(cfg: Config, files: seq<Identity>, base: nat, s: State, line: Line, now: int, later: int,
                            id: Identity, other: Line)
    requires ValidConfig(cfg) && Invariant(cfg, s)
    requires base <= line.start.file < |files|
    requires Waiting(s, id, other)
    ensures var e := HandleLine(cfg, files, base, s, line, now, later);
            Waiting(e.state, id, other) || Accounted(e.outputs, id, other)
  {
    var e, source := HandleLine(cfg, files, base, s, line, now, later), SourceOf(files, base, line);
    match line.body
    case Parsed(_, _, _) => StepKeepsWaiting(cfg, s, Add(RecordOf(files, base, line), now), id, other);
    case Malformed =>
      StepKeepsWaiting(cfg, s, Expire(now), id, other);
      if !Waiting(e.state, id, other) {
        AccountedInPart(Emit(FlushExpired(cfg, s, now)).outputs, e.outputs, id, other);
      }
    case Oversized(envelope) =>
      var swept := Emit(FlushExpired(cfg, s, now));
      StepKeepsWaiting(cfg, s, Expire(now), id, other);
      StepKeepsInvariant(cfg, s, Expire(now));
      if Waiting(swept.state, id, other) {
        var op := RejectLine(envelope, source, later);
        StepKeepsWaiting(cfg, swept.state, op, id, other);
        if !Waiting(e.state, id, other) {
          AccountedInPart(Emit(Step(cfg, swept.state, op)).outputs, e.outputs, id, other);
        }
      } else {
        AccountedInPart(swept.outputs, e.outputs, id, other);
      }
  }

  /** An EOE that meets neither taint, nor fence, nor a group closes nothing. */
  ghost predicate LoneEOE(s: State, record: Record) {
    record.kind.EOE? && record.key !in s.pending && record.key !in s.rejected && s.spillSince.None?
  }

  /** The two EOE records that are set aside: a lone one, and one that closes a full
      group without joining it. */
  ghost predicate SetAside(cfg: Config, s: State, record: Record) {
    LoneEOE(s, record) || (record.key !in s.rejected && ClosesFullGroup(cfg, s, record))
  }

  /** Every other EOE goes out in its own call, in the event of its group or alone. */
  lemma BoundaryGoesOut(cfg: Config, s: State, record: Record, now: int) returns (e: Event)
    requires record.kind.EOE? && !SetAside(cfg, s, record)
    ensures e in Dispatch(cfg, s, record, now).events && record in e.records
  {
    if record.key in s.rejected {
      e := ExceptionalEvent(SequenceFor(s, record.key), record.key.id, [record]);
    } else if record.key !in s.pending {
      e := ExceptionalEvent(s.nextSequence, record.key.id, [record]);
    } else {
      e := JoinedBoundaryGoesOut(cfg, s, record, now);
    }
  }

  lemma JoinedBoundaryGoesOut(cfg: Config, s: State, record: Record, now: int) returns (e: Event)
    requires record.kind.EOE? && record.key in s.pending
    ensures e in Admit(cfg, s, record, now).events && record in e.records
  {
    if CheckLimits(cfg, s, record).Some? {
      e := ExceptionalEvent(SequenceFor(s, record.key), record.key.id, Held(s, record.key) + [record]);
    } else {
      JoinedShape(cfg, s, record, now);
      e := Finished(record.key, Joined(cfg, s, record, now).pending[record.key], ByEOE, true);
      assert e in Closed(cfg, s, record, now).events;
    }
  }

  ghost predicate Drops(cfg: Config, files: seq<Identity>, base: nat, s: State, line: Line, now: int)
    requires base <= line.start.file < |files|
  {
    line.body.Parsed? && line.body.kind.EOE? && SetAside(cfg, Swept(cfg, s, now), RecordOf(files, base, line))
  }

  lemma BoundaryIsWritten(cfg: Config, s: State, r: Record, now: int, id: Identity, line: Line)
    requires ValidConfig(cfg) && Invariant(cfg, s)
    requires r.kind.EOE? && !SetAside(cfg, Swept(cfg, s, now), r) && IsRecordOf(r, id, line)
    ensures Accounted(Emit(AddRecovering(cfg, s, r, now)).outputs, id, line)
  {
    var e := BoundaryGoesOut(cfg, Swept(cfg, s, now), r, now);
    StepIsDistinct(cfg, s, Add(r, now));
    ListingExists(AddRecovering(cfg, s, r, now).events);
    WrittenMembers(Listing(AddRecovering(cfg, s, r, now).events), e, r, id, line);
  }

  /** The line itself waits or is written, under its own identity. */
  lemma ProcessTakesLine(cfg: Config, files: seq<Identity>, base: nat, s: State, line: Line, now: int, later: int)
    requires ValidConfig(cfg) && Invariant(cfg, s)
    requires base <= line.start.file < |files| && !Drops(cfg, files, base, s, line, now)
    ensures var e, id := HandleLine(cfg, files, base, s, line, now, later), files[line.start.file];
            Waiting(e.state, id, line) || Accounted(e.outputs, id, line)
  {
    var id, source := files[line.start.file], SourceOf(files, base, line);
    var e := HandleLine(cfg, files, base, s, line, now, later);
    match line.body
    case Parsed(_, _, _) =>
      var r := RecordOf(files, base, line);
      assert r in Taken(Add(r, now));
      if Evidential(line) {
        StepAccounts(cfg, s, Add(r, now), r, id, line);
      } else {
        BoundaryIsWritten(cfg, s, r, now, id, line);
      }
    case Malformed => assert Accounts(ParseFailure(source, line.raw), id, line);
    case Oversized(_) => assert Accounts(LineException(source, line.raw), id, line);
  }

  lemma ProcessKeepsInvariant(cfg: Config, files: seq<Identity>, base: nat, s: State, line: Line, now: int, later: int)
    requires ValidConfig(cfg) && Invariant(cfg, s)
    requires base <= line.start.file < |files|
    ensures Invariant(cfg, HandleLine(cfg, files, base, s, line, now, later).state)
  {
    match line.body
    case Parsed(_, _, _) => StepKeepsInvariant(cfg, s, Add(RecordOf(files, base, line), now));
    case Malformed => StepKeepsInvariant(cfg, s, Expire(now));
    case Oversized(envelope) =>
      StepKeepsInvariant(cfg, s, Expire(now));
      StepKeepsInvariant(cfg, FlushExpired(cfg, s, now).state,
                         RejectLine(envelope, SourceOf(files, base, line), later));
  }

  /** Reading a line pins nothing but that line. */
  lemma ProcessPins(cfg: Config, files: seq<Identity>, base: nat, s: State, line: Line, now: int, later: int,
                    p: SourcePosition)
    requires base <= line.start.file < |files|
    requires Pinned(HandleLine(cfg, files, base, s, line, now, later).state, p)
    ensures Pinned(s, p) || p == SourceOf(files, base, line)
  {
    match line.body
    case Parsed(_, _, _) => StepPins(cfg, s, Add(RecordOf(files, base, line), now), p);
    case Malformed => StepPins(cfg, s, Expire(now), p);
    case Oversized(envelope) =>
      var swept := FlushExpired(cfg, s, now).state;
      StepPins(cfg, swept, RejectLine(envelope, SourceOf(files, base, line), later), p);
      if Pinned(swept, p) { StepPins(cfg, s, Expire(now), p); }
  }

  // ---------- the world ----------

  datatype Checkpoint = Checkpoint(device: nat, inode: nat, offset: nat)

  /** `saving` holds the position of a persist whose sink commit has succeeded. */
  datatype Process =
    | Down
    | Up(base: nat, next: nat, complete: Point, assembler: State, unsynced: seq<Output>,
         last: SourcePosition, saving: Option<SourcePosition>)

  /** `frontier` is the furthest complete position any process has reached; a file
      left behind is never appended to again.  `dropped` are the lines set aside when
      they were last read. */
  datatype World = World(
    files: seq<Identity>, log: seq<Line>, frontier: Point, dropped: set<nat>,
    checkpoint: Checkpoint, sink: seq<Output>, process: Process)

  datatype Action =
    | Grow(ids: seq<Identity>, lines: seq<Line>)
    | Start
    | ReadLine(now: int, later: int)
    | Tick(now: int, complete: Point)
    | FlushForShutdown
    | Sync(position: SourcePosition)
    | Save
    | Crash(kept: nat)

  ghost predicate Distinct(files: seq<Identity>) {
    forall i, j :: 0 <= i < j < |files| ==> files[i] != files[j]
  }

  ghost predicate Ordered(files: seq<Identity>, log: seq<Line>) {
    && (forall i :: 0 <= i < |log| ==> Lt(log[i].start, log[i].end) && log[i].end.file < |files|)
    && (forall i, j :: 0 <= i < j < |log| ==> Le(log[i].end, log[j].start))
  }

  ghost function FileOf(files: seq<Identity>, id: Identity): (i: nat)
    requires id in files
    ensures i < |files| && files[i] == id
  {
    var i :| 0 <= i < |files| && files[i] == id;
    i
  }

  ghost predicate Named(w: World) {
    Identity(w.checkpoint.device, w.checkpoint.inode) in w.files
  }

  ghost function CheckpointPoint(w: World): Point
    requires Named(w)
  {
    Point(FileOf(w.files, Identity(w.checkpoint.device, w.checkpoint.inode)), w.checkpoint.offset)
  }

  /** A place in the lineage as the process that started in file `base` writes it. */
  function PositionAt(files: seq<Identity>, base: nat, at: Point): SourcePosition
    requires base <= at.file < |files|
  {
    SourcePosition("", files[at.file].device, files[at.file].inode, at.file - base, at.offset, at.offset, 0, true)
  }

  /** The order in which a checkpoint writer compares positions. */
  predicate EndsBefore(left: SourcePosition, right: SourcePosition) {
    if left.generation != right.generation then left.generation < right.generation
    else left.end < right.end
  }

  function Later(a: Point, b: Point): Point { if Lt(a, b) then b else a }

  ghost predicate Running(p: Process) { p.Up? && p.saving.None? }

  /** Reading starts at the first line not before the complete position. */
  ghost predicate Splits(log: seq<Line>, next: nat, at: Point) {
    && next <= |log|
    && (forall i :: 0 <= i < next ==> Lt(log[i].start, at))
    && (forall i :: next <= i < |log| ==> Le(at, log[i].start))
  }

  ghost predicate Next(cfg: Config, w: World, a: Action, v: World) {
    match a
    case Grow(ids, lines) =>
      && Distinct(w.files + ids) && Ordered(w.files + ids, w.log + lines)
      && (forall l :: l in lines ==> Le(w.frontier, l.start))
      && v == w.(files := w.files + ids, log := w.log + lines)
    case Start =>
      && w.process.Down? && v.process.Up? && Named(w)
      && var at := CheckpointPoint(w);
      && Splits(w.log, v.process.next, at)
      && v == w.(process := Up(at.file, v.process.next, at, INITIAL, [], PositionAt(w.files, at.file, at), None),
                 dropped := set i | i in w.dropped && i < v.process.next)
    case ReadLine(now, later) =>
      && Running(w.process) && w.process.next < |w.log|
      && var p, line := w.process, w.log[w.process.next];
      && line.start == p.complete && p.base <= line.start.file < |w.files|
      && var e := HandleLine(cfg, w.files, p.base, p.assembler, line, now, later);
      && v == w.(frontier := Later(w.frontier, line.end),
                 dropped := if Drops(cfg, w.files, p.base, p.assembler, line, now)
                            then w.dropped + {p.next} else w.dropped - {p.next},
                 process := p.(next := p.next + 1, complete := line.end, assembler := e.state,
                               unsynced := p.unsynced + e.outputs))
    case Tick(now, complete) =>
      && Running(w.process)
      && var p := w.process;
      && Le(p.complete, complete) && complete.file < |w.files|
      && (p.next < |w.log| ==> Le(complete, w.log[p.next].start))
      && var e := Emit(FlushExpired(cfg, p.assembler, now));
      && v == w.(frontier := Later(w.frontier, complete),
                 process := p.(complete := complete, assembler := e.state, unsynced := p.unsynced + e.outputs))
    case FlushForShutdown =>
      && Running(w.process)
      && var p := w.process;
      && var e := Emit(FlushAllWith(p.assembler, ByShutdown));
      && v == w.(process := p.(assembler := e.state, unsynced := p.unsynced + e.outputs))
    case Sync(position) =>
      && Running(w.process)
      && var p := w.process;
      && p.base <= p.complete.file < |w.files|
      && IsSafe(p.assembler, PositionAt(w.files, p.base, p.complete), position)
      && !EndsBefore(position, p.last)
      && v == w.(sink := w.sink + p.unsynced, process := p.(unsynced := [], saving := Some(position)))
    case Save =>
      && w.process.Up? && w.process.saving.Some?
      && var p, position := w.process, w.process.saving.value;
      && v == w.(checkpoint := Checkpoint(position.device, position.inode, position.end),
                 process := p.(last := position, saving := None))
    case Crash(kept) =>
      && w.process.Up? && kept <= |w.process.unsynced|
      && v == w.(sink := w.sink + w.process.unsynced[..kept], process := Down)
  }

  ghost predicate Initial(w: World) {
    |w.files| == 1 &&
    w == World(w.files, [], Point(0, 0), {}, Checkpoint(w.files[0].device, w.files[0].inode, 0), [], Down)
  }

  ghost predicate Behaviour(cfg: Config, ws: seq<World>, actions: seq<Action>) {
    && |ws| == |actions| + 1
    && Initial(ws[0])
    && forall i :: 0 <= i < |actions| ==> Next(cfg, ws[i], actions[i], ws[i + 1])
  }

  /** Consecutive actions from one world to another. */
  ghost predicate Walks(cfg: Config, w: World, actions: seq<Action>, v: World)
    decreases |actions|
  {
    if actions == [] then v == w
    else exists m :: Next(cfg, w, actions[0], m) && Walks(cfg, m, actions[1..], v)
  }

  lemma OneStepWalks(cfg: Config, w: World, a: Action, v: World)
    requires Next(cfg, w, a, v)
    ensures Walks(cfg, w, [a], v)
  {
    assert Walks(cfg, v, [a][1..], v);
  }

  lemma TwoStepsWalk(cfg: Config, w: World, a: Action, m: World, b: Action, v: World)
    requires Next(cfg, w, a, m) && Next(cfg, m, b, v)
    ensures Walks(cfg, w, [a, b], v)
  {
    OneStepWalks(cfg, m, b, v);
    assert [a, b][1..] == [b];
  }

  // ---------- the invariant ----------

  ghost predicate LineAccounted(w: World, outputs: seq<Output>, i: nat)
    requires i < |w.log|
  {
    w.log[i].start.file < |w.files| && Accounted(outputs, w.files[w.log[i].start.file], w.log[i])
  }

  ghost predicate LineWaits(w: World, i: nat)
    requires i < |w.log| && w.process.Up?
  {
    w.log[i].start.file < |w.files| && Waiting(w.process.assembler, w.files[w.log[i].start.file], w.log[i])
  }

  /** A relative position and the file it names agree. */
  ghost predicate Located(files: seq<Identity>, base: nat, p: SourcePosition) {
    base + p.generation < |files| && files[base + p.generation] == Identity(p.device, p.inode)
  }

  ghost predicate Lineage(w: World) {
    && Distinct(w.files) && Ordered(w.files, w.log)
    && Named(w)
    && Le(CheckpointPoint(w), w.frontier)
  }

  /** Everything before the durable checkpoint is durably accounted for. */
  ghost predicate Durable(w: World)
    requires Named(w)
  {
    forall i :: 0 <= i < |w.log| && Lt(w.log[i].start, CheckpointPoint(w)) && i !in w.dropped ==>
      LineAccounted(w, w.sink, i)
  }

  /** Everything read is written or waits. */
  ghost predicate ReadIsKept(w: World)
    requires w.process.Up?
  {
    forall i :: 0 <= i < w.process.next && i < |w.log| && i !in w.dropped ==>
      LineAccounted(w, w.sink + w.process.unsynced, i) || LineWaits(w, i)
  }

  ghost predicate Placed(w: World)
    requires w.process.Up?
  {
    var p := w.process;
    && p.base <= p.complete.file < |w.files|
    && Le(p.complete, w.frontier)
    && Splits(w.log, p.next, p.complete)
  }

  /** Every pin names its file correctly and lies at or after the last saved position. */
  ghost predicate PinsPlaced(w: World)
    requires w.process.Up?
  {
    var p := w.process;
    forall q :: Pinned(p.assembler, q) ==> PinPlaced(w.files, p.base, Point(p.base + p.last.generation, p.last.end), q)
  }

  ghost predicate LastPlaced(w: World)
    requires w.process.Up? && Named(w)
  {
    var p := w.process;
    && Located(w.files, p.base, p.last)
    && CheckpointPoint(w) == Point(p.base + p.last.generation, p.last.end)
    && Le(CheckpointPoint(w), p.complete)
  }

  /** Between the sink commit and the save the chosen position is safe and everything is synced. */
  ghost predicate SavingIsSafe(w: World)
    requires w.process.Up?
  {
    var p := w.process;
    p.saving.Some? ==>
      && p.base <= p.complete.file < |w.files|
      && IsSafe(p.assembler, PositionAt(w.files, p.base, p.complete), p.saving.value)
      && !EndsBefore(p.saving.value, p.last)
      && p.unsynced == []
  }

  ghost predicate Alive(cfg: Config, w: World)
    requires w.process.Up? && Named(w)
  {
    && Invariant(cfg, w.process.assembler)
    && Placed(w) && PinsPlaced(w) && LastPlaced(w)
    && ReadIsKept(w) && SavingIsSafe(w)
  }

  /** Only EOE records are ever set aside. */
  ghost predicate DroppedAreBoundaries(w: World) {
    forall i :: i in w.dropped ==> i < |w.log| && w.log[i].body.Parsed? && w.log[i].body.kind.EOE?
  }

  ghost predicate Good(cfg: Config, w: World) {
    Lineage(w) && Durable(w) && DroppedAreBoundaries(w) && (w.process.Up? ==> Alive(cfg, w))
  }

  // ---------- consequences of the invariant ----------

  ghost function PointOf(base: nat, p: SourcePosition): Point { Point(base + p.generation, p.end) }

  /** A safe position names its file, lies at or before the complete position and
      never before the last saved one. */
  lemma SafeIsPlaced(cfg: Config, w: World, position: SourcePosition)
    requires Lineage(w) && w.process.Up? && Placed(w) && PinsPlaced(w) && LastPlaced(w)
    requires IsSafe(w.process.assembler, PositionAt(w.files, w.process.base, w.process.complete), position)
    ensures Located(w.files, w.process.base, position) && position.start == position.end
    ensures Le(PointOf(w.process.base, position), w.process.complete)
    ensures Le(PointOf(w.process.base, w.process.last), PointOf(w.process.base, position))
    ensures !EndsBefore(position, w.process.last)
  {
    var p := w.process;
    var fallback := PositionAt(w.files, p.base, p.complete);
    if position != fallback {
      var q :| Pinned(p.assembler, q) && position == AtStart(q);
      assert Located(w.files, p.base, q);
    }
  }

  /** A line that waits is not before a safe position. */
  lemma WaitingIsNotPassed(cfg: Config, w: World, position: SourcePosition, i: nat)
    requires Lineage(w) && w.process.Up? && PinsPlaced(w)
    requires IsSafe(w.process.assembler, PositionAtAny(w), position) && position.start == position.end
    requires i < |w.log| && LineWaits(w, i)
    ensures Le(PointOf(w.process.base, position), w.log[i].start)
  {
    var p, line := w.process, w.log[i];
    var id := w.files[line.start.file];
    var r :| r in Held(p.assembler, line.body.key) && IsRecordOf(r, id, line);
    var n :| 0 <= n < |Held(p.assembler, line.body.key)| && Held(p.assembler, line.body.key)[n] == r;
    HeldIsPinned(p.assembler, line.body.key, n);
    assert Pinned(p.assembler, r.source);
    assert Located(w.files, p.base, r.source);
    assert p.base + r.source.generation == line.start.file;
  }

  ghost function PositionAtAny(w: World): SourcePosition
    requires w.process.Up?
  {
    if w.process.base <= w.process.complete.file < |w.files|
    then PositionAt(w.files, w.process.base, w.process.complete) else NO_POSITION
  }

  /** When everything written is synced, a safe position has nothing unaccounted before it. */
  lemma SafePrefixIsDurable(cfg: Config, w: World, position: SourcePosition, i: nat)
    requires Lineage(w) && w.process.Up? && Alive(cfg, w)
    requires IsSafe(w.process.assembler, PositionAtAny(w), position)
    requires w.process.unsynced == []
    requires i < |w.log| && i !in w.dropped && Lt(w.log[i].start, PointOf(w.process.base, position))
    ensures LineAccounted(w, w.sink, i)
  {
    SafeIsPlaced(cfg, w, position);
    assert i < w.process.next;
    assert w.sink + w.process.unsynced == w.sink;
    if LineWaits(w, i) { WaitingIsNotPassed(cfg, w, position, i); }
  }

  // ---------- each action keeps the invariant ----------

  lemma FileOfUnique(files: seq<Identity>, i: nat)
    requires Distinct(files) && i < |files|
    ensures FileOf(files, files[i]) == i
  {
  }

  lemma SaveKeepsDurable(cfg: Config, w: World, v: World)
    requires Good(cfg, w) && Next(cfg, w, Save, v)
    ensures Named(v) && CheckpointPoint(v) == PointOf(w.process.base, w.process.saving.value)
    ensures Durable(v)
  {
    var p, position := w.process, w.process.saving.value;
    SafeIsPlaced(cfg, w, position);
    FileOfUnique(w.files, p.base + position.generation);
    forall i | 0 <= i < |v.log| && Lt(v.log[i].start, CheckpointPoint(v)) && i !in v.dropped
      ensures LineAccounted(v, v.sink, i)
    {
      SafePrefixIsDurable(cfg, w, position, i);
    }
  }

  lemma SaveKeepsPins(cfg: Config, w: World, v: World)
    requires Good(cfg, w) && Next(cfg, w, Save, v)
    ensures PinsPlaced(v)
  {
    var p, position := w.process, w.process.saving.value;
    SafeIsPlaced(cfg, w, position);
    forall q | Pinned(p.assembler, q) ensures PinPlaced(w.files, p.base, PointOf(p.base, position), q) {
      PinStaysAhead(w, position, q);
    }
  }

  /** A pin lies at or after every safe position. */
  lemma PinStaysAhead(w: World, position: SourcePosition, q: SourcePosition)
    requires w.process.Up? && PinsPlaced(w)
    requires Pinned(w.process.assembler, q) && position.start == position.end && !StartsBefore(q, position)
    ensures PinPlaced(w.files, w.process.base, PointOf(w.process.base, position), q)
  {
    assert PinPlaced(w.files, w.process.base, PointOf(w.process.base, w.process.last), q);
  }

  lemma SaveKeepsPlaces(cfg: Config, w: World, v: World)
    requires Good(cfg, w) && Next(cfg, w, Save, v) && Named(v)
    requires CheckpointPoint(v) == PointOf(w.process.base, w.process.saving.value)
    ensures Placed(v) && LastPlaced(v) && ReadIsKept(v) && SavingIsSafe(v) && Lineage(v)
  {
    SafeIsPlaced(cfg, w, w.process.saving.value);
    LeTransitive(CheckpointPoint(v), w.process.complete, w.frontier);
    assert v.sink + v.process.unsynced == w.sink + w.process.unsynced;
    forall i | 0 <= i < v.process.next && i < |v.log| && i !in v.dropped
      ensures LineAccounted(v, v.sink + v.process.unsynced, i) || LineWaits(v, i)
    {
      assert LineAccounted(w, w.sink + w.process.unsynced, i) || LineWaits(w, i);
    }
  }

  lemma SaveKeeps(cfg: Config, w: World, v: World)
    requires Good(cfg, w) && Next(cfg, w, Save, v)
    ensures Good(cfg, v)
  {
    SaveKeepsDurable(cfg, w, v);
    SaveKeepsPlaces(cfg, w, v);
    SaveKeepsPins(cfg, w, v);
  }

  lemma SyncKeeps(cfg: Config, w: World, position: SourcePosition, v: World)
    requires Good(cfg, w) && Next(cfg, w, Sync(position), v)
    ensures Good(cfg, v)
  {
    var p := w.process;
    assert v.sink + v.process.unsynced == w.sink + p.unsynced;
    forall i | 0 <= i < |w.log| && LineAccounted(w, w.sink, i) ensures LineAccounted(v, v.sink, i) {
      AccountedInPart(w.sink, v.sink, w.files[w.log[i].start.file], w.log[i]);
    }
  }

  lemma CrashKeeps(cfg: Config, w: World, kept: nat, v: World)
    requires Good(cfg, w) && Next(cfg, w, Crash(kept), v)
    ensures Good(cfg, v)
  {
    forall i | 0 <= i < |w.log| && LineAccounted(w, w.sink, i) ensures LineAccounted(v, v.sink, i) {
      AccountedInPart(w.sink, v.sink, w.files[w.log[i].start.file], w.log[i]);
    }
  }

  /** Before the checkpoint everything is in the sink, and that is where reading resumes. */
  lemma StartReads(cfg: Config, w: World, v: World)
    requires Good(cfg, w) && Next(cfg, w, Start, v)
    ensures ReadIsKept(v)
  {
    assert v.sink + v.process.unsynced == w.sink;
    forall i | 0 <= i < v.process.next && i < |v.log| && i !in v.dropped
      ensures LineAccounted(v, v.sink + v.process.unsynced, i)
    {
      assert LineAccounted(w, w.sink, i);
    }
  }

  lemma StartKeeps(cfg: Config, w: World, v: World)
    requires Good(cfg, w) && Next(cfg, w, Start, v)
    ensures Good(cfg, v)
  {
    FileOfUnique(w.files, v.process.base);
    ClearingKeeps(cfg, INITIAL);
    StartReads(cfg, w, v);
    StartPlaces(cfg, w, v);
  }

  /** A new process starts at the checkpoint with nothing pending. */
  lemma StartPlaces(cfg: Config, w: World, v: World)
    requires Good(cfg, w) && Next(cfg, w, Start, v)
    ensures Lineage(v) && Placed(v) && PinsPlaced(v) && LastPlaced(v) && SavingIsSafe(v)
    ensures Durable(v) && DroppedAreBoundaries(v)
  {
    FileOfUnique(w.files, v.process.base);
    forall i | 0 <= i < |v.log| && Lt(v.log[i].start, CheckpointPoint(v)) && i !in v.dropped
      ensures LineAccounted(v, v.sink, i)
    {
      assert LineAccounted(w, w.sink, i);
    }
  }

  /** The process has written `outputs` and moved on to `assembler`; what was
      accounted for stays so, and what waited still waits or was written. */
  ghost predicate Moved(w: World, v: World, outputs: seq<Output>) {
    && w.process.Up? && v.process.Up?
    && v.files == w.files && v.log == w.log && v.sink == w.sink && v.checkpoint == w.checkpoint
    && v.process.unsynced == w.process.unsynced + outputs
    && forall i :: 0 <= i < |w.log| && LineWaits(w, i) ==>
         LineWaits(v, i) || LineAccounted(v, outputs, i)
  }

  lemma MovedKeepsLine(w: World, v: World, outputs: seq<Output>, i: nat)
    requires Moved(w, v, outputs) && i < |w.log|
    requires LineAccounted(w, w.sink + w.process.unsynced, i) || LineWaits(w, i)
    ensures LineAccounted(v, v.sink + v.process.unsynced, i) || LineWaits(v, i)
  {
    var id, whole := w.files[w.log[i].start.file], v.sink + v.process.unsynced;
    if LineAccounted(w, w.sink + w.process.unsynced, i) {
      AccountedInPart(w.sink + w.process.unsynced, whole, id, w.log[i]);
    } else if LineAccounted(v, outputs, i) {
      AccountedInPart(outputs, whole, id, w.log[i]);
    }
  }

  /** A call that is given no line moves the process without new pins. */
  lemma StepMoves(cfg: Config, w: World, v: World, op: Op)
    requires ValidConfig(cfg) && w.process.Up? && Invariant(cfg, w.process.assembler)
    requires !op.Add? && !op.RejectLine?
    requires var e := Emit(Step(cfg, w.process.assembler, op));
             && v.process.Up? && v.files == w.files && v.log == w.log && v.sink == w.sink &&
               v.checkpoint == w.checkpoint
             && v.process.unsynced == w.process.unsynced + e.outputs && v.process.assembler == e.state
    ensures Moved(w, v, Emit(Step(cfg, w.process.assembler, op)).outputs)
    ensures Invariant(cfg, v.process.assembler)
    ensures forall q :: Pinned(v.process.assembler, q) ==> Pinned(w.process.assembler, q)
  {
    StepKeepsInvariant(cfg, w.process.assembler, op);
    forall q | Pinned(v.process.assembler, q) ensures Pinned(w.process.assembler, q) {
      StepPins(cfg, w.process.assembler, op, q);
    }
    forall i | 0 <= i < |w.log| && LineWaits(w, i)
      ensures LineWaits(v, i) || LineAccounted(v, Emit(Step(cfg, w.process.assembler, op)).outputs, i)
    {
      StepKeepsWaiting(cfg, w.process.assembler, op, w.files[w.log[i].start.file], w.log[i]);
    }
  }

  lemma MovedKeepsEvidence(w: World, v: World, outputs: seq<Output>)
    requires Lineage(w) && Durable(w) && w.process.Up? && ReadIsKept(w)
    requires Moved(w, v, outputs) && v.process.next == w.process.next && v.dropped == w.dropped
    ensures Named(v) && Durable(v) && ReadIsKept(v)
  {
    forall i | 0 <= i < v.process.next && i < |v.log| && i !in v.dropped
      ensures LineAccounted(v, v.sink + v.process.unsynced, i) || LineWaits(v, i)
    {
      MovedKeepsLine(w, v, outputs, i);
    }
    forall i | 0 <= i < |v.log| && Lt(v.log[i].start, CheckpointPoint(v)) && i !in v.dropped
      ensures LineAccounted(v, v.sink, i)
    {
      assert LineAccounted(w, w.sink, i);
    }
  }

  lemma MovedKeepsPins(w: World, v: World, outputs: seq<Output>)
    requires w.process.Up? && PinsPlaced(w)
    requires Moved(w, v, outputs) && v.process.base == w.process.base && v.process.last == w.process.last
    requires forall q :: Pinned(v.process.assembler, q) ==> Pinned(w.process.assembler, q)
    ensures PinsPlaced(v)
  {
  }

  lemma MovedKeeps(cfg: Config, w: World, v: World, outputs: seq<Output>)
    requires Good(cfg, w) && Running(w.process) && Running(v.process)
    requires Moved(w, v, outputs) && v.dropped == w.dropped && Invariant(cfg, v.process.assembler)
    requires v.process.base == w.process.base && v.process.next == w.process.next && v.process.last == w.process.last
    requires forall q :: Pinned(v.process.assembler, q) ==> Pinned(w.process.assembler, q)
    requires Placed(v) && Le(w.process.complete, v.process.complete) && Le(w.frontier, v.frontier)
    ensures Good(cfg, v)
  {
    MovedKeepsEvidence(w, v, outputs);
    MovedKeepsPins(w, v, outputs);
    LeTransitive(CheckpointPoint(w), w.process.complete, v.process.complete);
    LeTransitive(CheckpointPoint(w), w.frontier, v.frontier);
  }

  lemma LeTransitive(a: Point, b: Point, c: Point)
    requires Le(a, b) && Le(b, c)
    ensures Le(a, c)
  {
  }

  lemma SplitsFurther(files: seq<Identity>, log: seq<Line>, next: nat, at: Point, further: Point)
    requires Ordered(files, log) && Splits(log, next, at) && Le(at, further)
    requires next < |log| ==> Le(further, log[next].start)
    ensures Splits(log, next, further)
  {
    forall i | next <= i < |log| ensures Le(further, log[i].start) {
      if i > next {
        assert Le(log[next].end, log[i].start);
      }
    }
  }

  lemma TickKeeps(cfg: Config, w: World, now: int, complete: Point, v: World)
    requires ValidConfig(cfg) && Good(cfg, w) && Next(cfg, w, Tick(now, complete), v)
    ensures Good(cfg, v)
  {
    assert Le(w.frontier, v.frontier) && Le(complete, v.frontier);
    SplitsFurther(w.files, w.log, w.process.next, w.process.complete, complete);
    StepMoves(cfg, w, v, Expire(now));
    MovedKeeps(cfg, w, v, Emit(FlushExpired(cfg, w.process.assembler, now)).outputs);
  }

  lemma FlushKeeps(cfg: Config, w: World, v: World)
    requires ValidConfig(cfg) && Good(cfg, w) && Next(cfg, w, FlushForShutdown, v)
    ensures Good(cfg, v)
  {
    StepMoves(cfg, w, v, FlushAll(ByShutdown));
    MovedKeeps(cfg, w, v, Emit(FlushAllWith(w.process.assembler, ByShutdown)).outputs);
  }

  lemma ReadLineMoves(cfg: Config, w: World, now: int, later: int, v: World)
    requires ValidConfig(cfg) && Good(cfg, w) && Next(cfg, w, ReadLine(now, later), v)
    ensures
      var p := w.process;
      Moved(w, v, HandleLine(cfg, w.files, p.base, p.assembler, w.log[p.next], now, later).outputs)
  {
    var p, line := w.process, w.log[w.process.next];
    var e := HandleLine(cfg, w.files, p.base, p.assembler, line, now, later);
    forall i | 0 <= i < |w.log| && LineWaits(w, i)
      ensures LineWaits(v, i) || LineAccounted(v, e.outputs, i)
    {
      ProcessKeepsWaiting(cfg, w.files, p.base, p.assembler, line, now, later, w.files[w.log[i].start.file], w.log[i]);
    }
  }

  /** The line just read waits or was written, unless it was set aside. */
  lemma NewLineIsKept(cfg: Config, w: World, now: int, later: int, v: World)
    requires ValidConfig(cfg) && Good(cfg, w) && Next(cfg, w, ReadLine(now, later), v)
    requires w.process.next !in v.dropped
    ensures LineKept(v, w.process.next)
  {
    var p, line := w.process, w.log[w.process.next];
    var e := HandleLine(cfg, w.files, p.base, p.assembler, line, now, later);
    ProcessTakesLine(cfg, w.files, p.base, p.assembler, line, now, later);
    if !LineWaits(v, p.next) {
      AccountedInPart(e.outputs, v.sink + v.process.unsynced, w.files[line.start.file], line);
    }
  }

  ghost predicate LineKept(v: World, i: nat)
    requires v.process.Up? && i < |v.log|
  {
    LineAccounted(v, v.sink + v.process.unsynced, i) || LineWaits(v, i)
  }

  lemma OldLinesAreKept(w: World, v: World, outputs: seq<Output>)
    requires w.process.Up? && ReadIsKept(w) && Moved(w, v, outputs)
    ensures forall i :: 0 <= i < w.process.next && i < |w.log| && i !in w.dropped ==> LineKept(v, i)
  {
    forall i | 0 <= i < w.process.next && i < |w.log| && i !in w.dropped ensures LineKept(v, i) {
      MovedKeepsLine(w, v, outputs, i);
    }
  }

  lemma OneMoreIsKept(w: World, v: World)
    requires w.process.Up? && v.process.Up? && v.log == w.log && w.process.next < |w.log|
    requires v.process.next == w.process.next + 1 && w.dropped - {w.process.next} <= v.dropped
    requires forall i :: 0 <= i < w.process.next && i < |w.log| && i !in w.dropped ==> LineKept(v, i)
    requires w.process.next !in v.dropped ==> LineKept(v, w.process.next)
    ensures ReadIsKept(v)
  {
  }

  lemma ReadLineKeepsEvidence(cfg: Config, w: World, now: int, later: int, v: World)
    requires ValidConfig(cfg) && Good(cfg, w) && Next(cfg, w, ReadLine(now, later), v)
    ensures ReadIsKept(v)
  {
    var p := w.process;
    ReadLineMoves(cfg, w, now, later, v);
    OldLinesAreKept(w, v, HandleLine(cfg, w.files, p.base, p.assembler, w.log[p.next], now, later).outputs);
    if p.next !in v.dropped { NewLineIsKept(cfg, w, now, later, v); }
    OneMoreIsKept(w, v);
  }

  lemma SplitsAfter(files: seq<Identity>, log: seq<Line>, next: nat)
    requires Ordered(files, log) && next < |log| && Splits(log, next, log[next].start)
    ensures Splits(log, next + 1, log[next].end)
  {
  }

  ghost predicate PinPlaced(files: seq<Identity>, base: nat, last: Point, q: SourcePosition) {
    Located(files, base, q) && Le(last, Point(base + q.generation, q.start))
  }

  lemma LineIsPlaced(files: seq<Identity>, base: nat, line: Line, last: Point)
    requires base <= line.start.file < |files| && Le(last, line.start)
    ensures PinPlaced(files, base, last, SourceOf(files, base, line))
  {
    assert Point(base + SourceOf(files, base, line).generation, SourceOf(files, base, line).start) == line.start;
  }

  lemma HandledPinsPlaced(cfg: Config, files: seq<Identity>, base: nat, s: State, line: Line, now: int, later: int,
                          last: Point, q: SourcePosition)
    requires base <= line.start.file < |files| && Le(last, line.start)
    requires Pinned(s, q) ==> PinPlaced(files, base, last, q)
    requires Pinned(HandleLine(cfg, files, base, s, line, now, later).state, q)
    ensures PinPlaced(files, base, last, q)
  {
    ProcessPins(cfg, files, base, s, line, now, later, q);
    if !Pinned(s, q) { LineIsPlaced(files, base, line, last); }
  }

  /** All pins after a line was handled are placed as those before it. */
  lemma AllHandledPinsPlaced(cfg: Config, files: seq<Identity>, base: nat, s: State, line: Line, now: int, later: int,
                             last: Point)
    requires base <= line.start.file < |files| && Le(last, line.start)
    requires forall q :: Pinned(s, q) ==> PinPlaced(files, base, last, q)
    ensures forall q :: Pinned(HandleLine(cfg, files, base, s, line, now, later).state, q) ==>
      PinPlaced(files, base, last, q)
  {
    forall q | Pinned(HandleLine(cfg, files, base, s, line, now, later).state, q)
      ensures PinPlaced(files, base, last, q)
    {
      HandledPinsPlaced(cfg, files, base, s, line, now, later, last, q);
    }
  }

  lemma ReadLineKeepsPins(cfg: Config, w: World, now: int, later: int, v: World)
    requires Good(cfg, w) && Next(cfg, w, ReadLine(now, later), v)
    ensures PinsPlaced(v)
  {
    var p, line := w.process, w.log[w.process.next];
    AllHandledPinsPlaced(cfg, w.files, p.base, p.assembler, line, now, later,
                         Point(p.base + p.last.generation, p.last.end));
  }

  lemma ReadLineKeepsPlaces(cfg: Config, w: World, now: int, later: int, v: World)
    requires ValidConfig(cfg) && Good(cfg, w) && Next(cfg, w, ReadLine(now, later), v)
    ensures Placed(v) && PinsPlaced(v)
  {
    SplitsAfter(w.files, w.log, w.process.next);
    ReadLineKeepsPins(cfg, w, now, later, v);
  }

  /** The line just read is not before the checkpoint, and it is set aside only as an EOE. */
  lemma ReadLineKeepsDurable(cfg: Config, w: World, now: int, later: int, v: World)
    requires Good(cfg, w) && Next(cfg, w, ReadLine(now, later), v)
    ensures Lineage(v) && Durable(v) && DroppedAreBoundaries(v)
  {
    assert Le(CheckpointPoint(w), w.log[w.process.next].start);
    LeTransitive(CheckpointPoint(w), w.frontier, v.frontier);
    forall i | 0 <= i < |v.log| && Lt(v.log[i].start, CheckpointPoint(v)) && i !in v.dropped
      ensures LineAccounted(v, v.sink, i)
    {
      assert i !in w.dropped;
      assert LineAccounted(w, w.sink, i);
    }
  }

  lemma ReadLineKeepsLast(cfg: Config, w: World, now: int, later: int, v: World)
    requires Good(cfg, w) && Next(cfg, w, ReadLine(now, later), v) && Lineage(v)
    ensures LastPlaced(v) && SavingIsSafe(v)
  {
    LeTransitive(CheckpointPoint(w), w.process.complete, v.process.complete);
  }

  lemma ReadLineKeeps(cfg: Config, w: World, now: int, later: int, v: World)
    requires ValidConfig(cfg) && Good(cfg, w) && Next(cfg, w, ReadLine(now, later), v)
    ensures Good(cfg, v)
  {
    ReadLineKeepsDurable(cfg, w, now, later, v);
    ReadLineKeepsEvidence(cfg, w, now, later, v);
    ReadLineKeepsPlaces(cfg, w, now, later, v);
    ReadLineKeepsLast(cfg, w, now, later, v);
    ProcessKeepsInvariant(cfg, w.files, w.process.base, w.process.assembler, w.log[w.process.next], now, later);
  }

  lemma GrowKeeps(cfg: Config, w: World, ids: seq<Identity>, lines: seq<Line>, v: World)
    requires Good(cfg, w) && Next(cfg, w, Grow(ids, lines), v)
    ensures Good(cfg, v)
  {
    FileOfUnique(v.files, CheckpointPoint(w).file);
    assert CheckpointPoint(v) == CheckpointPoint(w);
    forall i | |w.log| <= i < |v.log| ensures Le(w.frontier, v.log[i].start) {
      assert v.log[i] in lines;
    }
    GrowKeepsLines(w, v);
    if w.process.Up? {
      GrowKeepsProcess(cfg, w, v);
    }
  }

  /** Appending files and lines changes nothing about the lines already there. */
  lemma GrowKeepsLines(w: World, v: World)
    requires |w.files| <= |v.files| && v.files[..|w.files|] == w.files && |w.log| <= |v.log| &&
      v.log[..|w.log|] == w.log
    requires v.process == w.process
    ensures forall i, outputs :: 0 <= i < |w.log| && LineAccounted(w, outputs, i) ==> LineAccounted(v, outputs, i)
    ensures w.process.Up? ==> forall i :: 0 <= i < |w.log| && LineWaits(w, i) ==> LineWaits(v, i)
    ensures forall b, q :: Located(w.files, b, q) ==> Located(v.files, b, q)
  {
    forall i | 0 <= i < |w.log| ensures v.log[i] == w.log[i] {
      assert v.log[..|w.log|][i] == v.log[i];
    }
    forall i | 0 <= i < |w.files| ensures v.files[i] == w.files[i] {
      assert v.files[..|w.files|][i] == v.files[i];
    }
  }

  ghost predicate Extends(w: World, v: World) {
    && |w.files| <= |v.files| && v.files[..|w.files|] == w.files
    && |w.log| <= |v.log| && v.log[..|w.log|] == w.log
    && v.process == w.process && v.sink == w.sink && v.frontier == w.frontier && v.dropped == w.dropped
  }

  lemma ExtendedPrefix(w: World, v: World)
    requires Extends(w, v)
    ensures forall i :: 0 <= i < |w.files| ==> v.files[i] == w.files[i]
    ensures forall i :: 0 <= i < |w.log| ==> v.log[i] == w.log[i]
  {
    forall i | 0 <= i < |w.files| ensures v.files[i] == w.files[i] { assert v.files[..|w.files|][i] == v.files[i]; }
    forall i | 0 <= i < |w.log| ensures v.log[i] == w.log[i] { assert v.log[..|w.log|][i] == v.log[i]; }
  }

  lemma GrowKeepsPlaces(w: World, v: World)
    requires w.process.Up? && Extends(w, v) && Placed(w) && PinsPlaced(w)
    requires forall i :: |w.log| <= i < |v.log| ==> Le(w.frontier, v.log[i].start)
    ensures Placed(v) && PinsPlaced(v)
  {
    ExtendedPrefix(w, v);
    GrowKeepsLines(w, v);
    forall i | w.process.next <= i < |v.log| ensures Le(w.process.complete, v.log[i].start) {
      if i >= |w.log| { LeTransitive(w.process.complete, w.frontier, v.log[i].start); }
    }
  }

  lemma GrowKeepsEvidence(w: World, v: World)
    requires w.process.Up? && Extends(w, v) && ReadIsKept(w) && w.process.next <= |w.log|
    ensures ReadIsKept(v)
  {
    ExtendedPrefix(w, v);
    GrowKeepsLines(w, v);
    forall i | 0 <= i < v.process.next && i < |v.log| && i !in v.dropped
      ensures LineAccounted(v, v.sink + v.process.unsynced, i) || LineWaits(v, i)
    {
      assert LineAccounted(w, w.sink + w.process.unsynced, i) || LineWaits(w, i);
    }
  }

  lemma GrowKeepsProcess(cfg: Config, w: World, v: World)
    requires Good(cfg, w) && w.process.Up? && Extends(w, v)
    requires Lineage(v) && CheckpointPoint(v) == CheckpointPoint(w)
    requires forall i :: |w.log| <= i < |v.log| ==> Le(w.frontier, v.log[i].start)
    ensures Alive(cfg, v)
  {
    ExtendedPrefix(w, v);
    GrowKeepsPlaces(w, v);
    GrowKeepsEvidence(w, v);
  }

  /** Every action keeps the invariant. */
  lemma NextKeeps(cfg: Config, w: World, a: Action, v: World)
    requires ValidConfig(cfg) && Good(cfg, w) && Next(cfg, w, a, v)
    ensures Good(cfg, v)
  {
    match a
    case Grow(ids, lines) => GrowKeeps(cfg, w, ids, lines, v);
    case Start => StartKeeps(cfg, w, v);
    case ReadLine(now, later) => ReadLineKeeps(cfg, w, now, later, v);
    case Tick(now, complete) => TickKeeps(cfg, w, now, complete, v);
    case FlushForShutdown => FlushKeeps(cfg, w, v);
    case Sync(position) => SyncKeeps(cfg, w, position, v);
    case Save => SaveKeeps(cfg, w, v);
    case Crash(kept) => CrashKeeps(cfg, w, kept, v);
  }

  lemma {:induction false} BehaviourIsGood(cfg: Config, ws: seq<World>, actions: seq<Action>, i: nat)
    requires ValidConfig(cfg) && Behaviour(cfg, ws, actions) && i < |ws|
    ensures Good(cfg, ws[i])
  {
    if i > 0 {
      BehaviourIsGood(cfg, ws, actions, i - 1);
      NextKeeps(cfg, ws[i - 1], actions[i - 1], ws[i]);
    } else {
      FileOfUnique(ws[0].files, 0);
    }
  }

  // ---------- the theorems ----------

  /** At least once: in every behaviour, with crashes anywhere, each line that starts
      before the durable checkpoint is in the durable sink, as itself, unless it is an
      EOE that was lone or met a full group when it was last read. */
  lemma AtLeastOnce(cfg: Config, ws: seq<World>, actions: seq<Action>, n: nat, i: nat)
    requires ValidConfig(cfg) && Behaviour(cfg, ws, actions) && n < |ws|
    requires i < |ws[n].log| && i !in ws[n].dropped
    ensures Named(ws[n])
    ensures Lt(ws[n].log[i].start, CheckpointPoint(ws[n])) ==>
      ws[n].log[i].start.file < |ws[n].files| &&
      Accounted(ws[n].sink, ws[n].files[ws[n].log[i].start.file], ws[n].log[i])
    ensures DroppedAreBoundaries(ws[n])
  {
    BehaviourIsGood(cfg, ws, actions, n);
  }

  /** A restart loses nothing: a line that is not in the durable sink will be read again. */
  lemma RestartRereadsTheRest(cfg: Config, ws: seq<World>, actions: seq<Action>, n: nat, i: nat)
    requires ValidConfig(cfg) && Behaviour(cfg, ws, actions) && n < |actions| && actions[n].Start?
    requires i < |ws[n].log| && i !in ws[n].dropped
    requires ws[n].log[i].start.file < |ws[n].files|
    requires !Accounted(ws[n].sink, ws[n].files[ws[n].log[i].start.file], ws[n].log[i])
    ensures ws[n + 1].process.Up? && ws[n + 1].process.next <= i
  {
    AtLeastOnce(cfg, ws, actions, n, i);
    assert Next(cfg, ws[n], actions[n], ws[n + 1]);
  }

  /** The checkpoint writer's regression error is unreachable, and the durable
      checkpoint is at or before every unresolved record, rejected key and the fence. */
  lemma CheckpointNeverRegresses(cfg: Config, ws: seq<World>, actions: seq<Action>, n: nat, position: SourcePosition)
    requires ValidConfig(cfg) && Behaviour(cfg, ws, actions) && n < |ws| && ws[n].process.Up?
    requires IsSafe(ws[n].process.assembler, PositionAtAny(ws[n]), position)
    ensures !EndsBefore(position, ws[n].process.last)
    ensures Named(ws[n]) && Le(CheckpointPoint(ws[n]), PointOf(ws[n].process.base, position))
    ensures forall q :: Pinned(ws[n].process.assembler, q) ==>
      Le(CheckpointPoint(ws[n]), Point(ws[n].process.base + q.generation, q.start))
  {
    BehaviourIsGood(cfg, ws, actions, n);
    SafeIsPlaced(cfg, ws[n], position);
  }
}
