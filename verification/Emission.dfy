/** What reaches the sink: one document for a normal event, its records one by one for
    an exceptional one, in the order of the calls and of the events of a call.  A
    tainted key therefore never appears in a normalized document. */
module Emission {
  import opened Records
  import opened EventOrder
  import opened AssemblerSpec
  import opened AssemblerInvariants
  import opened StreamPreservation
  import opened Isolation
  import opened CheckpointProtocol

  // ---------- one event, one call ----------

  /** What an event looks like in the sink. */
  function Documents(e: Event): seq<Output> {
    if e.exceptional then seq(|e.records|, i requires 0 <= i < |e.records| => PhysicalRecord(e.records[i]))
    else [Canonical(e)]
  }

  function Spelled(events: seq<Event>): seq<Output> {
    if events == [] then [] else Documents(events[0]) + Spelled(events[1..])
  }

  lemma {:induction false} SpelledMore(events: seq<Event>, e: Event)
    ensures Spelled(events + [e]) == Spelled(events) + Documents(e)
  {
    if events == [] {
      assert [e][1..] == [] && events + [e] == [e];
    } else {
      assert (events + [e])[1..] == events[1..] + [e];
      SpelledMore(events[1..], e);
    }
  }

  lemma {:induction false} WrittenIsSpelled(events: seq<Event>)
    ensures Written(events) == Spelled(events)
  {
    if events != [] {
      var front, e := events[..|events| - 1], events[|events| - 1];
      WrittenIsSpelled(front);
      SpelledMore(front, e);
      assert events == front + [e];
      assert PhysicalRecords(e.records) ==
        seq(|e.records|, i requires 0 <= i < |e.records| => PhysicalRecord(e.records[i]));
    }
  }

  /** The outputs of one call on the assembler. */
  ghost function CallOutputs(cfg: Config, s: State, op: Op): seq<Output> { Spelled(Listing(Step(cfg, s, op).events)) }

  /** A normal document or a physical record comes from an event that is one. */
  ghost predicate Spells(events: set<Event>, o: Output) {
    match o
    case Canonical(e) => e in events && !e.exceptional
    case PhysicalRecord(r) => exists e :: e in events && e.exceptional && r in e.records
    case _ => false
  }

  lemma {:induction false} SpelledOrigin(events: seq<Event>, members: set<Event>, o: Output)
    requires o in Spelled(events) && forall e :: e in events ==> e in members
    ensures Spells(members, o)
  {
    if o in Documents(events[0]) {
      assert events[0] in members;
    } else {
      SpelledOrigin(events[1..], members, o);
    }
  }

  lemma ListedAreMembers(members: set<Event>, e: Event)
    requires e in Listing(members)
    ensures e in members
  {
  }

  lemma CallOrigin(cfg: Config, s: State, op: Op, o: Output)
    requires o in CallOutputs(cfg, s, op)
    ensures Spells(Step(cfg, s, op).events, o)
  {
    var events := Listing(Step(cfg, s, op).events);
    forall e | e in events ensures e in Step(cfg, s, op).events { ListedAreMembers(Step(cfg, s, op).events, e); }
    SpelledOrigin(events, Step(cfg, s, op).events, o);
  }

  // ---------- one line ----------

  /** The calls a line makes, in order: idle evidence leaves first, whatever the line is. */
  ghost function LineOps(files: seq<Identity>, base: nat, line: Line, now: int, later: int): seq<Op>
    requires base <= line.start.file < |files|
  {
    match line.body
    case Parsed(_, _, _) => [Add(RecordOf(files, base, line), now)]
    case Malformed => [Expire(now)]
    case Oversized(envelope) => [Expire(now), RejectLine(envelope, SourceOf(files, base, line), later)]
  }

  /** The document a line that is no record leaves behind those. */
  function LineDocument(files: seq<Identity>, base: nat, line: Line): seq<Output>
    requires base <= line.start.file < |files|
  {
    match line.body
    case Parsed(_, _, _) => []
    case Malformed => [ParseFailure(SourceOf(files, base, line), line.raw)]
    case Oversized(_) => [LineException(SourceOf(files, base, line), line.raw)]
  }

  /** Calls one after the other, with everything they put out. */
  ghost function Performed(cfg: Config, s: State, ops: seq<Op>): Effect
    decreases |ops|
  {
    if ops == [] then Effect(s, [])
    else
      var rest := Performed(cfg, Step(cfg, s, ops[0]).state, ops[1..]);
      Effect(rest.state, CallOutputs(cfg, s, ops[0]) + rest.outputs)
  }

  lemma OnePerformed(cfg: Config, s: State, op: Op)
    ensures Performed(cfg, s, [op]) == Effect(Step(cfg, s, op).state, CallOutputs(cfg, s, op))
  {
    assert [op][1..] == [];
    assert CallOutputs(cfg, s, op) + [] == CallOutputs(cfg, s, op);
  }

  lemma TwoPerformed(cfg: Config, s: State, a: Op, b: Op)
    ensures var mid := Step(cfg, s, a).state;
            Performed(cfg, s, [a, b]) ==
              Effect(Step(cfg, mid, b).state, CallOutputs(cfg, s, a) + CallOutputs(cfg, mid, b))
  {
    assert [a, b][1..] == [b];
    OnePerformed(cfg, Step(cfg, s, a).state, b);
  }

  lemma EmitIsCall(cfg: Config, s: State, op: Op)
    ensures Emit(Step(cfg, s, op)) == Effect(Step(cfg, s, op).state, CallOutputs(cfg, s, op))
  {
    WrittenIsSpelled(Listing(Step(cfg, s, op).events));
  }

  /** The theorem on one line: its calls in order, then its own document if it is no record. */
  lemma LineIsExact(cfg: Config, files: seq<Identity>, base: nat, s: State, line: Line, now: int, later: int)
    requires base <= line.start.file < |files|
    ensures var done := Performed(cfg, s, LineOps(files, base, line, now, later));
            HandleLine(cfg, files, base, s, line, now, later) ==
              Effect(done.state, done.outputs + LineDocument(files, base, line))
  {
    match line.body
    case Parsed(_, _, _) =>
      var op := Add(RecordOf(files, base, line), now);
      OnePerformed(cfg, s, op);
      EmitIsCall(cfg, s, op);
      assert CallOutputs(cfg, s, op) + [] == CallOutputs(cfg, s, op);
    case Malformed =>
      OnePerformed(cfg, s, Expire(now));
      EmitIsCall(cfg, s, Expire(now));
    case Oversized(envelope) =>
      var op := RejectLine(envelope, SourceOf(files, base, line), later);
      TwoPerformed(cfg, s, Expire(now), op);
      EmitIsCall(cfg, s, Expire(now));
      EmitIsCall(cfg, Step(cfg, s, Expire(now)).state, op);
  }

  // ---------- every action ----------

  /** The calls an action makes on the assembler. */
  ghost function OpsOf(w: World, a: Action): seq<Op> {
    match a
    case ReadLine(now, later) =>
      if w.process.Up? && w.process.next < |w.log| && w.process.base <= w.log[w.process.next].start.file < |w.files|
      then LineOps(w.files, w.process.base, w.log[w.process.next], now, later) else []
    case Tick(now, _) => [Expire(now)]
    case FlushForShutdown => [FlushAll(ByShutdown)]
    case _ => []
  }

  /** The document of a line that is no record. */
  ghost function DocumentOf(w: World, a: Action): seq<Output> {
    if a.ReadLine? && w.process.Up? && w.process.next < |w.log| &&
       w.process.base <= w.log[w.process.next].start.file < |w.files|
    then LineDocument(w.files, w.process.base, w.log[w.process.next]) else []
  }

  /** What the action puts out. */
  ghost function Appended(cfg: Config, w: World, a: Action): seq<Output>
    requires w.process.Up?
  {
    Performed(cfg, w.process.assembler, OpsOf(w, a)).outputs + DocumentOf(w, a)
  }

  predicate Works(a: Action) { a.ReadLine? || a.Tick? || a.FlushForShutdown? }

  /** A working action appends exactly its outputs to what is not synced. */
  lemma ActionAppends(cfg: Config, w: World, a: Action, v: World)
    requires Next(cfg, w, a, v) && Works(a)
    ensures w.process.Up? && v.process.Up? && v.sink == w.sink
    ensures v.process.unsynced == w.process.unsynced + Appended(cfg, w, a)
    ensures v.process.assembler == Performed(cfg, w.process.assembler, OpsOf(w, a)).state
  {
    var p := w.process;
    match a
    case ReadLine(now, later) =>
      LineIsExact(cfg, w.files, p.base, p.assembler, w.log[p.next], now, later);
    case Tick(now, _) =>
      OnePerformed(cfg, p.assembler, Expire(now));
      EmitIsCall(cfg, p.assembler, Expire(now));
    case FlushForShutdown =>
      OnePerformed(cfg, p.assembler, FlushAll(ByShutdown));
      EmitIsCall(cfg, p.assembler, FlushAll(ByShutdown));
  }

  /** Any other action writes nothing; it may move outputs to the sink, in order. */
  lemma OtherAppendNothing(cfg: Config, w: World, a: Action, v: World, o: Output)
    requires Next(cfg, w, a, v) && !Works(a)
    requires o in v.sink || (v.process.Up? && o in v.process.unsynced)
    ensures o in w.sink || (w.process.Up? && o in w.process.unsynced)
  {
  }

  // ---------- every document has its event ----------

  /** Some call of the action yields the event or record that the output shows. */
  ghost predicate Yields(cfg: Config, s: State, ops: seq<Op>, o: Output)
    decreases |ops|
  {
    ops != [] && (Spells(Step(cfg, s, ops[0]).events, o) || Yields(cfg, Step(cfg, s, ops[0]).state, ops[1..], o))
  }

  lemma {:induction false} PerformedYields(cfg: Config, s: State, ops: seq<Op>, o: Output)
    requires o in Performed(cfg, s, ops).outputs
    ensures Yields(cfg, s, ops, o)
    decreases |ops|
  {
    if o in CallOutputs(cfg, s, ops[0]) {
      CallOrigin(cfg, s, ops[0], o);
    } else {
      PerformedYields(cfg, Step(cfg, s, ops[0]).state, ops[1..], o);
    }
  }

  predicate FromEvent(o: Output) { o.Canonical? || o.PhysicalRecord? }

  ghost predicate WrittenAt(cfg: Config, w: World, a: Action, o: Output) {
    w.process.Up? && Works(a) && Yields(cfg, w.process.assembler, OpsOf(w, a), o)
  }

  lemma AppendedIsWritten(cfg: Config, w: World, a: Action, o: Output)
    requires w.process.Up? && Works(a) && o in Appended(cfg, w, a) && FromEvent(o)
    ensures WrittenAt(cfg, w, a, o)
  {
    PerformedYields(cfg, w.process.assembler, OpsOf(w, a), o);
  }

  ghost predicate Stored(w: World, o: Output) {
    o in w.sink || (w.process.Up? && o in w.process.unsynced)
  }

  /** The theorem: in every behaviour a normalized document shows a normal event, and a
      physical record one of an exceptional event, of a call that was made. */
  lemma {:induction false} EveryDocumentHasItsEvent(cfg: Config, ws: seq<World>, actions: seq<Action>, n: nat,
                                                    o: Output)
    requires Behaviour(cfg, ws, actions) && n < |ws| && Stored(ws[n], o) && FromEvent(o)
    ensures exists i: nat :: i < n && WrittenAt(cfg, ws[i], actions[i], o)
  {
    if n > 0 {
      assert Next(cfg, ws[n - 1], actions[n - 1], ws[n]);
      if Stored(ws[n - 1], o) {
        EveryDocumentHasItsEvent(cfg, ws, actions, n - 1, o);
      } else {
        NewIsWritten(cfg, ws[n - 1], actions[n - 1], ws[n], o);
      }
    }
  }

  lemma NewIsWritten(cfg: Config, w: World, a: Action, v: World, o: Output)
    requires Next(cfg, w, a, v) && Stored(v, o) && !Stored(w, o) && FromEvent(o)
    ensures WrittenAt(cfg, w, a, o)
  {
    if !Works(a) { OtherAppendNothing(cfg, w, a, v, o); }
    ActionAppends(cfg, w, a, v);
    AppendedIsWritten(cfg, w, a, o);
  }

  lemma {:induction false} YieldedIsNormal(cfg: Config, s: State, ops: seq<Op>, e: Event)
    requires Yields(cfg, s, ops, Canonical(e))
    ensures !e.exceptional
    decreases |ops|
  {
    if !Spells(Step(cfg, s, ops[0]).events, Canonical(e)) {
      YieldedIsNormal(cfg, Step(cfg, s, ops[0]).state, ops[1..], e);
    }
  }

  /** No exceptional event is ever presented as a normalized document. */
  lemma NoExceptionIsNormalized(cfg: Config, ws: seq<World>, actions: seq<Action>, n: nat, e: Event)
    requires Behaviour(cfg, ws, actions) && n < |ws| && Stored(ws[n], Canonical(e))
    ensures !e.exceptional
  {
    EveryDocumentHasItsEvent(cfg, ws, actions, n, Canonical(e));
    var i: nat :| i < n && WrittenAt(cfg, ws[i], actions[i], Canonical(e));
    YieldedIsNormal(cfg, ws[i].process.assembler, OpsOf(ws[i], actions[i]), e);
  }

  // ---------- taint in the sink ----------

  /** Within the timeout, and no flush: the calls leave a taint of `t` visible. */
  predicate InTime(cfg: Config, op: Op, t: int) { !op.FlushAll? && t <= op.now < t + cfg.timeout }

  /** Nor is the call a record of the key other than a plain one. */
  predicate Leaves(cfg: Config, op: Op, k: Key, t: int) {
    InTime(cfg, op, t) && (op.Add? && op.record.key == k ==> op.record.kind.Plain?)
  }

  ghost predicate NoDocumentOf(outputs: seq<Output>, k: Key) {
    forall o :: o in outputs && o.Canonical? ==> Silent(k, o.event)
  }

  lemma TaintedCallWritesNothing(cfg: Config, s: State, op: Op, k: Key, t: int)
    requires ValidConfig(cfg) && Invariant(cfg, s) && Tainted(s, k, t) && InTime(cfg, op, t)
    ensures NoDocumentOf(CallOutputs(cfg, s, op), k)
  {
    TaintedSaysNothingNormal(cfg, s, op, k, t);
    forall o | o in CallOutputs(cfg, s, op) && o.Canonical? ensures Silent(k, o.event) {
      CallOrigin(cfg, s, op, o);
    }
  }

  lemma TaintIsLeft(cfg: Config, s: State, op: Op, k: Key, t: int)
    requires Tainted(s, k, t) && Leaves(cfg, op, k, t)
    ensures Tainted(Step(cfg, s, op).state, k, t)
  {
    StepKeepsTaint(cfg, s, op, k, t);
  }

  /** The calls of an action, one after the other: the taint stands before each of them. */
  lemma {:induction false} TaintedCallsWriteNothing(cfg: Config, s: State, ops: seq<Op>, k: Key, t: int)
    requires ValidConfig(cfg) && Invariant(cfg, s) && Tainted(s, k, t)
    requires forall i :: 0 <= i < |ops| ==> InTime(cfg, ops[i], t)
    requires forall i :: 0 <= i < |ops| - 1 ==> Leaves(cfg, ops[i], k, t)
    ensures NoDocumentOf(Performed(cfg, s, ops).outputs, k)
    decreases |ops|
  {
    if ops != [] {
      TaintedCallWritesNothing(cfg, s, ops[0], k, t);
      StepKeepsInvariant(cfg, s, ops[0]);
      if |ops| > 1 {
        TaintIsLeft(cfg, s, ops[0], k, t);
        TaintedCallsWriteNothing(cfg, Step(cfg, s, ops[0]).state, ops[1..], k, t);
      }
    }
  }

  lemma {:induction false} TaintIsLeftByAll(cfg: Config, s: State, ops: seq<Op>, k: Key, t: int)
    requires Tainted(s, k, t) && forall i :: 0 <= i < |ops| ==> Leaves(cfg, ops[i], k, t)
    ensures Tainted(Performed(cfg, s, ops).state, k, t)
    decreases |ops|
  {
    if ops != [] {
      TaintIsLeft(cfg, s, ops[0], k, t);
      TaintIsLeftByAll(cfg, Step(cfg, s, ops[0]).state, ops[1..], k, t);
    }
  }

  /** The process is the one that tainted the key, and the taint stands. */
  ghost predicate TaintedIn(w: World, k: Key, t: int) { w.process.Up? && Tainted(w.process.assembler, k, t) }

  /** The action comes in time and is neither a crash nor a shutdown flush, nor does it
      read a record of the key other than a plain one. */
  ghost predicate LeavesTainted(cfg: Config, w: World, a: Action, k: Key, t: int) {
    && !a.Crash? && !a.Start?
    && forall i :: 0 <= i < |OpsOf(w, a)| ==> Leaves(cfg, OpsOf(w, a)[i], k, t)
  }

  lemma ActionLeavesTaint(cfg: Config, w: World, a: Action, v: World, k: Key, t: int)
    requires Next(cfg, w, a, v) && TaintedIn(w, k, t) && LeavesTainted(cfg, w, a, k, t)
    ensures TaintedIn(v, k, t)
  {
    if Works(a) {
      ActionAppends(cfg, w, a, v);
      TaintIsLeftByAll(cfg, w.process.assembler, OpsOf(w, a), k, t);
    }
  }

  lemma {:induction false} TaintLastsIn(cfg: Config, ws: seq<World>, actions: seq<Action>, n: nat, m: nat, k: Key,
                                        t: int)
    requires Behaviour(cfg, ws, actions) && n <= m < |ws| && TaintedIn(ws[n], k, t)
    requires forall i :: n <= i < m ==> LeavesTainted(cfg, ws[i], actions[i], k, t)
    ensures TaintedIn(ws[m], k, t)
    decreases m - n
  {
    if n < m {
      ActionLeavesTaint(cfg, ws[n], actions[n], ws[n + 1], k, t);
      TaintLastsIn(cfg, ws, actions, n + 1, m, k, t);
    }
  }

  /** The call goes on to present its plain record as an exception. */
  ghost predicate PresentsException(cfg: Config, w: World, a: Action) {
    && a.ReadLine? && w.process.Up? && w.process.next < |w.log|
    && var line := w.log[w.process.next];
    && w.process.base <= line.start.file < |w.files|
    && line.body.Parsed? && line.body.kind.Plain?
    && exists e :: e in Step(cfg, w.process.assembler, Add(RecordOf(w.files, w.process.base, line), a.now)).events &&
         e.exceptional && !e.complete && RecordOf(w.files, w.process.base, line) in e.records
  }

  lemma ExceptionTaintsIn(cfg: Config, w: World, a: Action, v: World)
    requires Good(cfg, w) && Next(cfg, w, a, v) && PresentsException(cfg, w, a)
    ensures TaintedIn(v, w.log[w.process.next].body.key, a.now)
  {
    var p, line := w.process, w.log[w.process.next];
    var record := RecordOf(w.files, p.base, line);
    assert EmitsExceptional(cfg, p.assembler, Add(record, a.now), record);
    ExceptionTaints(cfg, p.assembler, record, a.now);
    ActionAppends(cfg, w, a, v);
    OnePerformed(cfg, p.assembler, Add(record, a.now));
  }

  /** The calls of an action come in time; only the last may end the taint. */
  ghost predicate ComesInTime(cfg: Config, w: World, a: Action, k: Key, t: int) {
    var ops := OpsOf(w, a);
    && (forall i :: 0 <= i < |ops| ==> InTime(cfg, ops[i], t))
    && (forall i :: 0 <= i < |ops| - 1 ==> Leaves(cfg, ops[i], k, t))
  }

  lemma TaintedActionWritesNothing(cfg: Config, w: World, a: Action, v: World, k: Key, t: int)
    requires ValidConfig(cfg) && Good(cfg, w) && Next(cfg, w, a, v)
    requires Works(a) && TaintedIn(w, k, t) && ComesInTime(cfg, w, a, k, t)
    ensures v.process.Up? && w.process.unsynced <= v.process.unsynced
    ensures NoDocumentOf(v.process.unsynced[|w.process.unsynced|..], k)
  {
    ActionAppends(cfg, w, a, v);
    TaintedCallsWriteNothing(cfg, w.process.assembler, OpsOf(w, a), k, t);
    assert v.process.unsynced[|w.process.unsynced|..] == Appended(cfg, w, a);
  }

  /** The theorem: once a plain line of a key was presented as an exception, no
      normalized document written within the timeout holds a record of that key, until
      the key's own boundary, a shutdown flush or a crash. */
  lemma TaintReachesTheSink(cfg: Config, ws: seq<World>, actions: seq<Action>, n: nat, m: nat)
    requires ValidConfig(cfg) && Behaviour(cfg, ws, actions) && n < m < |actions|
    requires PresentsException(cfg, ws[n], actions[n]) && Works(actions[m])
    requires
      var k, t := ws[n].log[ws[n].process.next].body.key, actions[n].now;
      && (forall i :: n < i < m ==> LeavesTainted(cfg, ws[i], actions[i], k, t))
      && ComesInTime(cfg, ws[m], actions[m], k, t)
    ensures ws[m].process.Up? && ws[m + 1].process.Up? && ws[m].process.unsynced <= ws[m + 1].process.unsynced
    ensures NoDocumentOf(ws[m + 1].process.unsynced[|ws[m].process.unsynced|..], ws[n].log[ws[n].process.next].body.key)
  {
    var k, t := ws[n].log[ws[n].process.next].body.key, actions[n].now;
    BehaviourIsGood(cfg, ws, actions, n);
    ExceptionTaintsIn(cfg, ws[n], actions[n], ws[n + 1]);
    TaintLastsIn(cfg, ws, actions, n + 1, m, k, t);
    BehaviourIsGood(cfg, ws, actions, m);
    TaintedActionWritesNothing(cfg, ws[m], actions[m], ws[m + 1], k, t);
  }
}
