/** Safety and liveness of bounded isolation: a tainted key stays tainted until its
    own boundary or its inactivity timeout, and the global fence falls once nothing
    untrackable renews it. */
module Isolation {
  import opened Records
  import opened EventOrder
  import opened AssemblerSpec
  import opened AssemblerInvariants
  import opened StreamPreservation

  /** The clock never runs backwards between calls. */
  ghost predicate Timed(ops: seq<Op>) {
    forall i, j :: 0 <= i < j < |ops| && !ops[i].FlushAll? && !ops[j].FlushAll? ==> ops[i].now <= ops[j].now
  }

  ghost function StateAt(cfg: Config, ops: seq<Op>, i: nat): State
    requires i <= |ops|
  {
    Run(cfg, ops[..i]).state
  }

  lemma StateAfter(cfg: Config, ops: seq<Op>, i: nat)
    requires i < |ops|
    ensures StateAt(cfg, ops, i + 1) == Step(cfg, StateAt(cfg, ops, i), ops[i]).state
  {
    assert ops[..i + 1][..i] == ops[..i];
  }

  // ---------- taint ----------

  /** `k` is isolated by evidence no older than `t`. */
  ghost predicate Tainted(s: State, k: Key, t: int) {
    && k !in s.pending
    && ((k in s.rejected && t <= s.rejected[k].lastSeen) || (s.spillSince.Some? && t <= s.spillSince.value))
  }

  /** The call emits `record` as physical evidence outside any normalized event. */
  ghost predicate EmitsExceptional(cfg: Config, s: State, op: Op, record: Record) {
    exists e :: e in Step(cfg, s, op).events && e.exceptional && !e.complete && record in e.records
  }

  /** No event of the call presents evidence of `k` as a normal event. */
  ghost predicate NoNormalEvent(o: Outcome, k: Key) {
    forall e :: e in o.events && !Silent(k, e) ==> e.exceptional && !e.complete
  }

  lemma ExpiredAreNormal(cfg: Config, s: State, now: int)
    ensures forall e :: e in ExpiredEvents(cfg, s, now) ==> !e.exceptional
  {
  }

  lemma IsolationTaints(cfg: Config, s: State, k: Key, pin: SourcePosition, spillPin: SourcePosition, now: int)
    requires k !in s.pending
    ensures Tainted(Isolate(cfg, s, k, pin, spillPin, now), k, now)
  {
  }

  lemma AdmissionTaints(cfg: Config, s: State, record: Record, now: int, e: Event)
    requires !Terminal(record.kind) && e.exceptional && e in Admit(cfg, s, record, now).events
    ensures Tainted(Admit(cfg, s, record, now).state, record.key, now)
  {
    if CheckLimits(cfg, s, record).None? {
      ExpiredAreNormal(cfg, Closed(cfg, s, record, now).state, now);
    } else {
      var pin := (Held(s, record.key) + [record])[0].source;
      IsolationTaints(cfg, Evicted(s, record.key), record.key, pin, pin, now);
    }
  }

  lemma DispatchTaints(cfg: Config, s: State, record: Record, now: int, e: Event)
    requires Separate(s.pending, s.rejected)
    requires !Terminal(record.kind) && e.exceptional && e in Dispatch(cfg, s, record, now).events
    ensures Tainted(Dispatch(cfg, s, record, now).state, record.key, now)
  {
    if record.key in s.rejected {
    } else if record.key !in s.pending && s.spillSince.Some? {
      IsolationTaints(cfg, s.(nextSequence := s.nextSequence + 1), record.key, s.spillSource, record.source, now);
    } else {
      AdmissionTaints(cfg, s, record, now, e);
    }
  }

  /** A plain record leaves its key tainted if the call emitted it as an exception. */
  lemma ExceptionTaints(cfg: Config, s: State, record: Record, now: int)
    requires Invariant(cfg, s) && !Terminal(record.kind)
    requires EmitsExceptional(cfg, s, Add(record, now), record)
    ensures Tainted(AddRecovering(cfg, s, record, now).state, record.key, now)
  {
    var e :| e in AddRecovering(cfg, s, record, now).events && e.exceptional;
    ExpiredAreNormal(cfg, s, now);
    DispatchTaints(cfg, Swept(cfg, s, now), record, now, e);
  }

  lemma IsolationKeepsTaint(cfg: Config, s: State, k: Key, t: int, key: Key, pin: SourcePosition,
                            spillPin: SourcePosition, now: int)
    requires Tainted(s, k, t) && t <= now
    ensures Tainted(Isolate(cfg, s, key, pin, spillPin, now), k, t)
  {
  }

  lemma SweepKeepsTaint(cfg: Config, s: State, k: Key, t: int, now: int)
    requires Tainted(s, k, t) && now < t + cfg.timeout
    ensures Tainted(ExpireRejected(cfg, s, now), k, t)
    ensures Tainted(Swept(cfg, s, now), k, t)
    ensures Tainted(FlushExpired(cfg, s, now).state, k, t)
  {
  }

  lemma ClosedKeepsTaint(cfg: Config, s: State, k: Key, t: int, record: Record, now: int)
    requires Tainted(s, k, t)
    requires record.key != k
    ensures Tainted(ThenExpire(cfg, Closed(cfg, s, record, now), now).state, k, t)
  {
    JoinedShape(cfg, s, record, now);
  }

  lemma OverflowKeepsTaint(cfg: Config, s: State, k: Key, t: int, record: Record, now: int, name: LimitName)
    requires Tainted(s, k, t) && t <= now
    requires record.key != k
    ensures Tainted(Overflow(cfg, s, record, now, name).state, k, t)
  {
    var pin := (Held(s, record.key) + [record])[0].source;
    IsolationKeepsTaint(cfg, Evicted(s, record.key), k, t, record.key, pin, pin, now);
  }

  lemma AdmitKeepsTaint(cfg: Config, s: State, k: Key, t: int, record: Record, now: int)
    requires Tainted(s, k, t) && t <= now
    requires record.key != k
    ensures Tainted(Admit(cfg, s, record, now).state, k, t)
  {
    if record.kind.EOE? && record.key !in s.pending {
    } else {
      match CheckLimits(cfg, s, record)
      case None => ClosedKeepsTaint(cfg, s, k, t, record, now);
      case Some(name) => OverflowKeepsTaint(cfg, s, k, t, record, now, name);
    }
  }

  lemma DispatchKeepsTaint(cfg: Config, s: State, k: Key, t: int, record: Record, now: int)
    requires Tainted(s, k, t) && t <= now
    requires record.key == k ==> !Terminal(record.kind)
    ensures Tainted(Dispatch(cfg, s, record, now).state, k, t)
  {
    if record.key in s.rejected {
    } else if ClosesFullGroup(cfg, s, record) {
    } else if record.key !in s.pending && s.spillSince.Some? {
      IsolationKeepsTaint(cfg, s.(nextSequence := s.nextSequence + 1), k, t, record.key, s.spillSource, record.source,
                          now);
    } else {
      AdmitKeepsTaint(cfg, s, k, t, record, now);
    }
  }

  /** Calls that may not clear the taint of `k`, all within its timeout. */
  ghost predicate LeavesTaint(cfg: Config, op: Op, k: Key, t: int) {
    && !op.FlushAll?
    && t <= op.now < t + cfg.timeout
    && !(op.Add? && op.record.key == k && Terminal(op.record.kind))
  }

  lemma StepKeepsTaint(cfg: Config, s: State, op: Op, k: Key, t: int)
    requires Tainted(s, k, t) && LeavesTaint(cfg, op, k, t)
    ensures Tainted(Step(cfg, s, op).state, k, t)
  {
    match op
    case Add(record, now) =>
      SweepKeepsTaint(cfg, s, k, t, now);
      DispatchKeepsTaint(cfg, Swept(cfg, s, now), k, t, record, now);
    case Expire(now) => SweepKeepsTaint(cfg, s, k, t, now);
    case RejectLine(Some(key), source, now) =>
      var pin := if Held(s, key) != [] then Held(s, key)[0].source else source;
      IsolationKeepsTaint(cfg, s.(pending := s.pending - {key}), k, t, key, pin, pin, now);
    case RejectLine(None, source, now) =>
  }

  /** While the taint lasts, every further record of the key is an exception. */
  lemma TaintBinds(cfg: Config, s: State, record: Record, now: int, t: int)
    requires Tainted(s, record.key, t) && now < t + cfg.timeout
    ensures EmitsExceptional(cfg, s, Add(record, now), record)
  {
    var w := Swept(cfg, s, now);
    SweepKeepsTaint(cfg, s, record.key, t, now);
    var e := ExceptionalEvent(w.nextSequence, record.key.id, [record]);
    assert e in Dispatch(cfg, w, record, now).events;
    assert e in Step(cfg, s, Add(record, now)).events;
  }

  /** A key that is neither pending nor arriving is not mentioned at all. */
  lemma UnknownKeyIsSilent(s: State, input: seq<Record>, o: Outcome, k: Key, e: Event)
    requires AllFlow(s, input, o) && !Known(s, input, k)
    requires e in o.events
    ensures Silent(k, e)
  {
    assert Flows(s, input, o, k);
  }

  /** A record of a tainted key is itself the only event of its dispatch. */
  lemma TaintedDispatch(cfg: Config, s: State, record: Record, now: int, t: int, e: Event)
    requires Tainted(s, record.key, t)
    requires e in Dispatch(cfg, s, record, now).events
    ensures e == ExceptionalEvent(s.nextSequence, record.key.id, [record])
  {
  }

  lemma OtherDispatchIsSilent(cfg: Config, s: State, record: Record, now: int, k: Key, e: Event)
    requires ValidConfig(cfg) && Invariant(cfg, s)
    requires record.key != k && k !in s.pending
    requires e in Dispatch(cfg, s, record, now).events
    ensures Silent(k, e)
  {
    DispatchAllFlow(cfg, s, record, now);
    UnknownKeyIsSilent(s, [record], Dispatch(cfg, s, record, now), k, e);
  }

  lemma TaintedRecordSaysNothingNormal(cfg: Config, s: State, record: Record, now: int, k: Key, t: int, e: Event)
    requires ValidConfig(cfg) && Invariant(cfg, s)
    requires Tainted(s, k, t) && now < t + cfg.timeout
    requires e in Dispatch(cfg, Swept(cfg, s, now), record, now).events && !Silent(k, e)
    ensures e.exceptional && !e.complete
  {
    SweepKeepsTaint(cfg, s, k, t, now);
    if record.key == k {
      TaintedDispatch(cfg, Swept(cfg, s, now), record, now, t, e);
    } else {
      SweepKeeps(cfg, s, now);
      OtherDispatchIsSilent(cfg, Swept(cfg, s, now), record, now, k, e);
    }
  }

  lemma TaintedAddSaysNothingNormal(cfg: Config, s: State, record: Record, now: int, k: Key, t: int)
    requires ValidConfig(cfg) && Invariant(cfg, s)
    requires Tainted(s, k, t) && now < t + cfg.timeout
    ensures NoNormalEvent(AddRecovering(cfg, s, record, now), k)
  {
    forall e | e in AddRecovering(cfg, s, record, now).events && !Silent(k, e) ensures e.exceptional && !e.complete {
      if e in ExpiredEvents(cfg, s, now) { ExpiredAreSilent(cfg, s, now, k, e); }
      TaintedRecordSaysNothingNormal(cfg, s, record, now, k, t, e);
    }
  }

  lemma TaintedSaysNothingNormal(cfg: Config, s: State, op: Op, k: Key, t: int)
    requires ValidConfig(cfg) && Invariant(cfg, s)
    requires Tainted(s, k, t) && !op.FlushAll? && op.now < t + cfg.timeout
    ensures NoNormalEvent(Step(cfg, s, op), k)
  {
    match op
    case Add(record, now) => TaintedAddSaysNothingNormal(cfg, s, record, now, k, t);
    case Expire(now) =>
      forall e | e in FlushExpired(cfg, s, now).events ensures Silent(k, e) { ExpiredAreSilent(cfg, s, now, k, e); }
    case RejectLine(envelope, source, now) => LineSaysNothingNormal(cfg, s, envelope, source, now, k);
  }

  lemma LineSaysNothingNormal(cfg: Config, s: State, envelope: Option<Key>, source: SourcePosition, now: int, k: Key)
    ensures NoNormalEvent(Step(cfg, s, RejectLine(envelope, source, now)), k)
  {
  }

  /** No call from `n` up to `j` may clear the taint. */
  ghost predicate Spared(cfg: Config, ops: seq<Op>, n: nat, j: nat, k: Key, t: int)
    requires n <= j <= |ops|
  {
    forall m :: n <= m < j ==> LeavesTaint(cfg, ops[m], k, t)
  }

  /** From a taint at `i` the state is tainted until `j`. */
  lemma {:induction false} TaintLasts(cfg: Config, ops: seq<Op>, i: nat, j: nat, k: Key, t: int)
    requires i <= j <= |ops|
    requires Tainted(StateAt(cfg, ops, i), k, t) && Spared(cfg, ops, i, j, k, t)
    ensures Tainted(StateAt(cfg, ops, j), k, t)
    decreases j - i
  {
    if i < j {
      StateAfter(cfg, ops, i);
      StepKeepsTaint(cfg, StateAt(cfg, ops, i), ops[i], k, t);
      TaintLasts(cfg, ops, i + 1, j, k, t);
    }
  }

  /** An exceptional plain record leaves its key tainted. */
  lemma TaintStarts(cfg: Config, ops: seq<Op>, i: nat)
    requires ValidConfig(cfg)
    requires i < |ops| && ops[i].Add? && !Terminal(ops[i].record.kind)
    requires ExceptionAt(cfg, ops, i)
    ensures Tainted(StateAt(cfg, ops, i + 1), ops[i].record.key, ops[i].now)
  {
    RunKeepsInvariant(cfg, ops[..i]);
    ExceptionTaints(cfg, StateAt(cfg, ops, i), ops[i].record, ops[i].now);
    StateAfter(cfg, ops, i);
  }

  /** Between two calls less than a timeout apart only a terminal record of the key or
      a full flush clears the taint. */
  lemma StretchIsSpared(cfg: Config, ops: seq<Op>, i: nat, j: nat, k: Key)
    requires Timed(ops) && i < j < |ops| && !ops[i].FlushAll? && !ops[j].FlushAll?
    requires ops[j].now < ops[i].now + cfg.timeout
    requires forall m :: i < m < j ==> !ops[m].FlushAll?
    requires forall m :: i < m < j && ops[m].Add? && ops[m].record.key == k ==> !Terminal(ops[m].record.kind)
    ensures Spared(cfg, ops, i + 1, j, k, ops[i].now)
  {
  }

  /** Call `j` emits its record as an exception. */
  ghost predicate ExceptionAt(cfg: Config, ops: seq<Op>, j: nat)
    requires j < |ops| && ops[j].Add?
  {
    EmitsExceptional(cfg, StateAt(cfg, ops, j), ops[j], ops[j].record)
  }

  /** Call `m` presents no evidence of the key as a normal event. */
  ghost predicate NothingNormalAt(cfg: Config, ops: seq<Op>, m: nat, k: Key)
    requires m < |ops|
  {
    NoNormalEvent(Step(cfg, StateAt(cfg, ops, m), ops[m]), k)
  }

  lemma TaintedCallIsAbnormal(cfg: Config, ops: seq<Op>, m: nat, k: Key, t: int)
    requires ValidConfig(cfg) && m < |ops|
    requires Tainted(StateAt(cfg, ops, m), k, t) && !ops[m].FlushAll? && ops[m].now < t + cfg.timeout
    ensures NothingNormalAt(cfg, ops, m, k)
  {
    RunKeepsInvariant(cfg, ops[..m]);
    TaintedSaysNothingNormal(cfg, StateAt(cfg, ops, m), ops[m], k, t);
  }

  /** While the taint lasts, the next record of the key is an exception. */
  lemma TaintShows(cfg: Config, ops: seq<Op>, n: nat, j: nat, k: Key, t: int)
    requires n <= j < |ops| && ops[j].Add? && ops[j].record.key == k && ops[j].now < t + cfg.timeout
    requires TaintStands(cfg, ops, n, j, k, t)
    ensures ExceptionAt(cfg, ops, j)
  {
    TaintLasts(cfg, ops, n, j, k, t);
    TaintBinds(cfg, StateAt(cfg, ops, j), ops[j].record, ops[j].now, t);
  }

  lemma SparedSoFar(cfg: Config, ops: seq<Op>, n: nat, m: nat, j: nat, k: Key, t: int)
    requires n <= m <= j < |ops| && Spared(cfg, ops, n, j, k, t) && !ops[j].FlushAll? && ops[j].now < t + cfg.timeout
    ensures Spared(cfg, ops, n, m, k, t) && !ops[m].FlushAll? && ops[m].now < t + cfg.timeout
  {
  }

  lemma TaintHidesAt(cfg: Config, ops: seq<Op>, n: nat, m: nat, j: nat, k: Key, t: int)
    requires ValidConfig(cfg) && n <= m <= j < |ops| && !ops[j].FlushAll? && ops[j].now < t + cfg.timeout
    requires TaintStands(cfg, ops, n, j, k, t)
    ensures NothingNormalAt(cfg, ops, m, k)
  {
    SparedSoFar(cfg, ops, n, m, j, k, t);
    TaintLasts(cfg, ops, n, m, k, t);
    TaintedCallIsAbnormal(cfg, ops, m, k, t);
  }

  /** While the taint lasts, no call shows the key as normal. */
  lemma TaintHides(cfg: Config, ops: seq<Op>, n: nat, j: nat, k: Key, t: int)
    requires ValidConfig(cfg) && n <= j < |ops| && !ops[j].FlushAll? && ops[j].now < t + cfg.timeout
    requires TaintStands(cfg, ops, n, j, k, t)
    ensures forall m :: n <= m <= j ==> NothingNormalAt(cfg, ops, m, k)
  {
    forall m | n <= m <= j ensures NothingNormalAt(cfg, ops, m, k) {
      TaintHidesAt(cfg, ops, n, m, j, k, t);
    }
  }

  /** The theorem: once a plain record of a key was emitted as an exception at time
      `t`, every later record of the key before `t + timeout` is an exception too,
      and no call in between presents evidence of the key as a normal event, unless
      a terminal record of the key or a full flush came first. */
  lemma TaintIsNeverForgotten(cfg: Config, ops: seq<Op>, i: nat, j: nat)
    requires ValidConfig(cfg) && Timed(ops)
    requires i < j < |ops| && ops[i].Add? && ops[j].Add?
    requires ops[i].record.key == ops[j].record.key
    requires !Terminal(ops[i].record.kind)
    requires ExceptionAt(cfg, ops, i)
    requires ops[j].now < ops[i].now + cfg.timeout
    requires forall m :: i < m < j ==> !ops[m].FlushAll?
    requires forall m :: i < m < j && ops[m].Add? && ops[m].record.key == ops[i].record.key ==>
      !Terminal(ops[m].record.kind)
    ensures ExceptionAt(cfg, ops, j)
    ensures forall m :: i < m <= j ==> NothingNormalAt(cfg, ops, m, ops[i].record.key)
  {
    var k := ops[i].record.key;
    TaintStarts(cfg, ops, i);
    StretchIsSpared(cfg, ops, i, j, k);
    TaintShows(cfg, ops, i + 1, j, k, ops[i].now);
    TaintHides(cfg, ops, i + 1, j, k, ops[i].now);
  }

  lemma KeyedLineTaints(cfg: Config, s: State, k: Key, source: SourcePosition, now: int)
    ensures Tainted(RejectKeyedLine(cfg, s, k, source, now).state, k, now)
  {
  }

  lemma LineTaintStarts(cfg: Config, ops: seq<Op>, i: nat, n: nat, k: Key)
    requires i < n == i + 1 <= |ops| && ops[i].RejectLine? && ops[i].envelope == Some(k)
    ensures Tainted(StateAt(cfg, ops, n), k, ops[i].now)
  {
    KeyedLineTaints(cfg, StateAt(cfg, ops, i), k, ops[i].source, ops[i].now);
    StateAfter(cfg, ops, i);
  }

  /** The taint of the line, seen from the call after it. */
  ghost predicate TaintStands(cfg: Config, ops: seq<Op>, n: nat, j: nat, k: Key, t: int)
    requires n <= j < |ops|
  {
    Tainted(StateAt(cfg, ops, n), k, t) && Spared(cfg, ops, n, j, k, t)
  }

  lemma LineTaintStands(cfg: Config, ops: seq<Op>, i: nat, j: nat, k: Key)
    requires Timed(ops) && i < j < |ops| && ops[i].RejectLine? && ops[i].envelope == Some(k) && !ops[j].FlushAll?
    requires ops[j].now < ops[i].now + cfg.timeout
    requires forall m :: i < m < j ==> !ops[m].FlushAll?
    requires forall m :: i < m < j && ops[m].Add? && ops[m].record.key == k ==> !Terminal(ops[m].record.kind)
    ensures TaintStands(cfg, ops, i + 1, j, k, ops[i].now)
  {
    LineTaintStarts(cfg, ops, i, i + 1, k);
    StretchIsSpared(cfg, ops, i, j, k);
  }

  /** An oversized line with a usable envelope taints its key in the same way. */
  lemma KeyedLineTaintsItsKey(cfg: Config, ops: seq<Op>, i: nat, j: nat)
    requires Timed(ops)
    requires i < j < |ops| && ops[i].RejectLine? && ops[j].Add?
    requires ops[i].envelope == Some(ops[j].record.key)
    requires ops[j].now < ops[i].now + cfg.timeout
    requires forall m :: i < m < j ==> !ops[m].FlushAll?
    requires forall m :: i < m < j && ops[m].Add? && ops[m].record.key == ops[j].record.key ==>
      !Terminal(ops[m].record.kind)
    ensures ExceptionAt(cfg, ops, j)
    ensures ValidConfig(cfg) ==> forall m :: i < m <= j ==> NothingNormalAt(cfg, ops, m, ops[j].record.key)
  {
    var k := ops[j].record.key;
    LineTaintStands(cfg, ops, i, j, k);
    TaintShows(cfg, ops, i + 1, j, k, ops[i].now);
    if ValidConfig(cfg) { TaintHides(cfg, ops, i + 1, j, k, ops[i].now); }
  }

  /** Nothing is pending and the fence was raised at `t` or later. */
  ghost predicate Fenced(s: State, t: int) {
    s.pending == map[] && s.spillSince.Some? && t <= s.spillSince.value
  }

  ghost predicate AllExceptional(o: Outcome) {
    forall e :: e in o.events ==> e.exceptional
  }

  lemma DispatchKeepsFence(cfg: Config, s: State, record: Record, now: int, t: int)
    requires Fenced(s, t) && t <= now
    ensures Fenced(Dispatch(cfg, s, record, now).state, t) && AllExceptional(Dispatch(cfg, s, record, now))
    ensures exists e :: e in Dispatch(cfg, s, record, now).events && e.exceptional && !e.complete && record in e.records
  {
    var e := ExceptionalEvent(s.nextSequence, record.key.id, [record]);
    assert e in Dispatch(cfg, s, record, now).events;
  }

  lemma SweepKeepsFence(cfg: Config, s: State, now: int, t: int)
    requires Fenced(s, t) && now < t + cfg.timeout
    ensures Fenced(Swept(cfg, s, now), t)
    ensures Fenced(FlushExpired(cfg, s, now).state, t) && ExpiredEvents(cfg, s, now) == {}
  {
  }

  lemma StepKeepsFence(cfg: Config, s: State, op: Op, t: int)
    requires Fenced(s, t) && !op.FlushAll? && t <= op.now < t + cfg.timeout
    ensures Fenced(Step(cfg, s, op).state, t) && AllExceptional(Step(cfg, s, op))
    ensures op.Add? ==> EmitsExceptional(cfg, s, op, op.record)
  {
    match op
    case Add(record, now) =>
      SweepKeepsFence(cfg, s, now, t);
      DispatchKeepsFence(cfg, Swept(cfg, s, now), record, now, t);
    case Expire(now) => SweepKeepsFence(cfg, s, now, t);
    case RejectLine(_, source, now) =>
  }

  lemma {:induction false} FenceLasts(cfg: Config, ops: seq<Op>, i: nat, j: nat, t: int)
    requires i <= j <= |ops|
    requires Fenced(StateAt(cfg, ops, i), t)
    requires forall m :: i <= m < j ==> !ops[m].FlushAll? && t <= ops[m].now < t + cfg.timeout
    ensures Fenced(StateAt(cfg, ops, j), t)
    decreases j - i
  {
    if i < j {
      StateAfter(cfg, ops, i);
      StepKeepsFence(cfg, StateAt(cfg, ops, i), ops[i], t);
      FenceLasts(cfg, ops, i + 1, j, t);
    }
  }

  /** After an oversized line without a usable envelope no key is trusted: every
      record within the timeout is an exception, terminal records included, and no call
      in between presents a normal event of any key. */
  lemma UnkeyedLineTaintsEveryKey(cfg: Config, ops: seq<Op>, i: nat, j: nat)
    requires Timed(ops)
    requires i < j < |ops| && ops[i].RejectLine? && ops[i].envelope.None? && ops[j].Add?
    requires ops[j].now < ops[i].now + cfg.timeout
    requires forall m :: i < m < j ==> !ops[m].FlushAll?
    ensures ExceptionAt(cfg, ops, j)
    ensures forall m :: i < m <= j ==> NothingNormalIn(cfg, ops, m)
  {
    StretchIsWithin(cfg, ops, i, j);
    FencedCalls(cfg, ops, i, j);
  }

  /** Call `m` presents no normal event of any key. */
  ghost predicate NothingNormalIn(cfg: Config, ops: seq<Op>, m: nat)
    requires m < |ops|
  {
    AllExceptional(Step(cfg, StateAt(cfg, ops, m), ops[m]))
  }

  /** The calls from `n` to `j` come within the timeout after `t`, and none is a flush. */
  predicate Within(cfg: Config, ops: seq<Op>, n: nat, j: nat, t: int)
    requires j < |ops|
  {
    forall l :: n <= l <= j ==> !ops[l].FlushAll? && t <= ops[l].now < t + cfg.timeout
  }

  lemma StretchIsWithin(cfg: Config, ops: seq<Op>, i: nat, j: nat)
    requires Timed(ops) && i < j < |ops| && !ops[i].FlushAll? && !ops[j].FlushAll?
    requires ops[j].now < ops[i].now + cfg.timeout
    requires forall m :: i < m < j ==> !ops[m].FlushAll?
    ensures Within(cfg, ops, i + 1, j, ops[i].now)
  {
  }

  lemma FenceRises(cfg: Config, ops: seq<Op>, i: nat)
    requires i < |ops| && ops[i].RejectLine? && ops[i].envelope.None?
    ensures Fenced(StateAt(cfg, ops, i + 1), ops[i].now)
  {
    StateAfter(cfg, ops, i);
  }

  lemma FencedCall(cfg: Config, ops: seq<Op>, n: nat, m: nat, j: nat, t: int)
    requires n <= m <= j < |ops| && Fenced(StateAt(cfg, ops, n), t) && Within(cfg, ops, n, j, t)
    ensures NothingNormalIn(cfg, ops, m) && (ops[m].Add? ==> ExceptionAt(cfg, ops, m))
  {
    FenceLasts(cfg, ops, n, m, t);
    StepKeepsFence(cfg, StateAt(cfg, ops, m), ops[m], t);
  }

  lemma FencedCalls(cfg: Config, ops: seq<Op>, i: nat, j: nat)
    requires i < j < |ops| && ops[i].RejectLine? && ops[i].envelope.None? && ops[j].Add?
    requires Within(cfg, ops, i + 1, j, ops[i].now)
    ensures ExceptionAt(cfg, ops, j)
    ensures forall m :: i < m <= j ==> NothingNormalIn(cfg, ops, m)
  {
    FenceRises(cfg, ops, i);
    forall m | i < m <= j ensures NothingNormalIn(cfg, ops, m) { FencedCall(cfg, ops, i + 1, m, j, ops[i].now); }
    FencedCall(cfg, ops, i + 1, j, j, ops[i].now);
  }

  // ---------- the fence falls ----------

  /** The record leaves an unresolved tail outside the pending table: it meets a
      standing fence without a group, or a limit takes its group out. */
  ghost predicate LeavesTail(cfg: Config, s: State, record: Record) {
    && !Terminal(record.kind)
    && record.key !in s.rejected
    && ((record.key !in s.pending && s.spillSince.Some?) || CheckLimits(cfg, s, record).Some?)
  }

  /** Input that raises or renews the fence: such a record or an oversized line for
      which the rejected-key table has no room, or a line without a key. */
  ghost predicate Renews(cfg: Config, s: State, op: Op) {
    match op
    case Add(record, now) =>
      LeavesTail(cfg, Swept(cfg, s, now), record) && !Trackable(cfg, Swept(cfg, s, now), record.key)
    case RejectLine(Some(k), _, _) => k !in s.rejected && !Trackable(cfg, s, k)
    case RejectLine(None, _, _) => true
    case _ => false
  }

  /** A key that fits the rejected table is isolated without touching the fence,
      whatever happened to the pending table first. */
  lemma TrackedIsolation(cfg: Config, s: State, pending: map<Key, Group>, next: nat, k: Key,
                         pin: SourcePosition, spillPin: SourcePosition, now: int)
    requires Trackable(cfg, s, k)
    ensures Isolate(cfg, s.(pending := pending, nextSequence := next), k, pin, spillPin, now).spillSince == s.spillSince
  {
  }

  /** Without room the fence rises, or is renewed, at this very time. */
  lemma UntrackedIsolation(cfg: Config, s: State, pending: map<Key, Group>, next: nat, k: Key,
                           pin: SourcePosition, spillPin: SourcePosition, now: int)
    requires !Trackable(cfg, s, k)
    ensures Isolate(cfg, s.(pending := pending, nextSequence := next), k, pin, spillPin, now).spillSince == Some(now)
  {
  }

  lemma OverflowFence(cfg: Config, s: State, record: Record, now: int, name: LimitName)
    ensures Overflow(cfg, s, record, now, name).state.spillSince ==
            if Terminal(record.kind) || Trackable(cfg, s, record.key) then s.spillSince else Some(now)
  {
    if !Terminal(record.kind) {
      var evicted, pin := Evicted(s, record.key), (Held(s, record.key) + [record])[0].source;
      if Trackable(cfg, s, record.key) {
        TrackedIsolation(cfg, s, evicted.pending, evicted.nextSequence, record.key, pin, pin, now);
      } else {
        UntrackedIsolation(cfg, s, evicted.pending, evicted.nextSequence, record.key, pin, pin, now);
      }
    }
  }

  lemma FenceFence(cfg: Config, s: State, record: Record, now: int)
    ensures Fence(cfg, s, record, now).state.spillSince ==
            if Terminal(record.kind) || Trackable(cfg, s, record.key) then s.spillSince else Some(now)
  {
    if !Terminal(record.kind) {
      if Trackable(cfg, s, record.key) {
        TrackedIsolation(cfg, s, s.pending, s.nextSequence + 1, record.key, s.spillSource, record.source, now);
      } else {
        UntrackedIsolation(cfg, s, s.pending, s.nextSequence + 1, record.key, s.spillSource, record.source, now);
      }
    }
  }

  lemma AdmissionFence(cfg: Config, s: State, record: Record, now: int)
    ensures Admit(cfg, s, record, now).state.spillSince ==
            if Terminal(record.kind) || CheckLimits(cfg, s, record).None? || Trackable(cfg, s, record.key)
              then s.spillSince else Some(now)
  {
    if CheckLimits(cfg, s, record).Some? {
      OverflowFence(cfg, s, record, now, CheckLimits(cfg, s, record).value);
    }
  }

  /** What a record does to the fence, exactly. */
  lemma DispatchFence(cfg: Config, s: State, record: Record, now: int)
    ensures Dispatch(cfg, s, record, now).state.spillSince ==
            if LeavesTail(cfg, s, record) && !Trackable(cfg, s, record.key) then Some(now) else s.spillSince
  {
    if record.key in s.rejected || ClosesFullGroup(cfg, s, record) {
    } else if record.key !in s.pending && s.spillSince.Some? {
      FenceFence(cfg, s, record, now);
    } else {
      AdmissionFence(cfg, s, record, now);
    }
  }

  lemma KeyedLineFence(cfg: Config, s: State, k: Key, source: SourcePosition, now: int)
    ensures RejectKeyedLine(cfg, s, k, source, now).state.spillSince ==
            if k in s.rejected || Trackable(cfg, s, k) then s.spillSince else Some(now)
  {
    if k !in s.rejected {
      var pin := if Held(s, k) != [] then Held(s, k)[0].source else source;
      if Trackable(cfg, s, k) {
        TrackedIsolation(cfg, s, s.pending - {k}, s.nextSequence, k, pin, pin, now);
      } else {
        UntrackedIsolation(cfg, s, s.pending - {k}, s.nextSequence, k, pin, pin, now);
      }
    }
  }

  /** Exactly that input renews the fence; no other call touches it, except by its
      own expiry and by a full flush. */
  lemma OnlyUntrackableInputRenews(cfg: Config, s: State, op: Op)
    ensures if Renews(cfg, s, op) then Step(cfg, s, op).state.spillSince == Some(op.now)
            else Step(cfg, s, op).state.spillSince in {s.spillSince, None}
  {
    match op
    case Add(record, now) => DispatchFence(cfg, Swept(cfg, s, now), record, now);
    case Expire(now) =>
    case FlushAll(_) =>
    case RejectLine(Some(k), source, now) => KeyedLineFence(cfg, s, k, source, now);
    case RejectLine(None, _, _) =>
  }

  lemma {:induction false} UnrenewedFence(cfg: Config, ops: seq<Op>, i: nat, j: nat)
    requires i <= j <= |ops|
    requires forall m :: i <= m < j ==> !Renews(cfg, StateAt(cfg, ops, m), ops[m])
    ensures StateAt(cfg, ops, j).spillSince in {StateAt(cfg, ops, i).spillSince, None}
    decreases j - i
  {
    if i < j {
      StateAfter(cfg, ops, i);
      OnlyUntrackableInputRenews(cfg, StateAt(cfg, ops, i), ops[i]);
      UnrenewedFence(cfg, ops, i + 1, j);
    }
  }

  /** The record is treated on its own merits: it is an exception only if a
      configured limit really is reached, and then the diagnostic names it. */
  ghost predicate OnMerit(cfg: Config, s: State, record: Record, o: Outcome) {
    if CheckLimits(cfg, s, record).None? || record.kind.EOE?
    then o.limit.None? && forall e :: e in o.events ==> !e.exceptional
    else o.limit.Some? && o.limit.value.name == CheckLimits(cfg, s, record).value
  }

  ghost predicate AdmittedOnMerit(cfg: Config, s: State, record: Record, now: int) {
    OnMerit(cfg, Swept(cfg, s, now), record, AddRecovering(cfg, s, record, now))
  }

  /** The theorem: with no renewing input since `i`, a record that arrives a timeout
      after the last renewal and whose key is not rejected, or no longer, is admitted on merit,
      however busy the stream was in between. */
  lemma FenceFalls(cfg: Config, ops: seq<Op>, i: nat, j: nat)
    requires ValidConfig(cfg)
    requires i <= j < |ops| && ops[j].Add?
    requires forall m :: i <= m < j ==> !Renews(cfg, StateAt(cfg, ops, m), ops[m])
    requires StateAt(cfg, ops, i).spillSince.Some? ==>
      StateAt(cfg, ops, i).spillSince.value + cfg.timeout <= ops[j].now
    requires ops[j].record.key !in Swept(cfg, StateAt(cfg, ops, j), ops[j].now).rejected
    ensures AdmittedOnMerit(cfg, StateAt(cfg, ops, j), ops[j].record, ops[j].now)
  {
    UnrenewedFence(cfg, ops, i, j);
    FencelessAdmission(cfg, StateAt(cfg, ops, j), ops[j].record, ops[j].now);
  }

  lemma AdmissionOnMerit(cfg: Config, s: State, record: Record, now: int)
    requires ValidConfig(cfg) && !ClosesFullGroup(cfg, s, record)
    ensures OnMerit(cfg, s, record, Admit(cfg, s, record, now))
  {
    if record.kind.EOE? && record.key !in s.pending {
      ExpiredAreNormal(cfg, s.(pending := Remark(s.pending, record.key, false)), now);
    } else if CheckLimits(cfg, s, record).None? {
      ExpiredAreNormal(cfg, Closed(cfg, s, record, now).state, now);
    }
  }

  lemma DispatchOnMerit(cfg: Config, s: State, record: Record, now: int)
    requires ValidConfig(cfg)
    requires s.spillSince.None? && record.key !in s.rejected
    ensures OnMerit(cfg, s, record, Dispatch(cfg, s, record, now))
  {
    if !ClosesFullGroup(cfg, s, record) { AdmissionOnMerit(cfg, s, record, now); }
  }

  lemma FencelessAdmission(cfg: Config, s: State, record: Record, now: int)
    requires ValidConfig(cfg)
    requires s.spillSince.Some? ==> s.spillSince.value + cfg.timeout <= now
    requires record.key !in Swept(cfg, s, now).rejected
    ensures AdmittedOnMerit(cfg, s, record, now)
  {
    ExpiredAreNormal(cfg, s, now);
    DispatchOnMerit(cfg, Swept(cfg, s, now), record, now);
  }
}
