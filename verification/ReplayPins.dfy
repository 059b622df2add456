/** Taint and the checkpoint: while a key is tainted the safe position stays at or
    before the evidence that tainted it, so a restart reads that evidence again and
    cannot take the key's tail for a complete event. */
module ReplayPins {
  import opened Records
  import opened AssemblerSpec
  import opened AssemblerInvariants
  import opened StreamPreservation
  import opened SafePosition
  import opened Isolation

  /** `p` is a real position at or before `q`. */
  predicate Reaches(p: SourcePosition, q: SourcePosition) { p.valid && !StartsBefore(q, p) }

  lemma ReachesFurther(p: SourcePosition, q: SourcePosition, r: SourcePosition)
    requires Reaches(p, q) && Reaches(q, r)
    ensures Reaches(p, r)
  {
  }

  // ---------- everything remembered comes from lines already read ----------

  ghost predicate HeldBack(pending: map<Key, Group>, q: SourcePosition) {
    forall k, i :: k in pending && 0 <= i < |pending[k].records| ==> Reaches(pending[k].records[i].source, q)
  }

  /** Every position the assembler remembers is real and at or before `q`. */
  ghost predicate Behind(s: State, q: SourcePosition) {
    && HeldBack(s.pending, q)
    && (forall k :: k in s.rejected ==> Reaches(s.rejected[k].source, q))
    && (s.spillSince.Some? ==> Reaches(s.spillSource, q))
  }

  lemma IsolationStaysBehind(cfg: Config, s: State, k: Key, pin: SourcePosition, spillPin: SourcePosition, now: int,
                             q: SourcePosition)
    requires Behind(s, q) && Reaches(pin, q) && Reaches(spillPin, q)
    ensures Behind(Isolate(cfg, s, k, pin, spillPin, now), q)
  {
  }

  lemma SweepStaysBehind(cfg: Config, s: State, now: int, q: SourcePosition)
    requires Behind(s, q)
    ensures Behind(Swept(cfg, s, now), q)
    ensures Behind(FlushExpired(cfg, s, now).state, q)
  {
  }

  lemma JoinedStaysBehind(cfg: Config, s: State, record: Record, now: int, q: SourcePosition)
    requires HeldBack(s.pending, q) && Reaches(record.source, q)
    ensures HeldBack(Joined(cfg, s, record, now).pending, q)
  {
    var joined := Joined(cfg, s, record, now).pending;
    JoinedShape(cfg, s, record, now);
    forall k, i | k in joined && 0 <= i < |joined[k].records| ensures Reaches(joined[k].records[i].source, q) {
      if k in s.pending && i < |s.pending[k].records| {
        assert joined[k].records[i] == s.pending[k].records[i];
      }
    }
  }

  lemma ClosedStaysBehind(cfg: Config, s: State, record: Record, now: int, q: SourcePosition)
    requires Behind(s, q) && Reaches(record.source, q)
    ensures Behind(ThenExpire(cfg, Closed(cfg, s, record, now), now).state, q)
  {
    JoinedStaysBehind(cfg, s, record, now, q);
  }

  lemma EarliestIsBehind(s: State, record: Record, q: SourcePosition)
    requires Behind(s, q) && Reaches(record.source, q)
    ensures Reaches((Held(s, record.key) + [record])[0].source, q)
  {
  }

  lemma AdmissionStaysBehind(cfg: Config, s: State, record: Record, now: int, q: SourcePosition)
    requires Behind(s, q) && Reaches(record.source, q)
    ensures Behind(Admit(cfg, s, record, now).state, q)
  {
    if record.kind.EOE? && record.key !in s.pending {
    } else if CheckLimits(cfg, s, record).None? {
      ClosedStaysBehind(cfg, s, record, now, q);
    } else {
      var pin := (Held(s, record.key) + [record])[0].source;
      EarliestIsBehind(s, record, q);
      assert Behind(Evicted(s, record.key), q);
      IsolationStaysBehind(cfg, Evicted(s, record.key), record.key, pin, pin, now, q);
    }
  }

  lemma DispatchStaysBehind(cfg: Config, s: State, record: Record, now: int, q: SourcePosition)
    requires Behind(s, q) && Reaches(record.source, q)
    ensures Behind(Dispatch(cfg, s, record, now).state, q)
  {
    if record.key in s.rejected {
    } else if ClosesFullGroup(cfg, s, record) {
    } else if record.key !in s.pending && s.spillSince.Some? {
      var counted := s.(nextSequence := s.nextSequence + 1);
      IsolationStaysBehind(cfg, counted, record.key, s.spillSource, record.source, now, q);
    } else {
      AdmissionStaysBehind(cfg, s, record, now, q);
    }
  }

  lemma KeyedLineStaysBehind(cfg: Config, s: State, k: Key, source: SourcePosition, now: int, q: SourcePosition)
    requires Behind(s, q) && Reaches(source, q)
    ensures Behind(RejectKeyedLine(cfg, s, k, source, now).state, q)
  {
    var pin := if Held(s, k) != [] then Held(s, k)[0].source else source;
    IsolationStaysBehind(cfg, s.(pending := s.pending - {k}), k, pin, pin, now, q);
  }

  /** Lines carry real positions. */
  ghost predicate SourceReaches(op: Op, q: SourcePosition) {
    match op
    case Add(record, _) => Reaches(record.source, q)
    case RejectLine(_, source, _) => Reaches(source, q)
    case _ => true
  }

  lemma StepStaysBehind(cfg: Config, s: State, op: Op, q: SourcePosition)
    requires Behind(s, q) && SourceReaches(op, q)
    ensures Behind(Step(cfg, s, op).state, q)
  {
    match op
    case Add(record, now) =>
      SweepStaysBehind(cfg, s, now, q);
      DispatchStaysBehind(cfg, Swept(cfg, s, now), record, now, q);
    case Expire(now) => SweepStaysBehind(cfg, s, now, q);
    case FlushAll(_) =>
    case RejectLine(Some(k), source, now) => KeyedLineStaysBehind(cfg, s, k, source, now, q);
    case RejectLine(None, source, now) =>
  }

  lemma {:induction false} RunStaysBehind(cfg: Config, ops: seq<Op>, n: nat, q: SourcePosition)
    requires n <= |ops| && forall i :: 0 <= i < n ==> SourceReaches(ops[i], q)
    ensures Behind(StateAt(cfg, ops, n), q)
  {
    if n > 0 {
      RunStaysBehind(cfg, ops, n - 1, q);
      StateAfter(cfg, ops, n - 1);
      StepStaysBehind(cfg, StateAt(cfg, ops, n - 1), ops[n - 1], q);
    }
  }

  // ---------- a tainted key is pinned at its first evidence ----------

  /** `k` is tainted since `t` at the latest, and replay would start at or before `q`. */
  ghost predicate Covered(s: State, k: Key, t: int, q: SourcePosition) {
    && k !in s.pending
    && if k in s.rejected then t <= s.rejected[k].lastSeen && Reaches(s.rejected[k].source, q)
       else s.spillSince.Some? && t <= s.spillSince.value && Reaches(s.spillSource, q)
  }

  lemma IsolationCovers(cfg: Config, s: State, k: Key, pin: SourcePosition, spillPin: SourcePosition, now: int,
                        q: SourcePosition)
    requires k !in s.pending && k !in s.rejected
    requires Reaches(pin, q) && Reaches(spillPin, q)
    ensures Covered(Isolate(cfg, s, k, pin, spillPin, now), k, now, q)
  {
  }

  lemma OverflowCovers(cfg: Config, s: State, record: Record, now: int, name: LimitName)
    requires !Terminal(record.kind) && record.key !in s.rejected
    requires Behind(s, record.source) && record.source.valid
    ensures var first := (Held(s, record.key) + [record])[0].source;
            Covered(Overflow(cfg, s, record, now, name).state, record.key, now, first) && Reaches(first, record.source)
  {
    var first := (Held(s, record.key) + [record])[0].source;
    EarliestIsBehind(s, record, record.source);
    IsolationCovers(cfg, Evicted(s, record.key), record.key, first, first, now, first);
  }

  lemma FenceCovers(cfg: Config, s: State, record: Record, now: int)
    requires !Terminal(record.kind) && record.key !in s.rejected && record.key !in s.pending && s.spillSince.Some?
    requires Behind(s, record.source) && record.source.valid
    ensures Covered(Fence(cfg, s, record, now).state, record.key, now, record.source)
  {
    var counted := s.(nextSequence := s.nextSequence + 1);
    IsolationCovers(cfg, counted, record.key, s.spillSource, record.source, now, record.source);
  }

  /** A plain record emitted as an exception leaves its key covered from the first
      record of that exception on. */
  lemma DispatchCovers(cfg: Config, s: State, record: Record, now: int, e: Event)
    requires Separate(s.pending, s.rejected) && Behind(s, record.source) && record.source.valid
    requires !Terminal(record.kind) && e.exceptional && e in Dispatch(cfg, s, record, now).events
    ensures e.records != [] && Reaches(e.records[0].source, record.source)
    ensures Covered(Dispatch(cfg, s, record, now).state, record.key, now, e.records[0].source)
  {
    if record.key in s.rejected {
    } else if record.key !in s.pending && s.spillSince.Some? {
      FenceCovers(cfg, s, record, now);
    } else if CheckLimits(cfg, s, record).None? {
      ExpiredAreNormal(cfg, Closed(cfg, s, record, now).state, now);
    } else {
      OverflowCovers(cfg, s, record, now, CheckLimits(cfg, s, record).value);
    }
  }

  lemma SweepKeepsCover(cfg: Config, s: State, k: Key, t: int, q: SourcePosition, now: int)
    requires Covered(s, k, t, q) && now < t + cfg.timeout
    ensures Covered(Swept(cfg, s, now), k, t, q)
    ensures Covered(FlushExpired(cfg, s, now).state, k, t, q)
  {
  }

  lemma IsolationKeepsCover(cfg: Config, s: State, k: Key, t: int, q: SourcePosition, key: Key,
                            pin: SourcePosition, spillPin: SourcePosition, now: int)
    requires Covered(s, k, t, q) && t <= now && key != k
    ensures Covered(Isolate(cfg, s, key, pin, spillPin, now), k, t, q)
  {
  }

  lemma OtherKeepsCover(cfg: Config, s: State, k: Key, t: int, q: SourcePosition, record: Record, now: int)
    requires Covered(s, k, t, q) && t <= now && record.key != k
    ensures Covered(Dispatch(cfg, s, record, now).state, k, t, q)
  {
    if record.key in s.rejected {
    } else if ClosesFullGroup(cfg, s, record) {
    } else if record.key !in s.pending && s.spillSince.Some? {
      IsolationKeepsCover(cfg, s.(nextSequence := s.nextSequence + 1), k, t, q, record.key, s.spillSource,
                          record.source, now);
    } else {
      AdmissionKeepsCover(cfg, s, k, t, q, record, now);
    }
  }

  lemma ClosedKeepsCover(cfg: Config, s: State, k: Key, t: int, q: SourcePosition, record: Record, now: int)
    requires Covered(s, k, t, q) && record.key != k
    ensures Covered(ThenExpire(cfg, Closed(cfg, s, record, now), now).state, k, t, q)
  {
    JoinedShape(cfg, s, record, now);
  }

  lemma OverflowKeepsCover(cfg: Config, s: State, k: Key, t: int, q: SourcePosition, record: Record, now: int,
                           name: LimitName)
    requires Covered(s, k, t, q) && t <= now && record.key != k
    ensures Covered(Overflow(cfg, s, record, now, name).state, k, t, q)
  {
    var pin := (Held(s, record.key) + [record])[0].source;
    IsolationKeepsCover(cfg, Evicted(s, record.key), k, t, q, record.key, pin, pin, now);
  }

  lemma AdmissionKeepsCover(cfg: Config, s: State, k: Key, t: int, q: SourcePosition, record: Record, now: int)
    requires Covered(s, k, t, q) && t <= now && record.key != k
    ensures Covered(Admit(cfg, s, record, now).state, k, t, q)
  {
    if record.kind.EOE? && record.key !in s.pending {
    } else {
      match CheckLimits(cfg, s, record)
      case Some(name) => OverflowKeepsCover(cfg, s, k, t, q, record, now, name);
      case None => ClosedKeepsCover(cfg, s, k, t, q, record, now);
    }
  }

  /** Another plain record of the key renews the taint and leaves its pin alone. */
  lemma OwnRenewsCover(cfg: Config, s: State, t: int, q: SourcePosition, record: Record, now: int)
    requires Covered(s, record.key, t, q) && !Terminal(record.kind)
    ensures Covered(Dispatch(cfg, s, record, now).state, record.key, now, q)
  {
    if record.key !in s.rejected {
      FenceRenewsCover(cfg, s, t, q, record, now);
    }
  }

  lemma FenceRenewsCover(cfg: Config, s: State, t: int, q: SourcePosition, record: Record, now: int)
    requires Covered(s, record.key, t, q) && record.key !in s.rejected && !Terminal(record.kind)
    ensures Covered(Fence(cfg, s, record, now).state, record.key, now, q)
  {
  }

  /** An oversized line of the key renews the taint and leaves its pin alone if the
      key is tracked already or cannot be tracked. */
  lemma OwnLineRenewsCover(cfg: Config, s: State, k: Key, t: int, q: SourcePosition, source: SourcePosition, now: int)
    requires Covered(s, k, t, q) && (k in s.rejected || !Trackable(cfg, s, k))
    ensures Covered(RejectKeyedLine(cfg, s, k, source, now).state, k, now, q)
  {
    TrackableIgnoresPending(cfg, s, k);
  }

  lemma TrackableIgnoresPending(cfg: Config, s: State, k: Key)
    ensures Trackable(cfg, s.(pending := s.pending - {k}), k) == Trackable(cfg, s, k)
  {
  }

  /** Input that neither ends the taint of `k` nor replaces its pin. */
  ghost predicate SparesTaint(cfg: Config, s: State, op: Op, k: Key) {
    match op
    case Add(record, _) => record.key == k ==> !Terminal(record.kind)
    case Expire(_) => true
    case FlushAll(_) => false
    case RejectLine(Some(key), _, _) => key == k ==> k in s.rejected || !Trackable(cfg, s, k)
    case RejectLine(None, _, _) => false
  }

  /** Input of the key itself starts its timeout anew. */
  predicate Renewal(op: Op, k: Key) {
    (op.Add? && op.record.key == k) || (op.RejectLine? && op.envelope == Some(k))
  }

  lemma OtherLineKeepsCover(cfg: Config, s: State, key: Key, source: SourcePosition, now: int, k: Key, t: int,
                            q: SourcePosition)
    requires Covered(s, k, t, q) && t <= now && key != k
    ensures Covered(RejectKeyedLine(cfg, s, key, source, now).state, k, t, q)
  {
    var pin := if Held(s, key) != [] then Held(s, key)[0].source else source;
    IsolationKeepsCover(cfg, s.(pending := s.pending - {key}), k, t, q, key, pin, pin, now);
  }

  lemma StepKeepsCover(cfg: Config, s: State, op: Op, k: Key, t: int, q: SourcePosition)
    requires Covered(s, k, t, q) && SparesTaint(cfg, s, op, k) && t <= op.now < t + cfg.timeout
    ensures Covered(Step(cfg, s, op).state, k, if Renewal(op, k) then op.now else t, q)
  {
    match op
    case Add(record, now) =>
      SweepKeepsCover(cfg, s, k, t, q, now);
      if record.key == k {
        OwnRenewsCover(cfg, Swept(cfg, s, now), t, q, record, now);
      } else {
        OtherKeepsCover(cfg, Swept(cfg, s, now), k, t, q, record, now);
      }
    case Expire(now) => SweepKeepsCover(cfg, s, k, t, q, now);
    case RejectLine(Some(key), source, now) =>
      if key == k {
        OwnLineRenewsCover(cfg, s, k, t, q, source, now);
      } else {
        OtherLineKeepsCover(cfg, s, key, source, now, k, t, q);
      }
  }

  // ---------- whole runs ----------

  /** Lines are read in order: every later line reaches at least as far. */
  ghost predicate Forward(ops: seq<Op>) {
    forall i, j :: 0 <= i <= j < |ops| && ops[j].Add? ==> SourceReaches(ops[i], ops[j].record.source)
  }

  /** From call `n` to call `j` nothing ends the taint, and each call comes within a
      timeout of the last input of the key; `t` is when that input came. */
  ghost predicate Undisturbed(cfg: Config, ops: seq<Op>, n: nat, j: nat, k: Key, t: int)
    requires n <= j <= |ops|
    decreases j - n
  {
    n == j ||
    (SparesTaint(cfg, StateAt(cfg, ops, n), ops[n], k) && t <= ops[n].now < t + cfg.timeout &&
     Undisturbed(cfg, ops, n + 1, j, k, if Renewal(ops[n], k) then ops[n].now else t))
  }

  lemma {:induction false} CoverLasts(cfg: Config, ops: seq<Op>, n: nat, j: nat, k: Key, t: int, q: SourcePosition)
    returns (last: int)
    requires n <= j <= |ops| && Undisturbed(cfg, ops, n, j, k, t)
    requires Covered(StateAt(cfg, ops, n), k, t, q)
    ensures Covered(StateAt(cfg, ops, j), k, last, q)
    decreases j - n
  {
    last := t;
    if n < j {
      StateAfter(cfg, ops, n);
      StepKeepsCover(cfg, StateAt(cfg, ops, n), ops[n], k, t, q);
      last := CoverLasts(cfg, ops, n + 1, j, k, if Renewal(ops[n], k) then ops[n].now else t, q);
    }
  }

  lemma CoverStarts(cfg: Config, ops: seq<Op>, i: nat, e: Event)
    requires ValidConfig(cfg) && Forward(ops)
    requires i < |ops| && ops[i].Add? && !Terminal(ops[i].record.kind)
    requires e in Step(cfg, StateAt(cfg, ops, i), ops[i]).events && e.exceptional
    ensures e.records != [] && Reaches(e.records[0].source, ops[i].record.source)
    ensures Covered(StateAt(cfg, ops, i + 1), ops[i].record.key, ops[i].now, e.records[0].source)
  {
    var s, record, now := StateAt(cfg, ops, i), ops[i].record, ops[i].now;
    assert SourceReaches(ops[i], record.source);
    RunStaysBehind(cfg, ops, i, record.source);
    RunKeepsInvariant(cfg, ops[..i]);
    SweepStaysBehind(cfg, s, now, record.source);
    ExpiredAreNormal(cfg, s, now);
    DispatchCovers(cfg, Swept(cfg, s, now), record, now, e);
    StateAfter(cfg, ops, i);
  }

  /** The theorem: after a plain record went out in an exceptional event, and for as
      long as the key's taint is neither ended nor left without input for a timeout,
      every safe position is at or before the first record of that event. */
  lemma SafePositionWaitsForTaint(cfg: Config, ops: seq<Op>, i: nat, j: nat, e: Event,
                                  fallback: SourcePosition, safe: SourcePosition)
    requires ValidConfig(cfg) && Forward(ops)
    requires i < j <= |ops| && ops[i].Add? && !Terminal(ops[i].record.kind)
    requires e in Step(cfg, StateAt(cfg, ops, i), ops[i]).events && e.exceptional
    requires Undisturbed(cfg, ops, i + 1, j, ops[i].record.key, ops[i].now)
    requires IsSafe(StateAt(cfg, ops, j), fallback, safe)
    ensures e.records != [] && Reaches(safe, e.records[0].source) && Reaches(safe, ops[i].record.source)
  {
    var k, s := ops[i].record.key, StateAt(cfg, ops, j);
    CoverStarts(cfg, ops, i, e);
    var first := e.records[0].source;
    var last := CoverLasts(cfg, ops, i + 1, j, k, ops[i].now, first);
    var pin := if k in s.rejected then s.rejected[k].source else s.spillSource;
    assert Pinned(s, pin);
    ReachesFurther(safe, pin, first);
    ReachesFurther(safe, first, ops[i].record.source);
  }

  // ---------- an oversized line of the key itself ----------

  /** A later oversized line of a tainted key keeps the pin exactly when the key is
      tracked already or cannot be tracked; a key that only the fence covered is
      tracked from the line on.  Reading that line again taints the key again. */
  lemma KeyedLineKeepsCover(cfg: Config, s: State, k: Key, t: int, q: SourcePosition, source: SourcePosition, now: int)
    requires Covered(s, k, t, q) && t <= now && StartsBefore(q, source)
    ensures Covered(RejectKeyedLine(cfg, s, k, source, now).state, k, t, q) <==>
      k in s.rejected || !Trackable(cfg, s, k)
  {
    TrackableIgnoresPending(cfg, s, k);
  }
}
