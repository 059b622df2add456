/** The replay position a checkpoint may record: the earliest source line that is
    still unresolved, or the end of the input read so far. */
module SafePosition {
  import opened Records
  import opened AssemblerSpec
  import opened AssemblerInvariants

  ghost predicate HeldAt(pending: map<Key, Group>, p: SourcePosition) {
    exists k, i :: k in pending && 0 <= i < |pending[k].records| && pending[k].records[i].source == p
  }

  ghost predicate RejectedAt(rejected: map<Key, Rejection>, p: SourcePosition) {
    exists k :: k in rejected && rejected[k].source == p
  }

  /** An unresolved line starts at `p`. */
  ghost predicate Pinned(s: State, p: SourcePosition) {
    p.valid && (HeldAt(s.pending, p) || RejectedAt(s.rejected, p) || s.spillSource == p)
  }

  function AtStart(p: SourcePosition): SourcePosition { p.(end := p.start) }

  /** The contract of the safe position: it is the fallback or a pin, and neither
      the fallback nor any pin comes before it. */
  ghost predicate IsSafe(s: State, fallback: SourcePosition, safe: SourcePosition) {
    && (safe == fallback || exists p :: Pinned(s, p) && safe == AtStart(p))
    && (fallback.valid ==> safe.valid && !StartsBefore(fallback, safe))
    && (forall p :: Pinned(s, p) ==> safe.valid && !StartsBefore(p, safe))
  }

  // ---------- pins never appear out of nowhere ----------

  ghost predicate Sourced(op: Op, p: SourcePosition) {
    (op.Add? && op.record.source == p) || (op.RejectLine? && op.source == p)
  }

  lemma FewerPins(s: State, t: State, p: SourcePosition)
    requires Pinned(t, p)
    requires forall k :: k in t.pending ==> k in s.pending && t.pending[k].records == s.pending[k].records
    requires forall k :: k in t.rejected ==> k in s.rejected && t.rejected[k].source == s.rejected[k].source
    requires t.spillSource in {s.spillSource, NO_POSITION}
    ensures Pinned(s, p)
  {
  }

  lemma IsolationPins(cfg: Config, s: State, k: Key, pin: SourcePosition, spillPin: SourcePosition, now: int,
                      p: SourcePosition)
    requires Pinned(Isolate(cfg, s, k, pin, spillPin, now), p)
    ensures Pinned(s, p) || p == pin || p == spillPin
  {
    if Trackable(cfg, s, k) && RejectedAt(Isolate(cfg, s, k, pin, spillPin, now).rejected, p) {
      var l :| l in s.rejected[k := Rejection(pin, now, KeyBytes(k))] &&
               s.rejected[k := Rejection(pin, now, KeyBytes(k))][l].source == p;
      assert l != k ==> RejectedAt(s.rejected, p);
    }
  }

  lemma HeldIsPinned(s: State, k: Key, i: nat)
    requires i < |Held(s, k)|
    ensures Held(s, k)[i].source.valid ==> Pinned(s, Held(s, k)[i].source)
  {
  }

  lemma JoinedPins(cfg: Config, s: State, record: Record, now: int, p: SourcePosition)
    requires Pinned(Joined(cfg, s, record, now), p)
    ensures Pinned(s, p) || p == record.source
  {
    var joined := Joined(cfg, s, record, now);
    JoinedShape(cfg, s, record, now);
    if HeldAt(joined.pending, p) {
      var k, i :| k in joined.pending && 0 <= i < |joined.pending[k].records| &&
        joined.pending[k].records[i].source == p;
      if k in s.pending && i < |s.pending[k].records| {
        assert s.pending[k].records[i].source == p;
      }
    }
  }

  lemma ClosedPins(cfg: Config, s: State, record: Record, now: int, p: SourcePosition)
    requires Pinned(ThenExpire(cfg, Closed(cfg, s, record, now), now).state, p)
    ensures Pinned(s, p) || p == record.source
  {
    var joined := Joined(cfg, s, record, now);
    FewerPins(joined, ThenExpire(cfg, Closed(cfg, s, record, now), now).state, p);
    JoinedPins(cfg, s, record, now, p);
  }

  lemma OverflowPins(cfg: Config, s: State, record: Record, now: int, name: LimitName, p: SourcePosition)
    requires Pinned(Overflow(cfg, s, record, now, name).state, p)
    ensures Pinned(s, p) || p == record.source
  {
    var k := record.key;
    var records := Held(s, k) + [record];
    if !Terminal(record.kind) {
      IsolationPins(cfg, Evicted(s, k), k, records[0].source, records[0].source, now, p);
    }
    if Pinned(Evicted(s, k), p) {
      FewerPins(s, Evicted(s, k), p);
    } else if Held(s, k) != [] {
      HeldIsPinned(s, k, 0);
    }
  }

  lemma DispatchPins(cfg: Config, s: State, record: Record, now: int, p: SourcePosition)
    requires Pinned(Dispatch(cfg, s, record, now).state, p)
    ensures Pinned(s, p) || p == record.source
  {
    var k := record.key;
    if k in s.rejected {
      FewerPins(s, Reject(s, record, now).state, p);
    } else if ClosesFullGroup(cfg, s, record) {
      FewerPins(s, CloseFullGroup(s, k).state, p);
    } else if k !in s.pending && s.spillSince.Some? {
      var counted := s.(nextSequence := s.nextSequence + 1);
      if !Terminal(record.kind) { IsolationPins(cfg, counted, k, s.spillSource, record.source, now, p); }
      if Pinned(counted, p) { FewerPins(s, counted, p); }
    } else if record.kind.EOE? && k !in s.pending {
      FewerPins(s, Admit(cfg, s, record, now).state, p);
    } else {
      match CheckLimits(cfg, s, record)
      case Some(name) => OverflowPins(cfg, s, record, now, name, p);
      case None => ClosedPins(cfg, s, record, now, p);
    }
  }

  lemma KeyedLinePins(cfg: Config, s: State, k: Key, source: SourcePosition, now: int, p: SourcePosition)
    requires Pinned(RejectKeyedLine(cfg, s, k, source, now).state, p)
    ensures Pinned(s, p) || p == source
  {
    var removed := s.(pending := s.pending - {k});
    if k in s.rejected {
      FewerPins(s, RejectKeyedLine(cfg, s, k, source, now).state, p);
    } else {
      var pin := if Held(s, k) != [] then Held(s, k)[0].source else source;
      IsolationPins(cfg, removed, k, pin, pin, now, p);
      if Pinned(removed, p) {
        FewerPins(s, removed, p);
      } else if Held(s, k) != [] {
        HeldIsPinned(s, k, 0);
      }
    }
  }

  /** Every pin after a call was a pin before it or is the line the call was given. */
  lemma StepPins(cfg: Config, s: State, op: Op, p: SourcePosition)
    requires Pinned(Step(cfg, s, op).state, p)
    ensures Pinned(s, p) || Sourced(op, p)
  {
    match op
    case Add(record, now) =>
      DispatchPins(cfg, Swept(cfg, s, now), record, now, p);
      if Pinned(Swept(cfg, s, now), p) { FewerPins(s, Swept(cfg, s, now), p); }
    case Expire(now) => FewerPins(s, FlushExpired(cfg, s, now).state, p);
    case FlushAll(_) =>
    case RejectLine(Some(k), source, now) => KeyedLinePins(cfg, s, k, source, now, p);
    case RejectLine(None, source, now) =>
  }

  /** The safe position never moves back: a call reads at most a line that starts at
      or after the old fallback, and the fallback itself only moves forward. */
  lemma SafePositionNeverRegresses(
    cfg: Config, s: State, op: Op,
    fallback: SourcePosition, safe: SourcePosition, fallback': SourcePosition, safe': SourcePosition)
    requires fallback.valid && fallback'.valid
    requires IsSafe(s, fallback, safe) && IsSafe(Step(cfg, s, op).state, fallback', safe')
    requires !StartsBefore(fallback', fallback)
    requires forall p :: Sourced(op, p) ==> !StartsBefore(p, fallback)
    ensures !StartsBefore(safe', safe)
  {
    if safe' != fallback' {
      var p :| Pinned(Step(cfg, s, op).state, p) && safe' == AtStart(p);
      StepPins(cfg, s, op, p);
    }
  }

  // ---------- folding over candidates ----------

  /** `safe` is the earliest of the fallback and the candidates seen so far. */
  ghost predicate IsEarliest(seen: set<SourcePosition>, fallback: SourcePosition, safe: SourcePosition) {
    && (safe == fallback || exists p :: p in seen && safe == AtStart(p))
    && (fallback.valid ==> safe.valid && !StartsBefore(fallback, safe))
    && (forall p :: p in seen ==> safe.valid && !StartsBefore(p, safe))
  }

  /** One more candidate: an invalid one is ignored, a later one changes nothing. */
  function Earlier(safe: SourcePosition, candidate: SourcePosition): SourcePosition {
    if candidate.valid && (!safe.valid || StartsBefore(candidate, safe)) then AtStart(candidate) else safe
  }

  lemma EarlierIsEarliest(seen: set<SourcePosition>, fallback: SourcePosition, safe: SourcePosition,
                          candidate: SourcePosition)
    requires IsEarliest(seen, fallback, safe)
    ensures candidate.valid ==> IsEarliest(seen + {candidate}, fallback, Earlier(safe, candidate))
    ensures !candidate.valid ==> IsEarliest(seen, fallback, Earlier(safe, candidate))
  {
    if candidate.valid {
      assert candidate in seen + {candidate};
      if Earlier(safe, candidate) == safe && safe != fallback {
        var p :| p in seen && safe == AtStart(p);
        assert p in seen + {candidate};
      }
    }
  }

  lemma EarliestIsSafe(s: State, seen: set<SourcePosition>, fallback: SourcePosition, safe: SourcePosition)
    requires IsEarliest(seen, fallback, safe)
    requires forall p :: p in seen <==> Pinned(s, p)
    ensures IsSafe(s, fallback, safe)
  {
  }
}
