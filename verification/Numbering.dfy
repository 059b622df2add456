/** Sequence numbers over a whole run: a number once emitted is never emitted again
    and never belongs to a pending group.  The one event of a keyed oversized line
    carries number 0 outside this numbering and is left out. */
module Numbering {
  import opened Records
  import opened EventOrder
  import opened AssemblerSpec
  import opened AssemblerInvariants
  import opened StreamPreservation
  import opened Isolation

  /** The number has been given out and no pending group carries it. */
  ghost predicate Retired(s: State, q: nat) {
    q < s.nextSequence && forall k :: k in s.pending ==> s.pending[k].sequence != q
  }

  // ---------- one flow ----------

  lemma FlowKeepsRetired(s: State, input: seq<Record>, o: Outcome, q: nat)
    requires AllFlow(s, input, o) && Retired(s, q) && s.nextSequence <= o.state.nextSequence
    ensures Retired(o.state, q)
  {
    forall k | k in o.state.pending ensures o.state.pending[k].sequence != q {
      assert Flows(s, input, o, k);
    }
  }

  lemma FlowRetires(s: State, input: seq<Record>, o: Outcome, e: Event)
    requires Numbered(s.pending, s.nextSequence) && |input| <= 1 && AllFlow(s, input, o)
    requires e in o.events && e.sequence < o.state.nextSequence
    ensures Retired(o.state, e.sequence)
  {
    var k := e.records[0].key;
    assert Flows(s, input, o, k);
    OwnerOf(s, input, o, e);
    forall l | l in o.state.pending ensures o.state.pending[l].sequence != e.sequence {
      assert Flows(s, input, o, l);
      DifferentKeysDiffer(s, input, k, l);
    }
  }

  /** Two known keys have different numbers. */
  lemma DifferentKeysDiffer(s: State, input: seq<Record>, k: Key, l: Key)
    requires Numbered(s.pending, s.nextSequence) && |input| <= 1
    requires Known(s, input, k) && Known(s, input, l) && k != l
    ensures SequenceFor(s, k) != SequenceFor(s, l)
  {
  }

  lemma FlowIsFresh(s: State, input: seq<Record>, o: Outcome, e: Event, q: nat)
    requires AllFlow(s, input, o) && Retired(s, q) && e in o.events
    ensures e.sequence != q
  {
    assert Flows(s, input, o, e.records[0].key);
    OwnerOf(s, input, o, e);
  }

  // ---------- numbers stay below the next one ----------

  lemma ExpiredNumbers(cfg: Config, s: State, now: int, next: nat, e: Event)
    requires Numbered(s.pending, next) && e in ExpiredEvents(cfg, s, now)
    ensures e.sequence < next
  {
  }

  lemma ClosedNumbers(cfg: Config, s: State, record: Record, now: int, e: Event)
    requires OwnsRecords(s.pending) && Numbered(s.pending, s.nextSequence)
    requires e in ThenExpire(cfg, Closed(cfg, s, record, now), now).events
    ensures e.sequence < Joined(cfg, s, record, now).nextSequence
  {
    var joined, closed := Joined(cfg, s, record, now), Closed(cfg, s, record, now);
    JoinedOwnership(cfg, s, record, now);
    JoinedShape(cfg, s, record, now);
    if e in closed.events {
      assert e.sequence == joined.pending[record.key].sequence;
    } else {
      assert Numbered(closed.state.pending, joined.nextSequence);
      ExpiredNumbers(cfg, closed.state, now, joined.nextSequence, e);
    }
  }

  lemma OverflowNumbers(cfg: Config, s: State, record: Record, now: int, name: LimitName)
    requires Numbered(s.pending, s.nextSequence)
    ensures s.nextSequence <= Overflow(cfg, s, record, now, name).state.nextSequence
    ensures SequenceFor(s, record.key) < Overflow(cfg, s, record, now, name).state.nextSequence
  {
  }

  lemma AdmissionNumbers(cfg: Config, s: State, record: Record, now: int)
    requires OwnsRecords(s.pending) && Numbered(s.pending, s.nextSequence)
    ensures var o := Admit(cfg, s, record, now);
            s.nextSequence <= o.state.nextSequence && forall e :: e in o.events ==> e.sequence < o.state.nextSequence
  {
    var o := Admit(cfg, s, record, now);
    if record.kind.EOE? && record.key !in s.pending {
      var marked := s.(pending := Remark(s.pending, record.key, false));
      forall e | e in o.events ensures e.sequence < o.state.nextSequence {
        ExpiredNumbers(cfg, marked, now, s.nextSequence, e);
      }
    } else {
      match CheckLimits(cfg, s, record)
      case Some(name) => OverflowNumbers(cfg, s, record, now, name);
      case None =>
        forall e | e in o.events ensures e.sequence < o.state.nextSequence { ClosedNumbers(cfg, s, record, now, e); }
    }
  }

  lemma FenceNumbers(cfg: Config, s: State, record: Record, now: int)
    ensures Fence(cfg, s, record, now).state.nextSequence == s.nextSequence + 1
  {
  }

  lemma DispatchNumbers(cfg: Config, s: State, record: Record, now: int)
    requires OwnsRecords(s.pending) && Numbered(s.pending, s.nextSequence)
    ensures var o := Dispatch(cfg, s, record, now);
            s.nextSequence <= o.state.nextSequence && forall e :: e in o.events ==> e.sequence < o.state.nextSequence
  {
    if record.key in s.rejected || ClosesFullGroup(cfg, s, record) {
    } else if record.key !in s.pending && s.spillSince.Some? {
      FenceNumbers(cfg, s, record, now);
    } else {
      AdmissionNumbers(cfg, s, record, now);
    }
  }

  // ---------- one call ----------

  /** Events of the call carry numbers of their own. */
  predicate Counts(op: Op) { op.RejectLine? ==> op.envelope.None? }

  lemma FewerGroupsKeepRetired(s: State, t: State, q: nat)
    requires Retired(s, q) && s.nextSequence <= t.nextSequence
    requires forall k :: k in t.pending ==> k in s.pending && t.pending[k].sequence == s.pending[k].sequence
    ensures Retired(t, q)
  {
  }

  lemma StepKeepsRetired(cfg: Config, s: State, op: Op, q: nat)
    requires ValidConfig(cfg) && Invariant(cfg, s) && Retired(s, q)
    ensures Retired(Step(cfg, s, op).state, q)
  {
    match op
    case Add(record, now) =>
      var w := Swept(cfg, s, now);
      SweepKeeps(cfg, s, now);
      FewerGroupsKeepRetired(s, w, q);
      DispatchAllFlow(cfg, w, record, now);
      DispatchNumbers(cfg, w, record, now);
      FlowKeepsRetired(w, [record], Dispatch(cfg, w, record, now), q);
    case Expire(now) => FewerGroupsKeepRetired(s, FlushExpired(cfg, s, now).state, q);
    case FlushAll(completion) => FewerGroupsKeepRetired(s, FlushAllWith(s, completion).state, q);
    case RejectLine(Some(k), source, now) =>
      RejectKeyedLineShape(cfg, s, k, source, now);
      KeyedLineNumbers(cfg, s, k, source, now);
      FewerGroupsKeepRetired(s, RejectKeyedLine(cfg, s, k, source, now).state, q);
    case RejectLine(None, source, now) => FewerGroupsKeepRetired(s, RejectUnkeyedLine(s, source, now).state, q);
  }

  lemma KeyedLineNumbers(cfg: Config, s: State, k: Key, source: SourcePosition, now: int)
    ensures RejectKeyedLine(cfg, s, k, source, now).state.nextSequence == s.nextSequence
  {
  }

  /** A swept group's number is retired with it. */
  lemma StaleRetires(cfg: Config, s: State, now: int, e: Event)
    requires OwnsRecords(s.pending) && Numbered(s.pending, s.nextSequence)
    requires e in ExpiredEvents(cfg, s, now)
    ensures Retired(ExpirePending(cfg, s, now), e.sequence)
  {
    StaleOwner(cfg, s, now, e);
  }

  lemma StaleRetiresFromSweep(cfg: Config, s: State, now: int, e: Event)
    requires OwnsRecords(s.pending) && Numbered(s.pending, s.nextSequence)
    requires e in ExpiredEvents(cfg, s, now)
    ensures Retired(Swept(cfg, s, now), e.sequence) && Retired(FlushExpired(cfg, s, now).state, e.sequence)
  {
    StaleRetires(cfg, s, now, e);
    assert ExpiredKeys(cfg, ExpireRejected(cfg, s, now), now) == ExpiredKeys(cfg, s, now);
  }

  lemma AddRetires(cfg: Config, s: State, record: Record, now: int, e: Event)
    requires ValidConfig(cfg) && Invariant(cfg, s) && e in AddRecovering(cfg, s, record, now).events
    ensures Retired(AddRecovering(cfg, s, record, now).state, e.sequence)
  {
    var w := Swept(cfg, s, now);
    SweepKeeps(cfg, s, now);
    DispatchAllFlow(cfg, w, record, now);
    DispatchNumbers(cfg, w, record, now);
    if e in ExpiredEvents(cfg, s, now) {
      StaleRetiresFromSweep(cfg, s, now, e);
      FlowKeepsRetired(w, [record], Dispatch(cfg, w, record, now), e.sequence);
    } else {
      FlowRetires(w, [record], Dispatch(cfg, w, record, now), e);
    }
  }

  lemma StepRetires(cfg: Config, s: State, op: Op, e: Event)
    requires ValidConfig(cfg) && Invariant(cfg, s) && Counts(op) && e in Step(cfg, s, op).events
    ensures Retired(Step(cfg, s, op).state, e.sequence)
  {
    match op
    case Add(record, now) => AddRetires(cfg, s, record, now, e);
    case Expire(now) => StaleRetiresFromSweep(cfg, s, now, e);
    case FlushAll(_) =>
    case RejectLine(_, _, _) =>
  }

  lemma AddIsFresh(cfg: Config, s: State, record: Record, now: int, e: Event, q: nat)
    requires ValidConfig(cfg) && Invariant(cfg, s) && Retired(s, q) && e in AddRecovering(cfg, s, record, now).events
    ensures e.sequence != q
  {
    var w := Swept(cfg, s, now);
    SweepKeeps(cfg, s, now);
    FewerGroupsKeepRetired(s, w, q);
    if e in ExpiredEvents(cfg, s, now) {
      StaleOwner(cfg, s, now, e);
    } else {
      DispatchAllFlow(cfg, w, record, now);
      FlowIsFresh(w, [record], Dispatch(cfg, w, record, now), e, q);
    }
  }

  lemma StepIsFresh(cfg: Config, s: State, op: Op, e: Event, q: nat)
    requires ValidConfig(cfg) && Invariant(cfg, s) && Counts(op) && Retired(s, q) && e in Step(cfg, s, op).events
    ensures e.sequence != q
  {
    match op
    case Add(record, now) => AddIsFresh(cfg, s, record, now, e, q);
    case Expire(now) => StaleOwner(cfg, s, now, e);
    case FlushAll(_) =>
    case RejectLine(_, _, _) =>
  }

  // ---------- whole runs ----------

  lemma {:induction false} RetiredLasts(cfg: Config, ops: seq<Op>, i: nat, j: nat, q: nat)
    requires ValidConfig(cfg) && i <= j <= |ops| && Retired(StateAt(cfg, ops, i), q)
    ensures Retired(StateAt(cfg, ops, j), q)
    decreases j - i
  {
    if i < j {
      RunKeepsInvariant(cfg, ops[..i]);
      StepKeepsRetired(cfg, StateAt(cfg, ops, i), ops[i], q);
      StateAfter(cfg, ops, i);
      RetiredLasts(cfg, ops, i + 1, j, q);
    }
  }

  /** What call `i` emitted is retired at every later moment. */
  lemma EmittedIsRetired(cfg: Config, ops: seq<Op>, i: nat, j: nat, e: Event)
    requires ValidConfig(cfg) && i < j <= |ops| && Counts(ops[i])
    requires e in Step(cfg, StateAt(cfg, ops, i), ops[i]).events
    ensures Retired(StateAt(cfg, ops, j), e.sequence)
  {
    RunKeepsInvariant(cfg, ops[..i]);
    StepRetires(cfg, StateAt(cfg, ops, i), ops[i], e);
    StateAfter(cfg, ops, i);
    RetiredLasts(cfg, ops, i + 1, j, e.sequence);
  }

  /** The theorem: over every run, no two events carry the same number, emitted
      numbers are below the next one, and no pending group carries an emitted one. */
  lemma EmittedNumbersAreUnique(cfg: Config, ops: seq<Op>, i: nat, j: nat, e: Event, f: Event)
    requires ValidConfig(cfg) && i <= j < |ops| && Counts(ops[i]) && Counts(ops[j])
    requires e in Step(cfg, StateAt(cfg, ops, i), ops[i]).events
    requires f in Step(cfg, StateAt(cfg, ops, j), ops[j]).events
    ensures e.sequence == f.sequence ==> i == j && e == f
    ensures var s := Run(cfg, ops).state;
            e.sequence < s.nextSequence && forall k :: k in s.pending ==> s.pending[k].sequence != e.sequence
  {
    EmittedIsRetired(cfg, ops, i, |ops|, e);
    assert ops[..|ops|] == ops;
    RunKeepsInvariant(cfg, ops[..j]);
    if i < j {
      EmittedIsRetired(cfg, ops, i, j, e);
      StepIsFresh(cfg, StateAt(cfg, ops, j), ops[j], f, e.sequence);
    } else {
      StepIsDistinct(cfg, StateAt(cfg, ops, j), ops[j]);
    }
  }
}
