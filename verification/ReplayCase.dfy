/** A run in which the safe position passes the evidence of a tainted key: the fence
    alone covers the key, room becomes free, and an oversized line of the key is then
    tracked at its own place.  `ReplayPins.KeyedLineKeepsCover` says exactly when. */
module ReplayCase {
  import opened Records
  import opened AssemblerSpec
  import opened AssemblerInvariants
  import opened StreamPreservation
  import opened SafePosition
  import opened Isolation
  import opened ReplayPins

  /** Room for one pending key, one rejected key and one record per event. */
  const CASE := Config(10, 1, 1, 100)

  /** Two records of one key fill the rejected table, two of another raise the fence,
      the first key ends, then comes a line of the second too long to parse. */
  ghost predicate Script(ops: seq<Op>, r: seq<Record>, line: SourcePosition) {
    && |r| == 5
    && ops ==
      [Add(r[0], 0), Add(r[1], 0), Add(r[2], 1), Add(r[3], 1), Add(r[4], 2), RejectLine(Some(r[2].key), line, 3),
       Expire(11)]
    && (forall i :: 0 <= i < 5 ==> r[i].sourceBytes == 1 && r[i].auditTime.None? && KeyBytes(r[i].key) == 1)
    && (forall i :: 0 <= i < 4 ==> r[i].kind.Plain?) && r[4].kind.Single?
    && r[0].key == r[1].key == r[4].key != r[2].key == r[3].key
  }

  // ---------- the calls one by one ----------

  /** Nothing of the tables is due at `now`. */
  ghost predicate Quiet(s: State, now: int) {
    && (forall k :: k in s.rejected ==> now < s.rejected[k].lastSeen + CASE.timeout)
    && (forall k :: k in s.pending ==> now < s.pending[k].lastSeen + CASE.timeout && !s.pending[k].hasAuditTS)
    && (s.spillSince.Some? ==> now < s.spillSince.value + CASE.timeout)
  }

  lemma QuietSweep(s: State, now: int)
    requires Quiet(s, now)
    ensures Swept(CASE, s, now) == s && ExpiredEvents(CASE, s, now) == {}
  {
    assert ExpiredKeys(CASE, s, now) == {};
    assert ExpirePending(CASE, s, now) == s;
    assert ExpireRejected(CASE, s, now).rejected == s.rejected;
  }

  lemma NoBytes()
    ensures PendingTotal(map[]) == 0 && RejectedTotal(map[]) == 0
  {
    assert PendingWeights(map[]) == map[] && RejectedWeights(map[]) == map[];
  }

  function Alone(s: State, r: Record, now: int): Group { Group([r], s.nextSequence, now, 0, false, false) }

  lemma Opens(s: State, r: Record, now: int)
    requires s.pending == map[] && s.spillSince.None? && Quiet(s, now)
    requires r.key !in s.rejected && r.kind.Plain? && r.auditTime.None? && r.sourceBytes == 1
    ensures Step(CASE, s, Add(r, now)).state ==
      s.(pending := map[r.key := Alone(s, r, now)], nextSequence := s.nextSequence + 1)
  {
    var begun := s.(pending := map[r.key := Alone(s, r, now)], nextSequence := s.nextSequence + 1);
    QuietSweep(s, now);
    NoBytes();
    assert CheckLimits(CASE, s, r) == None;
    assert Joined(CASE, s, r, now) == begun by {
      assert Remark(s.pending, r.key, RecordEndsEpoch(CASE, s, r)) == map[];
      assert Extended(s, r, now) == Alone(s, r, now);
    }
    assert Closed(CASE, s, r, now) == Outcome(begun, {}, None);
    QuietSweep(begun, now);
    assert Dispatch(CASE, s, r, now) == Admit(CASE, s, r, now);
  }

  lemma Overflows(s: State, g: Group, r: Record, now: int)
    requires s.pending == map[r.key := g] && |g.records| == 1 && s.spillSince.None? && Quiet(s, now)
    requires r.key !in s.rejected && r.kind.Plain?
    ensures var o := Step(CASE, s, Add(r, now));
            && o.events == {ExceptionalEvent(g.sequence, r.key.id, [g.records[0], r])}
            && o.state == Isolate(CASE, s.(pending := map[]), r.key, g.records[0].source, g.records[0].source, now)
  {
    QuietSweep(s, now);
    assert CheckLimits(CASE, s, r) == Some(RecordsPerEvent);
    assert Remark(s.pending, r.key, false) - {r.key} == map[];
    assert Evicted(s, r.key) == s.(pending := map[]);
    assert g.records + [r] == [g.records[0], r];
    assert Dispatch(CASE, s, r, now) == Overflow(CASE, s, r, now, RecordsPerEvent);
    assert {} + Dispatch(CASE, s, r, now).events == Dispatch(CASE, s, r, now).events;
  }

  /** The key that overflowed is tracked if the table is empty, else the fence rises. */
  lemma OverflowIsolates(s: State, g: Group, r: Record, now: int)
    requires s.pending == map[r.key := g] && |g.records| == 1 && s.spillSince.None? && Quiet(s, now)
    requires r.key !in s.rejected && r.kind.Plain? && KeyBytes(r.key) == 1
    ensures var t, pin := Step(CASE, s, Add(r, now)).state, g.records[0].source;
            && (s.rejected == map[] ==> t == s.(pending := map[], rejected := map[r.key := Rejection(pin, now, 1)]))
            && (|s.rejected| == 1 ==> t == s.(pending := map[], spillSince := Some(now), spillSource := pin))
  {
    Overflows(s, g, r, now);
    NoBytes();
  }

  lemma Ends(s: State, r: Record, now: int)
    requires s.pending == map[] && s.rejected.Keys == {r.key} && r.kind.Single? && Quiet(s, now)
    ensures Step(CASE, s, Add(r, now)).state == s.(rejected := map[], nextSequence := s.nextSequence + 1)
  {
    QuietSweep(s, now);
    assert s.rejected - {r.key} == map[];
  }

  lemma LineIsTracked(s: State, k: Key, source: SourcePosition, now: int)
    requires s.pending == map[] && s.rejected == map[] && KeyBytes(k) == 1
    ensures Step(CASE, s, RejectLine(Some(k), source, now)).state == s.(rejected := map[k := Rejection(source, now, 1)])
  {
    NoBytes();
    assert s.pending - {k} == map[];
  }

  lemma FenceExpires(s: State, now: int)
    requires s.pending == map[] && s.spillSince.Some? && s.spillSince.value + CASE.timeout <= now
    requires forall k :: k in s.rejected ==> now < s.rejected[k].lastSeen + CASE.timeout
    ensures Step(CASE, s, Expire(now)).state == s.(spillSince := None, spillSource := NO_POSITION)
  {
    var swept := ExpireRejected(CASE, s, now);
    assert swept.rejected == s.rejected;
    assert ExpiredKeys(CASE, swept, now) == {};
    assert swept.pending - {} == map[];
  }

  // ---------- the whole run ----------

  const CLOCK := Clock(None, "", false)

  ghost predicate Empty(s: State) {
    s.pending == map[] && s.rejected == map[] && s.spillSince.None? && s.spillSource == NO_POSITION &&
      s.nextSequence == 0
  }

  /** The states of a run, one before each call and one at the end. */
  ghost predicate Traces(s: seq<State>, ops: seq<Op>) {
    |s| == |ops| + 1 && Empty(s[0]) && forall n :: 0 <= n < |ops| ==> Linked(s, ops, n)
  }

  ghost predicate Linked(s: seq<State>, ops: seq<Op>, n: nat)
    requires |s| == |ops| + 1 && n < |ops|
  {
    s[n + 1] == Step(CASE, s[n], ops[n]).state
  }

  lemma TraceOf(ops: seq<Op>) returns (s: seq<State>)
    ensures Traces(s, ops) && forall n :: 0 <= n <= |ops| ==> s[n] == StateAt(CASE, ops, n)
  {
    s := seq(|ops| + 1, n requires 0 <= n <= |ops| => StateAt(CASE, ops, n));
    assert ops[..0] == [];
    forall n | 0 <= n < |ops| ensures Linked(s, ops, n) { StateAfter(CASE, ops, n); }
  }

  function Opened(s: State, r: Record, now: int): State {
    s.(pending := map[r.key := Alone(s, r, now)], nextSequence := s.nextSequence + 1)
  }

  lemma OpensAt(s: seq<State>, ops: seq<Op>, n: nat, r: Record, now: int)
    requires Traces(s, ops) && n < |ops| && ops[n] == Add(r, now)
    requires s[n].pending == map[] && s[n].spillSince.None? && Quiet(s[n], now)
    requires r.key !in s[n].rejected && r.kind.Plain? && r.auditTime.None? && r.sourceBytes == 1
    ensures s[n + 1] == Opened(s[n], r, now)
  {
    assert Linked(s, ops, n);
    Opens(s[n], r, now);
  }

  lemma OverflowsAt(s: seq<State>, ops: seq<Op>, n: nat, g: Group, r: Record, now: int)
    requires Traces(s, ops) && n < |ops| && ops[n] == Add(r, now)
    requires s[n].pending == map[r.key := g] && |g.records| == 1 && s[n].spillSince.None? && Quiet(s[n], now)
    requires r.key !in s[n].rejected && r.kind.Plain? && KeyBytes(r.key) == 1
    ensures var pin := g.records[0].source;
            && (s[n].rejected == map[] ==>
              s[n + 1] == s[n].(pending := map[], rejected := map[r.key := Rejection(pin, now, 1)]))
            && (|s[n].rejected| == 1 ==>
              s[n + 1] == s[n].(pending := map[], spillSince := Some(now), spillSource := pin))
  {
    assert Linked(s, ops, n);
    OverflowIsolates(s[n], g, r, now);
  }

  lemma EndsAt(s: seq<State>, ops: seq<Op>, n: nat, r: Record, now: int)
    requires Traces(s, ops) && n < |ops| && ops[n] == Add(r, now)
    requires s[n].pending == map[] && s[n].rejected.Keys == {r.key} && r.kind.Single? && Quiet(s[n], now)
    ensures s[n + 1] == s[n].(rejected := map[], nextSequence := s[n].nextSequence + 1)
  {
    assert Linked(s, ops, n);
    Ends(s[n], r, now);
  }

  lemma LineAt(s: seq<State>, ops: seq<Op>, n: nat, k: Key, line: SourcePosition, now: int)
    requires Traces(s, ops) && n < |ops| && ops[n] == RejectLine(Some(k), line, now)
    requires s[n].pending == map[] && s[n].rejected == map[] && KeyBytes(k) == 1
    ensures s[n + 1] == s[n].(rejected := map[k := Rejection(line, now, 1)])
  {
    assert Linked(s, ops, n);
    LineIsTracked(s[n], k, line, now);
  }

  lemma ExpiresAt(s: seq<State>, ops: seq<Op>, n: nat, now: int)
    requires Traces(s, ops) && n < |ops| && ops[n] == Expire(now)
    requires s[n].pending == map[] && s[n].spillSince.Some? && s[n].spillSince.value + CASE.timeout <= now
    requires forall k :: k in s[n].rejected ==> now < s[n].rejected[k].lastSeen + CASE.timeout
    ensures s[n + 1] == s[n].(spillSince := None, spillSource := NO_POSITION)
  {
    assert Linked(s, ops, n);
    FenceExpires(s[n], now);
  }

  lemma FirstIsTracked(ops: seq<Op>, r: seq<Record>, line: SourcePosition, s: seq<State>)
    requires Script(ops, r, line) && Traces(s, ops)
    ensures s[2] == s[0].(rejected := map[r[0].key := Rejection(r[0].source, 0, 1)], nextSequence := 1)
  {
    OpensAt(s, ops, 0, r[0], 0);
    OverflowsAt(s, ops, 1, Alone(s[0], r[0], 0), r[1], 0);
  }

  lemma SecondOpens(ops: seq<Op>, r: seq<Record>, line: SourcePosition, s: seq<State>)
    requires Script(ops, r, line) && Traces(s, ops)
    ensures s[3] == s[0].(pending := map[r[2].key := Group([r[2]], 1, 1, 0, false, false)],
                          rejected := map[r[0].key := Rejection(r[0].source, 0, 1)], nextSequence := 2)
  {
    FirstIsTracked(ops, r, line, s);
    OpensAt(s, ops, 2, r[2], 1);
  }

  lemma SecondRaisesFence(ops: seq<Op>, r: seq<Record>, line: SourcePosition, s: seq<State>)
    requires Script(ops, r, line) && Traces(s, ops)
    ensures s[4] == s[0].(rejected := map[r[0].key := Rejection(r[0].source, 0, 1)],
                          spillSince := Some(1), spillSource := r[2].source, nextSequence := 2)
  {
    SecondOpens(ops, r, line, s);
    OverflowsAt(s, ops, 3, Group([r[2]], 1, 1, 0, false, false), r[3], 1);
  }

  lemma SecondStands(ops: seq<Op>, r: seq<Record>, line: SourcePosition, s: seq<State>)
    requires Script(ops, r, line) && Traces(s, ops)
    ensures s[3].pending == map[r[3].key := Group([r[2]], 1, 1, 0, false, false)] && r[3].key !in s[3].rejected
    ensures s[3].spillSince.None? && Quiet(s[3], 1)
  {
    SecondOpens(ops, r, line, s);
  }

  lemma SecondGoesOut(ops: seq<Op>, r: seq<Record>, line: SourcePosition, s: seq<State>)
    requires Script(ops, r, line) && Traces(s, ops)
    ensures Step(CASE, s[3], ops[3]).events == {ExceptionalEvent(1, r[3].key.id, [r[2], r[3]])}
  {
    SecondStands(ops, r, line, s);
    Overflows(s[3], Group([r[2]], 1, 1, 0, false, false), r[3], 1);
  }

  lemma FenceIsGone(ops: seq<Op>, r: seq<Record>, line: SourcePosition, s: seq<State>)
    requires Script(ops, r, line) && Traces(s, ops)
    ensures s[7] == s[0].(rejected := map[r[2].key := Rejection(line, 3, 1)], nextSequence := 3)
  {
    SecondRaisesFence(ops, r, line, s);
    EndsAt(s, ops, 4, r[4], 2);
    LineAt(s, ops, 5, r[2].key, line, 3);
    ExpiresAt(s, ops, 6, 11);
  }

  /** Whatever the records hold: the exception starts with the third record, its key is
      still tainted at the end, and the safe position is the line. */
  lemma ScriptMovesPin(ops: seq<Op>, r: seq<Record>, line: SourcePosition, fallback: SourcePosition)
    requires Script(ops, r, line) && line.valid && fallback.valid && StartsBefore(line, fallback)
    ensures ExceptionalEvent(1, r[3].key.id, [r[2], r[3]]) in Step(CASE, StateAt(CASE, ops, 3), ops[3]).events
    ensures Tainted(StateAt(CASE, ops, 7), r[2].key, 3)
    ensures IsSafe(StateAt(CASE, ops, 7), fallback, AtStart(line))
  {
    var s := TraceOf(ops);
    SecondGoesOut(ops, r, line, s);
    FenceIsGone(ops, r, line, s);
    LineIsTheOnlyPin(s[7], r[2].key, line, fallback);
  }

  lemma LineIsTheOnlyPin(s: State, k: Key, line: SourcePosition, fallback: SourcePosition)
    requires s.pending == map[] && s.rejected == map[k := Rejection(line, 3, 1)] && s.spillSource == NO_POSITION
    requires line.valid && fallback.valid && StartsBefore(line, fallback)
    ensures IsSafe(s, fallback, AtStart(line))
  {
    assert s.rejected[k].source == line;
    assert Pinned(s, line);
    forall p | Pinned(s, p) ensures p == line {}
  }

  // ---------- a run of this kind ----------

  function Offset(n: nat): SourcePosition { SourcePosition("", 1, 1, 0, n, n, 1, true) }

  function RecordAt(id: string, kind: Kind, n: nat): Record { Record(Key(id, "", false), kind, 1, Offset(n), None, "") }

  function Lines(): seq<Record> {
    [RecordAt("1", Plain, 0), RecordAt("1", Plain, 1), RecordAt("2", Plain, 2), RecordAt("2", Plain, 3),
     RecordAt("1", Single, 4)]
  }

  function Calls(): seq<Op> {
    var r := Lines();
    [Add(r[0], 0), Add(r[1], 0), Add(r[2], 1), Add(r[3], 1), Add(r[4], 2), RejectLine(Some(r[2].key), Offset(5), 3),
     Expire(11)]
  }

  lemma CallsAreInOrder(ops: seq<Op>)
    requires ops == Calls()
    ensures Timed(ops) && Forward(ops)
  {
  }

  /** The second key went out as an exception whose first record lies at offset 2, it
      is still tainted, and the safe position is 5. */
  lemma KeyedLineMovesPin()
    ensures
      var ops, k := Calls(), Key("2", "", false);
      && ValidConfig(CASE) && Timed(ops) && Forward(ops)
      && (exists e :: e in Step(CASE, StateAt(CASE, ops, 3), ops[3]).events && e.exceptional &&
                      e.records != [] && e.records[0].key == k && e.records[0].source == Offset(2))
      && Tainted(StateAt(CASE, ops, 7), k, 3)
      && IsSafe(StateAt(CASE, ops, 7), Offset(9), Offset(5)) && !Reaches(Offset(5), Offset(2))
  {
    var ops, r := Calls(), Lines();
    CallsAreInOrder(ops);
    ScriptMovesPin(ops, r, Offset(5), Offset(9));
    assert AtStart(Offset(5)) == Offset(5);
  }
}
