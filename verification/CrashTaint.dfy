/** Taint across crashes: while a key is tainted the durable checkpoint lies at or
    before the evidence that tainted it, so the process that follows a crash reads
    that evidence again instead of starting in the middle of the key's event. */
module CrashTaint {
  import opened Records
  import opened AssemblerSpec
  import opened AssemblerInvariants
  import opened StreamPreservation
  import opened SafePosition
  import opened Isolation
  import opened ReplayPins
  import opened CheckpointProtocol

  // ---------- the process remembers nothing beyond what it has read ----------

  lemma BehindFurther(s: State, q: SourcePosition, r: SourcePosition)
    requires Behind(s, q) && Reaches(q, r)
    ensures Behind(s, r)
  {
  }

  /** Every position the process remembers is at or before its complete position. */
  ghost predicate BehindHere(w: World) {
    w.process.Up? ==>
      w.process.base <= w.process.complete.file < |w.files| && Behind(w.process.assembler, PositionAtAny(w))
  }

  lemma PlacesReach(files: seq<Identity>, base: nat, a: Point, b: Point)
    requires base <= a.file < |files| && base <= b.file < |files| && Le(a, b)
    ensures Reaches(PositionAt(files, base, a), PositionAt(files, base, b))
  {
  }

  lemma LineStaysBehind(cfg: Config, files: seq<Identity>, base: nat, s: State, line: Line, now: int, later: int,
                        q: SourcePosition)
    requires base <= line.start.file < |files|
    requires Behind(s, q) && Reaches(SourceOf(files, base, line), q)
    ensures Behind(HandleLine(cfg, files, base, s, line, now, later).state, q)
  {
    match line.body
    case Parsed(_, _, _) => StepStaysBehind(cfg, s, Add(RecordOf(files, base, line), now), q);
    case Malformed => StepStaysBehind(cfg, s, Expire(now), q);
    case Oversized(envelope) =>
      StepStaysBehind(cfg, s, Expire(now), q);
      StepStaysBehind(cfg, FlushExpired(cfg, s, now).state, RejectLine(envelope, SourceOf(files, base, line), later),
                      q);
  }

  lemma ReadLineStaysBehind(cfg: Config, w: World, now: int, later: int, v: World)
    requires Good(cfg, w) && Good(cfg, v) && BehindHere(w) && Next(cfg, w, ReadLine(now, later), v)
    ensures BehindHere(v)
  {
    var p, line := w.process, w.log[w.process.next];
    var here, there := PositionAt(w.files, p.base, p.complete), PositionAt(w.files, p.base, line.end);
    PlacesReach(w.files, p.base, p.complete, line.end);
    BehindFurther(p.assembler, here, there);
    assert Reaches(SourceOf(w.files, p.base, line), there);
    LineStaysBehind(cfg, w.files, p.base, p.assembler, line, now, later, there);
  }

  lemma TickedStateStaysBehind(cfg: Config, files: seq<Identity>, base: nat, s: State, now: int, from: Point,
                               complete: Point)
    requires base <= from.file < |files| && base <= complete.file < |files| && Le(from, complete)
    requires Behind(s, PositionAt(files, base, from))
    ensures Behind(FlushExpired(cfg, s, now).state, PositionAt(files, base, complete))
  {
    PlacesReach(files, base, from, complete);
    BehindFurther(s, PositionAt(files, base, from), PositionAt(files, base, complete));
    StepStaysBehind(cfg, s, Expire(now), PositionAt(files, base, complete));
  }

  lemma TickStaysBehind(cfg: Config, w: World, now: int, complete: Point, v: World)
    requires Good(cfg, w) && Good(cfg, v) && BehindHere(w) && Next(cfg, w, Tick(now, complete), v)
    ensures BehindHere(v)
  {
    var p := w.process;
    TickedStateStaysBehind(cfg, w.files, p.base, p.assembler, now, p.complete, complete);
  }

  lemma GrowStaysBehind(cfg: Config, w: World, ids: seq<Identity>, lines: seq<Line>, v: World)
    requires BehindHere(w) && Next(cfg, w, Grow(ids, lines), v)
    ensures BehindHere(v)
  {
    if w.process.Up? {
      var p := w.process;
      assert v.files[p.complete.file] == w.files[p.complete.file];
    }
  }

  lemma NextStaysBehind(cfg: Config, w: World, a: Action, v: World)
    requires Good(cfg, w) && Good(cfg, v) && BehindHere(w) && Next(cfg, w, a, v)
    ensures BehindHere(v)
  {
    match a
    case Grow(ids, lines) => GrowStaysBehind(cfg, w, ids, lines, v);
    case ReadLine(now, later) => ReadLineStaysBehind(cfg, w, now, later, v);
    case Tick(now, complete) => TickStaysBehind(cfg, w, now, complete, v);
    case Start =>
    case FlushForShutdown =>
    case Sync(_) =>
    case Save =>
    case Crash(_) =>
  }

  lemma {:induction false} BehaviourStaysBehind(cfg: Config, ws: seq<World>, actions: seq<Action>, i: nat)
    requires ValidConfig(cfg) && Behaviour(cfg, ws, actions) && i < |ws|
    ensures Good(cfg, ws[i]) && BehindHere(ws[i])
  {
    BehaviourIsGood(cfg, ws, actions, i);
    if i > 0 {
      BehaviourStaysBehind(cfg, ws, actions, i - 1);
      NextStaysBehind(cfg, ws[i - 1], actions[i - 1], ws[i]);
    }
  }

  // ---------- the taint of a running process ----------

  /** The line neither ends the taint of `k` nor replaces its pin, and comes in time. */
  ghost predicate LineSpares(cfg: Config, files: seq<Identity>, base: nat, s: State, line: Line, now: int, later: int,
                             k: Key, t: int)
    requires base <= line.start.file < |files|
  {
    && t <= now < t + cfg.timeout
    && match line.body
       case Parsed(_, _, _) => SparesTaint(cfg, s, Add(RecordOf(files, base, line), now), k)
       case Malformed => true
       case Oversized(envelope) =>
         t <= later < t + cfg.timeout &&
         SparesTaint(cfg, FlushExpired(cfg, s, now).state, RejectLine(envelope, SourceOf(files, base, line), later), k)
  }

  /** When the key was last heard of, once the line is handled. */
  function HeardAt(line: Line, now: int, later: int, k: Key, t: int): int {
    match line.body
    case Parsed(key, _, _) => if key == k then now else t
    case Malformed => t
    case Oversized(envelope) => if envelope == Some(k) then later else t
  }

  lemma LineKeepsCover(cfg: Config, files: seq<Identity>, base: nat, s: State, line: Line, now: int, later: int,
                       k: Key, t: int, q: SourcePosition)
    requires base <= line.start.file < |files|
    requires Covered(s, k, t, q) && LineSpares(cfg, files, base, s, line, now, later, k, t)
    ensures Covered(HandleLine(cfg, files, base, s, line, now, later).state, k, HeardAt(line, now, later, k, t), q)
  {
    match line.body
    case Parsed(_, _, _) => StepKeepsCover(cfg, s, Add(RecordOf(files, base, line), now), k, t, q);
    case Malformed => StepKeepsCover(cfg, s, Expire(now), k, t, q);
    case Oversized(envelope) =>
      StepKeepsCover(cfg, s, Expire(now), k, t, q);
      StepKeepsCover(cfg, FlushExpired(cfg, s, now).state, RejectLine(envelope, SourceOf(files, base, line), later), k,
                     t, q);
  }

  /** The action leaves the taint standing; a crash, a start and a shutdown flush do not. */
  ghost predicate ActionSpares(cfg: Config, w: World, a: Action, k: Key, t: int) {
    match a
    case Grow(_, _) => true
    case Sync(_) => true
    case Save => true
    case Tick(now, _) => t <= now < t + cfg.timeout
    case ReadLine(now, later) =>
      w.process.Up? && w.process.next < |w.log| && w.process.base <= w.log[w.process.next].start.file < |w.files| &&
      LineSpares(cfg, w.files, w.process.base, w.process.assembler, w.log[w.process.next], now, later, k, t)
    case Start => false
    case FlushForShutdown => false
    case Crash(_) => false
  }

  function HeardAfter(w: World, a: Action, k: Key, t: int): int {
    if a.ReadLine? && w.process.Up? && w.process.next < |w.log|
      then HeardAt(w.log[w.process.next], a.now, a.later, k, t) else t
  }

  ghost predicate CoveredIn(w: World, base: nat, k: Key, t: int, q: SourcePosition) {
    w.process.Up? && w.process.base == base && Covered(w.process.assembler, k, t, q)
  }

  lemma ActionKeepsCover(cfg: Config, w: World, a: Action, v: World, base: nat, k: Key, t: int, q: SourcePosition)
    requires CoveredIn(w, base, k, t, q) && Next(cfg, w, a, v) && ActionSpares(cfg, w, a, k, t)
    ensures CoveredIn(v, base, k, HeardAfter(w, a, k, t), q)
  {
    match a
    case ReadLine(now, later) =>
      LineKeepsCover(cfg, w.files, base, w.process.assembler, w.log[w.process.next], now, later, k, t, q);
    case Tick(now, _) => StepKeepsCover(cfg, w.process.assembler, Expire(now), k, t, q);
    case Grow(_, _) =>
    case Sync(_) =>
    case Save =>
  }

  /** From world `n` to world `j` every action leaves the taint standing. */
  ghost predicate Undisturbed(cfg: Config, ws: seq<World>, actions: seq<Action>, n: nat, j: nat, k: Key, t: int)
    requires |ws| == |actions| + 1 && n <= j < |ws|
    decreases j - n
  {
    n == j ||
    (ActionSpares(cfg, ws[n], actions[n], k, t) &&
     Undisturbed(cfg, ws, actions, n + 1, j, k, HeardAfter(ws[n], actions[n], k, t)))
  }

  lemma {:induction false} CoverLastsIn(cfg: Config, ws: seq<World>, actions: seq<Action>, n: nat, j: nat,
                                        base: nat, k: Key, t: int, q: SourcePosition) returns (last: int)
    requires Behaviour(cfg, ws, actions) && n <= j < |ws| && Undisturbed(cfg, ws, actions, n, j, k, t)
    requires CoveredIn(ws[n], base, k, t, q)
    ensures CoveredIn(ws[j], base, k, last, q)
    decreases j - n
  {
    last := t;
    if n < j {
      ActionKeepsCover(cfg, ws[n], actions[n], ws[n + 1], base, k, t, q);
      last := CoverLastsIn(cfg, ws, actions, n + 1, j, base, k, HeardAfter(ws[n], actions[n], k, t), q);
    }
  }

  // ---------- the exception, the crash, the restart ----------

  /** World `n` reads a plain line whose record goes out in the exceptional event `e`. */
  ghost predicate ReadsException(cfg: Config, w: World, a: Action, e: Event) {
    && a.ReadLine? && w.process.Up? && w.process.next < |w.log|
    && var line := w.log[w.process.next];
    && w.process.base <= line.start.file < |w.files|
    && line.body.Parsed? && !Terminal(line.body.kind) && e.exceptional
    && e in AddRecovering(cfg, w.process.assembler, RecordOf(w.files, w.process.base, line), a.now).events
  }

  lemma ExceptionCovers(cfg: Config, w: World, a: Action, v: World, e: Event)
    requires ValidConfig(cfg) && Good(cfg, w) && BehindHere(w) && Next(cfg, w, a, v) && ReadsException(cfg, w, a, e)
    ensures var p, line := w.process, w.log[w.process.next];
            && e.records != [] && Reaches(e.records[0].source, SourceOf(w.files, p.base, line))
            && CoveredIn(v, p.base, line.body.key, a.now, e.records[0].source)
  {
    var p, line := w.process, w.log[w.process.next];
    var record := RecordOf(w.files, p.base, line);
    BehindFurther(p.assembler, PositionAtAny(w), record.source);
    SweepStaysBehind(cfg, p.assembler, a.now, record.source);
    SweepKeeps(cfg, p.assembler, a.now);
    ExpiredAreNormal(cfg, p.assembler, a.now);
    DispatchCovers(cfg, Swept(cfg, p.assembler, a.now), record, a.now, e);
  }

  ghost function PlaceOf(base: nat, q: SourcePosition): Point { Point(base + q.generation, q.start) }

  /** While a key is covered the durable checkpoint is at or before its evidence. */
  lemma CheckpointWaits(cfg: Config, w: World, base: nat, k: Key, t: int, q: SourcePosition)
    requires Good(cfg, w) && CoveredIn(w, base, k, t, q)
    ensures Le(CheckpointPoint(w), PlaceOf(base, q))
  {
    var s := w.process.assembler;
    var pin := if k in s.rejected then s.rejected[k].source else s.spillSource;
    assert Pinned(s, pin);
    assert PinPlaced(w.files, base, Point(base + w.process.last.generation, w.process.last.end), pin);
    LeTransitive(CheckpointPoint(w), PlaceOf(base, pin), PlaceOf(base, q));
  }

  /** The line lies ahead: the durable checkpoint is not past it, nor is a running
      process. */
  ghost predicate StillToRead(w: World, i: nat) {
    && Named(w) && i < |w.log| && Le(CheckpointPoint(w), w.log[i].start)
    && (w.process.Up? ==> w.process.next <= i)
  }

  predicate Reads(w: World, a: Action, i: nat) { a.ReadLine? && w.process.Up? && w.process.next == i }

  lemma GrowLeavesAhead(cfg: Config, w: World, ids: seq<Identity>, lines: seq<Line>, v: World, i: nat)
    requires Good(cfg, v) && StillToRead(w, i) && Next(cfg, w, Grow(ids, lines), v)
    ensures StillToRead(v, i)
  {
    FileOfUnique(v.files, CheckpointPoint(w).file);
    assert CheckpointPoint(v) == CheckpointPoint(w);
    assert v.log[i] == w.log[i];
  }

  lemma StartLeavesAhead(cfg: Config, w: World, v: World, i: nat)
    requires StillToRead(w, i) && Next(cfg, w, Start, v)
    ensures StillToRead(v, i)
  {
    assert CheckpointPoint(v) == CheckpointPoint(w);
  }

  /** A running process that has not read the line is not past it. */
  lemma CompleteIsNotPast(cfg: Config, w: World, i: nat)
    requires Good(cfg, w) && w.process.Up? && w.process.next <= i < |w.log|
    ensures Le(CheckpointPoint(w), w.log[i].start)
  {
    assert Splits(w.log, w.process.next, w.process.complete);
    LeTransitive(CheckpointPoint(w), w.process.complete, w.log[i].start);
  }

  /** Only reading it takes the line out of what lies ahead: no save, crash or start. */
  lemma NextLeavesAhead(cfg: Config, w: World, a: Action, v: World, i: nat)
    requires Good(cfg, v) && StillToRead(w, i) && Next(cfg, w, a, v) && !Reads(w, a, i)
    ensures StillToRead(v, i)
  {
    match a
    case Grow(ids, lines) => GrowLeavesAhead(cfg, w, ids, lines, v, i);
    case Start => StartLeavesAhead(cfg, w, v, i);
    case Save => CompleteIsNotPast(cfg, v, i);
    case ReadLine(_, _) => CompleteIsNotPast(cfg, v, i);
    case Tick(_, _) => CompleteIsNotPast(cfg, v, i);
    case FlushForShutdown => CompleteIsNotPast(cfg, v, i);
    case Sync(_) => CompleteIsNotPast(cfg, v, i);
    case Crash(_) => assert CheckpointPoint(v) == CheckpointPoint(w);
  }

  /** Some process reads the line on the way from world `j` to world `m`. */
  ghost predicate RereadBetween(ws: seq<World>, actions: seq<Action>, j: nat, m: nat, i: nat)
    requires |ws| == |actions| + 1 && m < |ws|
  {
    exists r :: j <= r < m && Reads(ws[r], actions[r], i)
  }

  lemma {:induction false} AheadUntilReread(cfg: Config, ws: seq<World>, actions: seq<Action>, j: nat, m: nat, i: nat)
    requires ValidConfig(cfg) && Behaviour(cfg, ws, actions) && j <= m < |ws| && StillToRead(ws[j], i)
    ensures RereadBetween(ws, actions, j, m, i) || StillToRead(ws[m], i)
  {
    if j < m {
      AheadUntilReread(cfg, ws, actions, j, m - 1, i);
      if !RereadBetween(ws, actions, j, m - 1, i) && !Reads(ws[m - 1], actions[m - 1], i) {
        StepsFollow(cfg, ws, actions, m - 1);
        BehaviourIsGood(cfg, ws, actions, m);
        NextLeavesAhead(cfg, ws[m - 1], actions[m - 1], ws[m], i);
      }
    }
  }

  lemma CrashLeavesAhead(cfg: Config, w: World, kept: nat, v: World, at: Point, i: nat)
    requires Named(w) && Next(cfg, w, Crash(kept), v)
    requires Le(CheckpointPoint(w), at) && i < |w.log| && Le(at, w.log[i].start)
    ensures StillToRead(v, i)
  {
    assert CheckpointPoint(v) == CheckpointPoint(w);
    LeTransitive(CheckpointPoint(w), at, w.log[i].start);
  }

  lemma StepsFollow(cfg: Config, ws: seq<World>, actions: seq<Action>, n: nat)
    requires Behaviour(cfg, ws, actions) && n < |actions|
    ensures |ws| == |actions| + 1 && Next(cfg, ws[n], actions[n], ws[n + 1])
  {
  }

  lemma ExceptionCoversAt(cfg: Config, ws: seq<World>, actions: seq<Action>, n: nat, e: Event)
    requires ValidConfig(cfg) && Behaviour(cfg, ws, actions) && n < |actions|
    requires ReadsException(cfg, ws[n], actions[n], e)
    ensures e.records != []
    ensures CoveredIn(ws[n + 1], ws[n].process.base, ws[n].log[ws[n].process.next].body.key, actions[n].now,
                      e.records[0].source)
  {
    BehaviourStaysBehind(cfg, ws, actions, n);
    StepsFollow(cfg, ws, actions, n);
    ExceptionCovers(cfg, ws[n], actions[n], ws[n + 1], e);
  }

  /** The event left on the way into world `n`. */
  lemma ExceptionCoversUntil(cfg: Config, ws: seq<World>, actions: seq<Action>, n: nat, j: nat, e: Event,
                             base: nat, k: Key, t: int) returns (last: int)
    requires ValidConfig(cfg) && Behaviour(cfg, ws, actions) && 0 < n <= j < |actions|
    requires ReadsException(cfg, ws[n - 1], actions[n - 1], e)
    requires base == ws[n - 1].process.base && k == ws[n - 1].log[ws[n - 1].process.next].body.key &&
      t == actions[n - 1].now
    requires Undisturbed(cfg, ws, actions, n, j, k, t)
    ensures e.records != [] && CoveredIn(ws[j], base, k, last, e.records[0].source)
  {
    ExceptionCoversAt(cfg, ws, actions, n - 1, e);
    last := CoverLastsIn(cfg, ws, actions, n, j, base, k, t, e.records[0].source);
  }

  /** The theorem: if a plain line went out in an exceptional event on the way into
      world `n` and its key was tainted without interruption until the process died,
      that line, and every line from the first record of the event on, is read again:
      whatever crashes and starts follow, until some process reads it neither the
      durable checkpoint nor a running process is past it. */
  lemma TaintIsReread(cfg: Config, ws: seq<World>, actions: seq<Action>, n: nat, j: nat, m: nat, e: Event, i: nat)
    requires ValidConfig(cfg) && Behaviour(cfg, ws, actions)
    requires 0 < n <= j < m < |ws| && actions[j].Crash?
    requires ReadsException(cfg, ws[n - 1], actions[n - 1], e)
    requires Undisturbed(cfg, ws, actions, n, j, ws[n - 1].log[ws[n - 1].process.next].body.key, actions[n - 1].now)
    requires e.records != [] ==>
      i < |ws[j].log| && Le(PlaceOf(ws[n - 1].process.base, e.records[0].source), ws[j].log[i].start)
    ensures e.records != [] && (RereadBetween(ws, actions, j + 1, m, i) || StillToRead(ws[m], i))
  {
    var base, k := ws[n - 1].process.base, ws[n - 1].log[ws[n - 1].process.next].body.key;
    var last := ExceptionCoversUntil(cfg, ws, actions, n, j, e, base, k, actions[n - 1].now);
    BehaviourIsGood(cfg, ws, actions, j);
    CheckpointWaits(cfg, ws[j], base, k, last, e.records[0].source);
    StepsFollow(cfg, ws, actions, j);
    CrashLeavesAhead(cfg, ws[j], actions[j].kept, ws[j + 1], PlaceOf(base, e.records[0].source), i);
    AheadUntilReread(cfg, ws, actions, j + 1, m, i);
  }
}
