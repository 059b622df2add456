/** One turn of the follow loop: what the rotating follower answers is an action of the
    checkpoint protocol, so the guards of that state machine are what the follower does. */
module FollowLoop {
  import opened Records
  import opened AssemblerSpec
  import opened StreamPreservation
  import opened SafePosition
  import opened CheckpointProtocol
  import C = Chain
  import F = Follower
  import L = Lines
  import R = Rotation

  /** Where a place of the follower lies in the numbering of the lineage. */
  function PointOfPlace(base: nat, p: F.Place): Point { Point(base + p.generation, p.offset) }

  /** The lineage knows the file under the generation the follower gives it. */
  ghost predicate Names(w: World, generation: nat, id: Identity)
    requires w.process.Up?
  {
    w.process.base + generation < |w.files| && w.files[w.process.base + generation] == id
  }

  /** The process stands at the place, and the lineage knows the open file. */
  ghost predicate Stands(w: World, place: F.Place, generation: nat, id: Identity) {
    && w.process.Up?
    && w.process.complete == PointOfPlace(w.process.base, place)
    && Names(w, generation, id)
  }

  /** The log's line is the one the follower returned. */
  ghost predicate IsLine(base: nat, l: Line, s: F.SourceLine) {
    && l.start == PointOfPlace(base, s.start) && l.end == PointOfPlace(base, s.end)
    && l.bytes == s.line.total && (l.body.Oversized? <==> s.line.omitted > 0)
  }

  /** Lines that start in the file start within its content: nothing is appended any more. */
  ghost predicate EndsWith(log: seq<Line>, file: nat, size: nat) {
    forall i :: 0 <= i < |log| && log[i].start.file == file ==> log[i].start.offset < size
  }

  /** The next line of the log is handled with that effect, and set aside or not. */
  ghost function PastLine(w: World, e: Effect, aside: bool): World
    requires w.process.Up? && w.process.next < |w.log|
  {
    var p, line := w.process, w.log[w.process.next];
    w.(frontier := Later(w.frontier, line.end),
       dropped := if aside then w.dropped + {p.next} else w.dropped - {p.next},
       process := p.(next := p.next + 1, complete := line.end, assembler := e.state,
                     unsynced := p.unsynced + e.outputs))
  }

  lemma ReadIsNext(cfg: Config, w: World, now: int, later: int, e: Effect, aside: bool)
    requires Running(w.process) && w.process.next < |w.log|
    requires w.log[w.process.next].start == w.process.complete && w.process.base <= w.process.complete.file < |w.files|
    requires var p, line := w.process, w.log[w.process.next];
             && e == HandleLine(cfg, w.files, p.base, p.assembler, line, now, later)
             && aside == Drops(cfg, w.files, p.base, p.assembler, line, now)
    ensures Next(cfg, w, ReadLine(now, later), PastLine(w, e, aside))
  {
  }

  lemma LineIsRead(cfg: Config, w: World, before: F.Place, s: F.SourceLine, now: int, later: int) returns (v: World)
    requires Running(w.process) && Placed(w) && w.process.next < |w.log|
    requires w.process.complete == PointOfPlace(w.process.base, before) && s.start == before
    requires IsLine(w.process.base, w.log[w.process.next], s)
    ensures Next(cfg, w, ReadLine(now, later), v)
    ensures v.files == w.files && v.process.Up? && v.process.base == w.process.base
    ensures v.process.complete == PointOfPlace(w.process.base, s.end)
  {
    var p, line := w.process, w.log[w.process.next];
    var e := HandleLine(cfg, w.files, p.base, p.assembler, line, now, later);
    var aside := Drops(cfg, w.files, p.base, p.assembler, line, now);
    v := PastLine(w, e, aside);
    ReadIsNext(cfg, w, now, later, e, aside);
  }

  /** Time passes at a place that no unread line starts before. */
  lemma TickIsNext(cfg: Config, w: World, now: int, complete: Point) returns (v: World)
    requires Running(w.process) && Le(w.process.complete, complete) && complete.file < |w.files|
    requires w.process.next < |w.log| ==> Le(complete, w.log[w.process.next].start)
    ensures Next(cfg, w, Tick(now, complete), v)
    ensures v.files == w.files && v.process.Up? && v.process.base == w.process.base && v.process.complete == complete
  {
    var p := w.process;
    var e := Emit(FlushExpired(cfg, p.assembler, now));
    v := w.(frontier := Later(w.frontier, complete),
            process := p.(complete := complete, assembler := e.state, unsynced := p.unsynced + e.outputs));
  }

  /** Where the follower stands after an idle call: the same place, or past a switch. */
  predicate Idles(before: F.Place, after: F.Place, generation: nat, size: nat, entered: nat, id: Identity) {
    (entered == generation && after == before) || R.MovesOn(before, after, generation, size, entered, id)
  }

  /** No unread line starts before the place that an idle call moves to. */
  lemma IdlingSkipsNoLine(w: World, before: F.Place, after: F.Place, generation: nat, size: nat, entered: nat,
                          id: Identity)
    requires w.process.Up? && Placed(w) && w.process.complete == PointOfPlace(w.process.base, before)
    requires Idles(before, after, generation, size, entered, id)
    requires EndsWith(w.log, w.process.base + generation, size) && Names(w, entered, id)
    ensures Le(w.process.complete, PointOfPlace(w.process.base, after))
    ensures w.process.base + after.generation < |w.files|
    ensures w.process.next < |w.log| ==> Le(PointOfPlace(w.process.base, after), w.log[w.process.next].start)
  {
    if w.process.next < |w.log| { assert Le(w.process.complete, w.log[w.process.next].start); }
  }

  /** What the process may conclude from an answer.  `generation` and `size` are those
      of the file that was open before the call, `entered` and `id` name the one that is
      open after it. */
  ghost predicate Answered(cfg: Config, w: World, v: World, next: R.Next, now: int, later: int,
                           after: F.Place, generation: nat, size: nat, entered: nat, id: Identity)
    requires w.process.Up?
  {
    match next
    case Line(l) =>
      w.process.next < |w.log| && IsLine(w.process.base, w.log[w.process.next], l) ==>
        Next(cfg, w, ReadLine(now, later), v) && Stands(v, after, entered, id)
    case Tick =>
      EndsWith(w.log, w.process.base + generation, size) && Names(w, entered, id) ==>
        Next(cfg, w, Tick(now, PointOfPlace(w.process.base, after)), v) && Stands(v, after, entered, id)
    case _ => v == w && Stands(w, after, entered, id)
  }

  lemma LineIsAnswered(cfg: Config, w: World, next: R.Next, now: int, later: int, before: F.Place, after: F.Place,
                       generation: nat, size: nat, id: Identity) returns (v: World)
    requires Running(w.process) && Placed(w) && Stands(w, before, generation, id)
    requires next.Line? && next.line.start == before && after == next.line.end
    ensures Answered(cfg, w, v, next, now, later, after, generation, size, generation, id)
  {
    v := w;
    if w.process.next < |w.log| && IsLine(w.process.base, w.log[w.process.next], next.line) {
      v := LineIsRead(cfg, w, before, next.line, now, later);
    }
  }

  lemma TickIsAnswered(cfg: Config, w: World, now: int, later: int, before: F.Place, after: F.Place,
                       generation: nat, size: nat, entered: nat, id: Identity) returns (v: World)
    requires Running(w.process) && Placed(w) && w.process.complete == PointOfPlace(w.process.base, before)
    requires Idles(before, after, generation, size, entered, id)
    ensures Answered(cfg, w, v, R.Tick, now, later, after, generation, size, entered, id)
  {
    v := w;
    if EndsWith(w.log, w.process.base + generation, size) && Names(w, entered, id) {
      IdlingSkipsNoLine(w, before, after, generation, size, entered, id);
      v := TickIsNext(cfg, w, now, PointOfPlace(w.process.base, after));
    }
  }

  /** One answer of the follower.  A line is the next of the log and is read from the
      complete position; an idle answer, a switch of files included, is a tick that
      passes no unread line; anything else leaves the process where it is. */
  method FollowOnce(follower: R.RotatingFollower, ghost cfg: Config, ghost w: World, script: seq<F.Read>,
                    view: C.Discovery, path: Option<Identity>, appended: seq<L.byte>, now: int, ghost later: int)
    returns (next: R.Next, ghost v: World)
    requires Running(w.process) && Placed(w) && follower.Valid()
    requires Stands(w, follower.complete, follower.current.generation, follower.current.identity)
    requires R.Real(view) && forall r :: r in script ==> r.capacity > 0
    requires view.Found? ==> C.OldestFirst(view.candidates) && C.DistinctIdentities(view.candidates) &&
                             path == Some(view.candidates[|view.candidates| - 1].identity)
    requires view.PathPending? ==> path == None
    modifies follower, follower.current
    ensures follower.Valid()
    ensures Answered(cfg, w, v, next, now, later, follower.complete, old(follower.current).generation,
                     |old(follower.current).content|, follower.current.generation, follower.current.identity)
  {
    ghost var before, left := follower.complete, follower.current;
    ghost var made;
    next, made := follower.Advance(script, view, path, appended, now);
    ghost var after, open := follower.complete, follower.current;
    v := w;
    match next {
      case Line(l) =>
        v := LineIsAnswered(cfg, w, next, now, later, before, after, left.generation, |left.content|, open.identity);
      case Tick =>
        v := TickIsAnswered(cfg, w, now, later, before, after, left.generation, |left.content|, open.generation,
                            open.identity);
      case _ =>
    }
  }
}
