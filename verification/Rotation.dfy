/** Following an input across rename/create rotations.  The directory view of one
    call is taken as atomic; files only grow, also between the end-of-file read and
    the size check of the same call. */
module Rotation {
  import opened Lines
  import opened Follower
  import opened Chain
  import opened Records

  const NO_IDENTITY := Identity(0, 0)

  /** Which file cannot be followed on, and why, if that is said. */
  datatype Loss = Loss(identity: Identity, reason: string)

  datatype Next = Line(line: SourceLine) | Tick | Stopped | Gap(loss: Loss) | Failed

  /** All candidates are real files. */
  ghost predicate Real(view: Discovery) {
    view.Found? ==> forall c :: c in view.candidates ==> c.identity != NO_IDENTITY
  }

  /** Index of the file with this identity, or the length when there is none. */
  function IndexOf(cs: seq<Candidate>, id: Identity): (i: nat)
    ensures i <= |cs|
    ensures i < |cs| ==> cs[i].identity == id
    ensures forall j :: 0 <= j < i ==> cs[j].identity != id
  {
    if cs == [] || cs[0].identity == id then 0 else 1 + IndexOf(cs[1..], id)
  }

  /** The first known successor that the directory no longer shows. */
  method FirstMissing(shown: seq<Candidate>, known: seq<Candidate>) returns (n: nat)
    ensures n <= |known|
    ensures forall m :: 0 <= m < n ==> IndexOf(shown, known[m].identity) < |shown|
    ensures n < |known| ==> IndexOf(shown, known[n].identity) == |shown|
  {
    n := 0;
    while n < |known|
      invariant 0 <= n <= |known|
      invariant forall m :: 0 <= m < n ==> IndexOf(shown, known[m].identity) < |shown|
    {
      if IndexOf(shown, known[n].identity) == |shown| {
        return;
      }
      n := n + 1;
    }
  }

  /** The reader goes to the next generation.  An unfinished line keeps the complete
      position where it is; otherwise it goes along, from the very end of the file left. */
  predicate MovesOn(before: Place, after: Place, left: nat, size: nat, entered: nat, id: Identity) {
    && entered == left + 1
    && (after == before ||
        (after == Place(id, entered, 0, Anchor([])) && before.generation == left && before.offset == size))
  }

  /** A successor seen at a size of the open file, since an instant. */
  datatype Watch = Watch(identity: Identity, size: nat, since: int)

  const NO_WATCH := Watch(NO_IDENTITY, 0, 0)

  /** A watch goes on while successor and size are the same, else it begins anew. */
  function Watched(w: Watch, next: Identity, size: nat, now: int): Watch {
    if next == w.identity && size == w.size then w else Watch(next, size, now)
  }

  /** The size has stood still before the same successor for the whole interval. */
  predicate Elapsed(w: Watch, next: Identity, size: nat, now: int, interval: int) {
    next == w.identity && size == w.size && now - w.since >= interval
  }

  /** A file with this identity has a successor in the view. */
  predicate HasSuccessor(cs: seq<Candidate>, id: Identity) { IndexOf(cs, id) + 1 < |cs| }

  function Successor(cs: seq<Candidate>, id: Identity): Candidate
    requires HasSuccessor(cs, id)
  {
    cs[IndexOf(cs, id) + 1]
  }

  /** The known successor is not shown, and it is the first of which that is true. */
  predicate FirstGone(shown: seq<Candidate>, known: seq<Candidate>, n: nat) {
    && n < |known| && IndexOf(shown, known[n].identity) == |shown|
    && forall m :: 0 <= m < n ==> IndexOf(shown, known[m].identity) < |shown|
  }

  predicate AllShown(shown: seq<Candidate>, known: seq<Candidate>) {
    forall m :: 0 <= m < |known| ==> IndexOf(shown, known[m].identity) < |shown|
  }

  /** The first known successor that is gone, else the file behind which the chain breaks. */
  ghost predicate LostAmong(here: seq<Candidate>, shown: seq<Candidate>, known: seq<Candidate>, lost: Loss) {
    if AllShown(shown, known)
    then exists n: nat :: BreaksAt(here, n) && lost == Loss(here[n].identity, "missing_intermediate_generation")
    else exists n: nat :: FirstGone(shown, known, n) && lost == Loss(known[n].identity, "")
  }

  /** What a gap names: the open file if the view shows no successor of it, else what is
      lost among those. */
  ghost predicate IsLost(cs: seq<Candidate>, id: Identity, known: seq<Candidate>, lost: Loss) {
    if HasSuccessor(cs, id) then LostAmong(cs[IndexOf(cs, id)..], cs[IndexOf(cs, id) + 1..], known, lost)
    else lost == Loss(id, "")
  }

  method FindLost(here: seq<Candidate>, shown: seq<Candidate>, known: seq<Candidate>) returns (lost: Option<Loss>)
    ensures lost.None? <==> Contiguous(here) && AllShown(shown, known)
    ensures lost.Some? ==> LostAmong(here, shown, known, lost.value)
  {
    var missing := FirstMissing(shown, known);
    if missing < |known| {
      assert FirstGone(shown, known, missing);
      return Some(Loss(known[missing].identity, ""));
    }
    var broken := ValidateChain(here);
    if broken.None? {
      return None;
    }
    return Some(Loss(here[broken.value].identity, "missing_intermediate_generation"));
  }

  class RotatingFollower {
    const limit: nat
    const drainInterval: int
    var current: FileFollower
    var currentAtPath: bool
    var queued: seq<Candidate>
    var complete: Place
    var rotationCount: nat
    var pendingIdentity: Identity
    var drainStarted: int
    var drainSize: nat
    /** All bytes of the generations left behind and where reading began in the current one. */
    ghost var drained: seq<byte>
    ghost var base: nat
    /** Every line handed to the caller. */
    ghost var returned: seq<Physical>

    /** What the follower has read of the lineage. */
    ghost function Consumed(): seq<byte>
      reads this, current
      requires base <= current.readOffset <= |current.content|
    {
      drained + current.content[base..current.readOffset]
    }

    ghost predicate Valid()
      reads this, current
    {
      && current.Valid() && current.limit == limit
      && complete == current.Origin()
      && base <= current.readOffset
      && current.history == Consumed()
      && returned == DescribedAll(CompleteLines(current.history), limit)
      && (pendingIdentity != NO_IDENTITY ==> drainSize <= |current.content|)
      && (forall c :: c in queued ==> c.identity != NO_IDENTITY)
    }

    function Watching(): Watch
      reads this
    {
      Watch(pendingIdentity, drainSize, drainStarted)
    }

    /** The view offers a successor to go to: the open file is followed by others, and
        the switch was announced by an earlier view or by the path. */
    ghost predicate Seeks(view: Discovery)
      reads this, current
    {
      Leads(view, currentAtPath || queued != [])
    }

    /** From that place and that file to here. */
    ghost predicate HasMovedOn(before: Place, left: FileFollower)
      reads this, current, left
    {
      MovesOn(before, complete, left.generation, |left.content|, current.generation, current.identity)
    }

    /** Open the first file of a chain at a complete-line offset. */
    constructor (limit: nat, drainInterval: int, first: Candidate, offset: nat, queue: seq<Candidate>)
      requires 0 < limit && offset <= |first.content|
      requires forall c :: c in queue ==> c.identity != NO_IDENTITY
      ensures Valid() && fresh(current) && returned == [] && drained == [] && base == offset
      ensures current.content == first.content && queued == queue && currentAtPath == first.current
      ensures complete == Place(first.identity, 0, offset, Anchor(first.content[..offset]))
      ensures this.limit == limit && this.drainInterval == drainInterval
    {
      this.limit, this.drainInterval := limit, drainInterval;
      var f := new FileFollower(limit, first.identity, 0, first.content, offset);
      current, currentAtPath, queued := f, first.current, queue;
      complete := Place(first.identity, 0, offset, Anchor(first.content[..offset]));
      rotationCount, pendingIdentity, drainStarted, drainSize := 0, NO_IDENTITY, 0, 0;
      drained, base, returned := [], offset, [];
    }

    /** Read from the current file and keep the complete position in step with it. */
    method Pull(script: seq<Read>) returns (result: Result, ghost made: nat)
      requires Valid() && forall r :: r in script ==> r.capacity > 0
      modifies this`complete, this`returned, current
      ensures Valid()
      ensures old(current.content) <= current.content
      ensures result.LineRead? ==>
        && result.line.start == old(complete) && complete == result.line.end
        && complete.identity == current.identity && complete.generation == current.generation
        && returned == old(returned) + [result.line.line]
      ensures !result.LineRead? ==> complete == old(complete) && returned == old(returned)
      ensures result.Idle? ==> current.readOffset == |current.content|
      ensures made <= |script| && current.content == old(current.content) + Appearing(script[..made])
      ensures result.Cancelled? ==> current.readOffset == old(current.readOffset) + Taking(script)
      ensures result.LineRead? ==> current.readOffset > old(current.readOffset)
    {
      ghost var seen := current.history;
      ghost var from := current.readOffset;
      result, made := current.NextSource(script);
      ConsumedGrows(drained, old(current.content), current.content, base, from, current.readOffset);
      if result.LineRead? {
        complete := result.line.end;
        returned := returned + [result.line.line];
      }
    }

    /** Re-read the directory; the queue is everything newer than the current file. */
    method RefreshQueue(view: Discovery) returns (answer: Next)
      requires Real(view)
      modifies this`queued, this`currentAtPath
      ensures answer.Tick? || answer.Gap? || answer.Failed?
      ensures answer.Tick? && view.Found? ==>
        var cs, i := view.candidates, IndexOf(view.candidates, current.identity);
        && i < |cs|
        && (if cs[i].current then currentAtPath && queued == []
            else i + 1 < |cs| && queued == cs[i + 1..] && Contiguous(cs[i..]) && currentAtPath == old(currentAtPath))
      ensures !(answer.Tick? && view.Found?) ==> queued == old(queued) && currentAtPath == old(currentAtPath)
      ensures forall c :: c in queued ==> c.identity != NO_IDENTITY || c in old(queued)
      ensures answer.Tick? <==>
        view.PathPending? || (view.Found? && Resumable(view.candidates, current.identity, old(queued)))
      ensures answer.Gap? <==> view.Found? && !Resumable(view.candidates, current.identity, old(queued))
      ensures answer.Gap? ==> IsLost(view.candidates, current.identity, old(queued), answer.loss)
    {
      if view.PathPending? {
        return Tick;
      }
      if !view.Found? {
        return Failed;
      }
      var cs := view.candidates;
      var i := IndexOf(cs, current.identity);
      if i < |cs| && cs[i].current {
        currentAtPath, queued := true, [];
        return Tick;
      }
      if i + 1 >= |cs| {
        return Gap(Loss(current.identity, ""));
      }
      var lost := FindLost(cs[i..], cs[i + 1..], queued);
      if lost.Some? {
        return Gap(lost.value);
      }
      queued := cs[i + 1..];
      return Tick;
    }

    /** True only when the size has not changed for the whole drain interval; then
        every byte in the old file has been read. */
    method StableForSwitch(next: Identity, appended: seq<byte>, now: int) returns (stable: bool)
      requires Valid() && next != NO_IDENTITY
      requires pendingIdentity != NO_IDENTITY ==> drainSize <= current.readOffset
      modifies this`pendingIdentity, this`drainSize, this`drainStarted, current`content
      ensures Valid() && current.content == old(current.content) + appended
      ensures stable ==> current.readOffset == |current.content|
      ensures stable <==>
        next == old(pendingIdentity) && |current.content| == old(drainSize) && now - old(drainStarted) >= drainInterval
      ensures Watching() == if next != old(pendingIdentity) || |current.content| != old(drainSize)
        then Watch(next, |current.content|, now) else old(Watching())
    {
      current.Grow(appended);
      assert current.content[base..current.readOffset] == old(current.content)[base..current.readOffset];
      var size := |current.content|;
      if next != pendingIdentity || size != drainSize {
        pendingIdentity, drainSize, drainStarted := next, size, now;
        return false;
      }
      if now - drainStarted < drainInterval {
        return false;
      }
      return true;
    }

    /** Open the next generation and move an unfinished line there. */
    method OpenNext(candidate: Candidate) returns (next: FileFollower)
      requires current.Valid() && current.limit == limit
      modifies current`partial, current`lineBytes
      ensures fresh(next) && next.Valid() && next.limit == limit && next.history == current.history
      ensures next.identity == candidate.identity && next.generation == current.generation + 1
      ensures next.content == candidate.content && next.readOffset == 0
      ensures next.Origin() == if Tail(current.history) == []
        then Place(candidate.identity, next.generation, 0, Anchor([])) else old(current.Origin())
    {
      next := new FileFollower(limit, candidate.identity, current.generation + 1, candidate.content, 0);
      assert candidate.content[..0] == [];
      current.TransferPartialTo(next);
    }

    /** Continue in the next generation; an unfinished line goes along. */
    method SwitchTo(candidate: Candidate)
      requires Valid() && current.readOffset == |current.content|
      modifies this, current`partial, current`lineBytes
      ensures fresh(current)
      ensures Valid()
      ensures current.identity == candidate.identity && current.content == candidate.content && current.readOffset == 0
      ensures drained == old(drained) + old(current.content)[old(base)..] && base == 0
      ensures returned == old(returned) && rotationCount == old(rotationCount) + 1
      ensures complete == if Tail(old(Consumed())) == []
        then Place(candidate.identity, old(current.generation) + 1, 0, Anchor([])) else old(complete)
      ensures HasMovedOn(old(complete), old(current))
      ensures currentAtPath == candidate.current && queued == old(queued) && Watching() == NO_WATCH
    {
      var hadPartial := |current.partial| != 0;
      assert hadPartial <==> Tail(current.history) != [];
      ghost var consumed := drained + current.content[base..];
      var next := OpenNext(candidate);
      var start := if hadPartial then complete else Place(candidate.identity, next.generation, 0, next.originAnchor);
      Adopt(next, candidate, start, consumed);
    }

    /** Make the opened reader the current one. */
    method Adopt(next: FileFollower, candidate: Candidate, start: Place, ghost consumed: seq<byte>)
      requires next.Valid() && next.limit == limit && next.readOffset == 0
      requires next.history == consumed && returned == DescribedAll(CompleteLines(consumed), limit)
      requires start == next.Origin()
      requires forall c :: c in queued ==> c.identity != NO_IDENTITY
      modifies this
      ensures Valid() && current == next && drained == consumed && base == 0
      ensures returned == old(returned) && rotationCount == old(rotationCount) + 1
      ensures complete == next.Origin() && currentAtPath == candidate.current && queued == old(queued)
      ensures Watching() == NO_WATCH
    {
      NothingMore(consumed, next.content);
      current, currentAtPath, rotationCount, complete := next, candidate.current, rotationCount + 1, start;
      pendingIdentity, drainStarted, drainSize := NO_IDENTITY, 0, 0;
      drained, base := consumed, 0;
      assert next.Valid();
    }

    method ResetDrain()
      requires Valid()
      modifies this`pendingIdentity, this`drainStarted, this`drainSize
      ensures Valid() && Watching() == NO_WATCH
    {
      pendingIdentity, drainStarted, drainSize := NO_IDENTITY, 0, 0;
    }

    /** Move on to the first queued file once the current one is drained for good. */
    method SwitchWhenStable(appended: seq<byte>, now: int)
      requires Valid() && |queued| > 0
      requires pendingIdentity != NO_IDENTITY ==> drainSize <= current.readOffset
      modifies this, current`content, current`partial, current`lineBytes
      ensures Valid() && returned == old(returned)
      ensures current != old(current) <==>
        Elapsed(old(Watching()), old(queued)[0].identity, |old(current).content|, now, drainInterval)
      ensures old(current).content == old(current.content) + appended
      ensures current == old(current) ==>
        && complete == old(complete) && queued == old(queued) && currentAtPath == old(currentAtPath)
        && Watching() == Watched(old(Watching()), queued[0].identity, |current.content|, now)
      ensures current != old(current) ==>
        && fresh(current) && Drained(old(current))
        && queued == old(queued)[1..] && Watching() == NO_WATCH
        && drained == old(drained) + old(current).content[old(base)..]
        && current.identity == old(queued)[0].identity && HasMovedOn(old(complete), old(current))
    {
      var stable := StableForSwitch(queued[0].identity, appended, now);
      if !stable {
        return;
      }
      SwitchTo(queued[0]);
      queued := queued[1..];
      assert current.Valid();
    }

    /** Nothing of the file is unread. */
    ghost predicate Drained(f: FileFollower)
      reads f
    {
      f.readOffset == |f.content|
    }

    /** One call: a line, an idle tick, or an explicit gap.  `view` and `path` are
        what the directory shows, `appended` what the writer adds to the old file
        after the read that found its end, `made` how many of the reads were made. */
    method Advance(script: seq<Read>, view: Discovery, path: Option<Identity>, appended: seq<byte>, now: int)
      returns (next: Next, ghost made: nat)
      requires Valid() && Real(view) && forall r :: r in script ==> r.capacity > 0
      requires view.Found? ==> OldestFirst(view.candidates) && DistinctIdentities(view.candidates) &&
                               path == Some(view.candidates[|view.candidates| - 1].identity)
      requires view.PathPending? ==> path == None
      modifies this, current
      ensures Valid() && made <= |script|
      ensures next.Line? ==>
        && next.line.start == old(complete) && complete == next.line.end
        && complete.identity == current.identity && complete.generation == current.generation
        && returned == old(returned) + [next.line.line]
        && current.readOffset > old(current.readOffset)
      ensures next.Stopped? ==> current.readOffset == old(current.readOffset) + Taking(script)
      ensures next.Line? || next.Stopped? ==>
        current == old(current) && Watching() == old(Watching()) && queued == old(queued) &&
        current.content == old(current.content) + Appearing(script[..made])
      ensures !next.Line? ==> returned == old(returned)
      ensures !next.Line? && current == old(current) ==> complete == old(complete)
      ensures !next.Line? && !next.Stopped? && current == old(current) ==>
        current.readOffset == |old(current.content) + Appearing(script[..made])|
      ensures current != old(current) ==>
        && next.Tick? && HasMovedOn(old(complete), old(current))
        && fresh(current) && Drained(old(current)) && old(current.content) <= old(current).content
        && drained == old(drained) + old(current).content[old(base)..]
      ensures !next.Line? && !next.Stopped? ==>
        && (next.Gap? <==> view.Found? && !Resumable(view.candidates, old(current.identity), old(queued)))
        && (next.Gap? ==> IsLost(view.candidates, old(current.identity), old(queued), next.loss))
        && (next.Failed? <==>
              !view.Found? && !view.PathPending? &&
              (!old(currentAtPath) || (path.Some? && path.value != old(current.identity))))
        && var seen := old(current.content) + Appearing(script[..made]);
           if old(Seeks(view)) then Looked(old(current), seen, old(Watching()), view.candidates, appended, now)
           else
             current == old(current) && current.content == seen &&
             Watching() == if old(currentAtPath) && path == Some(current.identity) then NO_WATCH else old(Watching())
    {
      var result;
      result, made := Pull(script);
      if result.LineRead? {
        return Line(result.line), made;
      }
      if result.Cancelled? {
        return Stopped, made;
      }
      next := AtEndOfFile(view, path, appended, now);
    }

    /** The view shows the open file and its successors, and `waits` says that a switch
        was announced before. */
    ghost predicate Leads(view: Discovery, waits: bool)
      reads this, current
    {
      && view.Found? && Resumable(view.candidates, current.identity, queued)
      && !view.candidates[IndexOf(view.candidates, current.identity)].current && waits
    }

    /** What a look at the directory does to the queue, the watch and the open file;
        `left`, `seen` and `before` are the open file, its content and the watch before it. */
    ghost predicate Looked(left: FileFollower, seen: seq<byte>, before: Watch, cs: seq<Candidate>, appended: seq<byte>,
                           now: int)
      requires HasSuccessor(cs, left.identity)
      reads this, current, left
    {
      var i := IndexOf(cs, left.identity);
      && left.content == seen + appended
      && (current != left <==> Elapsed(before, cs[i + 1].identity, |left.content|, now, drainInterval))
      && (current == left ==>
            queued == cs[i + 1..] && Watching() == Watched(before, cs[i + 1].identity, |left.content|, now))
      && (current != left ==>
            queued == cs[i + 2..] && current.identity == cs[i + 1].identity && Watching() == NO_WATCH)
    }

    method Look(view: Discovery, waits: bool, appended: seq<byte>, now: int) returns (next: Next)
      requires Valid() && Real(view) && current.readOffset == |current.content|
      modifies this, current
      ensures Valid() && (next.Tick? || next.Gap? || next.Failed?) && returned == old(returned)
      ensures next.Gap? <==> view.Found? && !Resumable(view.candidates, old(current.identity), old(queued))
      ensures next.Gap? ==> IsLost(view.candidates, old(current.identity), old(queued), next.loss)
      ensures next.Failed? <==> !view.Found? && !view.PathPending?
      ensures current == old(current) ==> complete == old(complete) && current.readOffset == old(current.readOffset)
      ensures current != old(current) ==>
        && next.Tick? && HasMovedOn(old(complete), old(current))
        && fresh(current) && Drained(old(current)) && old(current.content) <= old(current).content
        && drained == old(drained) + old(current).content[old(base)..]
      ensures if old(Leads(view, waits))
        then Looked(old(current), old(current.content), old(Watching()), view.candidates, appended, now)
              else current == old(current) && current.content == old(current.content) && Watching() == old(Watching())
    {
      next := RefreshQueue(view);
      if next.Tick? && waits && view.Found? && |queued| != 0 {
        SwitchWhenStable(appended, now);
      }
    }

    /** Nothing left to read: look at the directory, and switch when it is safe. */
    method AtEndOfFile(view: Discovery, path: Option<Identity>, appended: seq<byte>, now: int) returns (next: Next)
      requires Valid() && Real(view) && current.readOffset == |current.content|
      requires view.Found? ==> OldestFirst(view.candidates) && DistinctIdentities(view.candidates) &&
                               path == Some(view.candidates[|view.candidates| - 1].identity)
      requires view.PathPending? ==> path == None
      modifies this, current
      ensures Valid() && (next.Tick? || next.Gap? || next.Failed?) && returned == old(returned)
      ensures next.Gap? <==> view.Found? && !Resumable(view.candidates, old(current.identity), old(queued))
      ensures next.Gap? ==> IsLost(view.candidates, old(current.identity), old(queued), next.loss)
      ensures next.Failed? <==>
        !view.Found? && !view.PathPending? &&
        (!old(currentAtPath) || (path.Some? && path.value != old(current.identity)))
      ensures current == old(current) ==> complete == old(complete) && current.readOffset == old(current.readOffset)
      ensures current != old(current) ==>
        && next.Tick? && HasMovedOn(old(complete), old(current))
        && fresh(current) && Drained(old(current)) && old(current.content) <= old(current).content
        && drained == old(drained) + old(current).content[old(base)..]
      ensures if old(Seeks(view))
        then Looked(old(current), old(current.content), old(Watching()), view.candidates, appended, now)
              else current == old(current) && current.content == old(current.content)
      ensures !old(Seeks(view)) ==>
        Watching() == if old(currentAtPath) && path == Some(current.identity) then NO_WATCH else old(Watching())
    {
      if !currentAtPath {
        next := Look(view, |queued| != 0, appended, now);
        return;
      }
      if path.None? {
        return Tick;
      }
      if path.value == current.identity {
        if view.Found? { PathIsActive(view.candidates, current.identity); }
        queued := [];
        ResetDrain();
        return Tick;
      }
      next := Look(view, true, appended, now);
    }
  }

  /** The file at the path is the active one of the view. */
  lemma PathIsActive(cs: seq<Candidate>, id: Identity)
    requires OldestFirst(cs) && DistinctIdentities(cs) && cs[|cs| - 1].identity == id
    ensures IndexOf(cs, id) < |cs| && cs[IndexOf(cs, id)].current
  {
    var last := cs[|cs| - 1];
    assert last.identity == id;
    ActiveIsLast(cs, id);
  }

  // ---------- rotations are followed ----------

  lemma ShownIsFound(shown: seq<Candidate>, m: nat)
    requires m < |shown|
    ensures IndexOf(shown, shown[m].identity) < |shown|
  {
  }

  /** What a successful look queued is still resumable from the same view. */
  lemma QueuedIsResumable(cs: seq<Candidate>, id: Identity, known: seq<Candidate>)
    requires Resumable(cs, id, known) && HasSuccessor(cs, id)
    ensures Resumable(cs, id, cs[IndexOf(cs, id) + 1..])
  {
    var shown := cs[IndexOf(cs, id) + 1..];
    forall m | 0 <= m < |shown| ensures IndexOf(shown, shown[m].identity) < |shown| { ShownIsFound(shown, m); }
  }

  /** Nothing of the open file is unread, and the view offers a successor. */
  ghost predicate AtItsEnd(f: RotatingFollower, view: Discovery, path: Option<Identity>)
    reads f, f.current
  {
    && f.Valid() && f.current.readOffset == |f.current.content| && f.Seeks(view)
    && Real(view) && view.Found? && OldestFirst(view.candidates) && DistinctIdentities(view.candidates)
    && path == Some(view.candidates[|view.candidates| - 1].identity)
  }

  lemma NothingAppears(script: seq<Read>, made: nat, content: seq<byte>)
    requires |script| == 1 && script[0].appended == [] && made <= 1
    ensures content + Appearing(script[..made]) == content && Taking(script) == script[0].capacity
  {
    assert script[..0] == [] && script[..1] == script;
  }

  /** A read of nothing at the end of the file finds its end again. */
  method QuietCall(f: RotatingFollower, view: Discovery, path: Option<Identity>, capacity: nat, now: int)
    requires AtItsEnd(f, view, path) && capacity > 0
    modifies f, f.current
    ensures f.Valid() && f.returned == old(f.returned)
    ensures f.Looked(old(f.current), old(f.current.content), old(f.Watching()), view.candidates, [], now)
    ensures f.current == old(f.current) ==> AtItsEnd(f, view, path)
  {
    var script := [Read([], capacity)];
    ghost var made;
    var next;
    next, made := f.Advance(script, view, path, [], now);
    NothingAppears(script, made, old(f.current.content));
    QueuedIsResumable(view.candidates, old(f.current.identity), old(f.queued));
  }

  /** The theorem: at the end of a file that gets no more bytes and has successors, two
      calls the drain interval apart lead into the first successor. */
  method TwoQuietCalls(f: RotatingFollower, view: Discovery, path: Option<Identity>, capacity: nat, first: int,
                       second: int)
    requires AtItsEnd(f, view, path) && capacity > 0
    requires f.drainStarted <= first && second - first >= f.drainInterval
    modifies f, f.current
    ensures f.Valid() && f.current != old(f.current) && f.returned == old(f.returned)
    ensures f.current.identity == Successor(view.candidates, old(f.current.identity)).identity
  {
    var open := f.current;
    QuietCall(f, view, path, capacity, first);
    if f.current == open {
      QuietCall(f, view, path, capacity, second);
    }
  }

  // ---------- opening ----------

  /** What a checkpoint says of the place to resume from. */
  datatype Mark = Mark(identity: Identity, offset: nat, anchor: seq<byte>)

  /** Why a follower cannot resume: each is the first check that fails. */
  datatype OpenError = NoListing | NotRetained | Shrunk | Foreign | InsideLine | BrokenChain

  /** The file is the one the checkpoint saw, and the offset a line boundary in it. */
  predicate Matches(c: Candidate, mark: Mark) {
    && mark.offset <= |c.content|
    && Anchor(c.content[..mark.offset]) == mark.anchor
    && (mark.offset > 0 ==> c.content[mark.offset - 1] == NEWLINE)
  }

  method CheckFile(c: Candidate, mark: Mark) returns (error: Option<OpenError>)
    ensures error.None? <==> Matches(c, mark)
    ensures error.Some? ==> error.value in {Shrunk, Foreign, InsideLine}
    ensures error == Some(Shrunk) <==> |c.content| < mark.offset
    ensures error == Some(Foreign) <==> mark.offset <= |c.content| && Anchor(c.content[..mark.offset]) != mark.anchor
  {
    if |c.content| < mark.offset {
      return Some(Shrunk);
    }
    if Anchor(c.content[..mark.offset]) != mark.anchor {
      return Some(Foreign);
    }
    if mark.offset > 0 && c.content[mark.offset - 1] != NEWLINE {
      return Some(InsideLine);
    }
    return None;
  }

  /** Resume at a checkpoint.  It works exactly when the file is retained, is the file
      the checkpoint saw, and everything newer follows it without a gap; then the
      next line starts at the checkpoint and the successors wait in order. */
  method OpenAt(view: Discovery, mark: Mark, limit: nat, drainInterval: int)
    returns (follower: RotatingFollower?, error: Option<OpenError>)
    requires 0 < limit && Real(view)
    ensures error.None? <==>
      view.Found? && var cs, i := view.candidates, IndexOf(view.candidates, mark.identity);
      i < |cs| && Matches(cs[i], mark) && Contiguous(cs[i..])
    ensures error == Some(NoListing) <==> !view.Found?
    ensures error == Some(NotRetained) <==> view.Found? && IndexOf(view.candidates, mark.identity) == |view.candidates|
    ensures error == Some(BrokenChain) <==>
      view.Found? && var cs, i := view.candidates, IndexOf(view.candidates, mark.identity);
      i < |cs| && Matches(cs[i], mark) && !Contiguous(cs[i..])
    ensures error.Some? <==> follower == null
    ensures follower != null ==>
      var cs, i := view.candidates, IndexOf(view.candidates, mark.identity);
      && fresh(follower) && fresh(follower.current) && follower.Valid()
      && follower.complete == Place(mark.identity, 0, mark.offset, mark.anchor)
      && follower.current.content == cs[i].content && follower.base == mark.offset && follower.drained == []
      && follower.queued == cs[i + 1..] && follower.currentAtPath == cs[i].current && follower.returned == []
  {
    if !view.Found? {
      return null, Some(NoListing);
    }
    var cs := view.candidates;
    var i := IndexOf(cs, mark.identity);
    if i == |cs| {
      return null, Some(NotRetained);
    }
    error := CheckFile(cs[i], mark);
    if error.Some? {
      return null, error;
    }
    var broken := ValidateChain(cs[i..]);
    if broken.Some? {
      return null, Some(BrokenChain);
    }
    follower := new RotatingFollower(limit, drainInterval, cs[i], mark.offset, cs[i + 1..]);
  }

  /** Start over after a gap: at the first byte of the oldest file from which the
      chain to the active file is unbroken. */
  method OpenRecovery(view: Discovery, limit: nat, drainInterval: int) returns (follower: RotatingFollower?)
    requires 0 < limit && Real(view)
    requires view.Found? ==> OldestFirst(view.candidates)
    ensures follower != null <==> view.Found?
    ensures follower != null ==>
      && fresh(follower) && fresh(follower.current) && follower.Valid() && follower.returned == []
      && exists start: nat :: start < |view.candidates| && StartsRecovery(view.candidates, start) &&
           follower.complete == Place(view.candidates[start].identity, 0, 0, Anchor([])) &&
           follower.queued == view.candidates[start + 1..] && follower.current.content == view.candidates[start].content
  {
    if !view.Found? {
      return null;
    }
    var cs := view.candidates;
    var start := RecoveryStart(cs);
    assert StartsRecovery(cs, start);
    assert cs[start].content[..0] == [];
    follower := new RotatingFollower(limit, drainInterval, cs[start], 0, cs[start + 1..]);
  }

  /** The chain is unbroken from `start` on and from no older file. */
  ghost predicate StartsRecovery(cs: seq<Candidate>, start: nat) {
    start < |cs| && forall i :: 0 <= i < |cs| ==> (Contiguous(cs[i..]) <==> start <= i)
  }

  /** What a resumed follower will return continues what came before the checkpoint. */
  lemma ResumedLinesContinue(c: Candidate, mark: Mark)
    requires Matches(c, mark)
    ensures CompleteLines(c.content) == CompleteLines(c.content[..mark.offset]) +
      CompleteLines(c.content[mark.offset..])
    ensures Tail(c.content) == Tail(c.content[mark.offset..])
  {
    assert c.content == c.content[..mark.offset] + c.content[mark.offset..];
    BoundarySplits(c.content[..mark.offset], c.content[mark.offset..]);
  }

  lemma NothingMore(consumed: seq<byte>, content: seq<byte>)
    ensures consumed + content[0..0] == consumed
  {
  }

  /** Only the last file is the active one. */
  lemma ActiveIsLast(cs: seq<Candidate>, id: Identity)
    requires OldestFirst(cs) && DistinctIdentities(cs)
    requires IndexOf(cs, id) < |cs|
    ensures cs[IndexOf(cs, id)].current <==> id == cs[|cs| - 1].identity
  {
    var i, last := IndexOf(cs, id), |cs| - 1;
    if i < last { assert cs[i].identity != cs[last].identity; }
  }

  /** A refresh succeeds: the current file is active again, or its successors are all
      there, known ones included, without a gap. */
  ghost predicate Resumable(cs: seq<Candidate>, id: Identity, known: seq<Candidate>) {
    var i := IndexOf(cs, id);
    && i < |cs|
    && (cs[i].current ||
        (i + 1 < |cs| && Contiguous(cs[i..]) && AllShown(cs[i + 1..], known)))
  }
}
