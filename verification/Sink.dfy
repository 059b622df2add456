/** The append-only event sink and the checkpoint writer that depends on it: a
    checkpoint is saved only when every event ever handed to the sink is durable. */
module Sink {
  import opened Records
  import opened AssemblerSpec
  import opened SafePosition
  import opened CheckpointProtocol

  /** One output file: complete lines, how many of them are synced, and whether a
      partial line follows them. */
  datatype Inode = Inode(lines: seq<Output>, synced: nat, torn: bool)

  function Lines(files: seq<Inode>): seq<Output> {
    if files == [] then [] else Lines(files[..|files| - 1]) + files[|files| - 1].lines
  }

  /** What a crash leaves of a file: its synced lines. */
  function Kept(f: Inode): seq<Output> {
    if f.synced <= |f.lines| then f.lines[..f.synced] else f.lines
  }

  function KeptLines(files: seq<Inode>): seq<Output> {
    if files == [] then [] else KeptLines(files[..|files| - 1]) + Kept(files[|files| - 1])
  }

  /** Every line of every file is synced. */
  ghost predicate Settled(files: seq<Inode>) {
    forall i :: 0 <= i < |files| ==> files[i].synced == |files[i].lines|
  }

  lemma {:induction false} SettledFilesSurvive(files: seq<Inode>)
    requires Settled(files)
    ensures KeptLines(files) == Lines(files)
  {
    if files != [] {
      SettledFilesSurvive(files[..|files| - 1]);
      var f := files[|files| - 1];
      assert f.lines[..f.synced] == f.lines;
    }
  }

  lemma OneMoreFile(files: seq<Inode>, f: Inode)
    ensures Lines(files + [f]) == Lines(files) + f.lines
    ensures KeptLines(files + [f]) == KeptLines(files) + Kept(f)
  {
    assert (files + [f])[..|files|] == files;
  }

  /** What the system answers when the sink compares its descriptor with its path. */
  datatype Lookup = SameFile | LookupFails | Replaced(opens: bool, syncs: bool, closes: bool)

  /** How much of a line an encode call got out. */
  datatype Encoding = Whole | Torn | Nothing

  class EventSink {
    const managed: bool
    const syncEachWrite: bool
    var current: Inode
    var failed: bool
    /** The files a rotation, or an earlier process, left behind. */
    ghost var earlier: seq<Inode>
    ghost var attempted: seq<Output>
    ghost var accepted: seq<Output>

    /** Every line in every file, in the order written. */
    ghost function Contents(): seq<Output>
      reads this
    {
      Lines(earlier) + current.lines
    }

    /** What survives a crash at this moment: of every file, what was synced. */
    ghost function Surviving(): seq<Output>
      reads this
    {
      KeptLines(earlier) + Kept(current)
    }

    /** The files hold what was accepted, and those left behind are synced; a healthy
        sink's files hold nothing else. */
    ghost predicate Filed()
      reads this
    {
      && current.synced <= |current.lines| && Settled(earlier)
      && accepted <= Contents()
      && (!failed ==> !current.torn && accepted == Contents())
    }

    ghost predicate Valid()
      reads this
    {
      Filed() && (!failed ==> attempted == accepted)
    }

    constructor (managed: bool, syncEachWrite: bool)
      ensures Valid() && !failed && attempted == accepted == [] && Contents() == []
      ensures this.managed == managed && this.syncEachWrite == syncEachWrite
    {
      this.managed, this.syncEachWrite := managed, syncEachWrite;
      current, failed := Inode([], 0, false), false;
      earlier, attempted, accepted := [], [], [];
    }

    /** Append to a file that an earlier process wrote. */
    constructor Append(found: Inode, syncEachWrite: bool, ghost before: seq<Inode>)
      requires !found.torn && found.synced <= |found.lines| && Settled(before)
      ensures Valid() && !failed && attempted == accepted == Contents()
      ensures earlier == before && current == found
      ensures this.managed && this.syncEachWrite == syncEachWrite
    {
      managed, this.syncEachWrite := true, syncEachWrite;
      current, failed := found, false;
      earlier, attempted, accepted := before, Lines(before) + found.lines, Lines(before) + found.lines;
    }

    lemma SyncedIsAll()
      requires Settled(earlier) && current.synced == |current.lines|
      ensures Surviving() == Contents()
    {
      SettledFilesSurvive(earlier);
    }

    lemma SurvivorsComeFirst()
      requires Filed()
      ensures Surviving() <= Contents()
    {
      SettledFilesSurvive(earlier);
    }

    /** The only way a line of the current file gets to the disk. */
    method SyncFile(works: bool) returns (ok: bool)
      modifies this`current
      ensures ok <==> works
      ensures current == if works then old(current).(synced := |old(current).lines|) else old(current)
      ensures Contents() == old(Contents()) && old(Surviving()) <= Surviving()
    {
      if works {
        current := current.(synced := |current.lines|);
      }
      return works;
    }

    /** Leave a synced file for a new one. */
    method TakeOver()
      requires Filed() && current.synced == |current.lines|
      modifies this`earlier, this`current
      ensures Filed() && Contents() == old(Contents()) && Surviving() == old(Surviving())
      ensures earlier == old(earlier) + [old(current)] && current == Inode([], 0, false)
    {
      OneMoreFile(earlier, current);
      earlier := earlier + [current];
      current := Inode([], 0, false);
    }

    /** The path still leads to the open file, or a new one could be taken over. */
    predicate Reaches(lookup: Lookup) {
      !managed || lookup.SameFile? || (lookup.Replaced? && lookup.opens && lookup.syncs && lookup.closes)
    }

    /** After a rotation the old file is synced before the new one takes over. */
    method ReopenIfRotated(lookup: Lookup) returns (ok: bool)
      requires Filed()
      modifies this`earlier, this`current
      ensures Filed() && Contents() == old(Contents())
      ensures old(Surviving()) <= Surviving()
      ensures if managed && lookup.Replaced? && lookup.opens && lookup.syncs
        then
          current == Inode([], 0, false) && earlier == old(earlier) + [old(current).(synced := |old(current).lines|)]
        else current == old(current) && earlier == old(earlier)
      ensures ok <==> Reaches(lookup)
    {
      if !managed || lookup.SameFile? {
        return true;
      }
      if lookup.LookupFails? || !lookup.opens {
        return false;
      }
      ok := SyncFile(lookup.syncs);
      if !ok {
        return;
      }
      TakeOver();
      return lookup.closes;
    }

    /** Write one event; a failure of any kind is remembered for good.  When each write
        is synced, success means that everything accepted is on disk. */
    method Write(e: Output, lookup: Lookup, encoding: Encoding, syncs: bool) returns (ok: bool)
      requires Valid()
      modifies this
      ensures Valid()
      ensures attempted == old(attempted) + [e]
      ensures ok <==> !old(failed) && Reaches(lookup) && encoding.Whole? && (syncEachWrite && managed ==> syncs)
      ensures ok <==> !failed
      ensures ok && syncEachWrite && managed ==> Surviving() == accepted
      ensures Contents() == old(Contents()) + if !old(failed) && Reaches(lookup) && encoding.Whole? then [e] else []
      ensures !old(failed) ==> (current.torn <==> Reaches(lookup) && encoding.Torn?)
      ensures accepted == if ok then old(accepted) + [e] else old(accepted)
      ensures old(Surviving()) <= Surviving()
    {
      attempted := attempted + [e];
      if failed {
        return false;
      }
      ok := Put(e, lookup, encoding, syncs);
      if !ok {
        failed := true;
        return false;
      }
      accepted := accepted + [e];
      if syncEachWrite && managed {
        SyncedIsAll();
      }
      return true;
    }

    /** Reach the file, then put the line there. */
    method Put(e: Output, lookup: Lookup, encoding: Encoding, syncs: bool) returns (ok: bool)
      requires Filed() && !current.torn
      modifies this`earlier, this`current
      ensures current.synced <= |current.lines| && Settled(earlier)
      ensures ok <==> Reaches(lookup) && encoding.Whole? && (syncEachWrite && managed ==> syncs)
      ensures Contents() == old(Contents()) + if Reaches(lookup) && encoding.Whole? then [e] else []
      ensures current.torn <==> Reaches(lookup) && encoding.Torn?
      ensures ok && syncEachWrite && managed ==> current.synced == |current.lines|
      ensures old(Surviving()) <= Surviving()
    {
      ok := ReopenIfRotated(lookup);
      if !ok {
        return;
      }
      ok := Encode(e, encoding, syncs);
    }

    /** Put one line into the current file, and sync it if every write is synced. */
    method Encode(e: Output, encoding: Encoding, syncs: bool) returns (ok: bool)
      requires current.synced <= |current.lines| && !current.torn
      modifies this`current
      ensures current.synced <= |current.lines| && old(Surviving()) <= Surviving()
      ensures Contents() == if encoding.Whole? then old(Contents()) + [e] else old(Contents())
      ensures ok <==> encoding.Whole? && (syncEachWrite && managed ==> syncs)
      ensures current.torn <==> encoding.Torn?
      ensures ok && syncEachWrite && managed ==> current.synced == |current.lines|
    {
      match encoding {
        case Nothing =>
          return false;
        case Torn =>
          current := current.(torn := true);
          return false;
        case Whole =>
          current := current.(lines := current.lines + [e]);
          assert Contents() == old(Contents()) + [e];
      }
      if syncEachWrite && managed {
        ok := SyncFile(syncs);
        return;
      }
      return true;
    }

    /** Success means that every event ever offered was accepted and, in a managed
        file, is on disk in order; a failed sink never commits again. */
    method Commit(lookup: Lookup, syncs: bool) returns (ok: bool)
      requires Valid()
      modifies this`earlier, this`current
      ensures Valid() && accepted == old(accepted) && Contents() == old(Contents())
      ensures ok <==> !failed && Reaches(lookup) && (managed ==> syncs)
      ensures ok ==> attempted == accepted == Contents()
      ensures ok && managed ==> Surviving() == accepted
      ensures old(Surviving()) <= Surviving()
    {
      if failed {
        return false;
      }
      ok := ReopenIfRotated(lookup);
      if !ok || !managed {
        return;
      }
      ok := SyncFile(syncs);
      SettledFilesSurvive(earlier);
    }
  }

  /** Open the configured output: an incomplete last line is refused, anything else is
      appended to. */
  method OpenFileSink(found: Inode, syncEachWrite: bool, ghost before: seq<Inode>) returns (sink: EventSink?)
    requires found.synced <= |found.lines| && Settled(before)
    ensures sink == null <==> found.torn
    ensures sink != null ==>
      && fresh(sink) && sink.Valid() && !sink.failed && sink.managed && sink.syncEachWrite == syncEachWrite
      && sink.attempted == sink.accepted == sink.Contents() == Lines(before) + found.lines
      && sink.Surviving() == KeptLines(before) + Kept(found)
  {
    if found.torn {
      return null;
    }
    sink := new EventSink.Append(found, syncEachWrite, before);
  }

  datatype PersistResult = Unconfigured | Regressed | Unchanged | NotDue | CommitFailed | SaveFailed | Saved

  /** The position has to be stored, now or when it is due. */
  predicate Asks(result: PersistResult) {
    !result.Unconfigured? && !result.Regressed? && !result.Unchanged?
  }

  predicate SamePosition(left: SourcePosition, right: SourcePosition) {
    left.device == right.device && left.inode == right.inode && left.end == right.end
  }

  class CheckpointWriter {
    const configured: bool
    const interval: int
    const sink: EventSink
    var last: SourcePosition
    var initialized: bool
    var lastAttempt: int
    var stored: Option<Checkpoint>

    constructor (configured: bool, interval: int, sink: EventSink, position: SourcePosition, initialized: bool,
                 stored: Option<Checkpoint>, now: int)
      ensures this.configured == configured && this.interval == interval && this.sink == sink && last == position
      ensures this.initialized == initialized && this.stored == stored && lastAttempt == now
    {
      this.configured, this.interval, this.sink := configured, interval, sink;
      last, this.initialized, this.stored, lastAttempt := position, initialized, stored, now;
    }

    /** Commit the sink, then save.  The stored checkpoint changes only after a commit
        that made every offered event durable, and only to the given position. */
    method Persist(position: SourcePosition, force: bool, now: int, lookup: Lookup, syncs: bool, answer: SaveAnswer)
      returns (result: PersistResult)
      requires sink.Valid()
      modifies this, sink`earlier, sink`current
      ensures sink.Valid() && sink.Contents() == old(sink.Contents())
      ensures old(sink.Surviving()) <= sink.Surviving()
      ensures result.Saved? || result.SaveFailed? ==>
        sink.attempted == sink.accepted == sink.Contents() && (sink.managed ==> sink.Surviving() == sink.accepted)
      ensures result.Unconfigured? <==> !configured
      ensures result.Regressed? <==>
        configured && (position.generation < old(last.generation) ||
                       (position.generation == old(last.generation) && position.end < old(last.end)))
      ensures result.Unchanged? <==>
        configured && !result.Regressed? && old(initialized) && position.device == old(last.device) &&
        position.inode == old(last.inode) && position.end == old(last.end)
      ensures result.NotDue? <==> Asks(result) && !force && now - old(lastAttempt) < interval
      ensures result.Saved? || result.SaveFailed? <==>
        Asks(result) && (force || now - old(lastAttempt) >= interval) &&
        !old(sink.failed) && sink.Reaches(lookup) && (sink.managed ==> syncs)
      ensures lastAttempt == if Asks(result) && !result.NotDue? then now else old(lastAttempt)
      ensures stored == if (result.Saved? || result.SaveFailed?) && !answer.Lost?
                        then Some(Checkpoint(position.device, position.inode, position.end)) else old(stored)
      ensures result.Saved? ==> answer.Landed? && last == position && initialized
      ensures result.SaveFailed? ==> !answer.Landed?
      ensures !result.Saved? ==> last == old(last) && initialized == old(initialized)
      ensures !Asks(result) || result.NotDue? ==> unchanged(sink)
    {
      if !configured {
        return Unconfigured;
      }
      if EndsBefore(position, last) {
        return Regressed;
      }
      if initialized && SamePosition(position, last) {
        return Unchanged;
      }
      if !force && now - lastAttempt < interval {
        return NotDue;
      }
      lastAttempt := now;
      var ok := sink.Commit(lookup, syncs);
      if !ok {
        return CommitFailed;
      }
      if !answer.Lost? {
        stored := Some(Checkpoint(position.device, position.inode, position.end));
      }
      if !answer.Landed? {
        return SaveFailed;
      }
      last, initialized := position, true;
      return Saved;
    }
  }

  // ---------- persisting walks the protocol ----------

  /** The sink and the writer are where the world says they are. */
  ghost predicate Mirrors(writer: CheckpointWriter, w: World)
    reads writer, writer.sink
  {
    && w.process.Up? && writer.configured
    && writer.sink.Contents() == w.sink + w.process.unsynced && w.sink <= writer.sink.Surviving()
    && writer.last == w.process.last && writer.stored == Some(w.checkpoint)
  }

  /** What is on disk is what the world says a dead process left. */
  ghost predicate LeftBehind(writer: CheckpointWriter, w: World)
    reads writer, writer.sink
  {
    w.process.Down? && writer.sink.Surviving() == w.sink && writer.stored == Some(w.checkpoint)
  }

  /** The sink and the writer of a process that starts with the output it finds, be it
      the first process or one after any number of crashes. */
  method OpenAtStart(ghost cfg: Config, ghost w: World, ghost v: World, found: Inode, ghost before: seq<Inode>,
                     syncEachWrite: bool, interval: int, position: SourcePosition, stored: Checkpoint, now: int)
    returns (writer: CheckpointWriter?)
    requires Next(cfg, w, Start, v) && position == v.process.last && stored == w.checkpoint
    requires Settled(before) && found.synced == |found.lines| && w.sink == Lines(before) + found.lines
    ensures writer == null <==> found.torn
    ensures writer != null ==>
      && fresh(writer) && fresh(writer.sink) && writer.sink.Valid() && writer.sink.managed && writer.initialized
      && Mirrors(writer, v)
  {
    var sink := OpenFileSink(found, syncEachWrite, before);
    if sink == null {
      return null;
    }
    SettledFilesSurvive(before);
    writer := new CheckpointWriter(true, interval, sink, position, true, Some(stored), now);
  }

  /** One persist of a safe position.  It is never refused as a regression; a saved one
      is the sync of the sink followed by the save of the checkpoint; one that fails
      ends the process, and what it leaves is what a crash leaves, after the sync and
      the save too if the save had landed. */
  method PersistSafely(writer: CheckpointWriter, ghost cfg: Config, ghost w: World, position: SourcePosition,
                       force: bool, now: int, lookup: Lookup, syncs: bool, answer: SaveAnswer)
    returns (result: PersistResult, ghost actions: seq<Action>, ghost v: World)
    requires Good(cfg, w) && Running(w.process) && IsSafe(w.process.assembler, PositionAtAny(w), position)
    requires writer.sink.Valid() && writer.sink.managed && Mirrors(writer, w)
    modifies writer, writer.sink`earlier, writer.sink`current
    ensures writer.sink.Valid() && !result.Regressed? && !result.Unconfigured?
    ensures Walks(cfg, w, actions, v)
    ensures result.Unchanged? || result.NotDue? ==> actions == [] && Mirrors(writer, v)
    ensures result.Saved? ==>
      actions == [Sync(position), Save] && Mirrors(writer, v) && writer.sink.Surviving() == v.sink
    ensures result.CommitFailed? ==> |actions| == 1 && actions[0].Crash? && LeftBehind(writer, v)
    ensures result.SaveFailed? ==>
      actions == [Sync(position)] + (if answer.Lost? then [] else [Save]) + [Crash(0)] && LeftBehind(writer, v)
  {
    NeverBefore(cfg, w, position);
    ghost var synced, saved := SaveWalks(cfg, w, position);
    result := writer.Persist(position, force, now, lookup, syncs, answer);
    actions, v := [], w;
    match result {
      case Saved =>
        actions, v := [Sync(position), Save], saved;
        TwoStepsWalk(cfg, w, Sync(position), synced, Save, saved);
      case CommitFailed =>
        writer.sink.SurvivorsComeFirst();
        actions, v := CrashWalks(cfg, w, writer.sink.Surviving());
      case SaveFailed =>
        actions, v := FailedSaveWalks(cfg, w, position, answer, synced, saved);
      case Unchanged =>
      case NotDue =>
    }
  }

  /** Some prefix of what was not synced yet survives with the rest. */
  lemma CrashWalks(cfg: Config, w: World, left: seq<Output>) returns (actions: seq<Action>, v: World)
    requires w.process.Up? && w.sink <= left <= w.sink + w.process.unsynced
    ensures Walks(cfg, w, actions, v) && |actions| == 1 && actions[0].Crash?
    ensures v.process.Down? && v.sink == left && v.checkpoint == w.checkpoint
  {
    var kept := |left| - |w.sink|;
    assert left == w.sink + w.process.unsynced[..kept];
    actions, v := [Crash(kept)], w.(sink := left, process := Process.Down);
    OneStepWalks(cfg, w, Crash(kept), v);
  }

  /** The process dies after a save that failed, landed or not. */
  lemma FailedSaveWalks(cfg: Config, w: World, position: SourcePosition, answer: SaveAnswer, synced: World,
                        saved: World)
    returns (actions: seq<Action>, v: World)
    requires Persists(cfg, w, position, synced, saved) && synced.process.Up? && saved.process.Up?
    ensures Walks(cfg, w, actions, v)
    ensures actions == [Sync(position)] + (if answer.Lost? then [] else [Save]) + [Crash(0)]
    ensures v == (if answer.Lost? then synced else saved).(process := Process.Down)
  {
    if answer.Lost? {
      actions, v := [Sync(position), Crash(0)], synced.(process := Process.Down);
      TwoStepsWalk(cfg, w, Sync(position), synced, Crash(0), v);
    } else {
      actions, v := [Sync(position), Save, Crash(0)], saved.(process := Process.Down);
      TwoStepsWalk(cfg, synced, Save, saved, Crash(0), v);
      assert actions[1..] == [Save, Crash(0)];
    }
  }

  lemma NeverBefore(cfg: Config, w: World, position: SourcePosition)
    requires Good(cfg, w) && Running(w.process) && IsSafe(w.process.assembler, PositionAtAny(w), position)
    ensures !EndsBefore(position, w.process.last)
  {
    SafeIsPlaced(cfg, w, position);
  }

  /** The sync of the sink and then the save of the position. */
  ghost predicate Persists(cfg: Config, w: World, position: SourcePosition, mid: World, v: World) {
    Next(cfg, w, Sync(position), mid) && Next(cfg, mid, Save, v)
  }

  lemma StandsInLineage(cfg: Config, w: World)
    requires Good(cfg, w) && w.process.Up?
    ensures w.process.base <= w.process.complete.file < |w.files|
    ensures PositionAtAny(w) == PositionAt(w.files, w.process.base, w.process.complete)
  {
  }

  lemma SyncIsNext(cfg: Config, w: World, position: SourcePosition)
    requires Running(w.process) && w.process.base <= w.process.complete.file < |w.files|
    requires IsSafe(w.process.assembler, PositionAt(w.files, w.process.base, w.process.complete), position)
    requires !EndsBefore(position, w.process.last)
    ensures Next(cfg, w, Sync(position),
                 w.(sink := w.sink + w.process.unsynced,
                    process := w.process.(unsynced := [], saving := Some(position))))
  {
  }

  lemma SaveWalks(cfg: Config, w: World, position: SourcePosition) returns (mid: World, v: World)
    requires Good(cfg, w) && Running(w.process) && IsSafe(w.process.assembler, PositionAtAny(w), position)
    ensures Persists(cfg, w, position, mid, v)
    ensures mid.process.Up? && mid.sink == w.sink + w.process.unsynced && mid.checkpoint == w.checkpoint
    ensures v.process.Up? && v.sink == w.sink + w.process.unsynced && v.process.unsynced == []
    ensures v.process.last == position &&
      v.checkpoint == CheckpointProtocol.Checkpoint(position.device, position.inode, position.end)
  {
    StandsInLineage(cfg, w);
    NeverBefore(cfg, w, position);
    SyncIsNext(cfg, w, position);
    mid := w.(sink := w.sink + w.process.unsynced, process := w.process.(unsynced := [], saving := Some(position)));
    v := mid.(checkpoint := CheckpointProtocol.Checkpoint(position.device, position.inode, position.end),
              process := mid.process.(last := position, saving := None));
  }
}
