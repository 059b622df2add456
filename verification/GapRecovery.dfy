/** The write-ahead transition to a new lineage.  Two durable documents, the ledger
    and the checkpoint, are written one after the other; the process may die between
    any two writes, and a write that reports failure may still have landed. */
module GapRecovery {
  import opened Records
  import opened GapLedger

  // ---------- the manager as it runs ----------

  class Disk {
    var checkpoint: Option<Checkpoint>
    var ledger: Option<Ledger>

    constructor ()
      ensures checkpoint.None? && ledger.None?
    {
      checkpoint, ledger := None, None;
    }

    /** An invalid ledger is refused before anything is written. */
    method SaveLedger(l: Ledger, answer: SaveAnswer) returns (ok: bool)
      modifies this`ledger
      ensures ok <==> GapLedger.Valid(l) && answer.Landed?
      ensures ledger == if GapLedger.Valid(l) && !answer.Lost? then Some(l) else old(ledger)
    {
      if !GapLedger.Valid(l) {
        return false;
      }
      if !answer.Lost? {
        ledger := Some(l);
      }
      return answer.Landed?;
    }

    method SaveCheckpoint(c: Checkpoint, now: int, answer: SaveAnswer) returns (ok: bool)
      modifies this`checkpoint
      ensures var stamped := Checkpoint(2, c.inputPath, c.device, c.inode, c.offset, c.anchor, now);
              && (ok <==> ValidCheckpoint(stamped) && answer.Landed?)
              && checkpoint == if ValidCheckpoint(stamped) && !answer.Lost? then Some(stamped) else old(checkpoint)
    {
      var stamped := c.(version := CHECKPOINT_VERSION, updatedAt := now);
      if !ValidCheckpoint(stamped) {
        return false;
      }
      if !answer.Lost? {
        checkpoint := Some(stamped);
      }
      return answer.Landed?;
    }
  }

  /** A saved checkpoint carries the format version and the time of the save. */
  function Stamped(c: Checkpoint, now: int): Checkpoint {
    c.(version := CHECKPOINT_VERSION, updatedAt := now)
  }

  datatype PendingResult = NothingPending | ResumeAt(resume: Checkpoint) | Mismatch

  /** What an interrupted transition left behind. */
  function PendingOf(ledger: Option<Ledger>, checkpoint: Option<Checkpoint>): PendingResult {
    if ledger.None? || ledger.value.incidents == [] || !Last(ledger.value).prepared then NothingPending
    else
      var last := Last(ledger.value);
      if SameCheckpoint(checkpoint, last.previous) || SameCheckpoint(checkpoint, Some(last.resume))
        then ResumeAt(last.resume)
      else Mismatch
  }

  /** Both absent, or the same input, file, offset and anchor. */
  predicate Agree(a: Option<Checkpoint>, b: Option<Checkpoint>) {
    match (a, b)
    case (None, None) => true
    case (Some(x), Some(y)) =>
      x.inputPath == y.inputPath && x.device == y.device && x.inode == y.inode && x.offset == y.offset &&
      x.anchor == y.anchor
    case _ => false
  }

  /** An interrupted decision is resumed exactly when the checkpoint is still the one
      it was made at or already the one it leads to; anything else is refused. */
  lemma PendingIsExact(ledger: Option<Ledger>, checkpoint: Option<Checkpoint>)
    ensures
      var waits := ledger.Some? && ledger.value.incidents != [] &&
        ledger.value.incidents[|ledger.value.incidents| - 1].prepared;
      match PendingOf(ledger, checkpoint)
      case NothingPending => !waits
      case ResumeAt(resume) =>
        waits && var g := ledger.value.incidents[|ledger.value.incidents| - 1];
        resume == g.resume && (Agree(checkpoint, g.previous) || Agree(checkpoint, Some(g.resume)))
      case Mismatch =>
        waits && var g := ledger.value.incidents[|ledger.value.incidents| - 1];
        !Agree(checkpoint, g.previous) && !Agree(checkpoint, Some(g.resume))
  {
  }

  class Manager {
    const input: string
    const checkpointed: bool
    const disk: Disk
    var ledger: Option<Ledger>

    constructor (input: string, checkpointed: bool, disk: Disk)
      ensures this.input == input && this.checkpointed == checkpointed && this.disk == disk && ledger == disk.ledger
    {
      this.input, this.checkpointed, this.disk := input, checkpointed, disk;
      ledger := disk.ledger;
    }

    method Pending(checkpoint: Option<Checkpoint>) returns (result: PendingResult)
      requires ValidOrAbsent(ledger, input)
      ensures result == PendingOf(ledger, checkpoint)
    {
      if ledger.None? {
        return NothingPending;
      }
      var last := ledger.value.incidents[|ledger.value.incidents| - 1];
      if !last.prepared {
        return NothingPending;
      }
      if !SameCheckpoint(checkpoint, last.previous) && !SameCheckpoint(checkpoint, Some(last.resume)) {
        return Mismatch;
      }
      return ResumeAt(last.resume);
    }

    /** Write the decision ahead of acting on it. */
    method Prepare(previous: Option<Checkpoint>, at: Resume, cause: Cause, now: int, answer: SaveAnswer)
      returns (ok: bool)
      requires ValidOrAbsent(ledger, input) && Plausible(input, previous, at, cause, now)
      modifies this`ledger, disk`ledger
      ensures Exhausted(old(ledger), input) ==> !ok && disk.ledger == old(disk.ledger)
      ensures !Exhausted(old(ledger), input) ==>
        && ledger == Some(Prepared(old(ledger), input, previous, at, cause, now))
        && ValidOrAbsent(ledger, input)
        && (ok <==> answer.Landed?)
        && disk.ledger == if answer.Lost? then old(disk.ledger) else ledger
    {
      var l := if ledger.Some? then ledger.value else Ledger(1, input, 0, []);
      if l.total == MAX_COUNT {
        return false;
      }
      PreparedIsValid(ledger, input, previous, at, cause, now);
      l := Draft(l, previous, at, cause, now);
      ledger := Some(l);
      ok := disk.SaveLedger(l, answer);
    }

    /** A decision that was never carried out is labelled. */
    method Supersede(before: Ledger) returns (l: Ledger)
      ensures l == Superseded(before)
    {
      l := before;
      if |l.incidents| > 0 {
        var last := l.incidents[|l.incidents| - 1];
        if last.prepared {
          l := l.(incidents := l.incidents[..|l.incidents| - 1] + [last.(prepared := false, superseded := true)]);
        }
      }
    }

    /** Supersede, number, append, and keep the last eight. */
    method Draft(before: Ledger, previous: Option<Checkpoint>, at: Resume, cause: Cause, now: int) returns (l: Ledger)
      ensures l == Prepared(Some(before), input, previous, at, cause, now)
    {
      l := Supersede(before);
      l := l.(total := l.total + 1);
      var incidents := l.incidents + [NewIncident(l.total, input, previous, at, cause, now)];
      if |incidents| > KEPT_INCIDENTS {
        incidents := incidents[|incidents| - KEPT_INCIDENTS..];
      }
      l := l.(incidents := incidents);
    }

    /** Carry the decision out: deliver what is pending, move the checkpoint, then
        settle the ledger.  Each step runs only if the one before it succeeded. */
    method Commit(delivered: bool, now: int, first: SaveAnswer, second: SaveAnswer) returns (ok: bool)
      requires ledger.Some? && ValidOrAbsent(ledger, input) && now != 0
      modifies this`ledger, disk`ledger, disk`checkpoint
      ensures var resume := Last(old(ledger).value).resume;
              var moved := delivered && checkpointed && !first.Lost?;
              var settles := delivered && (checkpointed ==> first.Landed?);
              && disk.checkpoint == (if moved then Some(Stamped(resume, now)) else old(disk.checkpoint))
              && disk.ledger ==
                (if settles && !second.Lost? then Some(Completed(old(ledger).value)) else old(disk.ledger))
              && (ok <==> settles && second.Landed?)
              && (ok ==> ledger == disk.ledger)
    {
      CompletedIsValid(ledger.value);
      if !delivered {
        return false;
      }
      var l := ledger.value;
      var last := l.incidents[|l.incidents| - 1];
      assert ValidIncident(l, |l.incidents| - 1);
      if checkpointed {
        ok := disk.SaveCheckpoint(last.resume, now, first);
        if !ok {
          return;
        }
      }
      l := l.(incidents := l.incidents[..|l.incidents| - 1] + [last.(prepared := false)]);
      ledger := Some(l);
      ok := disk.SaveLedger(l, second);
    }
  }
}
