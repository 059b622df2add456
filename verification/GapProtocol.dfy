/** Crash consistency of the gap transition: a state machine with one durable write
    per action.  A write that fails without landing is a crash before the action;
    one that lands but reports failure is the action followed by a crash. */
module GapProtocol {
  import opened Records
  import opened GapLedger
  import opened GapRecovery

  /** Fixed for the life of the collector. */
  datatype Setup = Setup(input: string, checkpointed: bool)

  datatype Store = Store(checkpoint: Option<Checkpoint>, ledger: Option<Ledger>)

  function FileOf(c: Checkpoint): Identity { Identity(c.device, c.inode) }

  /** A running collector follows the files of one lineage: `following` is the number
      of the incident that opened it, zero for the first. */
  datatype Phase =
    | Down
    | Opening(checkpoint: Option<Checkpoint>, ledger: Option<Ledger>)
    | Preparing(decision: Ledger)
    | Moved(decision: Ledger)
    | Following(settled: Option<Ledger>, following: nat)
    | Refused

  /** `lineages` says which files an unbroken follower can reach from the place where
      the first lineage starts and from where each incident resumes. */
  datatype World = World(store: Store, lineages: map<nat, set<Identity>>, phase: Phase)

  datatype Action =
    | Boot
    | OpenWorks(following: nat)
    | OpenFails(at: Resume, cause: Cause, now: int, files: set<Identity>)
    | LiveGap(at: Resume, cause: Cause, now: int, files: set<Identity>)
    | MoveCheckpoint(now: int)
    | Settle
    | Persist(position: Checkpoint, now: int)
    | Crash

  predicate LastIsPrepared(ledger: Option<Ledger>) {
    ledger.Some? && ledger.value.incidents != [] && Last(ledger.value).prepared
  }

  /** A gap seen with real identities: what discovery and the opened files report. */
  predicate Observed(setup: Setup, at: Resume, cause: Cause, now: int, files: set<Identity>) {
    Plausible(setup.input, None, at, cause, now) && Identity(at.device, at.inode) in files
  }

  function MovedStore(setup: Setup, s: Store, l: Ledger, now: int): Store
    requires l.incidents != []
  {
    if setup.checkpointed then s.(checkpoint := Some(Stamped(Last(l).resume, now))) else s
  }

  /** The decision reaches the disk; the lineage it opens gets its number. */
  function Decided(setup: Setup, w: World, l: Ledger, files: set<Identity>): World {
    World(w.store.(ledger := Some(l)), w.lineages[l.total := files], Preparing(l))
  }

  /** The checkpoint names a file of the lineage. */
  predicate LiesIn(w: World, n: nat, checkpoint: Option<Checkpoint>) {
    n in w.lineages && (checkpoint.Some? ==> FileOf(checkpoint.value) in w.lineages[n])
  }

  ghost predicate Next(setup: Setup, w: World, a: Action, v: World) {
    match a
    case Boot =>
      && w.phase.Down?
      && v == w.(phase := if PendingOf(w.store.ledger, w.store.checkpoint).Mismatch? then Refused
                          else Opening(w.store.checkpoint, w.store.ledger))
    case OpenWorks(following) =>
      && w.phase.Opening?
      && if LastIsPrepared(w.phase.ledger) then v == w.(phase := Preparing(w.phase.ledger.value))
         else LiesIn(w, following, w.phase.checkpoint) && v == w.(phase := Following(w.phase.ledger, following))
    case OpenFails(at, cause, now, files) =>
      && w.phase.Opening? && Observed(setup, at, cause, now, files) && !Exhausted(w.phase.ledger, setup.input)
      && v == Decided(setup, w, Prepared(w.phase.ledger, setup.input, w.phase.checkpoint, at, cause, now), files)
    case LiveGap(at, cause, now, files) =>
      && w.phase.Following? && Observed(setup, at, cause, now, files) && !Exhausted(w.phase.settled, setup.input)
      && v == Decided(setup, w, Prepared(w.phase.settled, setup.input, w.store.checkpoint, at, cause, now), files)
    case MoveCheckpoint(now) =>
      && w.phase.Preparing? && now != 0 && w.phase.decision.incidents != []
      && v == w.(store := MovedStore(setup, w.store, w.phase.decision, now), phase := Moved(w.phase.decision))
    case Settle =>
      && w.phase.Moved? && w.phase.decision.incidents != []
      && var l := Completed(w.phase.decision);
      && v == w.(store := w.store.(ledger := Some(l)), phase := Following(Some(l), l.total))
    case Persist(position, now) =>
      && w.phase.Following? && setup.checkpointed && now != 0
      && w.phase.following in w.lineages && FileOf(position) in w.lineages[w.phase.following]
      && ValidCheckpoint(Stamped(position, now)) && position.inputPath == setup.input
      && v == w.(store := w.store.(checkpoint := Some(Stamped(position, now))))
    case Crash => v == w.(phase := Down)
  }

  ghost predicate Initial(w: World) {
    w.store == Store(None, None) && w.phase.Down? && w.lineages.Keys == {0}
  }

  ghost predicate Behaviour(setup: Setup, ws: seq<World>, actions: seq<Action>) {
    && |ws| == |actions| + 1
    && Initial(ws[0])
    && forall i :: 0 <= i < |actions| ==> Next(setup, ws[i], actions[i], ws[i + 1])
  }

  // ---------- the invariant ----------

  ghost predicate GoodStore(setup: Setup, s: Store) {
    && ValidOrAbsent(s.ledger, setup.input)
    && (s.checkpoint.Some? ==> ValidCheckpoint(s.checkpoint.value) && s.checkpoint.value.inputPath == setup.input)
    && (!setup.checkpointed ==> s.checkpoint.None?)
    && !PendingOf(s.ledger, s.checkpoint).Mismatch?
  }

  /** Every lineage but the first was opened by an incident in the durable count, and
      a prepared incident resumes in the lineage of its number. */
  ghost predicate GoodLineages(setup: Setup, w: World) {
    && (forall n: nat :: n in w.lineages <==> n <= Opened(w.store.ledger, setup.input).total)
    && (LastIsPrepared(w.store.ledger) ==>
          var l := w.store.ledger.value; l.total in w.lineages && FileOf(Last(l).resume) in w.lineages[l.total])
    && (w.store.checkpoint.Some? ==> exists n: nat :: LiesIn(w, n, w.store.checkpoint))
  }

  ghost predicate GoodPhase(setup: Setup, w: World) {
    match w.phase
    case Down => true
    case Opening(c, l) => c == w.store.checkpoint && l == w.store.ledger
    case Preparing(l) => w.store.ledger == Some(l) && LastIsPrepared(Some(l))
    case Moved(l) =>
      && w.store.ledger == Some(l) && LastIsPrepared(Some(l))
      && (setup.checkpointed ==> SameCheckpoint(w.store.checkpoint, Some(Last(l).resume)))
    case Following(l, n) => l == w.store.ledger && !LastIsPrepared(l) && LiesIn(w, n, w.store.checkpoint)
    case Refused => false
  }

  ghost predicate Good(setup: Setup, w: World) {
    GoodStore(setup, w.store) && GoodLineages(setup, w) && GoodPhase(setup, w)
  }

  lemma DecidingKeepsLineages(setup: Setup, w: World, l: Ledger, files: set<Identity>)
    requires GoodLineages(setup, w)
    requires l.incidents != [] && l.total == Opened(w.store.ledger, setup.input).total + 1 &&
      FileOf(Last(l).resume) in files
    ensures GoodLineages(setup, Decided(setup, w, l, files))
  {
    var v := Decided(setup, w, l, files);
    if w.store.checkpoint.Some? {
      var n: nat :| LiesIn(w, n, w.store.checkpoint);
      assert LiesIn(v, n, v.store.checkpoint);
    }
  }

  lemma PreparingKeeps(setup: Setup, w: World, at: Resume, cause: Cause, now: int, files: set<Identity>)
    requires GoodStore(setup, w.store) && GoodLineages(setup, w) && Observed(setup, at, cause, now, files)
    ensures Good(setup,
                 Decided(setup, w, Prepared(w.store.ledger, setup.input, w.store.checkpoint, at, cause, now), files))
  {
    var l := Prepared(w.store.ledger, setup.input, w.store.checkpoint, at, cause, now);
    PreparedIsValid(w.store.ledger, setup.input, w.store.checkpoint, at, cause, now);
    DecidingKeepsLineages(setup, w, l, files);
  }

  lemma MovingKeeps(setup: Setup, w: World, l: Ledger, now: int)
    requires Good(setup, w) && w.phase == Preparing(l) && now != 0
    ensures Good(setup, w.(store := MovedStore(setup, w.store, l, now), phase := Moved(l)))
  {
    var v := w.(store := MovedStore(setup, w.store, l, now), phase := Moved(l));
    assert ValidIncident(l, |l.incidents| - 1);
    if setup.checkpointed { assert LiesIn(v, l.total, v.store.checkpoint); }
  }

  lemma SettlingKeeps(setup: Setup, w: World, l: Ledger)
    requires Good(setup, w) && w.phase == Moved(l)
    ensures Good(setup,
                 w.(store := w.store.(ledger := Some(Completed(l))), phase := Following(Some(Completed(l)), l.total)))
  {
    var v := w.(store := w.store.(ledger := Some(Completed(l))), phase := Following(Some(Completed(l)), l.total));
    CompletedIsValid(l);
    assert LiesIn(v, l.total, v.store.checkpoint);
  }

  lemma PersistKeeps(setup: Setup, w: World, position: Checkpoint, now: int)
    requires Good(setup, w) && w.phase.Following? && setup.checkpointed && now != 0
    requires w.phase.following in w.lineages && FileOf(position) in w.lineages[w.phase.following]
    requires ValidCheckpoint(Stamped(position, now)) && position.inputPath == setup.input
    ensures Good(setup, w.(store := w.store.(checkpoint := Some(Stamped(position, now)))))
  {
    var v := w.(store := w.store.(checkpoint := Some(Stamped(position, now))));
    assert LiesIn(v, w.phase.following, v.store.checkpoint);
  }

  lemma RestKeeps(setup: Setup, w: World, phase: Phase)
    requires Good(setup, w) && GoodPhase(setup, w.(phase := phase))
    ensures Good(setup, w.(phase := phase))
  {
    var v := w.(phase := phase);
    if w.store.checkpoint.Some? {
      var n: nat :| LiesIn(w, n, w.store.checkpoint);
      assert LiesIn(v, n, v.store.checkpoint);
    }
  }

  lemma NextKeeps(setup: Setup, w: World, a: Action, v: World)
    requires Good(setup, w) && Next(setup, w, a, v)
    ensures Good(setup, v)
  {
    match a
    case OpenFails(at, cause, now, files) => PreparingKeeps(setup, w, at, cause, now, files);
    case LiveGap(at, cause, now, files) => PreparingKeeps(setup, w, at, cause, now, files);
    case MoveCheckpoint(now) => MovingKeeps(setup, w, w.phase.decision, now);
    case Settle =>
      CompletedIsValid(w.phase.decision);
      SettlingKeeps(setup, w, w.phase.decision);
    case Persist(position, now) => PersistKeeps(setup, w, position, now);
    case Boot => RestKeeps(setup, w, v.phase);
    case OpenWorks(_) => RestKeeps(setup, w, v.phase);
    case Crash => RestKeeps(setup, w, v.phase);
  }

  lemma {:induction false} BehaviourIsGood(setup: Setup, ws: seq<World>, actions: seq<Action>, i: nat)
    requires Behaviour(setup, ws, actions) && i < |ws|
    ensures Good(setup, ws[i])
  {
    if i > 0 {
      BehaviourIsGood(setup, ws, actions, i - 1);
      NextKeeps(setup, ws[i - 1], actions[i - 1], ws[i]);
    } else {
      assert forall n: nat :: n in ws[0].lineages <==> n in ws[0].lineages.Keys;
    }
  }

  // ---------- the theorems ----------

  /** In every behaviour, whatever write a crash fell between: a restart accepts the
      checkpoint it finds, and every stored ledger is valid. */
  lemma RestartIsNeverRefused(setup: Setup, ws: seq<World>, actions: seq<Action>, i: nat)
    requires Behaviour(setup, ws, actions) && i < |ws|
    ensures !ws[i].phase.Refused?
    ensures !PendingOf(ws[i].store.ledger, ws[i].store.checkpoint).Mismatch?
    ensures ws[i].store.ledger.Some? ==> Valid(ws[i].store.ledger.value)
  {
    BehaviourIsGood(setup, ws, actions, i);
  }

  /** Every checkpoint ever stored names a file of the first lineage or of one whose
      incident is in the durable count. */
  lemma StoredCheckpointHasLineage(setup: Setup, ws: seq<World>, actions: seq<Action>, i: nat)
    requires Behaviour(setup, ws, actions) && i < |ws| && ws[i].store.checkpoint.Some?
    ensures exists n: nat ::
      LiesIn(ws[i], n, ws[i].store.checkpoint) && n <= Opened(ws[i].store.ledger, setup.input).total
  {
    BehaviourIsGood(setup, ws, actions, i);
    var n: nat :| LiesIn(ws[i], n, ws[i].store.checkpoint);
    assert n <= Opened(ws[i].store.ledger, setup.input).total;
  }

  /** A new checkpoint either stays in a lineage that also holds the one before it, and
      that was open already, or it is the resume position of the incident that is
      prepared in the durable ledger at that moment. */
  ghost predicate KeepsLineage(setup: Setup, w: World, v: World) {
    || (exists n: nat :: LiesIn(w, n, w.store.checkpoint) && LiesIn(w, n, v.store.checkpoint) &&
                    n <= Opened(w.store.ledger, setup.input).total)
    || (LastIsPrepared(w.store.ledger) && SameCheckpoint(v.store.checkpoint, Some(Last(w.store.ledger.value).resume)))
  }

  lemma NextKeepsLineage(setup: Setup, w: World, a: Action, v: World)
    requires Good(setup, w) && Next(setup, w, a, v) && v.store.checkpoint != w.store.checkpoint
    ensures KeepsLineage(setup, w, v)
  {
    if a.Persist? {
      assert LiesIn(w, w.phase.following, w.store.checkpoint) && LiesIn(w, w.phase.following, v.store.checkpoint);
      assert w.phase.following <= Opened(w.store.ledger, setup.input).total;
    }
  }

  /** The checkpoint leaves its lineage only for the position named by an incident that
      is already durable. */
  lemma NewLineageHasDurableIncident(setup: Setup, ws: seq<World>, actions: seq<Action>, i: nat)
    requires Behaviour(setup, ws, actions) && i < |actions|
    requires ws[i + 1].store.checkpoint != ws[i].store.checkpoint
    ensures KeepsLineage(setup, ws[i], ws[i + 1])
  {
    BehaviourIsGood(setup, ws, actions, i);
    assert Next(setup, ws[i], actions[i], ws[i + 1]);
    NextKeepsLineage(setup, ws[i], actions[i], ws[i + 1]);
  }

  /** Retrying an interrupted transition: no gap and no progress in between. */
  predicate Retries(a: Action) {
    a.Boot? || a.OpenWorks? || a.MoveCheckpoint? || a.Settle? || a.Crash?
  }

  /** Every world of a retry holds the same decision, settled or not. */
  ghost predicate SameDecision(setup: Setup, l: Ledger, w: World) {
    && Good(setup, w)
    && l.incidents != [] && w.store.ledger in {Some(l), Some(Completed(l))}
    && (w.store.ledger == Some(Completed(l)) && setup.checkpointed ==>
      SameCheckpoint(w.store.checkpoint, Some(Last(l).resume)))
  }

  lemma RetryKeepsDecision(setup: Setup, l: Ledger, w: World, a: Action, v: World)
    requires Valid(l) && Last(l).prepared && SameDecision(setup, l, w)
    requires Retries(a) && Next(setup, w, a, v)
    ensures SameDecision(setup, l, v)
  {
    NextKeeps(setup, w, a, v);
    CompletedIsValid(l);
  }

  lemma {:induction false} RetriesKeepDecision(setup: Setup, l: Ledger, ws: seq<World>, actions: seq<Action>)
    requires |ws| == |actions| + 1
    requires forall i :: 0 <= i < |actions| ==> Retries(actions[i]) && Next(setup, ws[i], actions[i], ws[i + 1])
    requires Valid(l) && Last(l).prepared && SameDecision(setup, l, ws[0])
    ensures SameDecision(setup, l, ws[|actions|])
  {
    if actions != [] {
      RetryKeepsDecision(setup, l, ws[0], actions[0], ws[1]);
      RetriesKeepDecision(setup, l, ws[1..], actions[1..]);
    }
  }

  /** An interrupted transition can always be carried through in one attempt. */
  lemma RecoveryCanFinish(setup: Setup, w: World, now: int)
    requires Good(setup, w) && w.phase.Down? && LastIsPrepared(w.store.ledger) && now != 0
    ensures var l := w.store.ledger.value;
            var opening := w.(phase := Opening(w.store.checkpoint, w.store.ledger));
            var preparing := w.(phase := Preparing(l));
            var moved := w.(store := MovedStore(setup, w.store, l, now), phase := Moved(l));
            var settled := moved.(store := moved.store.(ledger := Some(Completed(l))),
                                  phase := Following(Some(Completed(l)), l.total));
            && Next(setup, w, Boot, opening) && Next(setup, opening, OpenWorks(0), preparing)
            && Next(setup, preparing, MoveCheckpoint(now), moved) && Next(setup, moved, Settle, settled)
  {
    CompletedIsValid(w.store.ledger.value);
  }

  /** Recovery is idempotent: from an interrupted transition, any number of attempts
      and crashes that ends in following ends in the same place, with the decision
      settled once and the incident count unchanged. */
  lemma RecoveryConverges(setup: Setup, ws: seq<World>, actions: seq<Action>)
    requires |ws| == |actions| + 1
    requires forall i :: 0 <= i < |actions| ==> Retries(actions[i]) && Next(setup, ws[i], actions[i], ws[i + 1])
    requires Good(setup, ws[0]) && ws[0].store.ledger.Some? && Last(ws[0].store.ledger.value).prepared
    requires ws[|actions|].phase.Following?
    ensures var l, final := ws[0].store.ledger.value, ws[|actions|].store;
            && final.ledger == Some(Completed(l))
            && final.ledger.value.total == l.total
            && (setup.checkpointed ==> SameCheckpoint(final.checkpoint, Some(Last(l).resume)))
  {
    var l := ws[0].store.ledger.value;
    CompletedIsValid(l);
    assert SameDecision(setup, l, ws[0]);
    RetriesKeepDecision(setup, l, ws, actions);
  }

  // ---------- the manager walks the protocol ----------

  /** Consecutive actions from one world to another. */
  ghost predicate Walks(setup: Setup, w: World, actions: seq<Action>, v: World)
    decreases |actions|
  {
    if actions == [] then v == w
    else exists m :: Next(setup, w, actions[0], m) && Walks(setup, m, actions[1..], v)
  }

  lemma {:induction false} WalksOn(setup: Setup, w: World, actions: seq<Action>, m: World, a: Action, v: World)
    requires Walks(setup, w, actions, m) && Next(setup, m, a, v)
    ensures Walks(setup, w, actions + [a], v)
    decreases |actions|
  {
    if actions == [] {
      assert [a][1..] == [] && Walks(setup, v, [a][1..], v);
      assert actions + [a] == [a];
    } else {
      var next :| Next(setup, w, actions[0], next) && Walks(setup, next, actions[1..], m);
      WalksOn(setup, next, actions[1..], m, a, v);
      assert (actions + [a])[1..] == actions[1..] + [a];
    }
  }

  /** What is durable agrees with the store of the world. */
  ghost predicate Mirrors(disk: Disk, w: World)
    reads disk
  {
    disk.checkpoint == w.store.checkpoint && disk.ledger == w.store.ledger
  }

  /** The manager works for this setup on what the world has stored. */
  ghost predicate Serves(manager: Manager, setup: Setup, w: World)
    reads manager, manager.disk
  {
    && setup == Setup(manager.input, manager.checkpointed)
    && Mirrors(manager.disk, w) && manager.ledger == w.store.ledger
  }

  /** Where a transition ends: it follows the new lineage, or it died on the way and the
      disk is what a crash leaves. */
  ghost predicate Ends(manager: Manager, ok: bool, v: World)
    reads manager, manager.disk
  {
    Mirrors(manager.disk, v) && if ok then v.phase.Following? && manager.ledger == v.store.ledger else v.phase.Down?
  }

  /** Prepare, then commit, each write with any answer.  `a` is the decision as the
      protocol sees it. */
  method Transition(manager: Manager, ghost setup: Setup, ghost w: World, ghost a: Action, at: Resume, cause: Cause,
                    now: int, ghost files: set<Identity>,
                    delivered: bool, first: SaveAnswer, second: SaveAnswer, third: SaveAnswer)
    returns (ok: bool, ghost actions: seq<Action>, ghost v: World)
    requires Serves(manager, setup, w) && GoodStore(setup, w.store) && GoodLineages(setup, w)
    requires Observed(setup, at, cause, now, files)
    requires !Exhausted(w.store.ledger, setup.input) ==>
      Next(setup, w, a,
           Decided(setup, w, Prepared(w.store.ledger, setup.input, w.store.checkpoint, at, cause, now), files))
    modifies manager`ledger, manager.disk`ledger, manager.disk`checkpoint
    ensures Walks(setup, w, actions, v) && Ends(manager, ok, v)
  {
    ghost var l := Prepared(w.store.ledger, setup.input, w.store.checkpoint, at, cause, now);
    ghost var decided := Decided(setup, w, l, files);
    PreparingKeeps(setup, w, at, cause, now, files);
    assert Walks(setup, w, [], w);
    ghost var exhausted := Exhausted(w.store.ledger, setup.input);
    ok := manager.Prepare(manager.disk.checkpoint, at, cause, now, first);
    if !exhausted { WalksOn(setup, w, [], w, a, decided); }
    if !ok {
      if exhausted || first.Lost? {
        actions, v := CrashNow(setup, w, [], w);
      } else {
        actions, v := CrashNow(setup, w, [a], decided);
      }
      return;
    }
    ok := manager.Commit(delivered, now, second, third);
    ghost var rest;
    rest, v := CommitWalks(setup, decided, l, now, delivered, second, third);
    WalksAlong(setup, w, [a], decided, rest, v);
    actions := [a] + rest;
  }

  /** A gap met while following. */
  method HandleGap(manager: Manager, ghost setup: Setup, ghost w: World, at: Resume, cause: Cause, now: int,
                   ghost files: set<Identity>,
                   delivered: bool, first: SaveAnswer, second: SaveAnswer, third: SaveAnswer)
    returns (ok: bool, ghost actions: seq<Action>, ghost v: World)
    requires Serves(manager, setup, w) && Good(setup, w) && w.phase.Following? && Observed(setup, at, cause, now, files)
    modifies manager`ledger, manager.disk`ledger, manager.disk`checkpoint
    ensures Walks(setup, w, actions, v) && Ends(manager, ok, v)
  {
    ok, actions, v := Transition(manager, setup, w, LiveGap(at, cause, now, files), at, cause, now, files,
                                 delivered, first, second, third);
  }

  /** A start after whatever came before: resume where an interrupted transition or the
      checkpoint says, or, if that place is gone, decide anew.  It is never refused for
      a mismatch. */
  method StartUp(manager: Manager, ghost setup: Setup, ghost w: World, opens: bool, at: Resume, cause: Cause, now: int,
                 ghost files: set<Identity>, delivered: bool, first: SaveAnswer, second: SaveAnswer, third: SaveAnswer)
    returns (ok: bool, ghost actions: seq<Action>, ghost v: World)
    requires Serves(manager, setup, w) && Good(setup, w) && w.phase.Down? && now != 0
    requires !opens ==> Observed(setup, at, cause, now, files)
    modifies manager`ledger, manager.disk`ledger, manager.disk`checkpoint
    ensures Walks(setup, w, actions, v) && Ends(manager, ok, v) && actions != [] && actions[0].Boot?
  {
    ghost var opening := w.(phase := Opening(w.store.checkpoint, w.store.ledger));
    RestKeeps(setup, w, opening.phase);
    assert Next(setup, w, Boot, opening);
    assert Walks(setup, w, [], w);
    WalksOn(setup, w, [], w, Boot, opening);
    var pending := manager.Pending(manager.disk.checkpoint);
    ghost var rest;
    if !opens {
      ok, rest, v := Transition(manager, setup, opening, OpenFails(at, cause, now, files), at, cause, now, files,
                                delivered, first, second, third);
    } else if pending.ResumeAt? {
      ok := manager.Commit(delivered, now, second, third);
      rest, v := ResumptionWalks(setup, opening, now, delivered, second, third);
    } else {
      ok := true;
      rest, v := OpeningWalks(setup, opening);
    }
    WalksAlong(setup, w, [Boot], opening, rest, v);
    actions := [Boot] + rest;
  }

  /** Nothing is pending: the checkpoint lies in some lineage, and that one is followed. */
  lemma OpeningWalks(setup: Setup, w: World) returns (actions: seq<Action>, v: World)
    requires Good(setup, w) && w.phase.Opening? && !LastIsPrepared(w.store.ledger)
    ensures Walks(setup, w, actions, v) && v.store == w.store && v.phase.Following?
  {
    var n: nat := 0;
    if w.store.checkpoint.Some? {
      n :| LiesIn(w, n, w.store.checkpoint);
    }
    v := w.(phase := Following(w.store.ledger, n));
    actions := [OpenWorks(n)];
    assert Walks(setup, w, [], w);
    WalksOn(setup, w, [], w, OpenWorks(n), v);
  }

  /** An interrupted transition is carried on from where the ledger says. */
  lemma ResumptionWalks(setup: Setup, w: World, now: int, delivered: bool, first: SaveAnswer, second: SaveAnswer)
    returns (actions: seq<Action>, v: World)
    requires Good(setup, w) && w.phase.Opening? && LastIsPrepared(w.store.ledger) && now != 0
    ensures Walks(setup, w, actions, v) && Committed(setup, w.store, delivered, now, first, second, v)
  {
    var l := w.store.ledger.value;
    var preparing := w.(phase := Preparing(l));
    RestKeeps(setup, w, preparing.phase);
    assert Walks(setup, w, [], w);
    WalksOn(setup, w, [], w, OpenWorks(0), preparing);
    var rest;
    rest, v := CommitWalks(setup, preparing, l, now, delivered, first, second);
    WalksAlong(setup, w, [OpenWorks(0)], preparing, rest, v);
    actions := [OpenWorks(0)] + rest;
  }

  /** What a commit of the decision in the store makes of it, by the answers it gets. */
  ghost predicate Committed(setup: Setup, s: Store, delivered: bool, now: int, first: SaveAnswer, second: SaveAnswer,
                            v: World)
    requires LastIsPrepared(s.ledger)
  {
    var l := s.ledger.value;
    var moved := delivered && setup.checkpointed && !first.Lost?;
    var settles := delivered && (setup.checkpointed ==> first.Landed?);
    && v.store.checkpoint == (if moved then Some(Stamped(Last(l).resume, now)) else s.checkpoint)
    && v.store.ledger == (if settles && !second.Lost? then Some(Completed(l)) else s.ledger)
    && (if settles && second.Landed? then v.phase.Following? else v.phase.Down?)
  }

  /** The store after a commit is that of a world reached by at most three actions. */
  lemma CommitWalks(setup: Setup, w: World, l: Ledger, now: int, delivered: bool, first: SaveAnswer, second: SaveAnswer)
    returns (actions: seq<Action>, v: World)
    requires Good(setup, w) && w.phase == Preparing(l) && now != 0 && l.incidents != []
    ensures Walks(setup, w, actions, v) && Committed(setup, w.store, delivered, now, first, second, v)
  {
    actions, v := [], w;
    if !delivered || (setup.checkpointed && first.Lost?) {
      actions, v := CrashNow(setup, w, actions, v);
      return;
    }
    var moved := w.(store := MovedStore(setup, w.store, l, now), phase := Moved(l));
    WalksOn(setup, w, actions, v, MoveCheckpoint(now), moved);
    actions, v := actions + [MoveCheckpoint(now)], moved;
    if (setup.checkpointed && !first.Landed?) || second.Lost? {
      actions, v := CrashNow(setup, w, actions, v);
      return;
    }
    var settled := moved.(store := moved.store.(ledger := Some(Completed(l))),
                          phase := Following(Some(Completed(l)), Completed(l).total));
    WalksOn(setup, w, actions, v, Settle, settled);
    actions, v := actions + [Settle], settled;
    if !second.Landed? {
      actions, v := CrashNow(setup, w, actions, v);
    }
  }

  lemma CrashNow(setup: Setup, w: World, before: seq<Action>, m: World) returns (actions: seq<Action>, v: World)
    requires Walks(setup, w, before, m)
    ensures Walks(setup, w, actions, v) && v == m.(phase := Down)
  {
    actions, v := before + [Crash], m.(phase := Down);
    WalksOn(setup, w, before, m, Crash, v);
  }

  lemma {:induction false} WalksAlong(setup: Setup, w: World, first: seq<Action>, m: World, second: seq<Action>,
                                      v: World)
    requires Walks(setup, w, first, m) && Walks(setup, m, second, v)
    ensures Walks(setup, w, first + second, v)
    decreases |second|
  {
    if second == [] {
      assert first + second == first;
    } else {
      var n :| Next(setup, m, second[0], n) && Walks(setup, n, second[1..], v);
      WalksOn(setup, w, first, m, second[0], n);
      WalksAlong(setup, w, first + [second[0]], n, second[1..], v);
      assert first + [second[0]] + second[1..] == first + second;
    }
  }
}
