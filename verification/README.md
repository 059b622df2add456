# Verified model of the audit collector

AesirGuard Audit follows a rotating Linux Audit log, groups interleaved records into logical events under hard memory bounds, writes them to a sink and checkpoints its position so that a crash only causes replay. This project models that pipeline in Dafny and proves what each part keeps, over every input, every run and every placement of a crash.

## How the project is laid out

| part | modules | form |
|---|---|---|
| event assembler | `AssemblerSpec`, `Assembler` | a value-level specification (tables, sums recomputed, events of a call as a *set*) and a class that updates tables and byte counters in place, visits maps in arbitrary order and is proved to refine it |
| assembler properties | `AssemblerInvariants`, `StreamPreservation`, `Arrivals`, `Numbering`, `Isolation`, `Watermark`, `SafePosition`, `ReplayPins`, `ReplayCase`, `EventOrder`, `Totals` | invariants of every call; what each call answers, told from the outside in numbers and contents (`Arrivals`); then theorems over whole runs |
| delivery | `Sink`, `CheckpointProtocol`, `Emission`, `FollowLoop`, `CrashTaint` | the sink and checkpoint writer as classes; the follow loop as a state machine with volatile and durable state and a crash between any two steps, which the sink, the writer and the follower are proved to walk; which documents reach the sink; taint across crashes |
| gap recovery | `GapLedger`, `GapRecovery`, `GapProtocol` | the ledger's validity, the manager as a class over a disk, and a state machine with one durable write per action which the manager is proved to walk |
| following | `Lines`, `Follower`, `Chain`, `Rotation` | what a byte stream says as lines; the reader, the generation chain and the rotating follower as classes and loops |
| decoding | `Fields`, `Envelope`, `Numerals`, `Execve`, `ExecveRoundTrip`, `ExecveLines`, `ExecveExact`, `Conflicts`, `Spots` | the field grammar and parser, the key of a whole or cut line, argument vectors, singleton conflicts, and where in an event their reports stand |

`Records` and `Sequences` hold what is shared. Instants and durations are unbounded integers in nanoseconds; the duration arithmetic that saturates in the source (`Sub`, `ForwardWindow`) saturates here. The assembler's clock, the reads of a file, the directory view and the outcome of every durable write are parameters, so each theorem holds for all of them. A record is reduced to key, kind (EOE, PROCTITLE, single-record, plain), byte count, source position, audit time and raw text; an oversized line carries the key that its retained prefix yields, if any (`Envelope.KeyOf`).

Three places where behaviour is easy to misread are kept as the code has them. A keyed oversized line emits its one event with sequence number 0, outside the numbering of the other events (internal/audit/isolation.go:29-36). A keyed oversized line pins a key that only the fence covered at that line and not at the fence's source (internal/audit/isolation.go:34-50), unlike an ordinary record (internal/audit/isolation.go:121-138); `ReplayPins.KeyedLineKeepsCover` gives the exact condition and `ReplayCase.KeyedLineMovesPin` a run from the start. A flush writes whatever completion its caller names, so watermark soundness is about the calls that are not flushes.

## Main results

* **Refinement.** Every entry point of the mutable assembler does exactly what its specification says, emits one specific list whatever order its maps are visited in, and keeps counters equal to sums.
* **Every answer is known.** In every run each record is answered by a reference that does not use the specification's own terms: which idle groups leave, which bound or taint it meets, which boundary closes its group, what its audit time does to the clock and to the other groups, and the whole state after it (`Arrivals.RunAnswers`).
* **Nothing lost, duplicated or moved.** Per key, everything emitted followed by everything pending is everything received (`StreamPreservation.StreamPreserved`).
* **A number is never reused.** Over every run emitted sequence numbers are unique, below the next one and carried by no pending group.
* **Taint is never forgotten**, also when the rejected table overflows into the fence; **the fence falls** when nothing untrackable renews it; **watermark completion is sound**; **the safe position never regresses** and does not pass the evidence of a key that is still tainted, so after any crashes that evidence is read again.
* **Taint reaches the sink.** In every behaviour a normalized document shows a normal event and never one of a tainted key; an exceptional event appears as its physical records only.
* **At least once.** In every behaviour with crashes anywhere, each line before the durable checkpoint is durably accounted for, except an EOE that was lone or met a full group, and a restart rereads every other line.
* **Gap recovery is crash-consistent.** No restart is refused, the checkpoint leaves its lineage only for a durable incident, and retries converge to one final state.
* **Follower output depends only on content**, and each line starts at the previous complete position, across rotations; at the end of a quiet file two calls a drain interval apart lead into its successor.
* **Decoding inverts encoding**: field lists from lines, keys from lines cut anywhere, argument vectors from lines in any order and from titles; a vector is returned exactly when its evidence is complete.

## Model

| member | source | states |
|---|---|---|
| Assembler.Assembler.constructor | internal/audit/assembler.go:108-115 | A bounded assembler starts empty, with both counters equal to the (zero) sums and all invariants in force |
| Assembler.Assembler.AddRecovering | internal/audit/isolation.go:80-171 | The in-place method produces exactly the specified new state, diagnostic and the unique ascending listing of stale plus own events, and keeps every invariant |
| Assembler.Assembler.Dispatch | internal/audit/isolation.go:107-170 | After the sweep each record is rejected, closes a full group, is fenced, or is admitted/overflowed, as specified |
| Assembler.Assembler.Reject | internal/audit/isolation.go:107-114 | A record of a tainted key goes out as physical evidence; a terminal record ends the taint, any other renews it |
| Assembler.Assembler.Fence | internal/audit/isolation.go:121-143 | A record of an unknown key behind the fence is evidence; unless terminal its key is isolated or the fence renewed |
| Assembler.Assembler.AdmitOrOverflow | internal/audit/isolation.go:144-170 | Admission on merit, or the whole group out as an exception with the limit that was hit |
| Assembler.Assembler.Overflow | internal/audit/isolation.go:148-170 | The group and the refused record leave together under the group's number, and the key is isolated pinned to its first record |
| Assembler.Assembler.Isolate | internal/audit/isolation.go:154-169 | Tracked individually exactly when key count and key bytes still fit, otherwise the fence rises |
| Assembler.Assembler.StartSpill | internal/audit/isolation.go:179-184 | The fence keeps its earliest source and takes the new time |
| Assembler.Assembler.ExpireRejected | internal/audit/isolation.go:63-74 | Exactly the rejections and the fence whose timeout elapsed are dropped, and the byte counter stays the sum |
| Assembler.Assembler.RejectPhysicalLine | internal/audit/isolation.go:12-52 | An oversized line isolates the key that its retained prefix names, or without one empties both tables and raises the fence; invariants hold after either |
| Assembler.Assembler.RejectUnkeyed | internal/audit/isolation.go:19-26 | Without an envelope every pending group goes out marked exceptional, in order, and the fence is pinned to this line |
| Assembler.Assembler.RejectKeyed | internal/audit/isolation.go:27-51 | With an envelope the key's group goes out as evidence and the key is isolated at its earliest held line, or its existing taint is renewed |
| Envelope.ReadPrefix | internal/audit/isolation.go:16-27 | The parse of the text up to the first `):` yields the one key it names, or nothing exactly when it names none |
| Envelope.ReadKey | internal/audit/parser.go:58-106 | The passes over the fields yield a key exactly when they agree on one identifier, one type and at most one node, all of them sound |
| Envelope.AuditIdFromMessage | internal/audit/parser.go:270-281 | The identifier stands between `audit(` and a closing that is the first and the last |
| Envelope.NamesOnce | internal/audit/parser.go:68-97 | No field list names two keys or two types |
| Envelope.NamesIsExact | internal/audit/parser.go:58-106 | Fields name a key exactly when they say one identifier as a bare `msg=audit(id):`, one type and at most one node, all non-empty and well-formed UTF-8 |
| Envelope.HeaderSurvivesCut | internal/audit/isolation.go:8-27 | Wherever a line is cut and whatever follows its header, the prefix yields the key of the line if it holds the whole header, and nothing otherwise |
| Envelope.CutKeyIsWholeKey | internal/audit/parser.go:83-97 | The key of the cut line is that of the whole line exactly when the header names the node or no later field does |
| Envelope.NothingIsRewritten | internal/audit/parser.go:117-125 | The payload rewriting in front of the field parser leaves the cut line alone |
| Assembler.Assembler.AddAt | internal/audit/assembler.go:139-191 | Normal admission: specified state, and its closing event merged with newly stale ones as one ascending list; a limit leaves state unchanged but for the mixed-node marks |
| Assembler.Assembler.JoinAndClose | internal/audit/assembler.go:165-186 | The record joins its group, which closes on EOE, a single-record type, or PROCTITLE of an already known group |
| Assembler.Assembler.MarkMixed | internal/audit/assembler.go:142-149 | Named and unnamed groups of one audit ID are marked on both sides, whatever order the table is visited in |
| Assembler.Assembler.CheckLimits | internal/audit/assembler.go:282-296 | The check on incremental counters decides exactly as the check on recomputed sums |
| Assembler.Assembler.ObserveAuditTime | internal/audit/assembler.go:301-334 | A foreign node or a clock discontinuity ends the epoch and unmarks every pending group; otherwise the clock is the running maximum |
| Assembler.Assembler.Finish | internal/audit/assembler.go:264-280 | Removing a group gives back exactly its bytes |
| Assembler.Assembler.Expired | internal/audit/assembler.go:336-363 | Exactly the groups due by watermark or inactivity leave, as the unique ascending list of their events |
| Assembler.Assembler.FlushExpired | internal/audit/assembler.go:194-197 | The tick does what the specification says and keeps the invariants |
| Assembler.Assembler.FlushAllWith | internal/audit/assembler.go:205-215 | Everything pending goes out in order with the given boundary, and all taint is dropped |
| Assembler.Assembler.SafeSourcePosition | internal/audit/assembler.go:229-255 | The result is the fallback or the start of an unresolved line, and neither the fallback nor any pending record, rejected key or fence source comes before it |
| Arrivals.RunAnswers | internal/audit/isolation.go:80-171 | In every run a record is answered by the idle groups, which leave as they stand, and by the one reference answer for what it meets once they are gone: state, events and diagnostic |
| Arrivals.ArrivalIsExact | internal/audit/isolation.go:80-171 | The same for one call in any state that keeps the invariants |
| Arrivals.TickIsExact | internal/audit/assembler.go:336-363 | A tick takes out exactly the groups, rejections and fence not heard of for the timeout, the groups as incomplete events; everything else stays as it is |
| Arrivals.RestedIsSound | internal/audit/assembler.go:342-344 | After a sweep every pending group was seen less than the timeout ago, and the invariants hold |
| Arrivals.TaintedIsExact | internal/audit/isolation.go:107-114 | A record of a tainted key is one exceptional event under a fresh number; any but a plain record ends the taint, a plain one renews it |
| Arrivals.FullGroupIsExact | internal/audit/isolation.go:115-120 | An EOE that finds no room in its group closes it as a complete event without joining it |
| Arrivals.FencedIsExact | internal/audit/isolation.go:121-143 | A record of an unknown key behind the fence is one exceptional event; a plain one leaves its key remembered where the fence was raised if key count and key lengths leave room, or renews the fence |
| Arrivals.LoneIsExact | internal/audit/assembler.go:142-155 | A lone EOE emits nothing and only marks ambiguous groups |
| Arrivals.RefusedIsExact | internal/audit/isolation.go:144-170 | A record that hits the first configured bound takes its whole group out as evidence, with that bound in the diagnostic; a plain one leaves its key remembered at the first record, or the fence raised there |
| Arrivals.JoinedIsExact | internal/audit/assembler.go:156-191 | A record within bounds joins or opens its group; a boundary takes that group out, and exactly the groups its audit time outdates leave as complete events |
| Arrivals.JumpIsExact | internal/audit/assembler.go:312-328 | The clock jumps exactly when the new time is more than a minute and more than twice the timeout ahead, or at least the timeout behind; a timeout above half the longest duration counts once, and the longest one is never exceeded |
| Arrivals.ClockIsExact | internal/audit/assembler.go:301-334 | Only a record that opens a group moves the clock: to its own time across a break, else to the maximum |
| Arrivals.BoundaryClosesGroup | internal/audit/assembler.go:176-187 | A record that enters the table and is an EOE, of a single-record type or the PROCTITLE of a pending key puts out one complete normal event with the group's records and itself, under its own boundary, and the key is not pending afterwards |
| Arrivals.OthersStayOpen | internal/audit/assembler.go:165-187 | A plain record, or a PROCTITLE of an unknown key, stays pending with its group and no event speaks of it |
| Arrivals.BreakUnmarksAll | internal/audit/assembler.go:301-334 | A record of another node, or one that jumps, unmarks every other group, completes nothing by watermark and restarts the clock at itself |
| Arrivals.EpochKeepsMarks | internal/audit/assembler.go:301-363 | Otherwise every mark stays and exactly the marked groups at least the timeout older leave, complete by watermark |
| Arrivals.FlushIsExact | internal/audit/assembler.go:205-215 | A flush empties everything and puts out one incomplete event per pending group with the boundary it was given |
| Arrivals.UnkeyedLineIsExact | internal/audit/isolation.go:16-26 | Without a key everything pending goes out as evidence and the fence stands at the line |
| Arrivals.KeyedLineIsExact | internal/audit/isolation.go:27-51 | With a key its group goes out as evidence without a number, and the key is remembered at the first line it held, or its taint is renewed |
| Arrivals.RunIsSized | internal/audit/isolation.go:154-169 | In every run each rejected key is counted with its own length |
| EventOrder.OrderedEvents | internal/audit/assembler.go:378-388 | Sorting events with distinct numbers yields the one ascending list of that set |
| EventOrder.UniqueListing | internal/audit/assembler.go:378-388 | A set of events with distinct numbers has exactly one ascending listing |
| StreamPreservation.StepIsOrdered | internal/audit/isolation.go:84-106 | The events of any call have one and only one list that ascends in sequence number, so emission does not depend on map iteration |
| StreamPreservation.StepPreservesStream | internal/audit/isolation.go:80-171 | One call moves each key's records from held to emitted, in order, and loses none |
| StreamPreservation.StreamPreserved | internal/audit/assembler.go:139-191 | Over every run and for every key: emitted records followed by pending ones equal the received ones, EOE aside |
| StreamPreservation.FlowingEventsAreDistinct | internal/audit/assembler.go:205-215 | Events through which every key's evidence flows carry pairwise distinct numbers |
| Numbering.StepRetires | internal/audit/assembler.go:165-168 | A number a call emits is below the next one and carried by no group that is still pending |
| Numbering.StepIsFresh | internal/audit/isolation.go:92-106 | A call never emits a number that was emitted before |
| Numbering.EmittedNumbersAreUnique | internal/audit/assembler.go:205-215 | Over every run no two events carry one number, and no pending group carries an emitted one, keyed oversized lines aside |
| AssemblerInvariants.StepKeepsInvariant | internal/audit/assembler.go:282-296 | Pending and rejected counts and bytes stay within limits, no key is both pending and rejected, numbers are unique and below the next, records sit under their own key, marked groups belong to the epoch and are younger than the timeout |
| AssemblerInvariants.JoinedBudget | internal/audit/assembler.go:152-187 | A record that passed the limit check keeps every budget |
| AssemblerInvariants.JoinedEpoch | internal/audit/assembler.go:301-334 | Admission keeps every marked group on the epoch's node and at or before its latest time |
| StreamPreservation.RunKeepsInvariant | internal/audit/isolation.go:80-171 | The invariants hold after every run of the four entry points |
| Isolation.ExceptionTaints | internal/audit/isolation.go:107-170 | A plain record emitted as an exception leaves its key isolated at that time |
| Isolation.StepKeepsTaint | internal/audit/isolation.go:63-74 | Within the timeout only the key's own terminal record or a full flush can end its taint |
| Isolation.TaintBinds | internal/audit/isolation.go:107-144 | While the taint lasts, the next record of the key goes out as an exception |
| Isolation.TaintIsNeverForgotten | internal/audit/isolation.go:80-171 | Over every run: after an exceptional plain record, each later record of the key within the timeout is exceptional and no call presents evidence of the key as a normal event, fence overflow included |
| Isolation.KeyedLineTaintsItsKey | internal/audit/isolation.go:27-51 | After an oversized line with an envelope, later records of its key within the timeout are exceptions and no call in between presents evidence of the key as a normal event |
| Isolation.UnkeyedLineTaintsEveryKey | internal/audit/isolation.go:16-26 | After an oversized line without an envelope every record within the timeout is an exception, terminal ones included, and no call in between presents a normal event of any key |
| Isolation.OnlyUntrackableInputRenews | internal/audit/isolation.go:121-170 | The fence takes the time of a call exactly when that call leaves an untrackable tail outside the pending table or is an oversized line without room; otherwise it stays or falls |
| Isolation.FenceFalls | internal/audit/isolation.go:63-74 | With no such input, a record arriving a timeout after the last renewal whose key is not, or no longer, rejected is admitted on merit, however busy the pending groups are meanwhile |
| Watermark.SweepCompletesNothing | internal/audit/assembler.go:336-363 | The sweep that starts a call never completes an event by watermark |
| Watermark.WatermarkIsSound | internal/audit/assembler.go:301-363 | Over every run an event completes by watermark only in the call admitting a same-node record at least the timeout newer than the event's first record and at most the forward window ahead of the newest audit time, and since that first record opened its group no admitted record changed the node or jumped in time |
| Watermark.StepOrigin | internal/audit/assembler.go:165-174 | A group that still carries its audit time was opened by this call, its key not pending before, or carried it before and the call's record did not break the epoch, in numbers |
| SafePosition.StepPins | internal/audit/assembler.go:229-255 | A call adds no pin but the line it was given |
| SafePosition.SafePositionNeverRegresses | internal/audit/assembler.go:229-262 | If input starts at or after the previous complete position, the safe position never moves back |
| SafePosition.EarlierIsEarliest | internal/audit/assembler.go:257-262 | Folding candidates one by one keeps the earliest of all valid ones seen |
| ReplayPins.StepStaysBehind | internal/audit/isolation.go:80-171 | Every position the assembler remembers is real and at or before the line it was last given |
| ReplayPins.DispatchCovers | internal/audit/isolation.go:107-170 | A plain record emitted as an exception leaves its key pinned at or before the first record of that exception |
| ReplayPins.StepKeepsCover | internal/audit/isolation.go:121-142 | Within the timeout the pin stays, also when the key moves from the fence into the rejected table, and each further record or tracked oversized line of the key renews it |
| ReplayPins.SafePositionWaitsForTaint | internal/audit/assembler.go:229-255 | Over every run, as long as the taint of a key is neither ended nor left without input for a timeout, every safe position is at or before the evidence that tainted it, so a restart reads that evidence again |
| ReplayPins.KeyedLineKeepsCover | internal/audit/isolation.go:27-51 | A later oversized line of a tainted key keeps its pin exactly when the key is tracked already or cannot be tracked |
| ReplayCase.ScriptMovesPin | internal/audit/isolation.go:27-51 | Whatever its records hold, a run in which the fence alone covers a key when its oversized line arrives ends with the key tainted and the safe position at that line |
| ReplayCase.KeyedLineMovesPin | internal/audit/isolation.go:34-50 | A run from the empty assembler: the key went out as an exception starting at offset 2, is still tainted, and the safe position is 5 |
| Sink.EventSink.Write | internal/output/sink.go:53-72 | A write succeeds exactly when the sink is healthy, the path is reached, the line goes out whole and, if each write is synced, the sync works; then everything accepted is on disk in the synced case. Any failure is for good, and the synced lines of all files only grow |
| Sink.EventSink.ReopenIfRotated | internal/output/sink.go:89-120 | A rotated output is left exactly when the new one opens and the old one syncs, with all its lines synced, so no written line is lost or reordered; it answers exactly as its lookup and sync do |
| Sink.OpenFileSink | internal/output/sink.go:40-50 | An output with an incomplete last line is refused, anything else is appended to, counting what it holds as accepted |
| Sink.EventSink.Commit | internal/output/sink.go:76-87 | It succeeds exactly when the sink never failed, the path is reached and the sync works; then every event ever offered was accepted and, in a managed file, is among the synced lines of the file it went to, in order |
| Sink.CheckpointWriter.Persist | cmd/ag-audit/main.go:500-527 | Regression, no change, not yet due, failed commit and save are decided exactly by generation and end, by device, inode and end, and by the interval; the stored checkpoint changes only after a successful sink commit and only to the given position, and only an attempt moves the attempt time |
| Sink.PersistSafely | cmd/ag-audit/main.go:500-527 | Persisting a safe position is never refused as a regression; a saved one is the sync and the save of the protocol; one that fails leaves on disk what a crash of the protocol leaves, the save included if it had landed |
| Sink.OpenAtStart | cmd/ag-audit/main.go:343-347 | The first process and every restarted one begin with a sink and a writer that agree with the protocol, unless the output ends in a torn line |
| CheckpointProtocol.StepAccounts | internal/audit/isolation.go:80-171 | A call writes out or keeps every record it held or was given, EOE aside |
| CheckpointProtocol.BoundaryGoesOut | internal/audit/assembler.go:151-187 | An EOE that is neither lone nor meets a full group goes out in the events of its own call |
| CheckpointProtocol.ProcessTakesLine | cmd/ag-audit/main.go:551-595 | Every line read, malformed lines included, waits or is written under its own identity, unless it is an EOE that is lone or meets a full group |
| CheckpointProtocol.ProcessKeepsWaiting | cmd/ag-audit/line_limit.go:10-31 | Handling another line, an oversized one included, expires first and keeps or writes what waited |
| CheckpointProtocol.WrittenMembers | cmd/ag-audit/main.go:601-620 | Emission writes every record of every event |
| Emission.WrittenIsSpelled | cmd/ag-audit/main.go:601-620 | The outputs of a batch are, event by event, one document for a normal event and one physical record for each record of an exceptional one |
| Emission.LineIsExact | cmd/ag-audit/main.go:555-595 | Handling a line is its calls on the assembler in order, expiry first for lines that are no record, and then the document of such a line |
| Emission.ActionAppends | cmd/ag-audit/main.go:397-443 | Every working action of the loop appends exactly the outputs of its calls, in order, and leaves the assembler where they do |
| Emission.EveryDocumentHasItsEvent | cmd/ag-audit/main.go:601-620 | In every behaviour a normalized document shows a normal event and a physical record one of an exceptional event, of a call that was made |
| Emission.NoExceptionIsNormalized | cmd/ag-audit/main.go:603-611 | No exceptional event is ever presented as a normalized document |
| Emission.TaintReachesTheSink | cmd/ag-audit/main.go:601-620 | In every behaviour, once a plain record went out as an exception, no action within the timeout writes a normalized document that holds evidence of its key |
| CheckpointProtocol.SaveKeeps | cmd/ag-audit/main.go:500-527 | Saving after a commit keeps everything before the new checkpoint durable |
| CheckpointProtocol.ReadLineKeeps | cmd/ag-audit/main.go:397-417 | Reading a line keeps everything read written or waiting, and every pin at or after the last saved position |
| CheckpointProtocol.TickKeeps | cmd/ag-audit/main.go:425-443 | An idle tick keeps the same, also when the complete position moves into a new generation |
| CheckpointProtocol.NextKeeps | cmd/ag-audit/main.go:347-444 | Every action of the follow loop, crash and restart included, keeps the whole invariant |
| CheckpointProtocol.AtLeastOnce | cmd/ag-audit/main.go:397-443 | In every behaviour, each line starting before the durable checkpoint is in the durable sink as itself, unless it is an EOE that was lone or met a full group when last read |
| CheckpointProtocol.RestartRereadsTheRest | cmd/ag-audit/main.go:296-345 | A line missing from the durable sink at a restart lies ahead of the restarted reader |
| CheckpointProtocol.CheckpointNeverRegresses | cmd/ag-audit/main.go:504-506 | The regression error is unreachable within a lineage, and the checkpoint is at or before every unresolved line |
| FollowLoop.FollowOnce | cmd/ag-audit/main.go:356-443 | Whatever the rotating follower answers is an action of the protocol: a line is the next of the log and starts at the complete position, an idle answer is a tick that passes no unread line, also across a switch, and anything else changes nothing |
| FollowLoop.IdlingSkipsNoLine | internal/collector/rotation.go:285-316 | The complete position moves to the next generation only past every line of the file left |
| CrashTaint.BehaviourStaysBehind | cmd/ag-audit/main.go:397-443 | In every behaviour a process remembers only positions at or before its complete position |
| CrashTaint.CheckpointWaits | internal/audit/assembler.go:229-255 | While a key is tainted the durable checkpoint is at or before the evidence that tainted it |
| CrashTaint.TaintIsReread | internal/audit/isolation.go:54-56 | If a key was tainted without interruption until the process died, then through any number of crashes and starts neither the checkpoint nor a process passes its evidence, from the first record of the exception on, before some process has read it again |
| CrashTaint.NextLeavesAhead | cmd/ag-audit/main.go:397-443 | Only reading a line takes it out of what lies ahead; no save, crash or start does |
| GapLedger.ValidIffChain | internal/collector/recovery.go:113-139 | A ledger is valid exactly when its one to eight sound incidents are consecutively numbered up to the total with only the last possibly prepared |
| GapLedger.PreparedIsValid | cmd/ag-audit/gap_recovery.go:78-117 | Preparing keeps a ledger valid, counts one more incident and leaves it, alone, prepared |
| GapLedger.PreparedIsExact | cmd/ag-audit/gap_recovery.go:78-117 | Field by field: the last seven incidents before stay, an unsettled one labelled superseded, and the new one carries what was observed, the checkpoint before, the resume position with its anchor, the next number and the time |
| GapLedger.CompletedIsValid | cmd/ag-audit/gap_recovery.go:119-148 | Completing keeps a ledger valid and its total, and is idempotent |
| GapLedger.CompletedIsExact | cmd/ag-audit/gap_recovery.go:136-148 | Carrying a decision out changes nothing but its label |
| GapLedger.CheckpointIsExact | internal/collector/checkpoint.go:85-103 | A stored position is valid exactly when its fields are set and its anchor is the hexadecimal text of 32 bytes |
| GapRecovery.Manager.Pending | cmd/ag-audit/gap_recovery.go:64-76 | Nothing pending, resume where decided, or a mismatch, decided by the last incident and the checkpoint found |
| GapRecovery.PendingIsExact | cmd/ag-audit/gap_recovery.go:57-76 | An interrupted decision is resumed exactly when the checkpoint is the one it was made at or the one it leads to, compared by input, file, offset and anchor; anything else is a mismatch |
| GapRecovery.Manager.Prepare | cmd/ag-audit/gap_recovery.go:78-117 | The decision reaches the disk before anything else; an exhausted count is refused with the disk untouched |
| GapRecovery.Manager.Draft | cmd/ag-audit/gap_recovery.go:85-112 | Supersede, number, append and trim in place yield the specified ledger |
| GapRecovery.Manager.Commit | cmd/ag-audit/gap_recovery.go:119-148 | Deliver, then move the checkpoint, then settle; each durable document changes only if the steps before succeeded |
| GapRecovery.Disk.SaveCheckpoint | internal/collector/checkpoint.go:107-114 | A checkpoint is stamped and stored whole, and only if it validates |
| GapRecovery.Disk.SaveLedger | internal/collector/recovery.go:181-194 | An invalid ledger is refused before anything is written |
| GapProtocol.NextKeeps | cmd/ag-audit/main.go:313-342 | Every durable write and every crash keeps ledger and checkpoint mutually consistent |
| GapProtocol.RestartIsNeverRefused | cmd/ag-audit/gap_recovery.go:57-76 | In every behaviour the mismatch error is unreachable and every stored ledger is valid |
| GapProtocol.NewLineageHasDurableIncident | cmd/ag-audit/main.go:364-395 | A stored checkpoint changes only within a lineage already open, or to the resume position of the incident that is durably prepared at that moment |
| GapProtocol.StoredCheckpointHasLineage | cmd/ag-audit/main.go:313-342 | Every checkpoint ever stored names a file of the first lineage or of one whose incident is in the durable count |
| GapProtocol.RecoveryCanFinish | cmd/ag-audit/main.go:313-342 | From any interrupted transition one attempt carries it through |
| GapProtocol.RecoveryConverges | cmd/ag-audit/gap_recovery.go:119-148 | Any number of attempts and crashes that ends in following ends in one state, with the total unchanged |
| GapProtocol.HandleGap | cmd/ag-audit/main.go:364-395 | The manager's prepare and commit, with any answer to any write and an exhausted count too, leave the disk as some walk of the protocol does, a failure as a crash would |
| GapProtocol.StartUp | cmd/ag-audit/main.go:313-342 | A start from any state a behaviour leaves is such a walk: it resumes a pending transition, follows the lineage of the checkpoint, or decides anew, and never meets a mismatch |
| Chain.Discover | internal/collector/rotation.go:433-465 | Candidates are refused exactly when an identity or a number repeats, otherwise ordered oldest first with the active file last |
| Chain.ValidateChain | internal/collector/rotation.go:470-482 | Accepts exactly the gap-free chains and otherwise names the file behind the first gap; numbers are 64-bit and the subtraction is proved not to underflow |
| Chain.ContiguousInNumbers | internal/collector/rotation.go:470-482 | A chain is gap-free exactly when each file but the last carries a number one above its successor's, the active file counting as zero |
| Chain.RecoveryStart | internal/collector/recovery.go:66-78 | The chosen suffix is numbered k, k-1, ..., 1, active, is maximal, and an index starts a valid chain exactly when it lies in it |
| Lines.LinesAndTailAreTheStream | internal/collector/follower.go:167-239 | The complete lines and the tail concatenate back to the stream, and the tail holds no newline |
| Lines.TailGrows | internal/collector/follower.go:172-188 | A fragment without a newline only lengthens the unfinished line |
| Lines.TailCompletes | internal/collector/follower.go:189-221 | A fragment ending in its only newline adds exactly one line, the unfinished one completed |
| Lines.BoundarySplits | internal/collector/follower.go:118-130 | Reading may stop at a line boundary and resume there without losing or joining a line |
| Lines.RetainMore | internal/collector/follower.go:177-185 | Retaining only what still fits keeps exactly the prefix of length min(length, limit) |
| Lines.DescribedIsExact | internal/collector/follower.go:189-221 | A line within the limit is handed on without its line feed and one carriage return before it; of a longer one the first bytes up to the limit, and how many are missing |
| Follower.AnchorSeesBothEnds | internal/collector/checkpoint.go:150-180 | Equally long prefixes have one anchor sample exactly when their first and last 4096 bytes agree |
| Follower.FileFollower.NextSource | internal/collector/follower.go:167-239 | However reads are sized and the file grows, returned lines are the newline split of the bytes, with exact totals, positions and anchors, and an idle result means the file is exhausted |
| Follower.FileFollower.TransferPartialTo | internal/collector/follower.go:253-269 | An unfinished line moves to the next generation with its count and its origin |
| Follower.BatchLines | cmd/ag-audit/batch.go:69-119 | The batch loop, with any buffer size, returns the same lines as the follower's rule plus the final unterminated one |
| Rotation.OpenAt | internal/collector/rotation.go:78-128 | Resuming works exactly when the file is retained, is the one the checkpoint saw, the offset is a line boundary in it, and everything newer follows without a gap; the next line then starts at the checkpoint |
| Rotation.OpenRecovery | internal/collector/recovery.go:50-87 | Starting over begins at the first byte of the oldest file from which the chain is unbroken, with the rest queued in order |
| Rotation.ResumedLinesContinue | internal/collector/follower.go:118-130 | The lines from a checkpoint on continue those before it: none is lost, split or joined |
| Rotation.RotatingFollower.Pull | internal/collector/rotation.go:131-138 | Each returned line starts at the previous complete position and moves it to the line's end |
| Rotation.RotatingFollower.RefreshQueue | internal/collector/rotation.go:213-252 | Refreshing succeeds exactly when the current file is active again or its successors, known ones included, form an unbroken chain, and then queues all of them |
| Rotation.RotatingFollower.StableForSwitch | internal/collector/rotation.go:258-277 | A switch is allowed exactly when the successor and the size are those noted before and the drain interval has passed; a new successor or size is noted with the time, anything else leaves the note, and a switch leaves no byte unread |
| Rotation.RotatingFollower.SwitchTo | internal/collector/rotation.go:285-316 | The next generation continues the stream; a line that spans the switch keeps its start |
| Rotation.RotatingFollower.SwitchWhenStable | internal/collector/rotation.go:197-210 | It switches exactly then, to the first queued successor, and drains the old file entirely; otherwise queue and file stay |
| Rotation.RotatingFollower.AtEndOfFile | internal/collector/rotation.go:139-210 | With nothing left to read the follower reports a gap exactly when the view cannot be resumed, naming the lost file, fails exactly when the path cannot be listed, and otherwise ticks; it switches exactly when a successor waits and the file stood still for the drain interval, skipping no byte |
| Rotation.RotatingFollower.Advance | internal/collector/rotation.go:131-211 | In every reachable state the lines returned are the newline split of the drained generations followed by the read part of the current one, the complete position is where the next line starts, and at the end of the file a gap, a failure, a switch and the drain note are decided exactly |
| Rotation.FindLost | internal/collector/rotation.go:230-249 | The file and reason reported lost: the first known successor that is gone, else, as a missing generation, the file behind which the chain first breaks |
| Rotation.TwoQuietCalls | internal/collector/rotation.go:189-211 | At the end of a file that gets no more bytes and has successors, two calls at least the drain interval apart lead into the first successor |
| Rotation.ActiveIsLast | internal/collector/rotation.go:189-211 | A current file that is not the active path always has a successor in the ordered view |
| Fields.ParseFields | internal/audit/parser.go:185-266 | The index loop returns the grammar's fields or its first error with byte position, all values per name in order, and the first value per name |
| Fields.ScanQuoted | internal/audit/parser.go:221-248 | A quoted value ends at its quote, apostrophes inside nested double quotes being text |
| Fields.WrittenFieldsParse | internal/audit/parser.go:185-266 | Every writable field list is read back unchanged from anywhere in a line |
| Fields.ParserImage | internal/audit/parser.go:185-268 | The parser's results are exactly the writable field lists, and rewriting a result changes nothing |
| Fields.ErrorIsInTheLine | internal/audit/parser.go:185-266 | What a parse error reports, and where, is there in the line |
| Numerals.AtoiOfItoa | internal/audit/parser.go:328-347 | A numeral up to the largest integer reads back as its number |
| Numerals.AtoiIsExact | internal/audit/parser.go:328-347 | A text reads as a number exactly when it is an optional sign and digits of that number within 64 bits |
| Numerals.HexRoundTrip | internal/audit/decoding.go:27-39 | Hex text decodes to the bytes it encodes |
| Numerals.HexIsExact | internal/audit/decoding.go:27-39 | Text decodes exactly to the bytes whose hexadecimal form it is, in either case |
| Numerals.Utf8IsExact | internal/audit/argv.go:90-100 | The UTF-8 check accepts exactly the encodings of sequences of Unicode scalar values |
| Execve.ParseExecArgKey | internal/audit/parser.go:323-349 | The scanning loop recognizes exactly the names of whole arguments, lengths and fragments |
| Execve.SlotIsExact | internal/audit/parser.go:323-349 | A name has a slot exactly when it spells it: `a`, digits, and nothing, `_len`, or a bracketed number |
| Execve.TextIsExact | internal/audit/decoding.go:27-39 | A field means its own text when quoted or interpreted, else the bytes its hexadecimal digits spell |
| Execve.Decode | internal/audit/argv.go:123-155 | The loop over sorted fragments decodes exactly complete, in-order, length-matching evidence |
| Execve.BuildArguments | internal/audit/argv.go:16-121 | EXECVE evidence decides alone: the reconstructed vector, or all of the evidence as issues; without any, the first title field decides; issues are empty exactly when there is a vector or nothing spoke of one |
| Execve.EvidenceMembers | internal/audit/argv.go:26-31 | The evidence reported is each EXECVE field about the vector, and nothing else |
| Execve.EvidenceIsInOrder | internal/audit/argv.go:26-31 | The evidence lists each such place once, ascending in record and field |
| Execve.TitleInvertsClosing | internal/audit/argv.go:101-118 | A title with every argument closed reads back as its vector; without the last separator it does exactly when the last argument is not empty or the only one |
| Execve.TitleFieldInverts | internal/audit/argv.go:101-118 | The hex field the kernel writes for a title decodes to the vector |
| Execve.ReturnedVectorIsComplete | internal/audit/argv.go:16-100 | Whenever a vector is returned some field states its length and none another, every argument rests on one whole field or on all its fragments, no field names a further index, and fields of one slot agree |
| Execve.ArgumentIsSupported | internal/audit/argv.go:123-155 | A decoded argument is either the text of one whole field with no length or fragment beside it, or the fragments 0 to n in order, none missing or further, with a length field counting their characters; never both |
| ExecveExact.VectorIsExact | internal/audit/argv.go:16-155 | Whatever fields arrive, in any order and number: a vector is returned exactly when they are complete and uncontradicted evidence for it, provided no two of them differ in being interpreted alone |
| ExecveExact.LaterReadingWins | internal/audit/argv.go:66-71 | Why that proviso: of an argument spelled twice, raw and interpreted, the evidence is complete for both readings and the later one is returned |
| ExecveExact.RefusalShowsEvidence | internal/audit/argv.go:89-100 | Without a vector each EXECVE field about it is reported and nothing else, or, when there is none, that the count is missing |
| ExecveExact.TitleIsExact | internal/audit/argv.go:101-118 | A title is its parts when it means well-formed UTF-8, and one report otherwise |
| ExecveRoundTrip.KeyParses | internal/audit/parser.go:323-349 | Every argument field name reads back as its slot |
| ExecveRoundTrip.AbsorbAllReflects | internal/audit/argv.go:21-71 | Collecting fields of an encoding in any order, repeated or not, stores exactly what was seen |
| ExecveRoundTrip.ReconstructionInvertsEncoding | internal/audit/argv.go:16-155 | Records spelling an argument vector, quoted, hex or split, in any order, decode to it |
| ExecveLines.EncodedFieldIsWritable | internal/audit/parser.go:185-266 | Every field the kernel writes for an argument can stand in a line |
| ExecveLines.LinesInvertEncoding | internal/audit/argv.go:16-155 | From the text of the lines to the argument vector: parsing and reconstruction together invert the encoding |
| Conflicts.NotedMeaning | internal/audit/conflicts.go:38-42 | Comparing each value with the one before it finds any disagreement |
| Conflicts.MarkSingletonConflicts | internal/audit/conflicts.go:25-83 | Two passes over maps in any order withhold in each record exactly the ambiguous fields and their aliases, and list the issues in order |
| Conflicts.ReportedIffWithheld | internal/audit/conflicts.go:71-81 | An occurrence of a field, in either section of a record, is reported exactly when the field is withheld there |
| Conflicts.IssuesAreInOrder | internal/audit/conflicts.go:71-81 | The issues list every withheld place once, ascending in record, section and field |
| Conflicts.CollectorIsExact | internal/audit/conflicts.go:7-83 | With the collector's tables a field is withheld exactly when it or its other form has two values in the record, two in the event for a field of the whole event, or a different last value under its other name |
| Conflicts.MarkingIsOrderFree | internal/audit/conflicts.go:25-83 | Withholding is invariant under reordering the records of the event |
| Conflicts.AliasesAreWithheldTogether | internal/audit/conflicts.go:65-70 | A raw field and its interpreted form are withheld together |
| Conflicts.EventSingletonIsExact | internal/audit/conflicts.go:43-64 | An event singleton without rival or alias is withheld exactly when two distinct values occur anywhere in the event |
| Conflicts.AliasedSingletonIsExact | internal/audit/conflicts.go:43-70 | With an interpreted form beside it, exactly when either of the two disagrees in the event |
| Conflicts.LocalSingletonIsExact | internal/audit/conflicts.go:38-42 | A record-local singleton without rival or alias is withheld exactly when the record itself carries two values |
| Conflicts.MarkEvent | internal/audit/conflicts.go:7-23 | The marking with the collector's own tables |
| Conflicts.ProcessIdIsExact | internal/audit/conflicts.go:17-23 | A process ID is withheld exactly when two are claimed anywhere in the event |
| Conflicts.PathNameIsExact | internal/audit/conflicts.go:38-42 | The name of a path is a matter of its own record |
| Conflicts.DecisionIsExact | internal/audit/conflicts.go:50-54 | A decision is withheld exactly when the record carries two, or its other name ends on a different one |
| Conflicts.LoginIdIsExact | internal/audit/conflicts.go:65-70 | A login identity is withheld exactly when its number or its name is ambiguous |

## Left out

- Operating-system calls: opening, permissions, symlink checks, locks and directory sync are outcomes handed to the model; saving and loading a document is atomic.
- SHA-256 and JSON: an anchor is the sampled bytes it would hash (and an opaque text in ledger positions); documents are datatypes, so the ledger's 64 KiB size bound is not modelled. Positions inside `CheckpointProtocol` carry no anchor.
- Canonical projection, classification and rendering: wide branch-by-branch mapping that would add only easy members.
- Record payloads: the AVC prose rewriting in front of the field parser, embedded messages and the parsing of audit times are not modelled; key, kind and time are given with the record, and `ExecveLines` takes the record type with the line.
- Heartbeats, counters, log text, flags and configuration: no effect on the protocol state.
- Signals, contexts and timers: cancellation is a script of reads running out; shutdown flush and persist are ordinary actions.
- Machine widths: sequence numbers, byte counters and positions are unbounded, so the exhaustion errors for them do not occur; the incident total does have its 64-bit bound.
- Strict line limits: only the recovering follower that the collector uses is modelled, not the mode that fails on an oversized line.
- Rotation.RotatingFollower.Advance: does not model truncation, because files are taken as append-only and the directory view of one call as atomic; the retry that looks a candidate up again after a failed open, and the filtering of directory entries by name, are outside it.
- CheckpointProtocol.AtLeastOnce: is about one lineage, which starts with a checkpoint at its first byte; a crash keeps some prefix of what the sink had not yet synced, and a torn output line is covered by `Sink` alone. An oversized line is accounted for by its own exception document. Which lines were set aside is recorded when they are read.
- ReplayPins.SafePositionWaitsForTaint: leaves out an oversized line of the key itself where `ReplayPins.KeyedLineKeepsCover` says that it replaces the pin, and lines without an envelope, after which every key is isolated afresh.
- GapProtocol.StoredCheckpointHasLineage: takes the files an unbroken follower can reach from a place as a set fixed when the lineage opens.
- GapProtocol.RecoveryConverges: speaks of attempts without a new gap in between; a new gap supersedes the decision, which `GapLedger.PreparedIsValid` covers.
- Unbounded assembler and the direct `Add` entry points: the collector does not use them.
- Conflicts.MarkSingletonConflicts: takes the values by name and the field lists of a record as given side by side; the rival pairs compare last values only, as in the source, so no closure is claimed for them.
- FollowLoop.FollowOnce: takes the entry of the log to be the line the follower returns, and the file left by a switch to get no more bytes.
- Sink.EventSink.ReopenIfRotated: takes the file that replaces a rotated output to be new and empty.
