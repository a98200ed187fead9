# Strata Client: a Dafny model

Strata Client is a gateway for remote desktop and terminal sessions. An operator's
browser talks to a session over a WebSocket carrying the Guacamole protocol.
Administrators may watch any live session from a replay buffer, every session may be
recorded, and a small set of servers' host keys, users, tokens and database
migrations is managed around that.

This project models the parts of it whose correctness depends on several functions,
on a loop, or on the order in which concurrent steps happen, and proves what they
promise for every input, every run and every interleaving.

| File | Models |
|---|---|
| `Text.dfy`, `Collections.dfy` | strings as Rust sees them: UTF-8 sizes, trimming, numerals; set sizes |
| `Guacamole.dfy` | the instruction printer, length-prefixed readers, and the passes that cut text at `;` |
| `BaseState.dfy` | the dump that strips syncs, against a client that draws to a back buffer and flushes at a sync |
| `ReplayBuffer.dfy` | the five-minute ring with its salvaged log |
| `Observer.dfy` | buffer, dump and paced frames together: what a joining observer's client shows |
| `Broadcast.dfy` | producer and observers as steps: push, broadcast, join, receive, lag, rebuild |
| `Live.dfy` | an observer from joining to watching live: the text of its snapshot, then the broadcast |
| `Pacing.dfy` | rewind: the split, the pauses and the progress marks |
| `NativeSession.dfy`, `Recording.dfy` | a session from opening its recording to finalising it; the recording sink |
| `HostKeys.dfy` | SSH host-key trust, with any number of sessions racing to pin |
| `KeyedLocks.dfy` | per-key locks and cache single flight |
| `TokenRefresh.dfy` | browser tabs sharing one rotating refresh token |
| `UserManagement.dfy` | delegated user management, with requests interleaved between check and write |
| `DownloadLimiter.dfy` | the sliding-window download limiter against the full request history |
| `LdapFilter.dfy` | the LDAP filter scanner against the balanced grammar |
| `Migrations.dfy` | migration checksums and their three repairs |

`dafny verify dfyconfig.toml` checks the whole project.

## How it is modelled

- Loops and objects updated in place are methods and classes: the printer, the strip
  and pacing loops, the replay buffer, the session loop, the recording sink, the lock
  map, a tab's module variables, the limiter, the filter scan and the checksum loop.
  Each is proved against a specification function or against ghost history.
- Concurrent code is a state machine: `Enabled` and `Next` give one atomic step
  (a lock section, a statement, a send or a receive), `Run` is any sequence of them,
  and the theorems hold at every state of every run.
- Clocks, sockets, the database, the engines and the outcome of file operations are
  parameters. A clock reading is an integer of nanoseconds. The replay speed is a real,
  and the machine's quotient by it any real within a relative error of the true one.
- A text is a sequence of Unicode scalar values, and lengths are UTF-8 byte counts
  wherever the code takes `len()`.

## What does not hold, and exactly when it does

The code falls short of a stated promise in these places. The model follows the code,
shows the case, and proves the condition under which the promise is kept.

- A snapshot leaves frames out by age, but frames move to the salvaged log only at a
  push, and the log drops its oldest entries at its cap. A session idle for over 300
  seconds gives a new observer the log alone. A snapshot is complete exactly when the
  log was never trimmed and the over-age frames hold nothing to salvage
  (`SnapshotCoversIff`, `IdleSnapshotIsLogOnly`); an observer loses a frame exactly when
  one it has not been sent falls under either (`JoinCoversIff`, `RebuildCoversIff`), and
  its losses touch no other observer and end with its next whole snapshot
  (`TimelySnapshotSound`, `NothingIsLost`).
- A sync without arguments is printed `4.sync;`, which neither text test matches, so
  it is not stripped (`ArgumentlessSyncSurvives`). Cutting at `;` tears an element
  that holds one (`SemicolonTearsAnInstruction`); for any text, stripping changes
  nothing exactly when no piece is blank or looks like a sync (`StripIsIdentityIff`).
- An observer that joins between a push and its broadcast is sent that frame twice, and
  a rebuild sends the frames of the ring again. Last deliveries are in push order
  exactly when nothing has been received since the snapshot or all of it has been passed
  (`TailInOrderIff`). Drawing that overwrites is then unaffected
  (`CaughtUpClientShowsTheSession`); other drawing is shown right exactly when redrawing
  the repeated frames changes nothing (`JoinedShowsIff`, `RebuiltShowsIff`), which
  drawing that reads the canvas need not satisfy (`RepeatedCopyShows`).
- `offset * 1000` is computed in 64 bits and can wrap (`WrappedBoundaryIff`).
- Lengths are printed in bytes; a reader counting characters, as Guacamole's own
  does, agrees exactly on ASCII (`CharReaderNeedsAscii`).
- A connection that trusts on first use but whose stored key cannot be read accepts
  any key and never pins one (`UnreadableKeyStaysOpen`, `PinsNextKeyIff`). A key audited
  as pinned is pinned exactly when its rendering is not empty and reads back as that key
  (`AuditedPinHoldsIff`, `EmptyRenderingPinsNothing`). File transfer beside a session
  that presented no host key accepts any key (`TransferAcceptsAnyIff`).
- A finalise that exceeds the teardown limit leaves no fault behind, so the recording
  is marked complete (`GivenUpFinaliseSaysComplete`, `CompleteIsUntrueIff`). A session
  with a recording name but no path is marked complete without a file (`RunNative`).
- A refresh can present a spent token: it presents the newest exactly when no rotation
  was undelivered or lost when it was sent and none was issued since
  (`PresentsNewestIff`). With the tab lock that comes down to nothing having been lost
  (`PresentsNewestIffNothingLost`); without `navigator.locks` two tabs may overlap and
  the second present what the first has spent (`WithoutTabLockATokenIsSpentTwice`).
- A user-management request is checked and written in separate statements. Permissions
  never grow beyond the managers' (`AuthorityDoesNotGrow`), but a write touches an
  account that has a flag the writer lacks exactly when the last role given to it since
  the check has one (`WriteIsWithinIff`). Overlapping requests can bring that about
  (`OverlapReachesBeyond`); without overlap it cannot happen (`SerialTouchesAreWithin`).
- The LDAP scanner accepts filters side by side, where section 3 of RFC 4515 has one
  filter (`TwoFiltersPass`); an accepted text is one filter exactly when what its outer
  characters enclose passes the scan by itself (`OneGroupIff`).
- The quotient of a gap by the replay speed is rounded by floating point. Two frames a
  millisecond apart at a tenth of the speed are slept between for too long
  (`RoundedReplayOversleeps`); a pause keeps its bound exactly when its quotient does not
  round up past a whole millisecond below the longest pause (`PauseFitsExactlyIff`), and
  a rate keeps every replay's exactly when no pause it takes does (`EveryReplayFitsIff`).
  Up to the relative error of the division the bound always holds (`SleepFitsSpan`).

## Model

| member | source | states |
|---|---|---|
| Guacamole.FormatGuacInst | backend/src/routes/admin.rs:2530-2537 | the loop's output, read back by a reader that trusts the byte lengths, is exactly the opcode and arguments given, whatever they contain |
| Guacamole.ReadPrinted | backend/src/routes/admin.rs:2530-2537 | unique decodability: the byte-counting reader recovers every sequence of instructions from its concatenated output, with `,` `.` and `;` anywhere in the elements |
| Guacamole.ReadPrintedIffMeasured | backend/src/routes/admin.rs:2528-2537 | for a reader counting in either unit, recovery of the sequence is equivalent to every element measuring the same in that unit as in bytes |
| Guacamole.CharReaderNeedsAscii | backend/src/routes/admin.rs:2528-2537 | a reader counting characters recovers the sequence if and only if every character is ASCII |
| Guacamole.PrintAllInjective | backend/src/routes/admin.rs:2530-2537 | two different instruction sequences never print alike |
| Guacamole.PiecesOfPrint | backend/src/routes/admin.rs:2738-2743 | cutting printed text at `;` yields exactly the printed instructions when no element holds a `;` |
| Guacamole.KeepCommutes | backend/src/routes/admin.rs:2738-2749 | filtering the pieces of printed text is printing the filtered instructions, for any two tests that agree on each printed instruction |
| Guacamole.HeadOfPrint | backend/src/services/session_registry.rs:340-349 | the text before the first `,` or `;` of a printed instruction names an opcode exactly when that is the instruction's opcode |
| BaseState.StripFrame | backend/src/routes/admin.rs:2733-2749 | the inner loop's text is the frame without blank and sync-like pieces, and the sync it remembers is the last sync-like piece |
| BaseState.Dump | backend/src/routes/admin.rs:2731-2764 | the messages sent concatenate to the stripped frames followed by the last sync, and none is empty |
| BaseState.SyncLikeOfPrint | backend/src/routes/admin.rs:2740-2748 | on a printed instruction the text test succeeds exactly for a sync that carries an argument |
| BaseState.DumpReadsBack | backend/src/routes/admin.rs:2731-2764 | the dumped text reads back as every instruction but the syncs, in order, then the last sync |
| BaseState.BackIgnoresSyncs | backend/src/routes/admin.rs:2722-2730 | under every drawing semantics the back buffer depends on the drawing instructions alone, and they show nothing |
| BaseState.DumpPreservesMeaning | backend/src/routes/admin.rs:2722-2764 | the dump leaves the back buffer of the unstripped frames, shows nothing before it, and shows it exactly once if the frames held a sync |
| BaseState.DumpOfFlushedFrames | backend/src/routes/admin.rs:2722-2764 | when the frames end in a sync the client is left exactly as the frames would have left it |
| BaseState.ArgumentlessSyncSurvives | backend/src/routes/admin.rs:2739-2749 | the stripped part is free of syncs if and only if every sync carries an argument |
| BaseState.StripIsIdentityIff | backend/src/routes/admin.rs:2738-2749 | for any text, stripping leaves it alone if and only if no piece is blank or sync-like |
| BaseState.SemicolonTearsAnInstruction | backend/src/routes/admin.rs:2739-2749 | an instruction whose argument holds `;4.sync,` does not survive stripping, whatever else it holds |
| ReplayBuffer.FilterSensitiveInstructions | backend/src/services/session_registry.rs:112-137 | the loop keeps exactly the non-blank pieces whose parsed opcode is not credential-bearing |
| ReplayBuffer.SalvagedIff | backend/src/services/session_registry.rs:334-353 | what is salvaged from any text: the pieces that are not blank and do not begin as a sync, a keep-alive or echoed input |
| ReplayBuffer.LengthReads | backend/src/services/session_registry.rs:142-145 | a declared length is read with or without a plus sign if it fits 64 bits |
| ReplayBuffer.SessionBuffer.constructor | backend/src/services/session_registry.rs:194-205 | a new buffer is consistent and empty |
| ReplayBuffer.SessionBuffer.Push | backend/src/services/session_registry.rs:225-277 | ring and log stay the exact split of everything pushed: the redacted chunk is appended, the oldest frames past the age or the cap move to the log, byte counts agree, and the log loses entries only when it would exceed its cap |
| ReplayBuffer.SessionBuffer.Store | backend/src/services/session_registry.rs:247-276 | a chunk is appended and exactly the frames past the age or the cap are evicted, with the log untrimmed unless what they salvage exceeds its cap |
| ReplayBuffer.SessionBuffer.EvictFront | backend/src/services/session_registry.rs:334-369 | evicting a frame appends what is salvaged from it to the log, then trims the oldest entries only as far as the cap requires |
| ReplayBuffer.SessionBuffer.TrimLog | backend/src/services/session_registry.rs:361-368 | trimming brings the log within its cap and drops nothing when it already is |
| ReplayBuffer.EvictionsStop | backend/src/services/session_registry.rs:254-275 | after the evictions of a push the ring is within its cap and its oldest frame within the age limit |
| ReplayBuffer.EvictionsNeeded | backend/src/services/session_registry.rs:254-275 | no frame is evicted that was neither over age nor the start of a ring over the cap |
| ReplayBuffer.FreshIsSuffix | backend/src/services/session_registry.rs:281-287 | the frames selected by age are a suffix of the ring |
| ReplayBuffer.TimingIsMonotone | backend/src/services/session_registry.rs:281-299 | replay delays start at zero and never decrease |
| ReplayBuffer.TimingIsExact | backend/src/services/session_registry.rs:281-299 | an observer is given the frames young enough, in order, each with the whole milliseconds from the first of them to it |
| ReplayBuffer.LogAndRingCover | backend/src/services/session_registry.rs:313-369 | log and ring hold every salvageable instruction ever pushed, once each and in order, less exactly the oldest entries trimmed from the log |
| ReplayBuffer.SnapshotCoversIff | backend/src/services/session_registry.rs:281-368 | a snapshot covers everything pushed if and only if the log was never trimmed and the ring frames left out by age hold nothing to salvage |
| ReplayBuffer.SnapshotAfterEvictionCovers | backend/src/services/session_registry.rs:225-368 | a snapshot at the clock of the last push covers everything pushed if and only if the log was never trimmed |
| ReplayBuffer.IdleSnapshotIsLogOnly | backend/src/services/session_registry.rs:281-287 | once the newest frame is over age a snapshot selects no frame at all |
| Observer.ParseOpcodeOfPrint | backend/src/services/session_registry.rs:142-153 | the filter's parser recovers the opcode of a printed instruction exactly when the opcode holds no comma |
| Observer.FilterOfPrint | backend/src/services/session_registry.rs:112-153 | redaction of printed text is the removal of exactly the `connect` and `args` instructions |
| Observer.SalvageOfPrint | backend/src/services/session_registry.rs:334-358 | what is salvaged from printed chunks is exactly their instructions other than sync, nop, key and mouse, in order |
| Observer.JoinReadsBack | backend/src/routes/admin.rs:2709-2807 | the log, the dump and the paced frames sent to an observer read back as the lasting instructions evicted, the dumped ones with one sync, and the paced ones |
| Observer.JoinShowsTheSession | backend/src/routes/admin.rs:2636-2807 | wherever the stream is cut into evicted, dumped and paced parts, the observer's back buffer is that of the whole stream, and once a paced frame flushes the two clients are identical |
| Observer.RebuildShowsTheSession | backend/src/routes/admin.rs:2846-2899 | after a lag the log, the stripped ring and one sync read back as instructions that show the back buffer of everything pushed, drawn over what the client had, at once and with nothing before it |
| Observer.SnapshotParts | backend/src/routes/admin.rs:2648-2654 | the log, the dumped and the paced frames of a consistent buffer are three consecutive parts of what was pushed |
| Observer.SnapshotShowsTheSession | backend/src/routes/admin.rs:2636-2807 | end to end: the text sent from a buffer with nothing over age and an untrimmed log reads back as instructions that leave the whole session's back buffer |
| Live.StoredIsRedacted | backend/src/services/session_registry.rs:225-233 | what pushes of printed chunks leave in the buffer is the printed form of the chunks without their credentials, those with nothing left not stored |
| Live.OpeningShows | backend/src/routes/admin.rs:2648-2899 | a join's text or a rebuild's shows the chunks pushed, with credentials or not |
| Live.ThenShows | backend/src/routes/admin.rs:2836-2843 | frames forwarded as they are, after text that shows some chunks, show those chunks and then their own |
| Live.LiveObserverShows | backend/src/routes/admin.rs:2636-2903 | end to end in every run: what an observer has been sent since its latest join or rebuild, from a buffer that holds the session without its credentials, until its latest receive leaves the back buffer of the session's chunks up to that snapshot and then those broadcast since, drawn over what the client had |
| Broadcast.TimelySnapshotSound | backend/src/routes/admin.rs:2846-2899 | a join or rebuild that finds no over-age frame and an untrimmed log makes its observer sound, whatever it had lost |
| Broadcast.StepKeepsSound | backend/src/routes/admin.rs:2836-2903 | each step other than a snapshot keeps an observer sound, whatever the others have been sent: it has been sent every frame before its place, and since its last snapshot the whole ring and then the broadcast in order |
| Broadcast.NothingIsLost | backend/src/routes/admin.rs:2836-2903 | lag recovery loses nothing: in every interleaving of push, broadcast, join, receive, lag, rebuild and leave, an observer whose latest snapshot found no over-age frame and an untrimmed log has been sent every frame before its place, and since that snapshot the whole ring and then the broadcast in order, whatever it or others had lost before |
| Broadcast.JoinCoversIff | backend/src/routes/admin.rs:2648-2654 | in every reachable state, whatever others have lost, a join covers every frame before the observer's place if and only if no broadcast frame has been trimmed from the log and the over-age frames left out are still to be broadcast |
| Broadcast.RebuildCoversIff | backend/src/routes/admin.rs:2853-2886 | a rebuild of an observer that has lost nothing so far loses no frame if and only if none that it has not been sent, and will not be, has been trimmed from the log or is over age in the ring |
| Broadcast.DeliveredIsKnown | backend/src/routes/admin.rs:2836-2903 | a sound observer has been sent exactly the frames before its place or in its last snapshot |
| Broadcast.TailInOrderIff | backend/src/routes/admin.rs:2836-2903 | after a snapshot and part of the broadcast, last deliveries are in push order if and only if nothing has been received or the snapshot has been passed |
| Broadcast.CaughtUpInOrder | backend/src/routes/admin.rs:2836-2903 | in every run, such an observer that has passed its last snapshot has had each frame last delivered in push order |
| Broadcast.JoinIsGapFree | backend/src/session_engine.rs:1115-1123 | until its first rebuild such an observer has been sent the snapshot and then the broadcast without a gap, with at most one frame twice |
| Broadcast.EveryObserverCanCatchUp | backend/src/routes/admin.rs:2836-2903 | no observer is left behind: any run, however far an observer has lagged, can go on without another push to where it has passed everything pushed; it has then been sent all of it, if its latest snapshot found no over-age frame and the log was never trimmed |
| Broadcast.OrderedDeliveryPaints | backend/src/routes/admin.rs:2814-2823 | when last deliveries are in push order, repeats cannot be seen: overwriting frames leave the canvas of one delivery each |
| Broadcast.CaughtUpClientShowsTheSession | backend/src/routes/admin.rs:2814-2903 | in every run, such an observer that has passed its last snapshot shows exactly what overwriting frames delivered once each in order would |
| Broadcast.JoinedShowsIff | backend/src/routes/admin.rs:2648-2654 | for drawing of any kind, an observer that joined and has just caught up shows the session if and only if it joined between broadcasts or redrawing the snapshot's last frame on the session's canvas changes nothing; and once it does it goes on doing so |
| Broadcast.RebuiltShowsIff | backend/src/routes/admin.rs:2846-2903 | for drawing of any kind, an observer that has passed a rebuild shows the session if and only if the frames since lead what the rebuild and its repeats left to the session's canvas; where the rebuild restored the canvas, just after passing, if and only if redrawing the repeats on it changes nothing |
| Broadcast.RepaintRestores | backend/src/routes/admin.rs:2836-2903 | a frame that repaints the canvas decides a rebuild: among the frames sent again it makes the observer show the session, and before them it makes that equivalent to redrawing those frames changing nothing |
| Broadcast.RepeatedCopyShows | backend/src/session_engine.rs:1115-1123 | in a run without any lag, an observer that joined between a push and its broadcast and has caught up can show something else than the session, for drawing that reads the canvas |
| Pacing.Split | backend/src/routes/admin.rs:2656-2680 | the instant part holds exactly the frames more than the offset before the last, all of them for a rewind of zero, while the offset fits 64 bits; the paced span is at most the offset |
| Pacing.WrappedBoundaryIff | backend/src/routes/admin.rs:2662-2663 | the 64-bit product keeps the requested boundary if and only if it does not wrap or still covers the whole buffer |
| Pacing.Pace | backend/src/routes/admin.rs:2771-2807 | the loop sends the paced frames in order, with the marks and the sleep of its specification |
| Pacing.EventsProject | backend/src/routes/admin.rs:2771-2807 | the specified events amount to those frames, marks and sleep at every point of the replay |
| Pacing.ProgressReachesSpan | backend/src/routes/admin.rs:2794-2801 | progress starts at zero, never goes back, is marked every twentieth frame and at the last, and ends at the paced span |
| Pacing.MarkIsItsFrame | backend/src/routes/admin.rs:2794-2801 | each mark is the time of every twentieth frame into the paced part |
| Pacing.PauseFits | backend/src/routes/admin.rs:2780-2791 | a pause is at most the gap divided by the speed, up to the relative error of the machine's division, and exactly so when that is exact |
| Pacing.SleepFitsSpan | backend/src/routes/admin.rs:2780-2791 | the total sleep is at most the paced span divided by the speed, up to the same relative error, and none at a speed that is not positive |
| Pacing.SleepReachesSpan | backend/src/routes/admin.rs:2780-2791 | up to every frame, a replay has slept its span, gaps cut at half a second of pause, divided by the speed, short by less than six milliseconds a frame and by rounding |
| Pacing.TakenReaches | backend/src/routes/admin.rs:2780-2791 | so for the pause before each frame |
| Pacing.OwnSpeedSleepsTheSpan | backend/src/routes/admin.rs:2780-2791 | at the session's own speed with every gap from 6 to 500 milliseconds, a replay sleeps exactly its span, up to every frame |
| Pacing.PauseFitsExactlyIff | backend/src/routes/admin.rs:2780-2791 | a pause is at most the gap divided by the speed, with no allowance, if and only if the gap covers the longest pause or the quotient does not round up past a whole millisecond |
| Pacing.EveryReplayFitsIff | backend/src/routes/admin.rs:2780-2791 | a rate keeps the sleep of every replay within its span divided by the speed if and only if no pause it takes rounds up |
| Pacing.RoundedReplayOversleeps | backend/src/routes/admin.rs:2780-2791 | with 64-bit floats, two frames a millisecond apart replayed at a tenth of the speed are slept between for longer than that |
| Recording.TrackedRecording.constructor | backend/src/session_engine.rs:1219-1224 | a new sink has no fault and is not stopped |
| Recording.TrackedRecording.Fail | backend/src/session_engine.rs:1227-1242 | a failure latches only if it is the first; a required sink reports it and a best-effort one stops |
| Recording.TrackedRecording.Write | backend/src/session_engine.rs:1246-1264 | record and checkpoint reach the file unless stopped, and apply the policy to a failure |
| Recording.TrackedRecording.Finish | backend/src/session_engine.rs:1266-1277 | finalise latches a failure and reports it without stopping |
| Recording.FaultIsTheFirstFailure | backend/src/session_engine.rs:1226-1278 | over any calls the fault is the first failure met, and the sink is stopped if and only if it is best effort and a write has failed |
| Recording.FirstFailureAt | backend/src/session_engine.rs:1226-1278 | that failure is the one of the earliest call that failed |
| Recording.FileSeesNothingAfterFailure | backend/src/session_engine.rs:1226-1278 | the file sees every call up to and including a best-effort sink's first failed write, and none after it |
| NativeSession.Loop | backend/src/session_engine.rs:1045-1170 | for every event sequence, ring and broadcast carry the accepted text frames in order, each pushed before it is broadcast; the counters are the summed lengths; the loop ends at the first event that ends it, with its reason; and observers have the texts the operator's socket took, or those and the one it died on |
| NativeSession.Turn | backend/src/session_engine.rs:1046-1170 | one event leaves the log in agreement with the events taken, and ends the loop exactly when the event does |
| NativeSession.TurnOther | backend/src/session_engine.rs:1047-1170 | each remaining branch ends the loop for its own reason or leaves it going |
| NativeSession.WhatEndsTheLoop | backend/src/session_engine.rs:1045-1170 | event by event and by name: a shutdown, a kill of a registered session, a verdict of the watchdog, the engine ending, a frame not text or not taken, refused input and the socket closing or failing each end the loop there, for that reason, with nothing read after |
| NativeSession.WhatDoesNot | backend/src/session_engine.rs:1045-1170 | a frame taken, accepted input, a clean watchdog, a ping and a kill of an unregistered session do not end the loop |
| NativeSession.MilestonesInOrder | backend/src/session_engine.rs:931-1204 | a required recording is open before the target is dialled; a registered session pushes and then broadcasts each text between registering and unregistering; and it is finalised, last of all, exactly when it was registered |
| NativeSession.RunNative | backend/src/session_engine.rs:923-1206 | the recording ends complete, incomplete or failed exactly as opening, connecting, registering and the fault read at the end determine; the loop runs exactly when all three succeed, with the promises of the loop; and what is done is done in order |
| NativeSession.Drive | backend/src/session_engine.rs:1194-1204 | the fault left by the actor's calls on the sink is the first failure among them |
| NativeSession.CompleteIsTruthful | backend/src/session_engine.rs:1189-1204 | with the actor closed in time and no step given up on, complete means the recording opened, the session ran and every operation succeeded |
| NativeSession.CompleteIsUntrueIff | backend/src/session_engine.rs:1194-1204 | complete is said of an imperfect recording if and only if no failure had been reported by then and something was given up on or failed later |
| NativeSession.GivenUpFinaliseSaysComplete | crates/strata-session/src/actor/session.rs:893-925 | a finalise abandoned at its time limit leaves the recording marked complete |
| HostKeys.PolicyByText | backend/src/session_engine.rs:94-140 | a session accepts a key if and only if it is pinned, or the policy text, trimmed and in any letter case, is `none`, or is `tofu` with nothing pinned: any other text, or none, fails closed |
| HostKeys.ClosedUnlessOpened | backend/src/session_engine.rs:94-140 | in every run on a connection whose policy text is neither, sessions connect only to keys pinned in what they read, and row and audit change only by approvals |
| HostKeys.UnverifiedIsAudited | backend/src/session_engine.rs:1604-1640 | in every run under `none` any key may connect, the row stays, and each recorded session is audited as unverified |
| HostKeys.ApprovalHolds | backend/src/routes/admin.rs:1708-1747 | an approval is audited, and what reads the row after it is held to the approved key |
| HostKeys.PinsMean | backend/src/session_engine.rs:780-813 | what is pinned, for any texts: the fingerprints listed, if any, and failing that those of the keys named on any line |
| HostKeys.SplitOfJoin | backend/src/session_engine.rs:765-813 | a list split at its separator gives back its parts |
| HostKeys.LinesOfEnded | backend/src/session_engine.rs:765-813 | lines read back whichever way each was ended |
| HostKeys.GenuineKeyPins | backend/src/session_engine.rs:780-813 | a stored key that renders as itself pins exactly its own fingerprint |
| HostKeys.RenderingPins | backend/src/session_engine.rs:780-813 | stored text on one line pins the fingerprint it reads as, if any |
| HostKeys.OnePinAtMost | backend/src/session_engine.rs:1604-1668 | however many sessions race from an empty row, while no key renders as empty text, at most one key is pinned, with exactly one audit event naming it |
| HostKeys.PinIsStable | backend/src/session_engine.rs:1651-1668 | once a key is pinned no session step changes it |
| HostKeys.OnlyApprovalReplacesAKey | backend/src/routes/admin.rs:1708-1747 | in any run, a stored key changes only by an administrator's approval |
| HostKeys.LaterSessionsAcceptOnlyThePin | backend/src/session_engine.rs:133-140 | a session that read its parameters after the pin accepts that key and no other |
| HostKeys.PinsNextKeyIff | backend/src/session_engine.rs:1624-1668 | a first-use connection that accepts any key pins the next one recorded if and only if both stored texts are empty |
| HostKeys.UnreadableKeyStaysOpen | backend/src/session_engine.rs:133-140 | with stored text that names no key, every session of every run without an approval accepts any key, whatever is presented, and none is ever pinned |
| HostKeys.AuditedPinHoldsIff | backend/src/session_engine.rs:1624-1668 | a key audited as pinned is the one the row then pins if and only if its rendering is not empty and reads back as that key |
| HostKeys.EmptyRenderingPinsNothing | backend/src/session_engine.rs:1651-1668 | a key rendered as empty text is audited as pinned and leaves the row open |
| HostKeys.TransferAcceptsAnyIff | backend/src/session_engine.rs:1586-1593 | file transfer accepts any key if and only if no key is named for it, it goes to the session's host, and the policy text is `none`, or is `tofu` with nothing pinned and no key presented |
| HostKeys.FingerprintsFromMean | backend/src/session_engine.rs:765-778 | what a transfer's own setting names, for any text: the `SHA256:` fingerprints listed, if any, and failing that those of the keys named |
| HostKeys.PreflightRefusesIff | backend/src/session_engine.rs:678-692 | file transfer is refused before the start if and only if no key is named for it and it goes to another host or the session's policy accepts nothing |
| HostKeys.TransferFollowsTheSession | backend/src/session_engine.rs:1721-1734 | on a first use, file transfer accepts only the key its own session accepted or those named for it |
| KeyedLocks.Registry.Get | backend/src/services/keyed_lock.rs:21-30 | the lock returned is the one the current callers for the key share, or a fresh one; an insertion drops every entry nobody holds, and no other lock is touched |
| KeyedLocks.Registry.Drop | backend/src/services/keyed_lock.rs:26 | a lock stays in use exactly while another caller has it |
| KeyedLocks.Registry.ComeAndGo | backend/src/services/keyed_lock.rs:46-52 | a caller that comes and goes leaves the locks in use as they were, and after an insertion the map with none but those and its own |
| KeyedLocks.InsertionForgetsIdleKeys | backend/src/services/keyed_lock.rs:26-28 | right after an insertion the map holds only keys some caller is using |
| KeyedLocks.RunKeepsInv | backend/src/services/keyed_lock.rs:6-9 | every run keeps locks and keys in correspondence, one owner per lock, and every fetch accounted for |
| KeyedLocks.SingleFlight | backend/src/services/keyed_lock.rs:6-9 | in every run callers share a lock if and only if they share a key, and at most one fetch per key is running |
| KeyedLocks.FetchesAreBounded | backend/src/services/keyed_lock.rs:6-9 | waiters whose predecessor filled the cache do not fetch: a key's fetches exceed its failures, callers dropped while fetching among them, and lost entries by at most one |
| KeyedLocks.MapBoundedByPeak | backend/src/services/keyed_lock.rs:22-29 | the map never holds more entries than the greatest number of keys that were in use at one moment of the run |
| KeyedLocks.EveryCallerCanBeServed | backend/src/services/keyed_lock.rs:6-30 | no caller is left waiting: any run, whatever failed or was dropped, can go on to where a given caller has its value in the cache |
| TokenRefresh.TabState.Refresh | frontend/src/api.ts:54-88 | the module variables follow the guard of the protocol: a call while an attempt is in flight shares it, and otherwise begins a new one |
| TokenRefresh.TabState.Settle | frontend/src/api.ts:82-87 | a settled attempt leaves the tab free to begin another |
| TokenRefresh.RunKeepsBooks | backend/src/services/refresh_tokens.rs:66-146 | in every run, with or without the tab lock, no token about is ahead of the cookie, and the cookie is behind the server if and only if a rotation is undelivered or lost |
| TokenRefresh.PresentsNewestIff | frontend/src/api.ts:58-88 | in every run, with or without the tab lock, a refresh with the server presents the newest token if and only if no rotation was undelivered or lost when it was sent and the server has issued none since |
| TokenRefresh.AbandonedRotationIsLost | backend/src/services/refresh_tokens.rs:66-117 | a request given up on that the server still rotates was sent with the newest token, and leaves the browser behind the server for good |
| TokenRefresh.PresentsNewestIffNothingLost | frontend/src/api.ts:79-88 | with the tab lock, in every interleaving of tabs and callers, a refresh presents the newest token the server issued if and only if no rotation has been lost, with its response or at a request given up on |
| TokenRefresh.OneRefreshAtATime | frontend/src/api.ts:79-88 | with the tab lock at most one attempt, of all tabs, is with the server and still awaited |
| TokenRefresh.CallersShareTheAttempt | frontend/src/api.ts:54-88 | in every run, calls of one tab that await a refresh, direct or after a 401, await the same one, unless theirs has settled and they are about to go on |
| TokenRefresh.OneAttemptPerTab | frontend/src/api.ts:54-88 | in every run, with or without the tab lock, a tab has at most one attempt in flight |
| TokenRefresh.AttemptBeginsIff | frontend/src/api.ts:54-56 | in every run, a call of the refresh function, direct or after a 401, begins an attempt if and only if its tab has none in flight |
| TokenRefresh.RequestEnds | frontend/src/api.ts:91-140 | in every run a request fetches its path at most twice, and the refresh endpoint once; it awaits a refresh if and only if its first answer was 401 from another path; it ends with the status of its last fetch, ok for 200 to 299; and it redirects only after a failed attempt |
| TokenRefresh.DeliveredSucceedsIff | frontend/src/api.ts:61-77 | an attempt whose answer arrived succeeds if and only if the server rotated its token or answered that it was spent moments ago |
| TokenRefresh.LostFails | frontend/src/api.ts:74-77 | an attempt given up on, or whose answer was lost, fails |
| TokenRefresh.AttemptSucceedsIff | frontend/src/api.ts:58-88 | in every run, an attempt that has ended succeeded if and only if the server accepted its refresh and the answer arrived |
| TokenRefresh.CallResumes | frontend/src/api.ts:101-131 | in every run, a request whose refresh the server accepted fetches exactly once more and ends as that fetch does, ok for 200 to 299; otherwise it ends with 401 and goes to the login page unless on a public one; a direct call returns whether the server accepted |
| TokenRefresh.EveryCallCanEnd | frontend/src/api.ts:58-131 | no call is left waiting by the locks: any run, with whatever lost and given up on, can go on to where a waiting call is over |
| TokenRefresh.WithoutTabLockATokenIsSpentTwice | frontend/src/api.ts:79-82 | without the tab lock two tabs can present the same token, the second being spent because the first was served between its sending and its serving |
| UserManagement.PassesIff | backend/src/routes/admin.rs:2029-2303 | a request passes if and only if its actor manages users, reaches the target, may grant the role, exempts nobody from outbound approval without the system permission, changes something, and resets only a live local account |
| UserManagement.RefusalsMean | backend/src/routes/admin.rs:2029-2303 | what is missing, wrong or forbidden for each kind of refusal |
| UserManagement.AuthorisedIsGrantable | backend/src/routes/admin.rs:2029-2060 | a request that passes its checks grants only flags the actor has, to somebody else, on an account with none the actor lacks |
| UserManagement.WriteKeepsBounds | backend/src/routes/admin.rs:2147-2215 | a granted write keeps every account's flags as they were or within those of one initial manager |
| UserManagement.AuthorityDoesNotGrow | backend/src/routes/admin.rs:2029-2060 | however requests of delegated managers interleave, each account's role is unchanged or its flags are within those of one account that managed users at the start |
| UserManagement.TouchesAreAllowed | backend/src/routes/admin.rs:2045-2060 | in every such run no manager writes to itself, or to an account that had a flag the manager lacks when the request was checked |
| UserManagement.RoleIsLastGrant | backend/src/services/users.rs:310-324 | in every run an account has the role last given to it |
| UserManagement.WriteIsWithinIff | backend/src/routes/admin.rs:2045-2060 | a write touches an account with a flag the actor lacks if and only if the last role given to the account between the request's check and the write has one |
| UserManagement.SerialTouchesAreWithin | backend/src/routes/admin.rs:2045-2060 | while requests do not overlap between check and write, no write touches an account with a flag the actor lacks at that moment |
| UserManagement.OverlapReachesBeyond | backend/src/routes/admin.rs:2295-2367 | two overlapping requests can write to an account that has since gained a flag the writer lacks |
| UserManagement.AnAdministratorRemains | backend/src/services/users.rs:232-324 | in every run by whatever actors, a system with a live administrator keeps one |
| UserManagement.OnlySystemManagersExempt | backend/src/routes/admin.rs:2164-2167 | in every run, by whatever actors, an account exempt from outbound approval was so from the start or was made so by a system manager's write |
| UserManagement.DelegatesExemptNobody | backend/src/routes/admin.rs:2164-2167 | delegated managers exempt nobody, however their requests interleave |
| UserManagement.OnlyLocalPasswordsChange | backend/src/routes/admin.rs:2295-2367 | in every run, by whatever actors, an account that is not local keeps its password |
| UserManagement.RequestTakesEffect | backend/src/routes/admin.rs:2099-2367 | a request that has passed, undisturbed, leaves exactly the table it asked for, as long as another account administers the system |
| UserManagement.RequestWithoutItsRow | backend/src/services/users.rs:222-376 | a request whose row is not there for it, as a deletion already made or a change to a deleted account, changes nothing |
| UserManagement.RequestRunsItsCourse | backend/src/routes/admin.rs:2029-2367 | wherever a run has come to, a request begun can go on to its end: refused, or without its row, it changes nothing; passed, it leaves the table it asked for, as long as another account administers the system |
| DownloadLimiter.Limiter.constructor | backend/src/routes/files.rs:30-32 | a new limiter is empty and agrees with an empty history |
| DownloadLimiter.Limiter.Download | backend/src/routes/files.rs:380-403 | a request is admitted if and only if the admissions since the table was last cleared hold fewer than 60 in its window, and if and only if all admissions ever do when it never was or a window has passed since; at most 50,001 keys and 60 times a key always |
| DownloadLimiter.Limiter.MakeRoom | backend/src/routes/files.rs:383-392 | a table that has grown too large is pruned, and cleared if and only if more than 50,000 addresses were admitted in the window |
| DownloadLimiter.OldDoNotCount | backend/src/routes/files.rs:394-396 | admissions before a clear stop mattering once they are outside the window |
| DownloadLimiter.Limiter.Prune | backend/src/routes/files.rs:384-389 | pruning keeps the table in agreement with the history |
| DownloadLimiter.Limiter.Decide | backend/src/routes/files.rs:394-402 | trimming one list and recording the request keeps the agreement, and decides as the history does |
| DownloadLimiter.RecentTwice | backend/src/routes/files.rs:384-396 | dropping old times early does not change what a later window selects |
| DownloadLimiter.PrunedIsFaithful | backend/src/routes/files.rs:384-389 | pruning the whole map changes no decision at that time or later |
| DownloadLimiter.PrunedIsActive | backend/src/routes/files.rs:383-389 | pruning leaves exactly the addresses admitted in the window |
| DownloadLimiter.WindowHoldsAtMostTheLimit | backend/src/routes/files.rs:394-402 | no window of 60 seconds, wherever it ends, holds more than 60 admitted requests of one address |
| DownloadLimiter.WindowAcrossClears | backend/src/routes/files.rs:383-402 | a window that spans clears holds at most 60 admitted requests of one address for each stretch between clears that it touches |
| DownloadLimiter.Limiter.AnyWindow | backend/src/routes/files.rs:380-403 | that bound holds at all times of everything the limiter has ever admitted |
| LdapFilter.CheckParens | backend/src/routes/admin.rs:99-129 | the loop's verdict is that of the one-counter scan, with the error met first |
| LdapFilter.ValidateLdapFilter | backend/src/routes/admin.rs:75-141 | a filter is accepted if and only if it meets the length, end, control-character and match-everything rules and is a word of the balanced grammar nested at most 32 deep; each error says which rule failed first |
| LdapFilter.WordScans | backend/src/routes/admin.rs:99-129 | every word of the grammar within the nesting limit scans back to its depth |
| LdapFilter.ScanIsWord | backend/src/routes/admin.rs:99-129 | every text that scans to zero begins with a word of the grammar, up to the parenthesis that closes its level |
| LdapFilter.ScanAcceptsExactlyTheGrammar | backend/src/routes/admin.rs:99-129 | the one-counter scan accepts exactly the words of the recursive grammar |
| LdapFilter.MatchEverythingIff | backend/src/routes/admin.rs:130-139 | a balanced filter is refused as matching everything if and only if it is `*`, or `objectclass=*` in any letter case, in nested parentheses and white space |
| LdapFilter.OneGroupIff | backend/src/routes/admin.rs:89-129 | a text that passes the scan is one filter if and only if what is between its first and last characters passes on its own |
| LdapFilter.TwoFiltersPass | backend/src/routes/admin.rs:89-93 | two filters side by side, of any printable characters, meet every rule and are not one filter |
| Migrations.LfOfCrlf | backend/src/db/mod.rs:384-385 | converting to CRLF and back is the identity on every text |
| Migrations.RepairedIff | backend/src/db/mod.rs:377-402 | a changed checksum is repaired if and only if it is that of a line-ending form of the build's text, of an edit reviewed for this very version, or of a version the operator named |
| Migrations.LineEndingRepairIff | backend/src/db/mod.rs:383-391 | an applied text is accepted as a line-ending difference if and only if it is the build's LF or CRLF form, and then the two differ in carriage returns only |
| Migrations.CheckoutsAgree | backend/src/db/mod.rs:383-391 | both forms of a source without carriage returns are accepted whichever form the build holds, and no other text is |
| Migrations.VerifyAppliedChecksums | backend/src/db/mod.rs:406-468 | the loop's rows and refused list are those of the specification, it passes exactly when nothing is refused, no row is added or removed, and a missing table changes nothing |
| Migrations.RowAfter | backend/src/db/mod.rs:419-457 | an applied row ends with the build's checksum unless its own migration is refused, and then as it was; other rows are untouched |
| Migrations.VerdictsAreIndependent | backend/src/db/mod.rs:419-457 | the refused list is exactly the versions whose rows no rule accepted at the start, in order: no repair changes another verdict |
| Migrations.PassesIffMatched | backend/src/db/mod.rs:458-468 | the check passes if and only if every applied migration ends with its build's checksum |
| Migrations.NextStartChangesNothing | backend/src/db/mod.rs:406-468 | after a pass the next start passes and changes nothing, even with no rule to repair by |
| Migrations.NamingTheRefusedIff | backend/src/db/mod.rs:458-466 | after a refusal the next start passes if and only if the operator's list covers every refused version |

## Left out

- The cached `size` instruction sent before the log, the replay header and the five-second keep-alive: each adds one message outside the parts modelled.
- The shared memory budget: a push takes the ring and log caps as parameters, read once for the push.
- NothingIsLost, JoinIsGapFree and the other run theorems of `Broadcast`: count frames as push positions, and a frame as gone from the log once one of its entries is; what redaction leaves of each is stated on the text (`StoredIsRedacted`, `OpeningShows`) and not in the protocol.
- CaughtUpInOrder, CaughtUpClientShowsTheSession and the other theorems on an observer in a run: its latest snapshot was taken with no over-age frame in the ring and an untrimmed log; `JoinCoversIff` and `RebuildCoversIff` say what another snapshot loses.
- RebuildCoversIff: is about an observer that has lost nothing since its latest whole snapshot; how one that has fares at a rebuild that is not whole depends on what it lost.
- SnapshotShowsTheSession and LiveObserverShows: the log was never trimmed and no frame is over age, which are the two conditions of `SnapshotCoversIff`.
- CaughtUpClientShowsTheSession: frames overwrite the cells they set; drawing of any kind is the subject of `JoinedShowsIff` and `RebuiltShowsIff`.
- PauseFits, SleepFitsSpan and SleepReachesSpan: a gap and a speed are exact numbers, and only their quotient is rounded; a speed is not infinite or not-a-number.
- Loop and RunNative: the actor is a list of calls on its sink, of which the first `seen` are over when the fault is read; status updates are taken to succeed; a key presented by the target is the subject of `HostKeys`; the reasons the loop ends for are names, not texts.
- OnePinAtMost, PinIsStable and LaterSessionsAcceptOnlyThePin: no key accepted renders as empty text, and for the last every one reads back as itself; `AuditedPinHoldsIff` and `UnreadableKeyStaysOpen` are what happens otherwise.
- TokenRefresh: the revocation of a token family after a replay, the expiry of tokens and concurrent logins; a refusal stands for all of them.
- UserManagement: roles are fixed during a run; changing what a role grants needs the system permission. The clause that a request by a system manager skips the target check is part of `Authorise`, and the bounds are stated for delegated managers.
- Migrations: the digest is a parameter, taken to be free of collisions where a text is inferred from it; the list of historical edits is a parameter; versions in a build are distinct, as their primary key requires.
- OneGroupIff: one filter is one parenthesised word; the attribute and value syntax inside it is not checked by the code and not modelled.
- The survey of host keys, certificate policy for RDP, routing between engines, and the parameter readers: single decisions.
- Protocol engines, the terminal rasteriser, the session actor's own loop, SQL execution, cryptography, WebSocket and HTTP plumbing, and the user interface.
- `percent_decode`, `quote_ident` and `runtime_role_name`, `is_safe_hostname` and the paging helpers: character-level helpers without a protocol around them.
