# A verified model of py20305's hard cores

py20305 is a client for IEEE 2030.5 / CSIP. This Dafny project models the parts of it whose
correctness is hard to see from one function body, and proves what they promise:

- **Restricting payloads to a schema edition** (`SchemaEditions`, `ServerProfile`,
  `RestrictLaws`, `RestrictMeaning`, with `Bits` and `Chains` below them). `Restrict` removes from a typed model
  what a 2018 server may not be sent; `Audit` walks the serialized tree on its own terms. Both
  schemas, the feature registry and the model are arbitrary; base chains may be circular. A key
  is an element name or an attribute name, where the source writes a leading `@` for the
  latter; a DERControlType2 model is a `Bitmap`.
- **Outages** (`SimulationWindow`, `RequestGate`, both together in `IsolatedWindow`,
  `SilenceAttribution`, `CommsLossEpisodes` over `Episodes`, `Rediscovery`). Each is a state machine with one step
  per stretch between two awaits and a history of what happened; the theorems hold for every
  sequence of steps. A step that is not enabled changes nothing, so every sequence of actions is
  a run. The release of a counted request and the contact record after it are one step, as
  nothing is awaited between them. A rediscovery call is given by a script of its passes and
  recorded as a trace of events.
- **The bounded observer queue** (`QueuedObserver`): callers, one closer and the worker thread
  interleave. A call is one step because it runs under the lock.
- **Clocks and cadence** (`Timebase`, `PollScheduler`): scoped server time with fallback (section
  9.2.3 of IEEE 2030.5) and the heartbeat of suppressed polls (section 8.9.3.4 rules g and r,
  section 10.2.2.3 rule a). Time is a real number and timers are exact.
- **Indexes, searches and text** (`ProgramRefresh` over `ProgramListing`, `DdercTracker`, `Paging`,
  `Retry`, `Changelog`, `ChangelogMerge`, `ChangelogHeadings`, `ChangelogStability`,
  `ChangelogText`). A changelog text is the list of its lines, and white space within a line is
  blank, tab or carriage return.

Where the source updates fields, a class with the same fields has methods for the stretches
between its awaits, each proved to be the step the theorems speak about (`View() ==
Next(old(View()), ...)`); in `Rediscovery` the methods produce exactly the trace the lemmas are
about. Where the source loops, a method with the same loop is proved equal to the function the
lemmas are about. A step with no method of its own, such as a contact that arrives or a clock
that ticks, belongs to the environment.

The functions that say what an operation computes are themselves pinned to a second account that
does not use them: the schema tables and the feature registry for what may be sent, the pages of
the server for what is listed, the receipts of a run for what time is read, the steps taken so far
for queue, gate, phase, boundary and contact, and the lines of a text for what is split and merged.

What the proofs brought up about the source:

- A rediscovery called by a poll task ends itself. Its first stage cancels every poll task
  (src/py20305/client/polling.py:299-313), the caller among them, outside any handler
  (src/py20305/client/csip_client.py:1835): the polls stay stopped (`PollsComeBack`), and a call
  that coalesced meanwhile is lost unless a later one from elsewhere makes good
  (`NoRequestIsLost`, `LaterCallMakesGood`). Poll tasks do call it: on a reconnect, a redirect or a
  404 (src/py20305/client/csip_client.py:1313, 1345, 1351), and in the recovery the scheduled
  probe begins (lines 592-594 and 795).
- So a recovery begun by the scheduled loss-of-communications probe never clears the mode
  (`ModeEdges`); it stops the polls, and the client stays in the mode until somebody recovers by
  hand or a rediscovery from elsewhere ends (`ProbeRecoveryStrands`,
  `ScheduledRecoveryStopsPolls`).
- A new scheduler starts without locks (line 1836), so the "comms_loss" key lock does not keep
  recoveries apart across a rediscovery. What does is the lifecycle lock around the client's own
  manual recovery (line 978): with it the trail of transitions is well formed in every run
  (`EpisodesAreWellFormed`). The public recovery called twice without it can clear the mode twice
  (`OverlappingRecoveriesClearTwice`); the exact condition is in `PatternIffNoStaleClear`.
- Resetting the session forgets the last contact and the failure count but not the attribution of
  the silence (`ResetKeepsTheFlag`).
- Restriction and audit disagree for a pair of schemas in which 2018 puts an attribute on one
  global element and 2023 puts the same attribute on another (`MisalignedRootsFailAudit`). The
  exact condition is in `RestrictPassesAudit`; it holds today, because 2018 declares no attribute
  on a global element.
- `QueuedObserver.close` documents that the thread stops. A close that gives up before its stop
  marker fits while the worker waits at an empty queue, as `close(timeout=0)` does, leaves the
  worker waiting for ever (`CloseCanStrandWorker`); `StrandedByGivingUp` names the only step that
  does this, and `WorkerEndsIffNotStranded` says that it is the only way to be left waiting.
- The two early returns of the simulation's expiry task are never taken by a timer that was not
  cancelled first (`WakingTimerIsCurrent`), and the clamp of the request count at zero is never
  needed (`CountIsExact`).
- The width 4 given to a rewritten bitmap without bytes is never used: an empty bitmap has no bit
  to remove (`BitmapKeepsPermittedBits`).
- A second pass over unchanged default controls is silent if and only if no program offers two
  different controls at the best primacy of all that is recorded and offered
  (`SecondPassIsSilent`); two such controls replace each other for ever (`ContestNeverEnds`). The
  event processor offers one control per program, and then every second pass is silent
  (`DistinctProgramsSettle`).
- The documentation of `refresh_der_programs` says that programs of an assignment whose list
  answered 404 are kept. In the code a 404 on the first page is an empty list, and its programs
  are pruned (`AbsentListLosesPrograms`); an unlisted program survives if and only if a list of
  its assignment stopped answering between pages (`UnlistedSurvivesIffFaulted`).
- A simulate call that fails while an earlier window is open ends that window too, and is the only
  way to end one without driving a recovery (`WhoCloses`).
- An indented heading line at the start of a changelog chunk turns into a real heading once the
  chunk is stripped (`IndentedHeadingIsLost`); `SplitUndoesMerge` shows that nothing else breaks
  the round trip. Whether a second merge then changes the body depends: some such bodies are
  stable (`NudgedSectionIsStable`), some are not (`NudgedHeadingUnsettles`), and
  `FixedIffNormal` says exactly which.

## Model

| member | source | states |
|---|---|---|
| `Chains.FindAgreesWithChain` | src/py20305/schema_editions.py:117-125 | The walk with a cycle guard answers d exactly when d is the first match on the unguarded chain, however many links away, and nothing exactly when no node of the chain matches; circular chains included |
| `Chains.FindSkipsMiss` | src/py20305/schema_editions.py:117-125 | Starting one link further on gives the same answer when the first node does not match, although the two walks have seen different nodes |
| `Chains.FindIsFirstOnPath` | src/py20305/schema_editions.py:117-125 | The guarded walk answers d exactly when some path of links, written out, first meets a match at d |
| `SchemaEditions.FindDeclarer` | src/py20305/schema_editions.py:112-125 | The loop returns the first type on the unguarded base chain that declares the key, and None exactly when none does |
| `SchemaEditions.CollectEffective` | src/py20305/schema_editions.py:127-140 | The loop collects a key exactly when the type has a declarer for it, with nearer declarations winning |
| `SchemaEditions.SetDefaults` | src/py20305/schema_editions.py:136-137 | Entries already there win over the ones added |
| `SchemaEditions.LookupsAgree` | src/py20305/schema_editions.py:112-140 | On every schema a key is effective in a type if and only if the type has a declarer for it, and the element type reported is the declarer's |
| `SchemaEditions.NewItemIsStable` | src/py20305/schema_editions.py:148-161 | An item found new names a type on which the same lookup finds the same item, and which the 2018 schema does not give the key |
| `SchemaEditions.WalkPayload` | src/py20305/schema_editions.py:193-213 | The walk that appends to one list while descending appends exactly the items of the recursive definition, in order |
| `SchemaEditions.WalkNodeAttributes` | src/py20305/schema_editions.py:195-199 | Unqualified known attributes that 2023 added are appended, in order |
| `SchemaEditions.WalkNodeChildren` | src/py20305/schema_editions.py:200-213 | The children contribute one after another |
| `SchemaEditions.WalkOneChild` | src/py20305/schema_editions.py:201-213 | Comments, foreign and unknown children are passed over, an added element is reported without being entered, a typed one is entered |
| `ServerProfile.RestrictPassesAudit` | src/py20305/server_profile.py:259-326 | For every 2018 profile, pair of schemas and typed model, the audit of the restricted payload is empty if and only if every field that is kept is permitted where the audit reads it |
| `ServerProfile.RestrictIsSound` | src/py20305/server_profile.py:259-326 | When every refused field is optional and the root's attributes are known to 2018 or dropped, the audit of what the client sends finds nothing |
| `ServerProfile.AuditElement` | src/py20305/schema_editions.py:200-213 | One restricted element field yields no refused item if and only if it is clean; permitted additions are not looked into |
| `ServerProfile.AuditAttributes` | src/py20305/schema_editions.py:195-199 | The attributes a restricted model keeps yield no refused item if and only if they are permitted under the type the audit reads them with |
| `ServerProfile.InlineSameElements` | src/py20305/schema_editions.py:64-72 | The inline type of a global element has the elements and declarers of the named type it extends |
| `ServerProfile.NoRootFindings` | src/py20305/server_profile.py:285-286 | A restricted model has no attribute that only 2023 puts on global elements |
| `RestrictLaws.BitmapKeepsPermittedBits` | src/py20305/server_profile.py:295-306 | A restricted bitmap has the same number of bytes and, read big-endian, exactly the original bits that are permitted |
| `RestrictLaws.BitmapsAreOriginals` | src/py20305/server_profile.py:270-306 | The bitmaps of a restricted model are bitmaps of the original, in order, each restricted on its own |
| `RestrictLaws.RestrictedBitmapsWithin` | src/py20305/server_profile.py:270-306 | No bitmap anywhere in a restricted model sets a refused bit |
| `RestrictLaws.RestrictComposes` | src/py20305/server_profile.py:270-293 | Restricting to fewer features after more is restricting to fewer at once: idempotence and monotonicity in the enabled features |
| `RestrictLaws.RestrictLeavesAlone` | src/py20305/server_profile.py:270-293 | A model comes back unchanged if and only if it holds nothing refused |
| `RestrictLaws.PermittedModeBits` | src/py20305/server_profile.py:214-222 | The loop yields the union of the bits of the enabled features, or 0 to 9 for 2023 |
| `RestrictLaws.BuildMask` | src/py20305/server_profile.py:226-228 | The number built by shifting and or-ing has exactly the given bits set |
| `Bits.BitIsQuotient` | src/py20305/server_profile.py:228-229 | Bit k of a number is the parity of the number divided by 2 to the k |
| `Bits.BitOfByte` | src/py20305/server_profile.py:302-306 | Byte j from the front of a big-endian string holds the bits from 8 x (length - 1 - j) on |
| `RestrictLaws.MaskModes2` | src/py20305/server_profile.py:224-229 | Bit k of the result is set exactly when it is set in the input and permitted |
| `RestrictLaws.RestrictModel` | src/py20305/server_profile.py:270-306 | The field loop, run on any model, computes the restriction that `RestrictFieldByField` tells field by field |
| `RestrictLaws.RestrictOneField` | src/py20305/server_profile.py:280-292 | One field through the branches of the loop, with the answer `RestrictFieldByField` gives for it |
| `RestrictLaws.RestrictOne` | src/py20305/server_profile.py:271-274 | Lists are restricted item by item and plain values stay |
| `RestrictLaws.MisalignedRootsFailAudit` | src/py20305/server_profile.py:101-103 | A pair of schemas and a model with only optional refused fields whose restricted payload the audit reports |
| `RestrictMeaning.DeclarerIs` | src/py20305/schema_editions.py:112-125 | The declarer is the first type along the bases whose own table has the key, told from the tables alone |
| `RestrictMeaning.PermitsIs` | src/py20305/server_profile.py:231-245 | A key may be sent exactly if the base is 2023, or 2023 does not give it to the type's chain, or 2018 gives it to the declarer, or an enabled feature lists it there |
| `RestrictMeaning.RestrictFieldByField` | src/py20305/server_profile.py:259-293 | Under a 2023 base nothing changes; otherwise an optional field is emptied exactly when 2023 added it and no enabled feature lists it, a root-only attribute is dropped, and every other field stays, restricted inside |
| `RestrictMeaning.RestrictPayload` | src/py20305/server_profile.py:259-268 | restrict gives that answer for every field of the model |
| `RestrictMeaning.RestrictBitByBit` | src/py20305/server_profile.py:295-306 | Bit k of byte j from the front stays exactly when it is one of 0 to 9 under 2023, or a bit of an enabled feature |
| `RestrictMeaning.AuditReports` | src/py20305/server_profile.py:308-326 | An item is reported if and only if the base is not 2023 and the payload carries it outside added elements, 2018 does not give it to its declarer and no enabled feature lists it, or it is a root attribute only 2023 has |
| `RestrictMeaning.WalkFinds` | src/py20305/schema_editions.py:193-213 | The walk finds exactly the added items that the node carries outside added elements |
| `RestrictMeaning.RootReportIs` | src/py20305/server_profile.py:321-325 | A root attribute is reported exactly when it is unqualified and only 2023 puts it on a global element |
| `SimulationWindow.WindowIsSafe` | src/py20305/client/csip_client.py:875-965 | In every interleaving, gate closed and lock free means exactly one timer that can still act, the one the client keeps, with the current generation; notifications are held back exactly as long as the gate; no timer ever closed another generation's window |
| `SimulationWindow.WakingTimerIsCurrent` | src/py20305/client/csip_client.py:1053-1065 | A timer that gets the lock is current and its window open |
| `SimulationWindow.OpenWindowCloses` | src/py20305/client/csip_client.py:1041-1065 | From every reachable open window, its timer waking and locking closes it |
| `SimulationWindow.StepKeepsInv` | src/py20305/client/csip_client.py:875-965 | Every step of every task keeps the window invariant |
| `SimulationWindow.CancelExpiryClears` | src/py20305/client/csip_client.py:1014-1025 | After a cancellation from outside no timer can act any more |
| `SimulationWindow.GenerationPerWindow` | src/py20305/client/csip_client.py:876-880 | In every run the generation is the number of simulate calls that got the lock, and no two timers share one |
| `SimulationWindow.PhaseIsReported` | src/py20305/client/csip_client.py:959-964 | In every run the phase is active from arming, recovering from a clear or expiry, recovered exactly if that recovery completed and failed if not, inactive at first and after a rollback |
| `SimulationWindow.WindowControl.CancelExpiryTimer` | src/py20305/client/csip_client.py:1014-1025 | Cancels and forgets the timer unless the caller is that timer |
| `SimulationWindow.WindowControl.BeginSimulation` | src/py20305/client/csip_client.py:875-898 | New generation, old timer cancelled, notifications suspended, lock held |
| `SimulationWindow.WindowControl.ArmGate` | src/py20305/client/csip_client.py:899-901 | The gate closes for the current generation before the drain |
| `SimulationWindow.WindowControl.OpenWindow` | src/py20305/client/csip_client.py:913-926 | One new timer with the current generation, kept as the handle |
| `SimulationWindow.WindowControl.RollBack` | src/py20305/client/csip_client.py:902-911 | A failure or cancellation leaves a client that was never isolated |
| `SimulationWindow.WindowControl.BeginClear` | src/py20305/client/csip_client.py:937-945 | Cancels the timer, opens the gate and resumes notifications under the lock |
| `SimulationWindow.WindowControl.DisarmGate` | src/py20305/client/comm_loss_simulation.py:126-135 | Gate open, phase recovering, notifications resumed |
| `SimulationWindow.WindowControl.BeginExpiry` | src/py20305/client/csip_client.py:1053-1065 | Returns early for a foreign generation or an open gate, else clears as an operator would, keeping its own handle |
| `SimulationWindow.WindowControl.EndClear` | src/py20305/client/csip_client.py:948-965 | The phase says whether recovery completed, and the lock is released |
| `RequestGate.CountIsExact` | src/py20305/client/comm_loss_simulation.py:164-174 | In every run the count is the number of counted, unreleased requests and idle is set exactly at zero |
| `RequestGate.DrainedMeansIsolated` | src/py20305/client/http.py:799-809 | Once arming returned drained, until the next disarm or abort no request is talking to the server and the last contact does not move, except that a reset forgets it |
| `RequestGate.StaysIsolated` | src/py20305/client/comm_loss_simulation.py:221-246 | With the gate closed and nothing in flight, only a reopening lets a request through |
| `RequestGate.TimedOutDrainLeaks` | src/py20305/client/http.py:799-809 | After a drain that timed out a contact is still possible, as documented |
| `RequestGate.RunTells` | src/py20305/client/comm_loss_simulation.py:118-188 | In every run the gate is shut exactly from an arming to the next disarm or abort, a request is refused exactly if it finds it shut, and the last contact is the last one a request made |
| `RequestGate.CommLossSimulation.NoteRequestStarted` | src/py20305/client/comm_loss_simulation.py:164-167 | Counting a request that found the gate open is the entering step of the runs above, and the count stays exact |
| `RequestGate.CommLossSimulation.NoteRequestFinished` | src/py20305/client/comm_loss_simulation.py:169-174 | The release of a counted request is the finishing step: the count stays exact and the drain wakes at zero |
| `RequestGate.CommLossSimulation.BeginArm` | src/py20305/client/http.py:808-809 | Closing the gate and starting the wait is the arming step, from which isolation follows; the count stays exact |
| `RequestGate.CommLossSimulation.EndDrain` | src/py20305/client/comm_loss_simulation.py:176-188 | The wait answers True only behind a closed gate with nothing in flight, and is the step isolation starts from |
| `RequestGate.CommLossSimulation.Disarm` | src/py20305/client/comm_loss_simulation.py:126-135 | Opening the gate is the disarming step; the count stays exact |
| `RequestGate.CommLossSimulation.Abort` | src/py20305/client/comm_loss_simulation.py:137-151 | Undoing an activation is the aborting step, which also ends its wait |
| `RequestGate.GatedRequest.BeginEnter` | src/py20305/client/comm_loss_simulation.py:221-225 | Entering is the entering step: refused exactly behind an armed gate, counted exactly otherwise, and then one of the counted requests |
| `RequestGate.GatedRequest.ReleaseOnce` | src/py20305/client/comm_loss_simulation.py:243-246 | The first release is the finishing step of this request, any later one changes nothing |
| `IsolatedWindow.CleanWindowIsSilent` | src/py20305/client/csip_client.py:875-926 | In every interleaving of simulate, clear, expiry, requests and resets, once a window opened with a complete drain no request talks to the server and the last contact stays, unless a reset forgets it, until a step closes the window |
| `IsolatedWindow.WhoCloses` | src/py20305/client/csip_client.py:902-965 | A window is closed only by a clear, by its own timer with its own generation, or by a later simulate call that fails; only the last drives no recovery |
| `IsolatedWindow.GateIsReady` | src/py20305/client/csip_client.py:899-945 | In every run the gate is ready for each window step, apart from a drain that has not completed |
| `IsolatedWindow.StepKeepsInv` | src/py20305/client/csip_client.py:875-965 | Window and gate agree on whether the gate is closed, and the drain runs just while simulate waits for it |
| `IsolatedWindow.TimedOutWindowLeaks` | src/py20305/client/csip_client.py:856-858 | A run in which a request makes contact in a window whose drain timed out |
| `SilenceAttribution.SimulatedIffLeads` | src/py20305/client/comm_loss_simulation.py:58-72 | An error counts as simulated if and only if some path of causes, or contexts where there is no cause, leads to an injected one, on circular chains too |
| `SilenceAttribution.IsSimulatedFailure` | src/py20305/client/comm_loss_simulation.py:65-72 | The guarded loop decides that |
| `SilenceAttribution.FlagTells` | src/py20305/client/http.py:836-856 | For every history the flag is None exactly when every failure has a later contact, and otherwise True exactly when all failures without one were injected |
| `SilenceAttribution.ResetKeepsTheFlag` | src/py20305/client/http.py:890-903 | The flag reports a silence with a failure count of zero exactly right after a reset that followed failures |
| `SilenceAttribution.Connectivity.RecordContact` | src/py20305/client/http.py:836-856 | A contact sets its time, the count to zero and liveness; a failure adds one to the count and keeps the time; the flag tells what `FlagTells` says |
| `SilenceAttribution.Connectivity.ResetSession` | src/py20305/client/http.py:890-903 | Contact and count are forgotten, the flag is kept, and all fields still agree with the history |
| `QueuedObserver.RecordsAreConserved` | src/py20305/observers.py:630-694 | Under every interleaving, the records of the calls made = handed + in hand + queued + dropped + about to be counted; the handed records are a prefix of the accepted ones; the queue never exceeds its size |
| `QueuedObserver.NothingIsLostAtTheEnd` | src/py20305/observers.py:677-694 | Once the worker ended the queue is empty and every record offered was handed over or counted as dropped |
| `QueuedObserver.AcceptedAreTheWelcome` | src/py20305/observers.py:630-639 | In every run the accepted records are exactly, in order, those offered before any close while the queue held fewer than maxsize, and every other call is refused |
| `QueuedObserver.QueueIsWhatIsLeft` | src/py20305/observers.py:637-694 | The queue holds the accepted records not yet taken, oldest first, and at most one stop marker, last |
| `QueuedObserver.FailuresAreCounted` | src/py20305/observers.py:560-574 | Every exception of the target is counted once |
| `QueuedObserver.GivingUpStopsDelivery` | src/py20305/observers.py:655-683 | After close gave up the target gets at most one more record, the one in hand or about to be taken |
| `QueuedObserver.PatientCloseDeliversAll` | src/py20305/observers.py:641-660 | A close that never gives up returns only after the target got exactly the accepted records, in order, with only refused ones dropped |
| `QueuedObserver.WorkerEndsIffNotStranded` | src/py20305/observers.py:650-683 | Once close waits for the worker or returned, the worker ends by itself if and only if it is not waiting at an empty queue, which happens only when close gave up before its marker fitted |
| `QueuedObserver.StrandedByGivingUp` | src/py20305/observers.py:662-669 | Exactly one step strands the worker: giving up while it waits at an empty queue |
| `QueuedObserver.CloseCanStrandWorker` | src/py20305/observers.py:655-669 | A run in which close leaves the worker waiting for ever |
| `QueuedObserver.StepKeepsControl` | src/py20305/observers.py:630-694 | The stop marker, once queued, is last; a closer that is done left a sign; the queue stays within bounds |
| `QueuedObserver.StepKeepsLedger` | src/py20305/observers.py:630-694 | The accepted records are, in order, those handed over, those taken and those queued, at every step |
| `QueuedObserver.Observer.constructor` | src/py20305/observers.py:603-618 | An open, empty observer in a state that satisfies the invariant |
| `QueuedObserver.Observer.Call` | src/py20305/observers.py:630-639 | An open observer with room appends the record to the queue; a closed or full one counts it as dropped and leaves the queue |
| `QueuedObserver.Observer.BeginClose` | src/py20305/observers.py:650-653 | The first close closes, a later one changes nothing |
| `QueuedObserver.Observer.TryStop` | src/py20305/observers.py:662-675 | One attempt: nothing to do for an ended thread, give up past the deadline, queue the marker when there is room, else try again |
| `QueuedObserver.Observer.EndJoin` | src/py20305/observers.py:658-660 | A thread still alive after the wait is told to give up, an ended one is not |
| `QueuedObserver.Observer.CheckAbandon` | src/py20305/observers.py:678-683 | The worker goes on to the next record, or to discarding when told to give up |
| `QueuedObserver.Observer.Take` | src/py20305/observers.py:679-681 | The oldest entry leaves the queue; the marker ends the worker |
| `QueuedObserver.Observer.Deliver` | src/py20305/observers.py:560-574 | The record is handed over; a failure is counted and goes no further |
| `QueuedObserver.Observer.TakeDiscarded` | src/py20305/observers.py:688-692 | After abandonment an empty queue ends the worker, and a record taken has to be counted |
| `QueuedObserver.Observer.CountDropped` | src/py20305/observers.py:692-694 | The record taken is counted as dropped, and the worker goes on |
| `QueuedObserver.Observer.DiscardOne` | src/py20305/observers.py:687-694 | One round is the worker's next moves and keeps the ledger |
| `QueuedObserver.Observer.DiscardQueued` | src/py20305/observers.py:685-694 | The loop is the worker's own moves to its end: every queued record is counted, none is left, and offered = handed + dropped |
| `Rediscovery.NoRequestIsLost` | src/py20305/client/csip_client.py:1814-1976 | The trace holds every call that arrives, and each is followed by a pass that starts after it, a failed pass or the cap, if and only if the running call is not made by a poll task or nothing arrived before it was cancelled |
| `Rediscovery.PollsComeBack` | src/py20305/client/csip_client.py:1835-1953 | The polls are armed again, once per pass, if no poll task makes the call, and never if one does |
| `Rediscovery.LaterCallMakesGood` | src/py20305/client/csip_client.py:1832-1836 | A later call that no poll task makes answers what a cancelled one left owing |
| `Rediscovery.CallIsAccountedFor` | src/py20305/client/csip_client.py:1831-1976 | A call that is not cut off makes one to five passes; polls armed and state ready once in each, failed or not; every pass but a failing last one completes; the cap is noted exactly when five were not enough |
| `Rediscovery.OwedPass` | src/py20305/client/csip_client.py:1832-1957 | After a pass a request is unanswered exactly when the pass succeeded and calls arrived during it, which is when the loop goes on |
| `Rediscovery.CountPass` | src/py20305/client/csip_client.py:1832-1954 | A pass holds each call that arrived during it, and none from a refresh that a failed discovery never came to |
| `Rediscovery.Client.TriggerRediscovery` | src/py20305/client/csip_client.py:1819-1984 | The polls are armed at the end if and only if no poll task calls; requests are all answered under the exact condition above; otherwise another pass runs exactly while the last succeeded and calls arrived, the answer is True exactly when no pass failed, and a poll task is cancelled with the flag telling whether calls were lost |
| `Rediscovery.Client.RunPasses` | src/py20305/client/csip_client.py:1831-1979 | The loop stops at the caller's own cancellation, at the first failure, at the first pass nobody interrupted, or at the cap |
| `Rediscovery.Client.RunNext` | src/py20305/client/csip_client.py:1832-1957 | The pass after k complete ones, and whether another is wanted |
| `Rediscovery.Client.RunPass` | src/py20305/client/csip_client.py:1832-1954 | The trace of one pass, state ready and polls armed however it ends, unless the caller is a poll task and is cut off in the first stage |
| `Rediscovery.Client.CancelPolls` | src/py20305/client/polling.py:299-313 | The poll tasks are stopped, and the caller is cut off exactly when it is one of them |
| `Rediscovery.Client.Discover` | src/py20305/client/csip_client.py:1847-1872 | State ready again however discovery went, and the flag set exactly when a call arrived |
| `Rediscovery.Client.Refresh` | src/py20305/client/csip_client.py:1873-1954 | The polls are armed on the successful path and in the handler of a failure |
| `Rediscovery.Client.Arrive` | src/py20305/client/csip_client.py:1814-1817 | Each call during a wait is recorded and sets the flag |
| `Rediscovery.Client.Call` | src/py20305/client/csip_client.py:1814-1984 | A coalesced call answers False at once and changes nothing but the flag; any other runs to the end, or to its own cancellation if a poll task makes it |
| `Rediscovery.AnsweredIffNothingOwed` | src/py20305/client/csip_client.py:1955-1976 | Every request of a trace is answered if and only if nothing is owed at its end |
| `Rediscovery.CallIsOrderly` | src/py20305/client/csip_client.py:1832-1954 | The state is cleared only with the polls stopped, the polls are armed only with the state ready, and they run at the end if and only if no poll task made the call |
| `CommsLossEpisodes.PatternIffNoStaleClear` | src/py20305/client/csip_client.py:670-834 | In every run, however probes, manual recoveries and rediscoveries overlap, the emitted transitions are a prefix of (entered recovering+ cleared)* if and only if no recovery completes after the mode was already cleared, with no attempt since it was entered again |
| `CommsLossEpisodes.EpisodesAreWellFormed` | src/py20305/client/csip_client.py:937-1008 | When manual recoveries run under the lifecycle lock, as the client's own do, the trail is such a prefix and the mode is active exactly between entered and cleared, whatever becomes of the key lock |
| `CommsLossEpisodes.OverlappingRecoveriesClearTwice` | src/py20305/client/csip_client.py:989-1008 | Two overlapping calls of the public recovery clear the mode twice |
| `CommsLossEpisodes.ProbeRecoveryStrands` | src/py20305/client/csip_client.py:701-795 | Once the rediscovery of a probe's recovery starts, with no manual recovery under way, the polls are stopped and the mode and the trail stay as they are until a manual recovery or the end of a rediscovery from elsewhere |
| `CommsLossEpisodes.ScheduledRecoveryStopsPolls` | src/py20305/client/csip_client.py:701-795 | A run in which that happens |
| `CommsLossEpisodes.ModeEdges` | src/py20305/client/csip_client.py:698-702 | In every run the mode ends only with a manual recovery whose rediscovery completed, never with one the probe began, and begins only in a probe after silence of the threshold |
| `CommsLossEpisodes.BoundaryIsKept` | src/py20305/client/csip_client.py:684-693 | Over a whole run a resume boundary b is not given up or lowered until a step saw int(server now) > b |
| `CommsLossEpisodes.BoundaryStep` | src/py20305/client/csip_client.py:814-817 | A step that drops a boundary b saw int(server now) > b with the mode inactive |
| `CommsLossEpisodes.BoundaryIsJudged` | src/py20305/client/csip_client.py:684-692 | A probe in the inactive mode and the end of a recovery drop the boundary exactly when int(server now) is past it; no other step drops it |
| `CommsLossEpisodes.BoundaryIsLatestPending` | src/py20305/client/csip_client.py:684-817 | In every run the boundary is the latest end opted out since it was last dropped, and there is none exactly when there is no such end |
| `CommsLossEpisodes.LatestIs` | src/py20305/events/processor.py:1462-1463 | The latest of the ends is one of them, or 0, and none is later |
| `CommsLossEpisodes.ProbeDecides` | src/py20305/client/csip_client.py:694-702 | In every run a probe enters, recovers or does nothing by the length of the silence since the last contact alone |
| `CommsLossEpisodes.ManualDecides` | src/py20305/client/csip_client.py:1003-1006 | A manual recovery that gets its lock begins exactly in an active mode |
| `CommsLossEpisodes.TruncIsTowardZero` | src/py20305/client/csip_client.py:697-697 | int() keeps the whole part, toward zero |
| `Episodes.PrefixIffOnPattern` | src/py20305/client/csip_client.py:742-826 | A trail is a prefix of whole episodes, given explicitly, if and only if a scan of it never leaves the pattern |
| `CommsLossEpisodes.Detector.CommsLossProbe` | src/py20305/client/csip_client.py:684-702 | While inactive the boundary is dropped exactly if int(server now) is past it; then the probe enters, recovers or does nothing as `ProbeDecides` says |
| `CommsLossEpisodes.Detector.EnterCommsLoss` | src/py20305/client/csip_client.py:706-749 | Entering twice enters once; the mode is active afterwards and a trail on the pattern stays on it |
| `CommsLossEpisodes.Detector.Attempt` | src/py20305/client/csip_client.py:763-772 | An attempt is recorded before it is made, in an active mode only, and a trail on the pattern stays on it |
| `CommsLossEpisodes.Detector.RecoverFromCommsLossNow` | src/py20305/client/csip_client.py:1003-1008 | With the lock, an attempt begins exactly when the mode is active |
| `CommsLossEpisodes.Detector.CancelPolls` | src/py20305/client/polling.py:299-313 | Every poll task ends, with whatever it was doing |
| `CommsLossEpisodes.Detector.BeginRediscovery` | src/py20305/client/csip_client.py:1814-1836 | A coalesced recovery ends; a manual one gets a new scheduler; one made by a poll task ends with the polls |
| `CommsLossEpisodes.Detector.EndPasses` | src/py20305/client/csip_client.py:1933-1954 | The polls are armed either way, and only a completed rediscovery lets the recovery go on |
| `CommsLossEpisodes.Detector.EndRecovery` | src/py20305/client/csip_client.py:805-826 | Clears the mode and drops the boundary exactly if int(server now) is past it; the trail stays on the pattern if and only if the clearing is not stale |
| `Timebase.FreshScopeReadsItself` | src/py20305/client/timebase.py:240-270 | In every run age is elapsed monotonic time, and a scope within the threshold reads its own observation |
| `Timebase.ThresholdFollowsLastRate` | src/py20305/client/timebase.py:138-159 | After every run the threshold is the operator's value, or else max(3600, 3 x the last positive poll rate) |
| `Timebase.YieldingLasts` | src/py20305/client/timebase.py:261-270 | Until it is observed again or forgotten, a scope that yields goes on yielding exactly while its age exceeds the threshold in force, and always when no poll rate lifted the threshold |
| `Timebase.OneReportPerEpisode` | src/py20305/client/timebase.py:272-300 | Between two renewals of a scope there is exactly one stale warning for it if some read found it yielding and none stood before, and otherwise none |
| `Timebase.FellBackMeansARead` | src/py20305/client/timebase.py:251-259 | The episode counts as fallen back exactly when one of its reads found the scope yielding at that moment |
| `Timebase.SnapshotAgrees` | src/py20305/client/timebase.py:330-352 | A scope the snapshot calls stale reads the global observation, any other its own |
| `Timebase.ReadGoesBy` | src/py20305/client/timebase.py:240-270 | In every run an unscoped read and a read of a scope with no Time since it was forgotten go by the last global receipt, any other by its own unless that is older than the threshold and the global one newer |
| `Timebase.TimeReadIsServerTime` | src/py20305/client/timebase.py:233-304 | The time read is the server's time at that receipt plus the local time since, and local time when there is none or the timebase is off |
| `Timebase.StaleExactly` | src/py20305/client/timebase.py:261-352 | The snapshot calls a scope stale exactly when its receipt is older than the threshold and the global one newer |
| `Timebase.WallClockIsIrrelevant` | src/py20305/client/timebase.py:77-95 | Two runs with the same events and monotonic time, under any two wall clocks, read the same scopes and issue the same warnings |
| `Timebase.ServerTimebase.Record` | src/py20305/client/timebase.py:172-200 | The observation replaces that of its scope and lifts its warning |
| `Timebase.ServerTimebase.ForgetFsa` | src/py20305/client/timebase.py:161-170 | The scope and its warning are gone |
| `Timebase.ServerTimebase.NoteTimePollRate` | src/py20305/client/timebase.py:145-159 | A missing, zero or negative rate changes nothing |
| `Timebase.ServerTimebase.Resolve` | src/py20305/client/timebase.py:240-282 | Returns the observation `ReadGoesBy` names, and warns at most once |
| `Timebase.ServerTimebase.Now` | src/py20305/client/timebase.py:233-304 | Returns the time `TimeReadIsServerTime` gives |
| `PollScheduler.PollLoop` | src/py20305/client/polling.py:206-297 | The loop runs the callback in exactly the rounds that are unsuppressed or due for a heartbeat and find the lock free, and waits the interval then in force |
| `PollScheduler.RunsExactlyWhen` | src/py20305/client/polling.py:187-231 | A free key runs its callback always when unsuppressed, and when suppressed exactly if heartbeats are on and the last run is at least the interval and at least 900 s, or the configured backstop, ago; a locked one never does |
| `PollScheduler.RoundsFollow` | src/py20305/client/polling.py:292-297 | When the next round begins and which run it counts from |
| `PollScheduler.CallbacksAreSpaced` | src/py20305/client/polling.py:206-297 | Under any suppression, callbacks the loop starts are at least the interval apart |
| `PollScheduler.HeartbeatsAreSpaced` | src/py20305/client/polling.py:187-204 | A suppressed key is polled at least max(backstop, interval) after every earlier run, scheduled or not, and after the scheduling |
| `PollScheduler.HeartbeatIsNotLate` | src/py20305/client/polling.py:187-297 | An undisturbed suppressed key is polled again less than max(backstop, interval) + interval after its last poll |
| `PollScheduler.AgeStaysLow` | src/py20305/client/polling.py:187-204 | While no heartbeat fires, the age stays below the threshold |
| `PollScheduler.NoHeartbeatNoPoll` | src/py20305/client/polling.py:194-217 | With the heartbeat off a suppressed key is never polled |
| `DdercTracker.LastAppliedIsBest` | src/py20305/events/dderc.py:39-79 | Over every run of check-then-record and clearing, no control recorded for a device has a better primacy than the one last applied |
| `DdercTracker.OnePassFindsBest` | src/py20305/events/dderc.py:39-69 | One pass over the programs in any order from an empty table ends with an offer of minimum primacy |
| `DdercTracker.SecondPassIsSilent` | src/py20305/events/dderc.py:39-69 | From any state and for any offers, a second pass applies nothing if and only if no program offers two different controls at the best primacy of all recorded and offered |
| `DdercTracker.DistinctProgramsSettle` | src/py20305/events/dderc.py:39-69 | With one control per program, as the processor offers them, the second pass is silent from any state |
| `DdercTracker.SilentIffSettled` | src/py20305/events/dderc.py:39-65 | A pass applies nothing exactly when every offer would be turned down beforehand |
| `DdercTracker.ContestNeverEnds` | src/py20305/events/dderc.py:58-69 | While controls are contested no later pass is silent |
| `DdercTracker.ClearedTakesAnyOffer` | src/py20305/events/dderc.py:71-79 | A cleared device takes the next control offered, whatever its primacy; the others decide as before |
| `DdercTracker.ClearedAllTakesAnyOffer` | src/py20305/events/dderc.py:81-83 | After clearing everything every device does |
| `DdercTracker.Tracker.CheckInitial` | src/py20305/events/dderc.py:52-65 | True exactly if no other program holds a better primacy for the device and the program's own entry is missing, worse, or equal with another control |
| `DdercTracker.Tracker.ApplyInitial` | src/py20305/events/dderc.py:39-69 | Recorded exactly when the check allows it |
| `DdercTracker.Tracker.Clear` | src/py20305/events/dderc.py:71-79 | Exactly the entries of the given devices are gone |
| `DdercTracker.Tracker.ClearEverything` | src/py20305/events/dderc.py:81-83 | Nothing is left |
| `DdercTracker.Tracker.InitialPass` | src/py20305/events/dderc.py:39-69 | A pass in a loop, with the number of applications it makes |
| `ProgramRefresh.AddIsExact` | src/py20305/client/state.py:136-158 | Adding a pair adds that pair only, once, at the end of both lists, and the directions stay mutual inverses without duplicates |
| `ProgramListing.VisitsAreTheListing` | src/py20305/client/discovery.py:1149-1201 | The refresh meets a program exactly when an assignment of some device has it on one of its pages, for exactly those devices; the primacy met last is that of the last entry in reading order, and the assignment met first that of the first |
| `ProgramRefresh.RemoveIsExact` | src/py20305/client/state.py:160-167 | Removing a program removes exactly its pairs, in both directions, and the lists left keep their order |
| `ProgramRefresh.WithoutTakesOne` | src/py20305/client/state.py:165-167 | One occurrence is taken out of a list and everything else stays in order |
| `ProgramRefresh.RefreshIsExact` | src/py20305/client/discovery.py:1146-1226 | Told from the pages: the known programs afterwards are those some assignment lists and those known before whose assignment faulted between pages; a listed one has the primacy of its last entry, a new one the assignment of its first, an old one its own; every pair that was or is listed is mapped once in both directions; nothing of a withdrawn program is left |
| `ProgramRefresh.UnlistedSurvivesIffFaulted` | src/py20305/client/discovery.py:1159-1219 | A known program listed nowhere survives if and only if a list of the assignment it came from stopped answering between pages |
| `ProgramRefresh.AbsentListLosesPrograms` | src/py20305/client/discovery.py:1140-1142 | A list answered 404 at once loses its program and every pair of it, against the documentation |
| `ProgramRefresh.MeetAllKnows` | src/py20305/client/discovery.py:1172-1206 | A program met is known with the primacy last listed, one known before keeps its origin, a new one has that of the first visit, the others are untouched |
| `ProgramRefresh.MeetAllMaps` | src/py20305/client/discovery.py:1178-1189 | A pair is mapped exactly when it was or is listed |
| `ProgramRefresh.DropIsExact` | src/py20305/client/discovery.py:1210-1219 | Dropping programs removes exactly them and their pairs |
| `ProgramRefresh.State.AddPair` | src/py20305/client/state.py:154-158 | The two lists after the guarded appends |
| `ProgramRefresh.State.RemoveProgram` | src/py20305/client/state.py:160-167 | The loop takes the program out of the list of each of its devices |
| `ProgramRefresh.State.MeetProgram` | src/py20305/client/discovery.py:1178-1201 | One listed program: seen, mapped, updated or entered |
| `ProgramRefresh.State.MeetPage` | src/py20305/client/discovery.py:1173-1201 | Entries without a href are passed over |
| `ProgramRefresh.State.MeetPages` | src/py20305/client/discovery.py:1172-1201 | Page after page, every entry with a href is met, which `VisitsAreTheListing` ties to the pages |
| `ProgramRefresh.State.MeetFsa` | src/py20305/client/discovery.py:1155-1206 | A missing link is passed over, an absent list is read as no pages, and a list that faulted between pages is remembered |
| `ProgramRefresh.State.MeetDevice` | src/py20305/client/discovery.py:1154-1206 | Every assignment of one device is met, and the faulted ones are collected |
| `ProgramRefresh.State.MeetDevices` | src/py20305/client/discovery.py:1149-1206 | The loops over devices and assignments meet every listed program |
| `ProgramRefresh.State.Prune` | src/py20305/client/discovery.py:1210-1219 | Exactly the stale programs are dropped and returned |
| `ProgramRefresh.State.RefreshPrograms` | src/py20305/client/discovery.py:1146-1226 | Without devices nothing happens; otherwise programs and pairs are exact in the sense above, and the hrefs returned are exactly the withdrawn ones |
| `Paging.GetList` | src/py20305/client/http.py:1294-1329 | For every list and truthful server it ends after at most max(1, length) requests and returns pages that concatenate to the whole list once each, or an empty list for a first 404 or 204, or raises the status of the failed request; a 404 or 204 after the first page is raised |
| `Retry.WithRetry` | src/py20305/client/retry.py:74-220 | Tries up to the first final outcome or spent budget, at most max_transient + max_tls - 1 times; a success is answered with its own value, a spent budget with the failure of its kind, anything else raised as it came; the sleep is exactly what the retried tries call for, Retry-After values included, and without those two partial geometric series |
| `Retry.RetryLoop` | src/py20305/client/retry.py:74-220 | The loop with its two counters |
| `Retry.DelayIs` | src/py20305/client/retry.py:126-164 | A positive Retry-After is slept in full, any other retried try is followed by the next backoff of its kind |
| `Retry.BackoffGrowsByFactor` | src/py20305/client/retry.py:126-126 | The first delay is the base delay, and each one after it is larger by the factor |
| `Retry.GeometricClosedForm` | src/py20305/client/retry.py:126-126 | The closed form of the series of delays |
| `Changelog.HeadingRoundTrip` | scripts/build_changelog.py:82-82 | The heading written for a category is read back as that category |
| `Changelog.HeadingIgnoresTail` | scripts/build_changelog.py:82-82 | Trailing white space does not decide whether a line is a heading |
| `ChangelogText.HeadingIff` | scripts/build_changelog.py:82-82 | A line is a heading exactly if it is three hashes, a blank, a name of letters and blanks that begins and ends with a letter, and white space; the category is the name in lower case |
| `ChangelogText.StripIs` | scripts/build_changelog.py:214-220 | Stripping leaves the lines from the first to the last that are not blank, those two without their outer white space |
| `ChangelogText.StripBlank` | scripts/build_changelog.py:213-222 | A text of blank lines strips to nothing |
| `ChangelogText.LStripIs` | scripts/build_changelog.py:214-220 | White space is taken off the front of a line, and nothing else |
| `Changelog.SplitKeepsText` | scripts/build_changelog.py:204-224 | Splitting keeps every line that is neither blank nor a heading |
| `Changelog.SplitUndoesCompose` | scripts/build_changelog.py:204-249 | Sections written one after another split back into themselves if and only if no line inside one reads as a heading |
| `ChangelogMerge.SplitIsProper` | scripts/build_changelog.py:210-224 | Every split has each category once, the preamble in front and no text left to strip |
| `ChangelogText.BlocksAreTheText` | scripts/build_changelog.py:211-220 | The blocks put together again with their heading lines are the text: nothing is lost, moved or filed elsewhere |
| `ChangelogText.SplitIs` | scripts/build_changelog.py:214-224 | Under a category is the stripped text of its blocks in order with a blank line between, and the categories stand where they first have text |
| `ChangelogText.EntryIs` | scripts/build_changelog.py:187-193 | An entry is a bullet before its first line, the other lines indented under it, blank ones empty, and a blank line |
| `ChangelogText.EntriesConcat` | scripts/build_changelog.py:187-193 | Entries are written one after another |
| `ChangelogText.RenderedIs` | scripts/build_changelog.py:182-195 | Each category with entries holds all of them, one after another, stripped |
| `ChangelogText.RenderedInOrder` | scripts/build_changelog.py:182-195 | The categories stand in their order |
| `ChangelogText.ComposeConcat` | scripts/build_changelog.py:237-249 | Sections are written one after another with a blank line between |
| `ChangelogText.MergeWrites` | scripts/build_changelog.py:240-243 | Fragments of a category the body has go under its one heading, after what is there and a blank line |
| `ChangelogText.HeadingLineIs` | scripts/build_changelog.py:67-67 | A heading is written with the category's first letter in upper case |
| `ChangelogMerge.EntriesArePlain` | scripts/build_changelog.py:187-193 | Fragment text can never create a heading, and a category with entries is never empty |
| `ChangelogMerge.SplitUndoesRender` | scripts/build_changelog.py:179-195 | Splitting rendered fragments gives one section per category with entries, in order, holding exactly them |
| `ChangelogMerge.MergedLookup` | scripts/build_changelog.py:237-249 | Per category the merged sections hold the existing chunk followed by the rendered one, and other categories unchanged |
| `ChangelogMerge.SplitUndoesMerge` | scripts/build_changelog.py:204-249 | Re-splitting a merged body gives the merged sections if and only if no stripped chunk or preamble begins with an indented heading line |
| `ChangelogMerge.StrayIffIndented` | scripts/build_changelog.py:213-220 | A split holds a line that reads as a heading if and only if some chunk begins with an indented one |
| `ChangelogStability.FixedIffNormal` | scripts/build_changelog.py:227-249 | Merging nothing into a body leaves it alone if and only if it is what tidy sections, each once, in merged order and with no line that reads as a heading, are written as |
| `ChangelogStability.MergeIsStable` | scripts/build_changelog.py:227-249 | Merging a merged body again is the identity if and only if it is in that form, and it is whenever no chunk begins with an indented heading line |
| `ChangelogStability.TextOfMerged` | scripts/build_changelog.py:237-249 | Merging moves sections but loses no line of text |
| `ChangelogHeadings.HeadingsOccurOnce` | scripts/build_changelog.py:237-249 | Under that condition the headings of a merged body are the known categories with a chunk or entries, in their order, then the others in the order found, each once |
| `ChangelogStability.NudgedHeadingUnsettles` | scripts/build_changelog.py:213-222 | For every category list and name, a heading without text moved in by a blank comes out in the first merge and is dropped by the second |
| `ChangelogStability.NudgedSectionIsStable` | scripts/build_changelog.py:213-243 | For every category list and section, the section with its heading moved in by a blank is merged to the section as written, and stays so |
| `ChangelogMerge.IndentedHeadingIsLost` | scripts/build_changelog.py:213-220 | A body for which the round trip fails |
| `ChangelogMerge.CategoriesAreGood` | scripts/build_changelog.py:65-65 | The source's categories are distinct and written as a heading yields them, as the results above ask of a category list |
| `ChangelogMerge.SplitSections` | scripts/build_changelog.py:204-224 | The loop over headings computes the split |
| `ChangelogMerge.RenderFragments` | scripts/build_changelog.py:179-195 | The text rendered splits into the fragments per category |
| `ChangelogMerge.KnownSections` | scripts/build_changelog.py:240-243 | The known categories in their order, existing chunk first |
| `ChangelogMerge.OtherSections` | scripts/build_changelog.py:246-248 | The unknown categories in the order found |
| `ChangelogMerge.MergeSections` | scripts/build_changelog.py:227-249 | The merged text, which splits back into the merged sections if and only if the condition holds |

## Left out

- TLS, certificates, sessions, sockets, DNS-SD and XML parsing: a request is its outcome and a payload an abstract tree.
- The event processor, supersession, subscription manager, dispatcher and telemetry: an opt-out is a step that raises the resume boundary, everything else is not modelled.
- Command line, configuration, API routes and services, serializers, version and SBOM tooling, connectors: plumbing and formatting.
- Small trackers (active modes, current controls, randomization cache, diagnostics store, traffic recorder, audit sequence): they would only add easy members.
- Logging, diagnostics and drift warnings, audit record contents and the start, expiry and detail texts of the simulation status.
- Shutdown: the window invariant is claimed for runs before `CsipClient.shutdown`.
- Cancellation of a rediscovery part way from outside, and interleaving inside one discovery walk: in `Rediscovery` a stage of a pass succeeds or fails as a whole, and only the cancellation a call brings on itself is modelled.
- RestrictMeaning.AuditReports: says which items are reported, not in what order; the source sorts the root attributes.
- ServerProfile.RestrictIsSound: asks for aligned roots, because without them the claim is false (`RestrictLaws.MisalignedRootsFailAudit`).
- SchemaEditions.WalkPayload: reading the two schema files into type tables is not modelled; both tables are arbitrary.
- QueuedObserver.RecordsAreConserved: an exception outside `Exception`, which would end the worker thread inside a delivery, is not modelled.
- PollScheduler.CallbacksAreSpaced: spacing is claimed within one scheduling of a key; scheduling it again starts a new loop at once.
- PollScheduler.PollLoop: intervals are not negative, and what a failing callback reports is not modelled.
- Timebase.ServerTimebase.Now: floating-point rounding is not modelled.
- DdercTracker.LastAppliedIsBest: `should_apply`, the check after an event ends, compares within one program only and does not keep this invariant; it is not part of the model.
- ProgramRefresh.RefreshIsExact: one refresh is one step; an error that is not a paging fault ends the refresh in the source and is not modelled.
- Paging.GetList: a server whose totals are untrue is not modelled.
- Retry.WithRetry: delays are real numbers, and which exception belongs to which kind of outcome is given.
- Changelog.SplitKeepsText: white space other than blank, tab and carriage return within a line, and letters outside ASCII, are not modelled.
- Reading fragment files, their names and style, and the release step around the merge.
