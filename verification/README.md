# A verified model of the mesh thread protocol

The model covers the part of hermes-mesh in which several gateway processes share state and
have to stay consistent: leases on open threads, terminal closes, the retry queue, delivery
under a deadline, the receive window, the message header, and the splitting of floats.

Code that changes things step by step is modelled by classes and loops (`LeaseRegistry`,
`ClosedThreads`, `OutboxReaper`, `RelaySend`, `Adapter`, and the methods of `Delivery`,
`FloatChunker`, `FloatParts`, `FloatSend`, `Envelope`). Each method is proved against functions
on values; the theorems are about those functions, over every run, every clock and every fault.

- `Leases`, `Gate`: the lease list as a value, the six locked operations, and what every
  interleaving of them keeps. Every step carries its own clock reading, since the processes
  read the clock before they take the lock; ids may collide, so the list is a sequence.
- `LeaseRegistry`: the same operations as methods over a shared file.
- `Anchors`, `ClosedThreads`: closed-thread anchors, their life (absent, pending, final) over a
  run, and the snapshot of the file that each process caches by modification time.
- `Outbox`, `OutboxReaper`: one attempt, one pass of the reaper, and all passes, one reaper at a time.
- `OutboxRaces`: one item's file under any number of reapers at once.
- `RelaySend`: one send from the closed-thread guard to the bookkeeping after delivery, with the
  rollback of a failed one and the terminator's probe over three ids.
- `Delivery`: addresses inside attempts inside a deadline that may move once.
- `ReceiveWindow`, `Adapter`: timestamp check, rate buckets, replay window, bounded inbox. The loop of
  `MeshAdapter.Serve` is the server's: from the rate limit on, requests run one after the other.
- `Envelope`: the header as printed and as matched.
- `FloatChunker`, `FloatParts`, `FloatSend`: entity-safe pieces, at most eight numbered parts,
  the exact count of dropped characters, and the send loop's wall budget.

A file lock makes an operation atomic and a write happens entirely or not at all. Faults are
inputs: `FileIO` says whether the lock was taken, the read succeeded and the write succeeded.
Clocks are reals. The outside world (peers, resolution, event building) enters as parameters.

## Where the code and its descriptions differ

The model follows the code. Each point below is proved, with its exact condition where the code
sometimes does meet the description, and otherwise with the run that shows it.

- The README of the repository (lines 192-197) and the comment in `_deliver_webhook` give twice
  the timeout as the worst case. That holds if and only if there are at most two attempts at one
  address, or one attempt at two: `TwiceTheTimeoutExactly`. The real ceiling is `DeliveryIsBounded`
  and `CeilingInFull`; `TwiceTheTimeoutIsExceeded` is a run with the default settings.
- A replayed message is let in twice when its timestamp was ahead of the clock at its first
  acceptance, since the window forgets an id before such a timestamp goes out of force. The
  promise of at most once holds if and only if the timestamp was not ahead: `AtMostOnceExactly`,
  `FutureDatedReplay`.
- Failing bookkeeping is swallowed. A record that failed leaves a delivered terminator's thread
  open, a withdrawal that failed leaves a thread closed by a terminator that never arrived:
  `UnrecordedCloseIsLost`, `UnwithdrawnCloseStays`; `StatusAfterRun` says what every run leaves.
- A close recorded by the recipient while the sender's attempt is in flight is ignored, and lost
  if the sender then counts the attempt as failed: `RecipientRecordCanBeLost`.
- A `record`, a `claim` or a sweep that cannot read its file starts a new list; with a working
  write the old entries are gone. A final close is safe if and only if no such record happens:
  `FinalAcrossProcesses`, `FinalIsForever`, `FinalSurvivesExactly`, `StepKeepsExactly`.
- A snapshot taken from a failed read stays in force until the next write, so the process
  answers "not closed" to everything: `OneFailedReadBlinds`, and `BlindExactly` for all runs.
- An item can be lost: an exhausted one whose file cannot be moved to the dead letters is deleted, and
  storing a retry in place can empty the file, which no pass reads again. In passes that do not
  overlap nothing is lost if and only if neither happens: `LostExactly`.
- In passes that do not overlap, an item that is given up was attempted more than `max_attempts` times
  if and only if some of its attempts could not be stored, once more for each: `RunCountsTrue`. That
  has no bound: `UnstoredRetriesNeverEnd`. A delivered item whose file cannot be removed is such a
  case, and is sent again.
- The outbox has no lock, and gateways may share it. With several reapers an item that is given up was
  attempted once more also for every retry stored over a count that its reaper had not read, for every
  attempt in progress, and for every one that ended the file before: `BuriedAttempts`,
  `LostUpdatesExactly`. Two in lockstep attempt every item twice as often as the maximum, although
  every retry is stored: `LockstepDoubles`.
- With several reapers a delivered item can come back into the queue, and does so if and only if a
  reaper that had read it writes a retry after it is gone: `DeliveredComesBack`, `ComesBackExactly`.
- A failed send leaves no trace in the leases, when others do not name its id meanwhile, if and only if
  its rollback works and no other stored record of the sender carries the id, which the caller may
  choose, or the rollback fails, which is swallowed, and no lease of the send is left anyway:
  `RollbackExactly`, `RollbackOfTraffic`, `FailedSendExactly`. A follow-up under its thread's own id
  ends that thread when it fails: `FollowUpUnderItsThreadsId`.
- A delivery step that raises leaves the claim, and a terminator's anchor pending:
  `RaisedDeliveryLeavesPending`, `Relay.Send`.
- A name with a capital I with dot above passes the case-insensitive pattern and lowers to a
  name that does not. Reading, printing and reading again fails exactly for such names:
  `ParseThenPrintThenParse`, `PrintRawThenParse`, `ValidatedNameIsStable`.
- `release_if_party` answers true even when the write failed; the reporting form does not:
  `ReleaseFormsAgree`.
- An answer whose `delivery_id` is null counts as a failure, and it takes exactly that answer:
  `NullIdReadsAsFailure`.
- The branch of `claim` that extends an existing lease is dead: `MergeIsUnreachable`.
- A send refused after the gate (a malformed session selector, an unresolved target) and a
  queued send keep the lease they were granted until it expires: `Relay.Send`.
- A recipient records a close before it finds its inbox full: `MeshAdapter.Commit`.

## Model

| member | source | states |
|---|---|---|
| Leases.EveryRunIsSafe | hermes_mesh/open_threads.py:393-467 | After any interleaving of claim, touch, expire and the three releases, with arbitrary clocks and faults, no two stored leases share a pair, nobody is the peer of two non-self leases, and nobody has opened more than three |
| Leases.StepSafe | hermes_mesh/open_threads.py:127-467 | Each single locked operation keeps those three properties, from any safe list |
| Leases.GrantSafe | hermes_mesh/open_threads.py:427-465 | A granted lease clashes with nothing that the same write keeps, and respects the cap |
| Leases.Provenance | hermes_mesh/open_threads.py:184-209 | Every stored lease comes from one grant; its expiry is the one the grant gave or the one a single later touch gave while its clock found the lease live |
| Leases.LeaseLifeIsBounded | hermes_mesh/open_threads.py:184-209 | With no assumption on clocks, every reachable lease ends less than two days after it was opened, within one day if never resized |
| Leases.BusyHoldIsBounded | hermes_mesh/open_threads.py:430-432 | A busy refusal always names a blocker granted by an earlier claim less than two days before the refusing clock |
| Leases.StepKeepsExactly | hermes_mesh/open_threads.py:127-467 | Exactly which stored records each operation keeps, a failed read included |
| Leases.TouchMovesOneRecord | hermes_mesh/open_threads.py:192-205 | A touch changes one record at most, the first live one with the id: one more reply, and a new expiry only on its first resizing touch |
| Leases.TouchStepStores | hermes_mesh/open_threads.py:184-209 | A touch changes the stored list if and only if the registry works and holds a live record of the id; then the first such record has one reply more and, on its first resizing touch, ends 60 times the minutes asked for, clamped to 1 and 1440, after the touch |
| Leases.FirstLiveIsLive | hermes_mesh/open_threads.py:473-484 | The lease looked up by id is stored, live and has that id, and is found whenever there is one |
| Leases.TouchEffect | hermes_mesh/open_threads.py:192-203 | Touching alters no other record, and none that its clock finds expired |
| Leases.KeepDropsSome | hermes_mesh/open_threads.py:127-146 | Comparing lengths, as the code does, tells exactly whether a record was dropped |
| Gate.GateIsExact | hermes_mesh/open_threads.py:411-455 | On a readable registry a claim refuses if and only if the pair shares no live lease and a third party holds the recipient or the sender has three live threads; which answer is given, in terms of the whole list |
| Gate.GrantTerms | hermes_mesh/open_threads.py:410-467 | A grant is for the pair asked for, from the claim's clock, for the minutes asked for clamped to a minute and a day, and is appended to the live records |
| Gate.FaultedClaim | hermes_mesh/open_threads.py:393-467 | Whatever fails: only a bad token is an error; without the lock, or with a grant that cannot be written, the claim is let go and the list unchanged; on an unreadable list it is granted and the list is that lease alone |
| Gate.CapNamesItsThreads | hermes_mesh/open_threads.py:443-454 | A cap refusal lists the ids and peers of live leases the sender opened, matched index by index |
| Gate.MergeIsUnreachable | hermes_mesh/open_threads.py:438-442 | Once the pair check found nothing, no live record matches the merge loop's test |
| Gate.OpeningIsNotBusy | hermes_mesh/open_threads.py:413-417 | For every list, claim, fault and clock, a claim adds no third party that would keep a later caller from its opener; if it read the list and the later clock is not behind its own, it changes nothing about them |
| Gate.RaceHasOneWinner | hermes_mesh/open_threads.py:393-467 | Of two senders that either alone would be granted a free recipient, the one that gets the lock second is told busy on account of the first while that lease is live |
| Gate.RefShortcutIsHarmless | hermes_mesh/session_relay.py:922-930 | Skipping the claim for a ref of the same pair, looked up earlier without the lock, gives the answer and the list that the claim would give if and only if the lease found is still stored and live |
| Gate.RollbackLeavesNoTrace | hermes_mesh/session_relay.py:1153-1163 | Claim with a new id, any steps of others but claims under that id, rollback: the list is the one the others' writes alone produce from the sweep the claim made, if and only if the rollback works or finds nothing under the id |
| Gate.RollbackExactly | hermes_mesh/session_relay.py:1153-1163 | For any id that others do not name meanwhile, and any claim and rollback: that is so if and only if the rollback works and no other stored record of the sender carries the id, or it fails and the lease has gone by itself |
| Gate.RollbackOfTraffic | hermes_mesh/session_relay.py:1153-1163 | If the gate granted nothing new, the rollback removes nothing if and only if it fails or no stored record of the sender carries the id, whatever others did |
| Gate.FollowUpUnderItsThreadsId | hermes_mesh/session_relay.py:1156-1161 | A failed follow-up that reuses the id of its own live thread removes that thread |
| Gate.StepCommutes | hermes_mesh/open_threads.py:127-467 | A step of another process does the same with or without our record in the list |
| LeaseRegistry.ReasonsPartition | hermes_mesh/open_threads.py:302-390 | The four reasons exclude each other, cover every case, and only "released" changes the list |
| LeaseRegistry.ReasonInFull | hermes_mesh/open_threads.py:302-390 | The same over both stats, the lock, the read, the list and the write: a missing file is "no such lease" unless its path was given, and then unavailable, as an unreadable one always is |
| LeaseRegistry.ReleaseIsPartySafe | hermes_mesh/open_threads.py:244-268 | A release removes exactly the caller's own records with that id, colliding ids or not |
| LeaseRegistry.ReleaseFormsAgree | hermes_mesh/open_threads.py:244-390 | Both release forms change the list alike, and their answers agree if and only if the write succeeded or there was nothing to write |
| LeaseRegistry.LeaseGateway.Claim | hermes_mesh/open_threads.py:393-467 | The loops of claim decide and store what the gate's specification says, for every clock and fault |
| LeaseRegistry.LeaseGateway.Touch | hermes_mesh/open_threads.py:184-209 | The stored list moves if and only if the registry works and holds a live record of the id, and then at the first such record, by one reply and its first resizing; the answer is the touched record even when storing it failed |
| LeaseRegistry.LeaseGateway.TouchLive | hermes_mesh/open_threads.py:193-203 | The loop touches the first live record with the id and stops |
| LeaseRegistry.LeaseGateway.Expire | hermes_mesh/open_threads.py:127-146 | The sweep re-reads under the lock; everything it returns is live |
| LeaseRegistry.LeaseGateway.Release | hermes_mesh/open_threads.py:212-225 | Removes all records with the id and tells whether there was one |
| LeaseRegistry.LeaseGateway.ReleaseIfParty | hermes_mesh/open_threads.py:244-268 | True if and only if the list was read and held a record of the caller, whatever became of the write |
| LeaseRegistry.LeaseGateway.ReleaseIfPartyStatus | hermes_mesh/open_threads.py:302-390 | The reason in every combination of stat, lock, read and write outcomes; the file changes only on "released" |
| LeaseRegistry.LeaseGateway.SplitParty | hermes_mesh/open_threads.py:373-381 | One loop yields the records to keep, whether the id occurs, and whether the caller is a party of one |
| LeaseRegistry.LeaseGateway.LeaseFor | hermes_mesh/open_threads.py:473-484 | The first live record with the id, none for an empty id |
| Anchors.StatusAfterRun | hermes_mesh/threads.py:166-248 | Over every run of attempts, recipient records and settlements, overlapping or not, with every call working, failing or starting a new list: final if and only if something proved the close and the list was not lost since, else pending if and only if a pending record is open, else absent |
| Anchors.ClosedWhileInFlight | hermes_mesh/session_relay.py:1066-1118 | For attempts that do not overlap, with working bookkeeping: a thread reads closed for the whole of an attempt on its terminator, and an attempt that ended leaves nothing pending |
| Anchors.UnrecordedCloseIsLost | hermes_mesh/session_relay.py:1075-1082 | A failed record and a confirmed delivery leave no close |
| Anchors.UnwithdrawnCloseStays | hermes_mesh/threads.py:243-248 | A failed delivery and a failed withdrawal leave the thread reading closed |
| Anchors.FinalIsForever | hermes_mesh/threads.py:166-248 | A final anchor stays final throughout a run if and only if no event of the run starts a new list in which it is not final |
| Anchors.FinalAcrossProcesses | hermes_mesh/threads.py:178-200 | Over every interleaving of processes on the file: a final anchor stays final if and only if no process records another anchor, or this one as pending, while it can lock and write the file but not read it |
| Anchors.OperationIsEvent | hermes_mesh/threads.py:166-248 | Whatever fails during it, an operation on the file is one event of the anchors' lives |
| Anchors.FinalOnlyByProof | hermes_mesh/threads.py:194-248 | An anchor is final only by a confirmation that found its pending record, or a record by its recipient with no such record in the way, with no loss of the list since |
| Anchors.RecipientRecordCanBeLost | hermes_mesh/threads.py:189-192 | A run in which the recipient's record is ignored and the sender's failed attempt then leaves no close |
| Anchors.RecordedStatus | hermes_mesh/threads.py:166-204 | Recording is idempotent, touches no other anchor, and keeps stored anchors distinct |
| Anchors.PromotedStatus | hermes_mesh/threads.py:235-240 | Promoting makes a pending anchor final and changes no other status |
| Anchors.WithdrawnStatus | hermes_mesh/threads.py:243-248 | Withdrawing makes a pending anchor absent and changes no other status |
| Anchors.RewritesKeepTheRest | hermes_mesh/threads.py:216-228 | Both rewrites keep every other entry as it is, with its author and time |
| Anchors.FinalSurvivesExactly | hermes_mesh/threads.py:182-200 | A rewrite never costs a final anchor; a record costs one if and only if it could not read the list, could write, and was not for that anchor |
| Anchors.OperationKeeps | hermes_mesh/threads.py:90-283 | Each operation leaves a well-formed file, a coherent snapshot, and the file untouched or under a new modification time |
| Anchors.EveryWorldIsGood | hermes_mesh/threads.py:90-283 | With any number of processes and any interleaving, every process's snapshot stays coherent |
| Anchors.IsClosedReadsTheFile | hermes_mesh/threads.py:251-283 | In every process at every moment, the answer is membership of the anchor in the file, except from a snapshot taken by a failed read |
| Anchors.BlindExactly | hermes_mesh/threads.py:267-275 | Over every run, a process answers from such a snapshot if and only if a check of its had to read the file and could not, and there was no write since, nor a record of its own that found its anchor |
| Anchors.RunCacheIsRunEvents | hermes_mesh/threads.py:166-248 | The file that any interleaving of processes leaves is the one their events leave |
| Anchors.ClosedInEveryProcess | hermes_mesh/threads.py:251-283 | After every interleaving, in every process, a thread reads closed if and only if its close stands or a pending record of it is open, except from a blind snapshot |
| Anchors.InFlightReadsClosed | hermes_mesh/session_relay.py:1066-1074 | With attempts that do not overlap, working bookkeeping and readable files, every process reads a thread closed while an attempt on its terminator is in flight |
| Anchors.ReadableMeansNotBlind | hermes_mesh/threads.py:251-283 | If every read succeeds there is no such snapshot |
| Anchors.OneFailedReadBlinds | hermes_mesh/threads.py:270-275 | One failed read is enough for one, and it outlives the failure |
| ClosedThreads.ThreadProcess.Record | hermes_mesh/threads.py:166-204 | File and snapshot after a record, and exactly when the call raises |
| ClosedThreads.ThreadProcess.RewriteLoop | hermes_mesh/threads.py:214-228 | The loop computes the promoted or withdrawn list and whether it found a pending entry |
| ClosedThreads.ThreadProcess.Rewrite | hermes_mesh/threads.py:207-248 | File and snapshot after promote or withdraw; nothing is written when nothing was pending |
| ClosedThreads.ThreadProcess.IsClosed | hermes_mesh/threads.py:251-283 | The mtime-validated answer equals membership in the file; no anchor is never closed |
| ClosedThreads.ThreadProcess.Hydrate | hermes_mesh/threads.py:90-105 | The snapshot is the set of valid anchors read, stamped with the file's modification time |
| ClosedThreads.RewriteChanges | hermes_mesh/threads.py:216-230 | A rewrite changes the list if and only if a pending entry of the anchor was there |
| ClosedThreads.OthersStayCoherent | hermes_mesh/threads.py:270-275 | A write by one process never leaves another with a wrong snapshot that looks current |
| Outbox.PassConserves | hermes_mesh/outbox.py:259-325 | Queued, delivered-or-dropped, dead, deleted and emptied items partition the listing; at most one notice per exhausted item; the reported count is true |
| Outbox.ItemEndsUp | hermes_mesh/outbox.py:268-323 | From the answer, the reading of its thread, the count in its file and what can be done to the file: an item is done and counted delivered if and only if it was accepted, or dropped on a closed thread, and its file was removed; dead if and only if a non-raising attempt failed, was the last, and the file moved; likewise deleted and emptied, and when the pass stops |
| Outbox.ItemStays | hermes_mesh/outbox.py:268-323 | Every other item stays queued: as it was if not due, with one more attempt and due backoff times 2^attempt after the pass if a failure was stored, else in a file that does not know of the attempt |
| Outbox.OneNoticePerExhausted | hermes_mesh/outbox.py:296-316 | One notice is enqueued exactly for an exhausted item whose burial did not raise, that is no notice itself and whose notice could not be delivered; it goes to the recipient with a ref, else to the sender |
| Outbox.PassSorts | hermes_mesh/outbox.py:259-325 | Over a whole pass, the delivered-or-dropped and the dead items are exactly, and in order, those of the listing that met these conditions |
| Outbox.LostExactly | hermes_mesh/outbox.py:282-323 | Nothing is lost in a pass if and only if no exhausted item was deleted because it could not be moved and no failed retry emptied its file |
| Outbox.RunConserves | hermes_mesh/outbox.py:235-325 | Over any number of passes, one after the other: what was queued and what was enqueued on the way is queued, delivered-or-dropped, dead, deleted or emptied in the end, once each |
| Outbox.PassDrains | hermes_mesh/outbox.py:259-325 | Every attempt lowers the queue's weight by at least one, the notices it causes included, unless it left its file as it was |
| Outbox.OutboxDrains | hermes_mesh/outbox.py:235-325 | Successive passes together, in any listing order, under any clocks and failures, make no more attempts than the weight of the queue they started from plus the attempts that left their file as it was |
| Outbox.CleanRunsEnd | hermes_mesh/outbox.py:235-325 | If nothing raises and every retry can be stored, successive passes make at most that weight of attempts, none attempts an item more than the maximum, and a dead one was attempted exactly that often |
| Outbox.DueMeansAttempt | hermes_mesh/outbox.py:268-274 | A pass attempts something whenever something is due |
| Outbox.SumOfPermutation | hermes_mesh/outbox.py:259 | No measure of the queue depends on the listing order |
| Outbox.DelaysAreGeometric | hermes_mesh/outbox.py:318 | n delays add up to backoff times (2^n - 1) |
| Outbox.PassKeepsSchedule | hermes_mesh/outbox.py:268-318 | A pass keeps every queued item on its backoff schedule, and buries none that has not waited out its delays |
| Outbox.NoEarlyBurial | hermes_mesh/outbox.py:268-318 | In every pass of every run, a buried item has existed for backoff times (2^(max - 1) - 1), whatever the clocks of the passes |
| Outbox.PassCountsTrue | hermes_mesh/outbox.py:272-318 | Whatever fails in a pass, an item's true count of attempts is its stored one plus its unstored ones, and these grow by the attempts that left a file as it was |
| Outbox.RunCountsTrue | hermes_mesh/outbox.py:235-325 | Over any number of passes, one after the other, a dead or deleted item was attempted the maximum plus its own unstored attempts, so at most the maximum if and only if it has none |
| Outbox.UnstoredRetriesNeverEnd | hermes_mesh/outbox.py:319-323 | For every item and every n there is a run of n passes that attempts it n times and leaves its file as it was |
| Outbox.AttemptIsItsEvents | hermes_mesh/outbox.py:169-232 | Whatever fails, an attempt takes the registry through the events of the anchor's life and no others |
| Outbox.AttemptSettles | hermes_mesh/outbox.py:176-232 | After an attempt on a working registry its anchor is final if it was or if the message was accepted, else absent; if only the settling call works it is not left pending; only a record that starts a new list touches another anchor or costs a final one |
| Outbox.PassLeavesNothingPending | hermes_mesh/outbox.py:176-232 | If promote and withdraw work in the attempts on an anchor's own items, after a pass no delivered, dead or deleted terminator left it pending, whatever else failed; a final close is still final unless a record started a new list |
| Outbox.BurialSettles | hermes_mesh/outbox.py:286-290 | A buried terminator leaves nothing pending if its attempt's settlement or its burial's withdrawal worked |
| OutboxRaces.RunIsSound | hermes_mesh/outbox.py:259-325 | Any number of reapers reading and settling one file in any order: every attempt is stored, changed nothing, ended the file or is in progress, and the count never exceeds the retries stored |
| OutboxRaces.BuriedAttempts | hermes_mesh/outbox.py:272-285 | An item that is given up was attempted the maximum plus lost updates, unstored attempts, others that ended the file and others in progress; so at most the maximum if and only if there are none of these |
| OutboxRaces.LostUpdatesExactly | hermes_mesh/outbox.py:318-323 | The count falls behind the retries stored if and only if some retry was stored over another count than its reaper had read |
| OutboxRaces.AloneAttempts | hermes_mesh/outbox.py:272-285 | With one reaper at a time only unstored attempts exceed the maximum |
| OutboxRaces.LockstepDoubles | hermes_mesh/adapter.py:909-920 | Two reapers in lockstep attempt an item twice the maximum before one gives it up, with every retry stored |
| OutboxRaces.ComesBackExactly | hermes_mesh/outbox.py:320 | A file that is gone comes back if and only if a reaper that had read it writes a retry |
| OutboxRaces.GoneForGood | hermes_mesh/outbox.py:259-274 | With no attempt in progress an item that is gone is never attempted again |
| OutboxRaces.DeliveredComesBack | hermes_mesh/outbox.py:274-277 | A delivered item is queued again by a second reaper that had read it |
| OutboxReaper.Reaping.QueueMessage | hermes_mesh/outbox.py:67-113 | Appends one fresh, on-schedule item |
| OutboxReaper.Reaping.AttemptItem | hermes_mesh/outbox.py:160-232 | The method drives record, promote and withdraw exactly as the attempt's specification says, on every path, raising resolutions and deliveries included |
| OutboxReaper.Reaping.BuryItem | hermes_mesh/outbox.py:279-317 | An exhausted item is moved to the dead letters, or deleted, or stays when that raises, before its close is withdrawn; it is never counted as delivered, and unless it stays or is itself a notice, an undeliverable notice of it is enqueued once |
| OutboxReaper.Reaping.RetryItem | hermes_mesh/outbox.py:260-323 | What becomes of one listed item: kept, moved, deleted, removed, or replaced by its retry, with notice, counters and exceptions |
| OutboxReaper.Reaping.RetryListing | hermes_mesh/outbox.py:259-325 | The loop is one pass over the listing; an exception leaves the rest untouched |
| OutboxReaper.Reaping.RetryOutbox | hermes_mesh/outbox.py:235-325 | The same for any order of the directory: the dead letters gain exactly the items whose last attempt failed and whose file moved, and the reported count is that of the accepted or dropped ones whose file was removed; nothing happens when the outbox is off |
| RelaySend.StrongestIsMaximal | hermes_mesh/session_relay.py:1205-1223 | The reported reason is one of the answers, and none is stronger |
| RelaySend.ProbedMembers | hermes_mesh/session_relay.py:1200-1204 | A probe removes exactly the caller's records under those of the ids whose call met no fault |
| RelaySend.ReleasedMeansRemoved | hermes_mesh/session_relay.py:1205-1223 | It reports a release if and only if it removed something, whatever went wrong |
| RelaySend.ProbeReportsTheList | hermes_mesh/session_relay.py:1197-1223 | If no call meets a fault, the report is about the list as the probe found it: released, not-a-party or no-such-lease |
| RelaySend.TerminatorReleases | hermes_mesh/session_relay.py:1188-1204 | A terminator whose calls all work removes exactly the records of the sender under the thread it names or, if it names none, under its ref, its delivery id or its own id |
| RelaySend.SendSettlesItsAnchor | hermes_mesh/session_relay.py:1075-1236 | What a terminator that got to the POST leaves in the file, whatever fails: the events of one attempt, or the first alone if the delivery raised; when the settling call works no other ending leaves its anchor pending |
| RelaySend.CloseAfterSend | hermes_mesh/session_relay.py:1075-1236 | On a working registry, however a send ends: a terminator's own anchor, unless final before, is final if delivered, pending if the delivery raised, absent after any other way past the POST; everything else, and every other anchor, is as before |
| RelaySend.QueuedItemCloses | hermes_mesh/session_relay.py:1116-1128 | A queued message is due at once, to the same recipient; when the reaper delivers it, it closes its own thread if it is a terminator and nothing otherwise |
| RelaySend.GateByReply | hermes_mesh/session_relay.py:918-940 | A notice, a terminator or a question whose ref names a live lease of its pair passes and changes nothing; any other question is refused, on a working registry, if and only if the pair shares no live lease and a third party holds the recipient or the sender has three live threads; let through, a live lease of the pair is stored, a new one for 1800 seconds if there was none |
| RelaySend.EndingsExactly | hermes_mesh/session_relay.py:888-1240 | When each ending is reached, as an equivalence: closed thread, busy, bad selector, delivered, queued, failed, and which sends get to the POST |
| RelaySend.FailedSendLeavesNoTrace | hermes_mesh/session_relay.py:1153-1163 | A question with a new id and a granted claim, readable list or not, whose delivery failed has no net effect on the leases if and only if the rollback works or finds nothing under the id |
| RelaySend.FailedSendExactly | hermes_mesh/session_relay.py:918-1163 | For every way through the gate (grant, existing thread, live ref) and every fault, with an id that others do not name meanwhile: no net effect if and only if the rollback works and takes no other record, or fails with no lease of the send left |
| RelaySend.Relay.PassGate | hermes_mesh/session_relay.py:910-1007 | What GateByReply says of the gate, for the stored list before and after; a held claim is reported as held |
| RelaySend.Relay.Probe | hermes_mesh/session_relay.py:1200-1223 | The list and the answers of the calls in turn, for all faults, and the strongest answer |
| RelaySend.Relay.BeforePost | hermes_mesh/session_relay.py:888-1064 | The order of guard, gate and checks, and which of them keep the claim |
| RelaySend.Relay.AfterFailure | hermes_mesh/session_relay.py:1103-1170 | The pending close is withdrawn before the message is queued; without an outbox the claim is rolled back by id and party |
| RelaySend.Relay.AfterDelivery | hermes_mesh/session_relay.py:1186-1236 | A terminator probes and promotes, a question touches the lease it answers, for all faults |
| RelaySend.Relay.Post | hermes_mesh/session_relay.py:1075-1240 | The pending record, the delivery and what follows each outcome, raising steps included; what it leaves of the closes is given by SendSettlesItsAnchor and CloseAfterSend |
| RelaySend.Relay.Send | hermes_mesh/session_relay.py:888-1240 | Which ending a send has, and leases, anchors, outbox and the reported reason after it; a delivered question moves the lease it answers as TouchStepStores says; the notice of an unresolved send, its recipient, and steps that raise included |
| RelaySend.RaisedDeliveryLeavesPending | hermes_mesh/session_relay.py:1084-1093 | A delivery step that raises leaves a terminator's anchor pending |
| Delivery.PinnedRequest | hermes_mesh/session_relay.py:253-302 | The first address that returns a body decides; otherwise the last error stands; the clock is the sum of the contacts |
| Delivery.FailureMeansNoProof | hermes_mesh/session_relay.py:277-302 | An attempt fails if and only if no contacted address said the message landed; only a garbled answer stops it early |
| Delivery.TryOnce | hermes_mesh/session_relay.py:525-585 | One pass of the loop, with its timeout, extension and sleep, refines its specification |
| Delivery.DeliverWebhook | hermes_mesh/session_relay.py:441-586 | The loop with its deadline, extension and sleeps refines the recursive specification |
| Delivery.DeliveryOutcome | hermes_mesh/session_relay.py:524-586 | A delivery is confirmed by the first attempt that landed and by nothing else; a failed one reports what the last attempt said |
| Delivery.DeliveryIsBounded | hermes_mesh/session_relay.py:505-586 | With k addresses and timeout T the delivery ends within kT + max(kT, T + k), extends the deadline at most once, and never sleeps into the deadline's last second |
| Delivery.ExtensionNeedsSilence | hermes_mesh/session_relay.py:553-566 | Only a first attempt without an answer extends the deadline |
| Delivery.NeverGivenUpEarly | hermes_mesh/session_relay.py:524-585 | When a delivery fails, it has made all its attempts, or T has passed since its start and, if the first attempt got no answer, since the end of that |
| Delivery.NapsDouble | hermes_mesh/session_relay.py:567-571 | The first pause is the configured one and each is twice the one before, until cut to leave a second before the deadline |
| Delivery.CeilingInFull | hermes_mesh/session_relay.py:533-535 | That ceiling as products; for one address it is 2T + 1, and T + 1 without an extension |
| Delivery.TwiceTheTimeoutExactly | README.md:192-197 | No peer keeps a delivery longer than twice the timeout if and only if there are at most two attempts at one address, or one at two, or none |
| Delivery.TwiceTheTimeoutIsExceeded | README.md:192-197 | A run with the default settings that takes 20.5 seconds |
| Delivery.ConfirmedExactly | hermes_mesh/session_relay.py:524-586 | A delivery ends without a reason of failure if and only if some contacted address, in some attempt, said in time that the message landed |
| Delivery.OutcomesKeepTheirMeaning | hermes_mesh/session_relay.py:409-427 | A failed delivery reports its last contact: a silence as unconfirmed, never as a refusal, and a body token before the status code |
| Delivery.NullIdReadsAsFailure | hermes_mesh/session_relay.py:545-552 | A confirmed delivery hands back no id if and only if the confirming answer has a null id |
| ReceiveWindow.TwiceOnlyAfterCapOthers | hermes_mesh/adapter.py:464-522 | Over every run of requests, if an id is accepted twice while no clock in between passes ttl after the first acceptance, at least cap distinct other ids were accepted in between |
| ReceiveWindow.AtMostOnceExactly | hermes_mesh/adapter.py:524-552 | For messages that carry a timestamp in force, this makes a replay impossible without cap other ids if and only if the timestamp was not ahead of the first acceptance |
| ReceiveWindow.FutureDatedReplay | hermes_mesh/adapter.py:538-548 | A message dated ahead of the clock is accepted twice with a single other one in between |
| ReceiveWindow.WindowIsUnique | hermes_mesh/adapter.py:468-516 | The window never holds an id twice |
| ReceiveWindow.AcceptedOnce | hermes_mesh/adapter.py:468-517 | An accepted id is still in the window after fewer than cap other acceptances, while no clock passes ttl after its own |
| ReceiveWindow.StaysInWindow | hermes_mesh/adapter.py:543-552 | Each other acceptance moves an unexpired entry at most one place towards eviction |
| ReceiveWindow.UnexpiredMembers | hermes_mesh/adapter.py:545-550 | Expiry drops exactly the ids older than the time to live |
| ReceiveWindow.WindowIsTheNewest | hermes_mesh/adapter.py:543-552 | While all acceptances are within ttl of each other the window holds exactly the cap newest |
| ReceiveWindow.CapOthersEvict | hermes_mesh/adapter.py:551-552 | The bound is tight: cap other acceptances within ttl do evict an id |
| ReceiveWindow.FirstOnesPass | hermes_mesh/adapter.py:562-571 | Within one bucket window a request passes if and only if it is among the first ones up to the limit |
| ReceiveWindow.PassedInOneWindow | hermes_mesh/adapter.py:562-571 | So exactly as many pass as the window still allows |
| ReceiveWindow.PassedInOneMinute | hermes_mesh/adapter.py:554-571 | In any minute at most twice the limit passes, for a clock that does not run backwards |
| Adapter.MeshAdapter.Validate | hermes_mesh/adapter.py:369-400 | A request is read if and only if it is an object in the replay window, authentic, with a readable envelope; which answer each failing check gives |
| Adapter.MeshAdapter.CheckRateLimit | hermes_mesh/adapter.py:554-571 | Only the sender's own bucket moves, by one tick |
| Adapter.MeshAdapter.ExpireSeenMessages | hermes_mesh/adapter.py:543-552 | Drops the expired ids, then the oldest over the cap |
| Adapter.MeshAdapter.Commit | hermes_mesh/adapter.py:410-522 | Which answer a request gets, in the order of the checks; every request of a named sender counts in its bucket, refused or not, and a new bucket starts after a minute; accepted exactly when every check passes, and only then remembered and enqueued; the close is recorded after the window |
| Adapter.MeshAdapter.Deliver | hermes_mesh/adapter.py:440-522 | From the closed-thread guard on: the answer, the window, the inbox and the recorded close |
| Adapter.MeshAdapter.Serve | hermes_mesh/adapter.py:410-571 | Over every sequence of requests, other senders' among them: of one sender's, as many pass the rate limit as its bucket allows, and within a minute at most twice the limit |
| Envelope.PrintMessage | hermes_mesh/session_relay.py:1026-1034 | The header built field by field, then the message |
| Envelope.PrintThenParse | hermes_mesh/adapter.py:66-81 | For all valid fields and any message, even one that looks like a field, parsing what was printed gives the fields and the left-stripped message |
| Envelope.PrintRawThenParse | hermes_mesh/session_relay.py:1026-1034 | With names validated once from raw ones, that is so if and only if neither raw name has a dotted capital I; with one the message is refused |
| Envelope.ParseThenPrintThenParse | hermes_mesh/adapter.py:666-733 | Printing a parsed message and parsing it again gives the same result, defaults included, if and only if neither name had a dotted capital I |
| Envelope.TolerantReceive | hermes_mesh/adapter.py:66-81 | Whichever of the optional fields a header has and whatever text other than a field follows, it is read if and only if names, tokens and the words that are there are valid; a missing action reads as info, a missing reply as no, the rest as written |
| Envelope.ValidatedNameIsStable | hermes_mesh/session_relay.py:309-328 | A validated name validates to itself if and only if the raw name had no dotted capital I |
| Envelope.DottedName | hermes_mesh/session_relay.py:309-328 | There is such a name |
| Envelope.DottedCapitalIDoesNotSurvive | hermes_mesh/session_relay.py:309-328 | A message from such a name is accepted, and refused when passed on as read |
| Envelope.OptionalPartReadsBack | hermes_mesh/adapter.py:77-80 | Each optional field, present or absent, is taken for itself |
| FloatChunker.SafeCutIsBoundary | hermes_mesh/float.py:92-121 | On escaped text a safe cut falls between entities, at the limit if possible, and never beyond max(limit, 5) |
| FloatChunker.SafeCutIsLargest | hermes_mesh/float.py:92-121 | It is the largest such position within the limit, or the first after it when there is none |
| FloatChunker.CutPrefersSeparators | hermes_mesh/float.py:124-132 | The cut is just after the last paragraph break within the limit, else the last newline, else the last blank, else a safe cut |
| FloatChunker.LastSeparatorIsLast | hermes_mesh/float.py:129 | No later occurrence ends by the limit |
| FloatChunker.ChunksOfEscape | hermes_mesh/float.py:135-157 | For every text and limit the pieces are non-empty, join to the escape, are escapes of consecutive raw slices, and are at most max(limit, 5) long |
| FloatChunker.SplitLoop | hermes_mesh/float.py:147-157 | The loop yields those pieces, and its defensive branch is dead |
| FloatChunker.ChunkEscaped | hermes_mesh/float.py:135-157 | A limit that is not positive is an error, for any text |
| FloatChunker.RawCountForEscaped | hermes_mesh/float.py:160-174 | The count is the largest that fits, and exact at every boundary |
| FloatParts.BuildParts | hermes_mesh/float.py:182-223 | At most eight numbered parts that show exactly the escape of the kept text; the marker's count is the number of raw characters dropped, zero if and only if nothing was cut; for every text shorter than 10^2901 characters no part is longer than 4000 |
| FloatParts.Truncate | hermes_mesh/float.py:201-223 | Over the ceiling: eight parts, the last shortened between entities, with the exact count behind it |
| FloatParts.ShortenLast | hermes_mesh/float.py:207-215 | The eighth piece is cut to the room left by the widest possible marker, its defensive branch is dead |
| FloatParts.PartsFitTheLimit | hermes_mesh/float.py:201-208 | For every text shorter than 10^2901 characters the widest marker and prefix leave room in a part of 4000 |
| FloatParts.GroupedReadsBack | hermes_mesh/float.py:177-179 | The printed count, with its commas, reads back as the count |
| FloatParts.GroupedLengthMonotone | hermes_mesh/float.py:203-208 | A smaller count never prints longer, so room reserved for the largest suffices |
| FloatSend.Send | hermes_mesh/float.py:332-388 | What is accepted is a prefix of the parts, as long as budget and answers allow; at most one more request is made; the loop ends within the wall budget |

## Left out

- `open_thread`, `conflict`, `get`, `load`, `list_closed`, `clear`: not on the relay's path; the unlocked reads among them are not in the cache invariant.
- HTTP, TLS, DNS and sockets: an outcome and a latency per contact. A contact lasts at most the timeout it is given; the library applies it per socket operation.
- Signatures, key files, address policy, redaction: policy, not protocol; authentication is an input of the adapter.
- The lock, the atomic write and the corrupt-file backup of `mesh_core` are not part of this model; a lock is atomicity, a write is all or nothing, a corrupt file is one whose reads fail.
- Malformed records inside a readable lease file: `_live` treats them as expired.
- The token validator lives in `mesh_core`; its alphabet and length are taken from schemas/mesh-envelope-v1.json:35.
- A crash in the middle of an attempt and overlapping attempts on one anchor: outside what the code guarantees; `StatusAfterRun` covers their events, `ClosedWhileInFlight` assumes there are none.
- Other processes between the locked calls of one attempt or one send: the methods of `OutboxReaper` and `RelaySend` are sequential; interleavings are in `Leases.Run`, `Anchors.RunEvents`, `Anchors.RunCache`, `Gate.RollbackExactly` and `OutboxRaces.Run`.
- RunConserves: passes one after the other; with overlapping reapers an item can be delivered or dead and still queued, which `OutboxRaces` covers for one file, not the whole directory.
- RunCountsTrue: passes one after the other; `OutboxRaces.BuriedAttempts` has the count with overlapping ones.
- OutboxDrains: passes one after the other; no bound over overlapping ones is proved.
- Malformed items: an unreadable file is skipped, other malformations are not modelled. A listing taken while another reaper moves files: a file that is gone when it is opened is skipped, as an unreadable one is.
- Whether a notice ever causes a notice across gateways: retries drop the header that marks a notice, so only the sender's own measure is proved.
- The directory of the outbox is a sequence, and a listing is any permutation of it; `Item.tried` and `Item.unstored` are history variables that no file holds.
- Time spent computing, in `Delivery` and `FloatSend`: only contacts and sleeps take time.
- A negative `replay_window_size`: the code raises on the first acceptance.
- Credentials, the skip of blank text and the log lines of the float; configuration read from the environment: parameters or nothing.
- Session routing, call-to-action text, event building, tool schemas, metrics, health: display and plumbing.
