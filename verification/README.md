# Verified model of the component control server

A Dafny model of the stateful protocols of a component control server and of a few algorithms around them, with proofs
about every run of them. Each protocol appears twice. A class holds the rows that a transaction touches and updates them
in place, step by step as the program does. A specification function describes the same transaction on values. Every
method is proved equal to its function, and the theorems are about runs of the functions.

`dafny verify dfyconfig.toml` checks the project.

| file | what it models |
|---|---|
| `Options.dfy`, `CodeUnits.dfy` | absent values; UTF-16 text, its order, sorting and trimming |
| `CanonicalJson.dfy`, `CanonicalText.dfy`, `CanonicalObjects.dfy`, `Utf8.dfy` | the canonical JSON printer behind every digest, a parser that inverts it, which of the texts that read alike is printed, and the UTF-8 bytes that are hashed |
| `Components.dfy` | the component row and the database trigger that advances its policy epoch |
| `AuditStream.dfy`, `AuditDelivery.dfy` | the audit event stream: hash chain, gap markers, redelivery, quarantine |
| `ControlPlane.dfy`, `ControlEvidence.dfy`, `ControlColumns.dfy` | activation requests, their callbacks, the watchdog and lifecycle actions; when traffic opens; what each transaction leaves in the rows |
| `StatePayloads.dfy` | when a state payload confirms a command |
| `AutomationRegistry.dfy` | revisions of a browser automation, their activation, and idempotent run requests |
| `RunQueue.dfy` | the leased queue of browser automation runs |
| `ArchiveOutbox.dfy`, `ArchiveFile.dfy`, `JsonRecords.dfy`, `JsonTexts.dfy` | the leased outbox that archives audit events, the bytes of the archive file, and the JSON records in it |
| `SseReader.dfy`, `SseBlocks.dfy`, `SseFrames.dfy` | the incremental reader of server-sent events, what a block says, and the frames the server writes |
| `Layout.dfy` | the collision-free layout of dashboard nodes |
| `MigrationNames.dfy`, `MigrationLedger.dfy` | the migration directory, the ledger, and the migration runner |
| `PermissionRequest.dfy`, `Permissions.dfy`, `PermissionEffects.dfy` | replacing the managed-service permissions of a credential, and what a replacement leads to |
| `Discussion.dfy`, `DiscussionLog.dfy` | the fold of discussion events, what a message says after a log, and the replay cursor |

A `tx(...)` block is one atomic step, because a throw rolls all of it back (`apps/server/src/db.ts:16-29`).
Interleavings are arbitrary lists of such steps. A crashed or stalled worker is one that takes no further step.
Randomness, clocks and the network are parameters: tokens and lease identifiers are fresh, time moves by explicit ticks,
and callbacks arrive with arbitrary contents. The hash is a parameter as well. Where a theorem needs collision freedom
it says `Injective(hash)`.

## Results that contradict an expectation

These are properties of the code that one might not expect. Each has an exact condition or a concrete run.

* A disable request advances the policy epoch twice, so the epoch it sends out is never current again. Its state query is
  never answered by a snapshot, and an acknowledgement that carries the epoch of the command is refused
  (`ControlEvidence.DisableOutrunsItsOwnEpoch`).
* A heartbeat answers its challenge whatever epoch the challenge was issued under. An enable request that a later disable
  request or a retirement overtook can therefore still open traffic, exactly when it is acknowledged and confirmed
  (`HeartbeatOpensForAnyAckedDispatch`, `SupersededEnableCanOpenTraffic`, `RetirementIsNotFinal`).
* An accepted observation looks its state query up without its component. When it names the query of another component, it
  finalizes that component's command again, whatever the other component's epoch and lifecycle are. A closed component
  opens so exactly when the named enable command has all its evidence (`OpensExactlyOnCompleteEvidence`,
  `StaleCallbackIsInert`), and even a retired one does (`ForeignObservationReopensRetired`).
* A component that reports its flag as disabled and its state as ACTIVE confirms an enable and a disable command at once,
  and its own answers open its traffic (`MixedSignalsConfirmBoth`, `MixedPayloadOpensTraffic`).
* A newly stored audit event is answered CONTIGUOUS even while the gap of its stream stays open, and exactly then the answer
  differs from the stream (`AnswerTellsTheStream`).
* A stream that says CONTIGUOUS can miss an event it has received. The counters tell exactly when it does
  (`ContiguousCanMissAReceivedEvent`, `AllReceivedIsStored`).
* Enabling an automation checks the active revision before its transaction starts. The revision that ends up enabled is the
  checked one exactly when the last activation in between, if there was one, was of that revision
  (`CheckedRevisionIsEnabled`, with a run that enables another one in `OverrunActivationStaysEnabled`).
* A run whose holder has crashed stays in CANCEL_REQUESTED for good, and a cancel request after the holder's last look is
  lost (`CrashedHolderLeavesCancelRequested`, `LateCancelIsLost`).
* An archived event need not be a line of the archive file. A record becomes one exactly when it is not the first of its
  append, or the file before was empty or ended in a line feed (`ArchiveFile.RecordBecomesALine`). After an append that
  was torn by a crash it is not (`TornAppendHidesTheNextRecord`, `TornAppendIsReachable`). That it stands where its
  lease wrote it, and in no more lines than attempts, holds across all crashes (`ArchivedAtLeastOnceAndBounded`).
* The event reader completes no block of a stream with CRLF line ends, which section 9.2.5 of the WHATWG HTML standard
  allows (`CrLfStreamsYieldNothing`).
* The documentation says that a replay gap starts a resynchronisation (`docs/SSOT_CURRENT.md:1949-1955`,
  `IMPLEMENTATION_CONTRACT.md:146-154`). The server sends that request without an event id, a browser reports the
  previous id for such an event (section 9.2.6 of the WHATWG HTML standard), and the cursor filter drops what is not beyond
  the cursor. The request is heard exactly when no numbered event came before it on its connection
  (`ResyncIsHeardOnlyFirst`). A snapshot older than the cursor loses the events in between (`OldSnapshotLosesEvents`).
* Not all that the migration ledger records was executed. A successful run records a file without executing it exactly when
  it decided to compact and the ledger lacked a name of the directory. It may decide so exactly when the ledger is not
  empty and either lacks the baseline or holds a retired name that the directory lacks
  (`RecordsUnexecutedExactlyWhenCompacting`), and no later run makes up for it (`CompactionRecordsWithoutExecuting`).
  For the same reason a changed file stops every run exactly when it cannot compact (`ChangedFileStopsTheRun`). With
  both a retired and an unknown row the answer depends on the order of an unordered query
  (`DecisionIsSettledUnlessMixed`).
* Service identifiers are compared as texts in some places and as UUIDs in others. A replacement that spells a service
  with live grants in upper case is accepted, revokes what it has just granted (`UpperCaseRequestIsOvertaken`), and reports
  one service added and another removed (`OvertakenRequestLosesItsGrants`). The live grants are the request exactly when
  no requested spelling of a service with live grants sorts before the stored one (`LiveGrantsAreTheRequest`).
* The administrator's permission list also shows standing rows of revoked scopes (`ListMayShowRevokedScopes`), and a
  service reported as unchanged is rewritten all the same (`KeptServicesAreRewritten`).

## Model

| member | source | states |
|---|---|---|
| CanonicalJson.ParseInvertsCanon | apps/server/src/domain/component.ts:108-113 | a JSON parser recovers every value from its canonical text, up to member order, with nothing left over |
| CanonicalJson.CanonDecidesEquality | apps/server/src/domain/browser-automation.ts:56-61 | two values have the same canonical text exactly when they are equal as JSON values |
| CanonicalJson.MembersPrintedAscending | apps/server/src/domain/component.ts:112 | object members are printed once each, in ascending code-unit order of their names (RFC 8785, section 3.2.3) |
| CanonicalJson.ParseOfEscape | apps/server/src/domain/component.ts:109 | the printed escapes, surrogates included, read back to the string they came from, whatever follows |
| CanonicalText.EscapeIsTheShortest | apps/server/src/domain/component.ts:109 | of all well-paired texts that read as a string, the printed one is the shortest, and the only one of its length with small hexadecimal digits |
| CanonicalText.EscapeIsAmongThem | apps/server/src/domain/component.ts:109 | the printed text is well paired, reads as the string, and has small hexadecimal digits |
| CanonicalText.NothingToEscape | apps/server/src/domain/component.ts:109 | a well-paired string without quotes, backslashes and control characters is printed as it is |
| CanonicalText.IntegerIsPrinted | apps/server/src/domain/component.ts:109 | the printed text is the only one that reads as an integer, but for a signed zero |
| CanonicalText.Spelling | apps/server/src/domain/component.ts:108-113 | the words and the punctuation of the format |
| CanonicalText.DigestIsTagged | apps/server/src/domain/component-audit.ts:40-42 | a digest is the name of its hash and the hash of the canonical text's bytes |
| CanonicalObjects.ObjectPrintsLeastFirst | apps/server/src/domain/component.ts:112 | an object prints the member of the least name first and goes on as the object of the others |
| CanonicalJson.CanonIsWellPaired | apps/server/src/domain/component-audit.ts:40-42 | the canonical text has no unpaired surrogate, which is what UTF-8 would not keep |
| Utf8.EncodeIsInjective | apps/server/src/domain/component-audit.ts:40-42 | on text without unpaired surrogates the UTF-8 bytes determine the text |
| Utf8.UnitBytesTell | apps/server/src/domain/component-audit.ts:40-42 | the bytes of a code unit carry its bits (RFC 3629, section 3) |
| Utf8.PairBytesTell | apps/server/src/domain/component-audit.ts:40-42 | the bytes of a surrogate pair carry the bits of its code point |
| CanonicalJson.BytesDecideEquality | apps/server/src/domain/component-audit.ts:40-42 | the bytes that are hashed are the same exactly for values that are equal as JSON values |
| CanonicalJson.DigestDecidesEquality | apps/server/src/domain/component-audit.ts:40-42 | equal values have equal digests, and with an injective hash equal digests come from equal values |
| CodeUnits.SortAscending | apps/server/src/domain/component.ts:112 | the default sort puts distinct strings in strictly ascending order |
| CodeUnits.LessTells | apps/server/src/domain/component.ts:112 | the order: a proper prefix first, and otherwise the first code unit that differs decides |
| CodeUnits.AscendingUnique | apps/server/src/domain/component.ts:112 | a set of strings has one ascending listing, so sorting forgets the order it was given |
| AuditStreams.AuditStream.constructor | apps/server/src/migrations/001_pre_production_baseline.sql:887-913 | a new stream expects event 1, has received nothing, and is contiguous and valid |
| AuditStreams.AuditStream.Ingest | apps/server/src/domain/component-audit.ts:103-224 | the whole new state of stream, events and component, and the answer, for every delivery |
| AuditStreams.EventHashBinds | apps/server/src/domain/component-audit.ts:79-101 | with an injective hash an event hash determines component, revision, previous hash and canonical event |
| AuditStreams.SameCanonicalSameHash | apps/server/src/domain/component-audit.ts:79-101 | events with one canonical form hash alike in one place of the chain |
| AuditStreams.StepKeepsConsistent | apps/server/src/domain/component-audit.ts:185-219 | each delivery and each change of the active revision keeps counters, gap marker and chain consistent |
| AuditStreams.AlwaysConsistent | apps/server/src/domain/component-audit.ts:103-224 | in every reachable stream: acknowledged = expected - 1 <= received; a gap is open exactly when both bounds are set, and then from = expected <= to < received; every row links to the one before it |
| AuditDelivery.RedeliveryIsDecidedByCanonicalForm | apps/server/src/domain/component-audit.ts:124-184 | below the expected number a delivery is a duplicate exactly when its canonical form is the stored one; otherwise the component is closed and quarantined in all its state columns, or the number was never used |
| AuditDelivery.EqualHeadsEqualChains | apps/server/src/domain/component-audit.ts:185-219 | two chains with one head have the same length and row for row the same canonical events |
| AuditDelivery.HeadBindsHistory | apps/server/src/domain/component-audit.ts:44-219 | two reachable streams with the same current hash have the same length and canonical history, and belong to one component |
| AuditDelivery.StoredEventsAreALogPrefix | apps/server/src/domain/component-audit.ts:103-221 | for deliveries drawn from one log, lost, repeated or reordered, the stored events are the first expected - 1 entries, with no conflict and no quarantine |
| AuditDelivery.PrefixReached | apps/server/src/domain/component-audit.ts:103-221 | the stored prefix reaches n exactly when 1..n occur in this order among the deliveries |
| AuditDelivery.NextEventIsAccepted | apps/server/src/domain/component-audit.ts:192-220 | the next event of a consistent stream is always accepted, stored under the active revision and linked to the head, and resets integrity to VALID |
| AuditDelivery.AnswerTellsTheStream | apps/server/src/domain/component-audit.ts:103-221 | for every delivery to every reachable stream: accepted exactly when stored afterwards, duplicate exactly when stored before, the expected number is the new one, and a refused delivery asks for a replay from it; a failure stores nothing |
| AuditDelivery.GapMarkerIsLatestEarly | apps/server/src/domain/component-audit.ts:185-215 | the gap is open exactly while the latest early delivery is still ahead, and ends just below it |
| AuditDelivery.HighestReceivedIsLargestDelivered | apps/server/src/domain/component-audit.ts:187-188 | the received counter is the largest number ever delivered |
| AuditDelivery.AllReceivedIsStored | apps/server/src/domain/component-audit.ts:185-219 | received equals acknowledged exactly when every delivered event is stored |
| AuditDelivery.ContiguousCanMissAReceivedEvent | apps/server/src/domain/component-audit.ts:213-215 | deliveries 2, 1 end in CONTIGUOUS with event 2 received and not stored |
| ControlPlane.ControlTables.UpdateComponent | apps/server/src/migrations/007_watchdog_health_transition_policy_epoch.sql:5-19 | the stored row, with the epoch advanced unless nothing relevant changed or the transaction is a health transition |
| ControlPlane.ControlTables.FinalizeDispatch | apps/server/src/domain/component.ts:673-733 | a dispatch with all its evidence completes and, when it is no probe, switches the component; any other changes nothing |
| ControlPlane.ControlTables.SetActivation | apps/server/src/domain/component.ts:1878-1969 | when a request is filed, and the rows after it: closed traffic, a new epoch, dispatch, query and challenge |
| ControlPlane.ControlTables.RecordAck | apps/server/src/domain/component.ts:1606-1666 | which acknowledgements are accepted, and the rows after each |
| ControlPlane.ControlTables.RecordSnapshot | apps/server/src/domain/component.ts:1531-1604 | which snapshots are accepted, and the rows after each |
| ControlPlane.ControlTables.RecordObservation | apps/server/src/domain/component.ts:1453-1529 | which observations are accepted, and the rows of the sender after each |
| ControlPlane.RecordForeignObservation | apps/server/src/domain/component.ts:1507-1518 | an accepted observation that names a query of another component changes no row of that query, and finalizes the other component's dispatch; a refused one changes only its sender |
| ControlPlane.ControlTables.RecordHeartbeat | apps/server/src/domain/component.ts:1252-1355 | which heartbeats are accepted, and the rows after each |
| ControlPlane.ControlTables.MarkStale | apps/server/src/domain/component.ts:1357-1428 | a stale component is marked failed and, past the second limit, closed, without touching its epoch |
| ControlPlane.ControlTables.RecordProbe | apps/server/src/domain/component.ts:1430-1451 | a probe stores its outcome as the monitoring state, which is how a component becomes fit for a new request |
| ControlPlane.ControlTables.RecordPulse | apps/server/src/domain/component.ts:1208-1216 | the component row after a pulse of either outcome |
| ControlPlane.ControlTables.RecordOperationEvent | apps/server/src/domain/component.ts:1239-1248 | the component row after an operation of either outcome |
| ControlPlane.ControlTables.ChangeLifecycle | apps/server/src/domain/component.ts:2003-2088 | which lifecycle actions are allowed, and the closed row each leaves |
| ControlPlane.NextKeepsSound | apps/server/src/domain/component.ts:1208-2112 | every transaction keeps the invariant of the control plane and never lowers the policy epoch |
| ControlPlane.AlwaysSound | apps/server/src/domain/component.ts:1208-2112 | in every interleaving, foreign observations and probes included, the four traffic flags agree, open traffic means lifecycle and activation ACTIVE, and the epoch never decreases |
| ControlColumns.AckCountsExactly | apps/server/src/domain/component.ts:1606-1650 | an acknowledgement is recorded exactly when it is authentic, current, valid, and names a command by its kind; otherwise nothing changes |
| ControlColumns.SnapshotCountsExactly | apps/server/src/domain/component.ts:1541-1592 | a snapshot answers its query exactly when it is authentic, carries the epoch and nonce of a pending query, and is valid; otherwise only monitoring shows it |
| ControlColumns.ObservationCountsExactly | apps/server/src/domain/component.ts:1507-1525 | an observation answers the query it names exactly when it is authentic and valid; otherwise only monitoring shows it |
| ControlColumns.HeartbeatCountsExactly | apps/server/src/domain/component.ts:1275-1350 | a heartbeat counts exactly when it is authentic, in time, and answers the challenge it names, if it names one |
| ControlColumns.ProvenCommandSwitches | apps/server/src/domain/component.ts:673-733 | a transaction about a command completes it exactly when the rows hold all that it asks for, and then every state column is that of the command; a probe switches nothing |
| ControlColumns.CompletesOnlyWhenAbout | apps/server/src/domain/component.ts:673-733 | nothing else completes a command: a disable command needs a state answer that confirms it, an enable command its challenge as well |
| ControlColumns.CompletedIsEvidenced | apps/server/src/domain/component.ts:1252-1666 | in every run a completed command of any kind was acknowledged, confirmed by a state answer if it is an enable or disable command, and met in its challenge if it is an enable or heartbeat command |
| ControlColumns.FailedAckCloses | apps/server/src/domain/component.ts:1637-1652 | a failed acknowledgement closes traffic and blocks, or leaves a disable command unconfirmed |
| ControlColumns.RequestFilesExactly | apps/server/src/domain/component.ts:1878-1969 | when a request is filed, and every row after it |
| ControlColumns.ProbesAreQueued | apps/server/src/domain/component.ts:1971-1999 | a state query or a heartbeat probe is sent out under the current epoch and leaves the component alone |
| ControlColumns.HealthShows | apps/server/src/domain/component.ts:1208-1451 | the state columns after probes, pulses, operations and the watchdog |
| ControlColumns.WorkerGivesUp | apps/server/src/onboarding/component-control-worker.ts:156-182 | a delivery worker that gives up closes traffic and blocks the component; any other mark touches the dispatch alone |
| ControlColumns.LifecycleMoves | apps/server/src/domain/component.ts:697-2045 | the lifecycle moves only along its edges: to ACTIVE by a proven enable command, from ACTIVE by a disable command, and by the actions that name the others |
| ControlColumns.LifecycleActionLeaves | apps/server/src/domain/component.ts:2003-2045 | an action off its edges changes nothing, any other leaves a closed component in its states |
| ControlColumns.EpochCountsStateChanges | apps/server/src/migrations/007_watchdog_health_transition_policy_epoch.sql:5-19 | how far each transaction moves the epoch: once for a request, a toggle or a change of state, twice for a disable request, never for a health transition |
| ControlEvidence.OpensExactlyOnCompleteEvidence | apps/server/src/domain/component.ts:673-733 | closed traffic opens exactly at an accepted callback that supplies the last missing evidence of a non-probe enable dispatch, or at another component's observation that names one whose evidence is complete |
| ControlEvidence.OpenTrafficIsEvidenced | apps/server/src/domain/component.ts:673-733 | in every run, re-enables and foreign observations included, open traffic means that one enable request was filed, acknowledged, confirmed and met in its challenge |
| ControlEvidence.LastOfThreeOpensTraffic | apps/server/src/domain/component.ts:1327-1654 | for one outstanding request, in any order and repetition and among callbacks refused for any reason when they arrive, traffic is open exactly when all three kinds have arrived |
| ControlEvidence.SupersedingRaisesEpoch | apps/server/src/domain/component.ts:1913-1950 | a filed activation request or a permission toggle raises the epoch |
| ControlEvidence.StaleCallbackIsInert | apps/server/src/domain/component.ts:1275-1637 | a callback under another epoch changes no dispatch, query or challenge, no flag and not the epoch; a foreign observation is as inert exactly when it finalizes no command again, or one the component already stands as |
| ControlEvidence.SnapshotIsFenced | apps/server/src/domain/component.ts:1548-1583 | an accepted snapshot implies that nothing superseded its query since the query was filed |
| ControlEvidence.EpochBetween | apps/server/src/domain/component.ts:1868-1950 | along a run the epoch never decreases |
| ControlEvidence.DisableOutrunsItsOwnEpoch | apps/server/src/domain/component.ts:1913-1950 | the query of a disable request is never answered by a snapshot, and an acknowledgement with its own epoch is refused |
| ControlEvidence.HeartbeatOpensForAnyAckedDispatch | apps/server/src/domain/component.ts:1303-1332 | answering a challenge opens traffic exactly when its enable dispatch is acknowledged and confirmed, whatever happened since |
| ControlEvidence.SupersededEnableCanOpenTraffic | apps/server/src/domain/component.ts:1303-1332 | a run in which traffic opens after a later disable request |
| ControlEvidence.RetirementIsNotFinal | apps/server/src/domain/component.ts:697-720 | a run in which a retired component becomes ACTIVE and open again |
| ControlEvidence.ForeignObservationReopensRetired | apps/server/src/domain/component.ts:1514-1518 | a run in which a component is enabled and retired, and another component's observation alone makes it ACTIVE and open again |
| StatePayloads.EnvelopeIsTransparent | apps/server/src/domain/component.ts:315-329 | wrapping a flat payload in an object changes no answer |
| StatePayloads.FlatPayloadConfirms | apps/server/src/domain/component.ts:320-329 | a flat payload confirms a command exactly by its flag, its activation state or its operational state |
| StatePayloads.FirstTextCounts | apps/server/src/domain/component.ts:318-320 | a field counts where it first gives a text |
| StatePayloads.FirstFlagCounts | apps/server/src/domain/component.ts:320 | a flag counts where it is first a boolean |
| StatePayloads.TextTells | apps/server/src/domain/component.ts:318-319 | strings, numbers and booleans give a text, everything else none |
| StatePayloads.TwoEnvelopesHideThePayload | apps/server/src/domain/component.ts:315-329 | nothing two objects deep confirms a command |
| StatePayloads.MixedSignalsConfirmBoth | apps/server/src/domain/component.ts:315-329 | one payload can confirm an enable and a disable command at once |
| StatePayloads.MixedPayloadOpensTraffic | apps/server/src/domain/component.ts:315-333 | a component whose answers say disabled in one field and ACTIVE in another is opened by them |
| StatePayloads.OpenTrafficWasConfirmedByAnObject | apps/server/src/domain/component.ts:315-333 | in every run with the concrete check, open traffic was confirmed by a payload that is an object |
| AutomationRegistry.RegistryTables.ActivateRevision | apps/server/src/domain/browser-automation.ts:323-333 | only a verified revision becomes active; every other active one is superseded, and the automation is disabled |
| AutomationRegistry.RegistryTables.CreateRun | apps/server/src/domain/browser-automation.ts:349-377 | which requests are refused, and the one run that answers to the caller's key |
| AutomationRegistry.AlwaysSound | apps/server/src/domain/browser-automation.ts:226-377 | in every interleaving exactly the active revision is marked ACTIVE, digests are unique, and a caller's key names one run; no run is lost |
| AutomationRegistry.RunsWereAllowed | apps/server/src/domain/browser-automation.ts:359-370 | every run was requested while the automation was enabled and its revision active and verified |
| AutomationRegistry.VerificationIsLastVerdict | apps/server/src/domain/browser-automation.ts:287-317 | a revision is verified exactly when the last verdict on it, given for its own digest, was that it passed |
| AutomationRegistry.RevisionStatusMoves | apps/server/src/domain/browser-automation.ts:307-330 | how the status of a revision moves, and by which action |
| AutomationRegistry.AvailabilityMoves | apps/server/src/domain/browser-automation.ts:323-347 | what each availability comes from, and what each action that sets it brings about |
| AutomationRegistry.CheckTells | apps/server/src/domain/browser-automation.ts:338-342 | a request to enable passes its check exactly when the revision it read is active and verified |
| AutomationRegistry.KeyKeepsItsRun | apps/server/src/domain/browser-automation.ts:365-370 | once a key has its run, asking again creates nothing and finds that run, whatever happened since |
| AutomationRegistry.ActivationDisables | apps/server/src/domain/browser-automation.ts:328-330 | after an activation no run is accepted until a request to enable is written |
| AutomationRegistry.ActiveIsLastActivated | apps/server/src/domain/browser-automation.ts:323-347 | over any run the active revision is that of the last activation that took effect, and a pending request keeps the revision it read |
| AutomationRegistry.CheckedRevisionIsEnabled | apps/server/src/domain/browser-automation.ts:335-347 | whatever happens between check and write, the write enables the automation, and with the checked revision exactly when the last activation since the read, if any, was of it |
| AutomationRegistry.OverrunActivationStaysEnabled | apps/server/src/domain/browser-automation.ts:335-347 | a run in which a revision that nobody checked ends up active and enabled |
| RunQueue.FinalStatus | apps/server/src/domain/browser-automation.ts:85-92 | the status is terminal, and each status has its one cause |
| RunQueue.RunTable.RequestCancel | apps/server/src/domain/browser-automation.ts:388-405 | the row after a cancel request, and which requests are refused |
| RunQueue.RunTable.ClaimRun | apps/server/src/domain/browser-automation.ts:407-430 | which run can be claimed, and its row after the claim |
| RunQueue.RunTable.IsCancelled | apps/server/src/domain/browser-automation.ts:432-435 | a worker is told to stop exactly when it no longer holds the run or the run was cancelled |
| RunQueue.RunTable.RenewLease | apps/server/src/domain/browser-automation.ts:437-440 | only the holder of a running run renews, and only the lease changes |
| RunQueue.RunTable.FinalizeRun | apps/server/src/domain/browser-automation.ts:453-474 | only the holder of a run in flight finalizes it, and the row it leaves |
| RunQueue.AlwaysConsistent | apps/server/src/domain/browser-automation.ts:388-516 | every reachable queue is consistent: rows in flight carry the token of a session on them, a running row has no cancel request |
| RunQueue.FinalizedAtMostOnce | apps/server/src/domain/browser-automation.ts:407-516 | in every interleaving the attempt counter counts the claims, the row's token is the latest claim's, and a run is finalized at most once, ending terminal |
| RunQueue.FinalizedByLatestClaimant | apps/server/src/domain/browser-automation.ts:453-474 | a finalization that takes effect is the latest claimant's |
| RunQueue.FinalizedRunTellsItsError | apps/server/src/domain/browser-automation.ts:85-92 | in every reachable queue the status of a finalized run and its stored error determine each other, and the error is the one its session decided on |
| RunQueue.LastLookDecides | apps/server/src/domain/browser-automation.ts:432-500 | a session keeps its outcome exactly while it holds the run and nobody asked to cancel it |
| RunQueue.ClaimTakesExactly | apps/server/src/domain/browser-automation.ts:407-430 | a run is taken exactly when it is queued, or running under a lease that has run out |
| RunQueue.AbandonedRunIsTakenOver | apps/server/src/domain/browser-automation.ts:407-430 | a run whose holder has stopped is taken over exactly when its lease has run out |
| RunQueue.SupersededWorkerIsHarmless | apps/server/src/domain/browser-automation.ts:432-516 | a step of a worker whose token left the row changes no run, whatever it concludes |
| RunQueue.SupersededForGood | apps/server/src/domain/browser-automation.ts:407-516 | a token that has left its row never returns to it, along any run |
| RunQueue.SupersededWorkerStaysHarmless | apps/server/src/domain/browser-automation.ts:432-516 | so nothing a superseded worker ever does later changes a run |
| RunQueue.LeaseProtectsItsHolder | apps/server/src/domain/browser-automation.ts:407-440 | until the lease runs out nobody takes a run over from its holder |
| RunQueue.ClaimAndRenewalGrantTheLease | apps/server/src/domain/browser-automation.ts:420-440 | a claim or a renewal gives its holder the whole lease from now |
| RunQueue.TerminalIsAbsorbing | apps/server/src/domain/browser-automation.ts:388-474 | a terminal run never changes again |
| RunQueue.CancelledInQueueIsNeverClaimed | apps/server/src/domain/browser-automation.ts:388-430 | a run cancelled while queued stays CANCELLED and is never claimed |
| RunQueue.CancelRequestedIsLeftByItsHolder | apps/server/src/domain/browser-automation.ts:407-474 | CANCEL_REQUESTED is never claimed, and is left exactly by its holder's finalization |
| RunQueue.CrashedHolderLeavesCancelRequested | apps/server/src/domain/browser-automation.ts:407-474 | without that finalization the run stays in CANCEL_REQUESTED for good |
| RunQueue.EarlyCancelEndsInCancelled | apps/server/src/domain/browser-automation.ts:476-516 | a cancel request before the holder's last look can only end in CANCELLED |
| RunQueue.LateCancelIsLost | apps/server/src/domain/browser-automation.ts:476-516 | one after that look does not change the outcome: the run ends in the status of the error decided before |
| ArchiveOutbox.Outbox.ArchivePending | apps/server/src/domain/audit-archive.ts:10-54 | after an undisturbed pass the bytes of the batch are appended and its rows archived, or some initial part of them is and the rows are handed back with their backoff; nothing else changed |
| JsonRecords.NoRecordIsGlued | apps/server/src/domain/audit-archive.ts:33-35 | no record reads like a torn or whole line with an initial part of another record after it |
| ArchiveFile.AppendAddsOneCopy | apps/server/src/domain/audit-archive.ts:33-36 | wherever an append is cut, it adds at most one line that reads like a given record, and none for an event outside the batch |
| ArchiveFile.RecordBecomesALine | apps/server/src/domain/audit-archive.ts:33-36 | a record becomes a line of its own exactly when it is not the first of its batch, or the file was empty or ended in a line feed |
| ArchiveOutbox.AlwaysConsistent | apps/server/src/domain/audit-archive.ts:10-54 | every reachable outbox is consistent: leases and open appends, and lines of the file whether torn at any byte or not, account for every attempt |
| ArchiveOutbox.ArchivedAtLeastOnceAndBounded | apps/server/src/domain/audit-archive.ts:10-54 | an archived row's record stands in the file at the place where a completed append of the very lease that archived the row wrote it, and lines that read like it never exceed the row's attempts, across expired leases and crashes at any byte |
| ArchiveOutbox.WithoutTearsRecordsAreLines | apps/server/src/domain/audit-archive.ts:10-54 | as long as no append is torn, the record of every archived row is a line of the file |
| ArchiveOutbox.TornAppendHidesTheNextRecord | apps/server/src/domain/audit-archive.ts:33-40 | after a torn append the next row is archived although no line of the file is its record |
| ArchiveOutbox.TornAppendIsReachable | apps/server/src/domain/audit-archive.ts:33-40 | a crash in the very first append leads to such a file |
| ArchiveOutbox.ArchivedIsAbsorbing | apps/server/src/domain/audit-archive.ts:34-52 | however a run goes on, its archived rows never change and its file only grows |
| ArchiveOutbox.OnlyTheCurrentLeaseDecides | apps/server/src/domain/audit-archive.ts:13-52 | a leased row changes only by its own lease's mark or a claim after expiry |
| ArchiveOutbox.WaitsDouble | apps/server/src/domain/audit-archive.ts:42-47 | a row handed back waits ten seconds after its first failed attempt, twice as long after each further one, and an hour from the tenth on |
| ArchiveOutbox.ClaimTakesExactly | apps/server/src/domain/audit-archive.ts:13-28 | a row is claimed, for two minutes, exactly when its wait is over and it is pending or its lease has run out |
| JsonTexts.OrderedPrintsCanonically | apps/server/src/domain/audit-archive.ts:33-35 | a value whose members are in order is printed as canonical JSON prints it |
| JsonTexts.RecordPrintsCanonically | apps/server/src/domain/audit-archive.ts:33-35 | a record of the archive is a canonical text when its payload is in order |
| JsonTexts.RecordNames | apps/server/src/domain/audit-archive.ts:34 | the names in a record |
| SseReader.ReadChunks | apps/server/src/cli/ssot-production-acceptance.ts:168-184 | for every way of cutting the text into chunks the loop yields the events and leftover of the whole text |
| SseReader.ParseBlock | apps/server/src/cli/ssot-production-acceptance.ts:193-206 | the loop over the lines computes the block's fields: the last id and type, all data lines in order |
| SseBlocks.BlockTells | apps/server/src/cli/ssot-production-acceptance.ts:193-206 | a block is no event exactly without data lines, invalid exactly when its data is no JSON, and otherwise has the last id, the last type and all data |
| SseBlocks.StreamTells | apps/server/src/cli/ssot-production-acceptance.ts:173-190 | a stream is rejected exactly when one of its blocks is invalid, and yields the events of its blocks in order otherwise |
| SseBlocks.LinesTell | apps/server/src/cli/ssot-production-acceptance.ts:197 | a carriage return before a line feed does not count, and what follows the last line feed is a line |
| SseReader.SplitContinues | apps/server/src/cli/ssot-production-acceptance.ts:170-184 | splitting goes on with the leftover and the next chunk as if the text had never been cut |
| SseReader.SplitIsLossless | apps/server/src/cli/ssot-production-acceptance.ts:173-181 | blocks and leftover make up the text again, and none of them contains a blank line |
| SseReader.CrLfStreamsYieldNothing | apps/server/src/cli/ssot-production-acceptance.ts:173-181 | a text whose line feeds all follow a carriage return never completes a block |
| SseFrames.SentBlockParses | apps/server/src/http/generation-routes.ts:153 | a block the server writes parses to the event that was sent |
| SseFrames.FrameIs | apps/server/src/http/generation-routes.ts:153 | the text written for an event: its id line if it has an id, its type, its envelope, a blank line |
| SseFrames.LinesAre | apps/server/src/http/generation-routes.ts:153 | the names of the fields that are written |
| SseFrames.WrittenStreamReadsBack | apps/server/src/http/generation-routes.ts:153-162 | what the server writes is what the reader reads, with nothing left over |
| SseFrames.BrokenStreamYieldsAPrefix | apps/server/src/cli/ssot-production-acceptance.ts:157-191 | a stream broken off anywhere yields the first of the events sent, and accounts for the rest of the text |
| Layout.Place | apps/admin-ui/src/dashboard-page.tsx:99-116 | the loops terminate, each placed node pushing at most once, in the least free slot at or below the start |
| Layout.PushPasses | apps/admin-ui/src/dashboard-page.tsx:102-115 | a push takes its box off the number of boxes that can still push |
| Layout.CollisionFreeNodes | apps/admin-ui/src/dashboard-page.tsx:95-121 | each node keeps its id and clamped x and lands in the least slot free of all nodes placed before it |
| Layout.LayoutIsCollisionFree | apps/admin-ui/src/dashboard-page.tsx:95-121 | the ids are kept, every pair is separated by the gap on some axis, and all nodes are inside the margin |
| Layout.LayoutIsCompact | apps/admin-ui/src/dashboard-page.tsx:99-118 | the k-th placed node is at most k rows below the largest clamped start |
| Layout.SortIsInOrder | apps/admin-ui/src/dashboard-page.tsx:97 | the sort is in the order of the comparator |
| Layout.TakenTopToBottom | apps/admin-ui/src/dashboard-page.tsx:97 | nodes are taken from top to bottom, at one height from left to right, at one place by id |
| Layout.NodesOnlyMoveDown | apps/admin-ui/src/dashboard-page.tsx:99-118 | every node keeps its x and none moves up, but for the margin |
| Layout.LayoutIsUnique | apps/admin-ui/src/dashboard-page.tsx:95-121 | the specification of a layout has one solution |
| Layout.LayoutIgnoresInputOrder | apps/admin-ui/src/dashboard-page.tsx:95-121 | the order in which nodes are handed over does not show in the layout |
| Layout.LayoutIsIdempotent | apps/admin-ui/src/dashboard-page.tsx:95-121 | laying out an already separated layout moves nothing |
| Layout.SecondLayoutMovesNothing | apps/admin-ui/src/dashboard-page.tsx:95-121 | a layout is itself separated, so a second one moves nothing |
| MigrationNames.ValidateMigrationNames | apps/server/src/cli/migrate.ts:25-40 | the loops compute the validated list, or the first invalid name, or the first misplaced number |
| MigrationNames.AcceptedExactlyWhenNumberedFromOne | apps/server/src/cli/migrate.ts:25-40 | a directory is accepted exactly when its candidates are well named and numbered 1 to n, and the result lists each in its place |
| MigrationNames.NumberedNameReadsBack | apps/server/src/cli/migrate.ts:25-36 | the name of every numbered migration is accepted and its number read back |
| MigrationNames.AcceptedNameIsNumbered | apps/server/src/cli/migrate.ts:25-36 | nothing else is accepted: a well-named file is three digits, an underscore, a slug and the extension |
| MigrationNames.RejectionTells | apps/server/src/cli/migrate.ts:31-38 | a refusal names the first ill-named candidate, or the first number out of place |
| MigrationNames.DirectoryOrderIsIrrelevant | apps/server/src/cli/migrate.ts:25-40 | the order of the directory listing affects neither acceptance nor the result |
| MigrationLedger.AcceptedDirectoryLoads | apps/server/src/cli/migrate.ts:57-68 | what an accepted directory loads to: distinct names, the baseline first, checksums that are never empty |
| MigrationLedger.ShouldCompactAppliedSet | apps/server/src/cli/migrate.ts:42-55 | the loop over the rows gives one of the admissible answers |
| MigrationLedger.DecisionIsSettledUnlessMixed | apps/server/src/cli/migrate.ts:48-55 | whether to compact or to refuse is left to the row order exactly when a retired and an unknown name stand beside the baseline |
| MigrationLedger.ValidateAppliedSet | apps/server/src/cli/migrate.ts:78-87 | silence means that every row fits its file, and an error is a true complaint about some row |
| MigrationLedger.ComplaintTells | apps/server/src/cli/migrate.ts:78-87 | what each complaint says of a row and its file, and that a row without one records its file |
| MigrationLedger.Database.CompactLegacyLedger | apps/server/src/cli/migrate.ts:120-130 | when the preconditions hold the ledger becomes the directory and nothing is executed; otherwise nothing changes |
| MigrationLedger.Database.ApplyPending | apps/server/src/cli/migrate.ts:200-223 | the loop executes and records exactly the unrecorded migrations in order, or an initial part of them when it is interrupted |
| MigrationLedger.Database.RunMigrations | apps/server/src/cli/migrate.ts:182-223 | a run follows one admissible compaction decision and then the loop, cut short wherever the process dies; every refusal leaves the database as it was |
| MigrationLedger.SuccessMeansLedgerIsDirectory | apps/server/src/cli/migrate.ts:182-223 | after success the ledger holds the directory's names, sequences and checksums, from any ledger before |
| MigrationLedger.RunExtendsPrefix | apps/server/src/cli/migrate.ts:182-223 | a run over a database that holds a prefix of the directory leaves exactly the prefix that its life lets it reach, and fails exactly when it does not survive or the directory lacks the baseline |
| MigrationLedger.FreshHistoryIsAPrefix | apps/server/src/cli/migrate.ts:182-223 | from an empty ledger, across crashes, restarts and appended files, what has run is a prefix of the directory, each file once |
| MigrationLedger.SecondRunDoesNothing | apps/server/src/cli/migrate.ts:182-223 | over an up-to-date database a run changes nothing, and succeeds exactly when it survives |
| MigrationLedger.ChangedFileStopsTheRun | apps/server/src/cli/migrate.ts:78-87 | a recorded row that does not fit its file, or has none, stops every run before anything is written exactly when the run cannot compact: no baseline in the directory, an earlier death, unmet compaction preconditions, or a ledger that does not call for compaction |
| MigrationLedger.RecordsUnexecutedExactlyWhenCompacting | apps/server/src/cli/migrate.ts:42-55 | a successful run records a file it does not execute exactly when it compacted and the ledger lacked a directory name; it may compact exactly when the ledger lacks the baseline or holds a retired name outside the directory |
| MigrationLedger.CompactionRecordsWithoutExecuting | apps/server/src/cli/migrate.ts:120-130 | a successful run that compacts leaves the directory in the ledger and executes nothing, and every later run changes nothing |
| PermissionRequests.NormalForm | apps/server/src/domain/auth.ts:14-16 | the normal form lists the trimmed non-empty names in ascending order, each once |
| PermissionRequests.NormalFormForgetsOrder | apps/server/src/domain/auth.ts:14-16 | order, repetition and surrounding space of the names do not matter |
| PermissionRequests.SameStringSetIsSetEquality | apps/server/src/domain/auth.ts:18-20 | on normalised lists the positional comparison is set equality |
| PermissionRequests.RequestedExactlyWhenAgreeing | apps/server/src/domain/auth.ts:367-375 | a request stands exactly when entries for one service agree, and then maps each named service to its entry |
| PermissionRequests.DiffPartitionsTouched | apps/server/src/domain/auth.ts:382-395 | added, changed, unchanged and removed divide the touched services, each service once |
| PermissionRequests.DiffIsClassified | apps/server/src/domain/auth.ts:388-395 | each list holds exactly the kind of change it is named for |
| PermissionRequests.DiffTurnsPreviousIntoRequest | apps/server/src/domain/auth.ts:381-395 | applying the difference to the previous grants gives the requested ones |
| Permissions.PermissionTable.LoadPrevious | apps/server/src/domain/auth.ts:353-366 | the previous grants are, per service as the database spells it, the normalised names of its live scopes |
| Permissions.PermissionTable.CheckServices | apps/server/src/domain/auth.ts:376-380 | comparing counts raises no error exactly when every text denotes a known service and no two denote one; a text that is no UUID is an error of its own |
| Permissions.PermissionTable.ReplaceService | apps/server/src/domain/auth.ts:396-435 | a requested spelling whose scopes are all open has the rows of the service it denotes rewritten; otherwise nothing changes |
| Permissions.PermissionTable.ReplaceManagedServicePermissions | apps/server/src/domain/auth.ts:340-448 | every refusal in its order and with no change, and otherwise the previous grants, the difference over texts, and every new row over services |
| Permissions.RefusalTells | apps/server/src/domain/auth.ts:340-405 | which refusal answers a request, said of its entries, and that none does exactly when all entries fit |
| PermissionEffects.LiveGrantsAreTheRequest | apps/server/src/domain/auth.ts:353-436 | afterwards the live grants of the credential are the normalised request, if and only if no requested spelling of a service with live grants sorts before the stored one |
| PermissionEffects.LiveGrantsAre | apps/server/src/domain/auth.ts:353-436 | a grant is live afterwards exactly when it was asked for under a spelling that no stored one overtakes |
| PermissionEffects.OvertakenRequestLosesItsGrants | apps/server/src/domain/auth.ts:376-436 | a replacement under one overtaken spelling leaves the service without a live grant, and reports it as added and removed |
| PermissionEffects.UpperCaseRequestIsOvertaken | apps/server/src/domain/auth.ts:353-436 | a credential that holds a scope and asks for it again, its service spelled with any upper-case letter, is not refused and ends without the scope |
| PermissionEffects.UpperCaseInstance | apps/server/src/domain/auth.ts:353-436 | a cast and a request for which it happens |
| PermissionEffects.HistoryIsKept | apps/server/src/domain/auth.ts:410-434 | no row disappears, versions only grow, other credentials keep their rows |
| PermissionEffects.TouchedRowMovesOn | apps/server/src/domain/auth.ts:410-434 | the row of a service touched under one spelling: versions count every revocation and every grant, from zero |
| PermissionEffects.KeptServicesAreRewritten | apps/server/src/domain/auth.ts:410-434 | a live row that is requested again as it is spelled moves on by two versions |
| PermissionEffects.ListMayShowRevokedScopes | apps/server/src/domain/auth.ts:310-330 | the list shows more than the request exactly for standing rows of untouched services, all with revoked scopes |
| PermissionEffects.RequestReadsBack | apps/server/src/domain/auth.ts:353-436 | what the next replacement reads as previous grants of a requested service is the request, or nothing if its spelling was overtaken |
| PermissionEffects.SecondRequestIsAllKept | apps/server/src/domain/auth.ts:381-395 | the same request twice in a row reports no difference exactly when it is spelled as stored |
| Discussion.ReduceDiscussionEvent | apps/admin-ui/src/generation-page.tsx:64-89 | the branches compute the fold of the named message, then the stable sort |
| Discussion.ReducedLookup | apps/admin-ui/src/generation-page.tsx:64-89 | an event changes the message it names as that message alone would change, and no other; ids stay unique |
| Discussion.MessagesFoldTheirOwnEvents | apps/admin-ui/src/generation-page.tsx:64-89 | after any log each message is the fold of its own events only, each taken once |
| DiscussionLog.MessagesAreTold | apps/admin-ui/src/generation-page.tsx:64-89 | after any log a message says the text its last ending event brought, or its first one, and all deltas since; its status is that of its last delta or ending event; the rest is from the event that opened it |
| DiscussionLog.RequestsFollowTheRecords | apps/admin-ui/src/generation-page.tsx:176-181 | each new specification revision starts one load of the specification and each job change one of the jobs, however often events are delivered again |
| Discussion.SortingOnceIsEnough | apps/admin-ui/src/generation-page.tsx:88 | the list is the stable sort of the messages in the order of their first appearance |
| Discussion.SortIsStable | apps/admin-ui/src/generation-page.tsx:88 | messages of one sequence number keep their order |
| Discussion.DiscussionView.HandleEvent | apps/admin-ui/src/generation-page.tsx:166-182 | the filter, the cursor, the list and the requests started after each event |
| Discussion.DiscussionView.LoadSnapshot | apps/admin-ui/src/generation-page.tsx:145-157 | a snapshot replaces the list and never lowers the cursor |
| Discussion.DeliveriesFoldTheirRecords | apps/admin-ui/src/generation-page.tsx:166-181 | whatever is delivered in whatever order, the events beyond everything before them are folded, each once |
| Discussion.RecordsAreThePrefix | apps/admin-ui/src/generation-page.tsx:166-181 | these make up the whole reached part of the log exactly when no delivery skipped an event |
| Discussion.ReplayedStreamFoldsThePrefix | apps/admin-ui/src/generation-page.tsx:166-181 | replayed from earlier points without gaps, every message is the fold of its own events of the seen prefix, each once |
| Discussion.UnnumberedDeltaIsDoubled | apps/admin-ui/src/generation-page.tsx:170-172 | a delta without an event id is appended at every delivery |
| Discussion.IdlessFramesAreDropped | apps/server/src/http/generation-routes.ts:158 | once a connection brought a numbered event first, its view, messages, cursor and started requests are those of its numbered frames alone |
| Discussion.ResyncIsHeardOnlyFirst | apps/server/src/http/generation-routes.ts:158 | a request to resynchronise starts one exactly when no numbered frame came before it on its connection, and otherwise changes nothing |
| Discussion.OldSnapshotLosesEvents | apps/admin-ui/src/generation-page.tsx:173-175 | only events beyond the cursor are folded onto a snapshot, however old it is |

## Left out

- AuditStreams.AuditStream.Ingest: the choice of fields in `canonicalAuditPayload` is not modelled; an event carries its canonical payload as a well-formed JSON value.
- AuditStreams.EventHashBinds: SHA-256 is a parameter, a function of the UTF-8 bytes, and collision freedom is the hypothesis `Injective(hash)`.
- CanonicalJson.ParseInvertsCanon: numbers are integers printed without an exponent; fractions and magnitudes from 10^21 on, and `undefined`, are not modelled.
- ControlPlane.ControlTables.SetActivation: the readiness gates, approval, contiguity and recertification are given truth values; the control contract and its request body are not modelled.
- ControlPlane.ControlTables.RecordAck: schema and identity checks are given truth values, as they are for the other callbacks; JSON Schema validation and the digests of request bodies are not modelled.
- ControlPlane.ControlTables.RecordSnapshot: rows of queries and challenges are filed under their dispatch, of which each has at most one; nonces stand for their digests, and expiry times, which no callback checks, are not modelled.
- ControlPlane.ControlTables.ChangeLifecycle: principal status, token revocation and the audit log are not modelled.
- ControlPlane.NextKeepsSound: the rows are those of one component, and an observation of another one enters as a step of its own; pulses, probes and operations enter with their outcome alone. Delivery workers may set a dispatch to any state that they can write; when they retry and when they give up is not modelled. Permission toggles bump the epoch of this component only, and an unknown permission is no step.
- StatePayloads.MixedPayloadOpensTraffic: field names, constants and `toUpperCase` are parameters with the properties the proof needs; the members of an object come in a given order.
- AutomationRegistry.RegistryTables.CreateRun: the caller's authorization and the input of a run are not modelled; a key found again answers its run whatever the new input is.
- RunQueue.RunTable.ClaimRun: the locking query that picks a candidate is a parameter, so any claimable run may be picked; steps, artifacts and evidence files are not modelled.
- ArchiveOutbox.Outbox.ArchivePending: the batch that the claiming query returns is a parameter, without repetitions, and so is redaction; numbers in a record are integers, and the members of an object are printed in their given order. Appends do not mix byte by byte with each other.
- SseReader.ReadChunks: chunks are decoded text; UTF-8 decoding, `JSON.parse` and `Number` are parameters, and timeouts are modelled only as a stream that breaks off.
- SseFrames.WrittenStreamReadsBack: the envelope is a given one-line JSON text that `JSON.parse` accepts.
- Layout.CollisionFreeNodes: coordinates are real numbers, and an id is its collation rank.
- MigrationNames.ValidateMigrationNames: ties between equal sequence numbers keep the order of the listing; they occur only in rejected directories.
- MigrationLedger.Database.RunMigrations: one run at a time, as the advisory lock makes it; the SQL of a migration is opaque, the compaction preconditions are one truth value, and the release epoch row is not modelled.
- Permissions.PermissionTable.ReplaceManagedServicePermissions: the cast from text to UUID is a parameter that maps every stored spelling to itself; a permission row is filed under credential, service and scope name, with the credential as the database spells it; validity windows, epoch identifiers and the audit record are not modelled.
- Discussion.DiscussionView.HandleEvent: the requests it starts are recorded, their answers other than the snapshot are not modelled; event ids are numbers, and 0 stands for a missing or unreadable one.
- SQL text, locking and isolation levels: a transaction is one atomic step over explicit rows.
- Manifest validation, browser execution, Secret Manager, network transports, HTTP routes, schedulers and the user interface.
- `replaceKajaPermissions`: the same update with a single access level, which would only repeat easier members.
- Writers of the component row outside the modelled files, such as generated components and topology updates.
