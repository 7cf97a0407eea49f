# oc-relay: a verified model of its core

oc-relay is an agent that runs inside a customer's cluster. It holds one stream to a control
plane, runs the jobs it is assigned, mirrors an inventory of the cluster, and passes every
result through a redaction engine before it leaves. This project models the parts where state,
interleaving and recursion make the code hard to trust by reading, and proves what they promise.

**The session** (`SessionState`, `SessionProtocol`, `SessionInvariants`, `SessionTheorems`,
`SessionRoster`, `SessionIntake`, `SessionSpeech`, `SessionSignals`, `Session`). Connections come and go while workers go on executing. The protocol
is a state machine whose steps are the critical sections of the receive loop, the workers and the
resend loop; a run is any interleaving of them over any number of connections. The classes refine
the same functions the machine is built from. The main results are an exact slot ledger, retention
until acknowledgement, one execution per connection, where every worker comes from and what it
says, exactly who is told to stop, cancelled results only where a cancellation was asked for, the
order of CancelAck and result on the wire, and exactly what the roster lists.

**The inventory** (`Snapshots`, `Diffs`, `Replay`, `Readers`, `Scopes`, `Collecting`,
`Observations`, `SyncRuns`, `SyncTheorems`, `MirrorTheorems`, `Rounds`, `OneInstant`, `Recovery`,
`FullScope`, `Watching`, `Resends`, `Synchronizer`). A tick reads the cluster between two critical sections, while policies and
acknowledgements come in. A reader replays every message it is sent and starts over at the first
message of a marked group. Over every such run it ends with the stored snapshot: its revisions
always, and its fields when the digest does not collide on what the cluster showed and values are
short enough not to be clipped. What is queued and not acknowledged is resent, all of it and in
order. An overflow is repaired by exactly the ticks whose baseline fits.

**Redaction** (`Masking`, `MaskedText`, `MarkerNames`, `Trees`, `Sweeping`, `Redaction`,
`Occurrences`, `SweepObjects`, `Reachability`, `FreeText`, `Enforcement`, `FieldPaths`, `PathTheorems`, `Exclusions`,
`PolicyFile`, `PolicyNames`). Masking region by region is proved equal to a reference that asks the claims about
every position. The in-place sweep of a message tree is proved equal to a map over its strings, with
an exact fault condition and an exact report. The visited-set search is proved equal to
reachability, the enumeration of field names is proved complete for exactly the schemas for which
it is, and excluding a name is proved to change what leaves for exactly the names for which it does.

**Log bounding** (`LogBounds`). The longest end of the log that fits both bounds, every byte
accounted for, and an exact reading of "complete": for a log without blank lines, the whole log.

`Ordering` and `Wrappers` hold the orders, sorts, folds and wrappers the others share.

## How things are represented

- A string is a sequence of bytes, one character each. Times and durations are integers.
- Library calls are function-valued parameters: the digest, a compiled pattern (a function from
  a text to the in-bounds places it matches, which may be empty), trimming space, reading a
  duration, splitting a timestamp, capping a line. Random identifiers are a sequence of values
  never used before.
- What the cluster answers, what the control plane sends and what a capability returns are
  arbitrary inputs.
- A protobuf message is an object with its descriptor's fields in order; a single field holds one
  value or none. `Tree` is its value. What leaves (`Sent`) is the swept tree with the report's field
  emptied, and the report that now stands in that field.
- A container's log is the lines written and whether the last one was ended (`Output`).
- Two ticks of one scope that land are observed at different instants (`ClockMoves`) wherever a
  theorem says so; the others hold for any clock.
- 32-bit tallies wrap explicitly (`Sweeping.Add32`), and are proved never to.

## Where the code and what is said of it differ

- A job re-admitted on a new connection while the old connection's worker still runs leaves a
  worker executing that the roster does not name (`ReadmissionHidesAWorker`). A worker that has not
  cleared itself goes unnamed if and only if the job's newest worker has another epoch or another
  worker of the job has cleared the entry since that one was admitted (`RosterMissesWorkerIff`, from
  the exact contents of the roster, `ListedIff`). Once both results are retained under one identifier, a slot
  is held that no acknowledgement ever frees (`ReadmissionLeaksASlot`, `OverwrittenSlotsAreLost`).
  Slots are all given back exactly when no result was retained over an unacknowledged one
  (`IdleIsEmptyIffNothingCollided`), and `CleanRunsBalance` covers every run without such a
  re-admission.
- A region's rules are described as standing in policy order, the first naming the marker
  (internal/redaction/rule.go:49-51). They stand in merge order. `MarkerNeedNotNamePolicyFirst`
  gives an input, and `MarkerNamesPolicyFirstIff` says when the two agree.
- The path enumeration guards against cycles rather than limiting depth so as to keep covering a
  recursive message should one appear (internal/redaction/paths.go:54-57). It does not cover one
  either: `RecursiveMessageIsMissed`, and `CompleteIff` for the exact condition.
- A cleared queue is said to be made good by the next baseline (internal/inventory/sync.go:42-45).
  A baseline owed, for an overflow or for a boundary that moved, is settled by the tick that lands
  if and only if it fits beside what is still queued (`DebtIsPaidIffItFits`, `LandingSettlesIff`),
  which after an overflow is at most 32768 objects
  (`WhatFitsAnEmptyQueue`). Up to thirteen namespaces always recover
  (`ThirteenNamespacesAlwaysRecover`). Fourteen within every limit can be too large
  (`FourteenNamespacesCanBeTooLarge`), and from the start there is a run of such a scope into a debt
  it never gets out of while they stay full (`FourteenNamespacesNeverRecover`).
- A baseline's parts are told from the next baseline's by the mark and the observation time alone
  (internal/inventory/sync.go:387-389). Two baselines observed at one instant read as one: a policy
  that moves the boundary between two ticks gives a run in which every reader ends wrong
  (`OneInstantMergesBaselines`). `MirrorAgreesIff` says exactly when a reader agrees whatever the
  clock does.
- An unknown name is refused so that no policy masks nothing while its author believes otherwise
  (internal/redaction/parse.go:130-132). The names under the result's own report are known, and
  excluding one masks nothing: the sweep overwrites the report (internal/redaction/sweep.go:31-32).
  Excluding a name changes what leaves, for some result that arrives without a report, if and only
  if the name does not lie under the report's field (`ExclusionMattersIff`).
  `redaction.fields.field_name` is accepted and lies there (`ReportNameIsAccepted`). Only a result
  that arrives with a report shows any trace of it, such as a count in the new one
  (`ReplacedReportIsCounted`).
- The absolute fetch ceiling for logs is never reached: four times the largest byte bound is a
  quarter of it (`FetchCeiling`).

## Model

| member | source | states |
|---|---|---|
| `SessionTheorems.SlotLedger` | internal/session/connection.go:246-322 | in every reachable state held slots are exactly live workers, retained results, overwritten results and a release in progress, and live plus retained never exceed capacity |
| `SessionTheorems.ReleaseFreesExactlyOne` | internal/session/session.go:111-116 | a release never finds the semaphore empty and frees exactly one slot, changing nothing else that survives a reconnect |
| `SessionTheorems.CleanRunsBalance` | internal/session/connection.go:246-322 | in every run without cross-connection re-admission of a live job the ledger has no leak and the roster names every worker still executing, under its epoch |
| `SessionTheorems.OverwrittenSlotsAreLost` | internal/session/unacked.go:26-30 | a slot whose result was overwritten stays held whatever happens later |
| `SessionTheorems.IdleIsEmptyIffNothingCollided` | internal/session/connection.go:118-165 | an idle session has every slot back if and only if no result was retained over an unacknowledged one |
| `SessionTheorems.ReadmissionHidesAWorker` | internal/session/session.go:127-147 | a reachable state where a worker is executing on the live connection and no roster entry names its job |
| `SessionTheorems.ReadmissionLeaksASlot` | internal/session/connection.go:298-322 | a reachable idle state with nothing retained and one slot held |
| `SessionTheorems.DrainedMeansNothingOutstanding` | internal/session/connection.go:190-222 | zero held slots is equivalent to no live worker, no retained result and no lost slot |
| `SessionTheorems.DrainingOnlyShrinks` | internal/session/connection.go:246-260 | while a connection drains, held slots never rise and no worker is added, over every run up to the next connection |
| `SessionTheorems.RetainedUntilAcked` | internal/session/unacked.go:26-42 | over any run and any reconnects a retained result stays until a ResultAck names its job, and changes only if a later one is retained |
| `SessionTheorems.ExecutedOncePerGeneration` | internal/session/connection.go:246-322 | a job is admitted on a connection only when every earlier worker of that connection for it is gone and abandoned or acknowledged |
| `SessionTheorems.OneWorkerPerJob` | internal/session/connection.go:475-537 | within one connection a job has at most one worker that is not gone |
| `SessionIntake.AssignedIff` | internal/session/connection.go:246-300 | over the state machine: an assignment this session may run adds one worker, registers it, takes one slot and enters the roster; any other adds one message to the log, the one its case calls for, and changes nothing |
| `SessionIntake.EveryWorkerWasAssigned` | internal/session/connection.go:246-300 | every worker of every run was brought by an assignment of this organisation, registration and a declared capability, at a moment when the session was not draining, had a slot free and held neither a registration nor a result for the job |
| `SessionIntake.DrainSheds` | internal/session/connection.go:246-260 | from a drain instruction on, whatever happens until the next connection, every assignment is shed and changes nothing |
| `SessionIntake.PassResendsEverything` | internal/session/connection.go:363-390 | a pass of the resend loop that is not refused anything has, when it is over, had every result accepted that was retained when it began |
| `SessionSpeech.WorkerSpeaksInOrder` | internal/session/connection.go:298-322 | in every reachable state a worker has reported on its own connection, and nowhere else, first JobAck and then JobStarted, each once and only as far as it got; and none that kept its result leaves without having offered it there |
| `SessionSpeech.ResultsAreTheirWorkers` | internal/session/connection.go:298-322 | every result offered on any connection, first or again, is the unaltered result of the worker it came from, which did not abandon it, and on that worker's connection follows its JobStarted |
| `SessionSpeech.OutcomeWasReturned` | internal/session/connection.go:298-322 | the outcome of a worker past execution is one its execution returned in the run |
| `SessionSignals.SignalledIff` | internal/session/connection.go:488-537 | in every reachable state a worker's context is cancelled if and only if its connection has ended, the worker has left, or the control plane cancelled its job |
| `SessionSignals.CancellationReaches` | internal/session/connection.go:515-522 | cancelling a registered job marks it and signals its worker's context and no other; cancelling an unregistered one touches nothing |
| `SessionSignals.CancellationIsAnswered` | internal/session/connection.go:172-185 | whatever workers and the resend loop do meanwhile, a cancellation is answered under its own job and epoch, by whether a result of the job was retained when it came in, and only then takes effect |
| `SessionTheorems.RosterIsSound` | internal/session/session.go:127-147 | every roster entry names a worker, of whatever connection, that has not cleared itself, under its epoch |
| `SessionRoster.ListedIff` | internal/session/session.go:127-147 | in every reachable state the roster lists a job under an epoch if and only if that is the epoch of its newest worker and no worker of the job has cleared the entry since that one was admitted |
| `SessionRoster.RosterMissesWorkerIff` | internal/session/session.go:127-147 | a worker that has not cleared itself is missing from the roster if and only if the newest worker of its job has another epoch or another worker of the job cleared the entry since the newest was admitted |
| `SessionTheorems.MarkedWhileRegistered` | internal/session/connection.go:515-528 | an explicit mark on a registered job was put there by a cancellation handled while that worker was registered |
| `SessionTheorems.CancelledResultsWereAskedFor` | internal/session/connection.go:301-322 | a cancelled result is kept only if its job was cancelled on the same connection while its worker was registered |
| `SessionTheorems.CancelAckGoesFirst` | internal/session/connection.go:172-185 | whenever a cancelled result is offered on its worker's connection, a CancelAck for the job was offered there since that worker was admitted, and every such ack, if both are accepted, is earlier on the wire |
| `SessionTheorems.WirePosition` | internal/session/sender.go:34-57 | an accepted message stands on the wire after exactly the accepted messages offered before it |
| `SessionInvariants.StepKeepsInv` | internal/session/connection.go:118-390 | every step of receive loop, worker and resend loop, which offers a snapshot of the buffer that acknowledgements may overtake, keeps the ledger, the registrations, the marks, the buffer, the logs and the roster invariants |
| `SessionInvariants.RunKeepsInv` | internal/session/run.go:19-68 | so does every run over any number of connections |
| `SessionObjects.Unacked.Add` | internal/session/unacked.go:26-30 | the buffer afterwards is the old one with this result under its job |
| `SessionObjects.Unacked.Ack` | internal/session/unacked.go:34-42 | removes exactly this job and reports whether it was there |
| `SessionObjects.Unacked.Pending` | internal/session/unacked.go:45-53 | every retained result exactly once |
| `SessionObjects.JobRegistry.Add` | internal/session/connection.go:488-494 | registers the job's context and touches nothing else |
| `SessionObjects.JobRegistry.Remove` | internal/session/connection.go:503-511 | unregisters the job, releases its context and clears its explicit mark |
| `SessionObjects.JobRegistry.Cancel` | internal/session/connection.go:515-522 | marks and signals a registered job, and does nothing for an unknown one |
| `SessionObjects.JobRegistry.CancelAll` | internal/session/connection.go:530-537 | signals every registered job and marks none |
| `SessionObjects.Sender.Enqueue` | internal/session/sender.go:34-41 | accepted and appended in order only when there is room, refused only when the context is done, and otherwise left waiting with nothing changed; it waits if and only if the channel is full and the context live |
| `SessionObjects.Sender.Run` | internal/session/sender.go:46-57 | sends what is queued, in order and exactly as much as the rounds allow before the first Send that fails, and fails if and only if it comes to one |
| `SessionObjects.Session.constructor` | internal/session/session.go:77-90 | starts empty with at least one slot |
| `SessionObjects.Session.AcquireSlot` | internal/session/session.go:100-107 | takes a slot exactly when one is free |
| `SessionObjects.Session.ReleaseSlot` | internal/session/session.go:111-116 | gives one slot back, and is harmless on an empty semaphore |
| `SessionObjects.Session.MarkInFlight` | internal/session/session.go:127-131 | enters the job in the roster under its epoch |
| `SessionObjects.Session.ClearInFlight` | internal/session/session.go:133-137 | removes the job from the roster |
| `SessionObjects.Session.InFlightRoster` | internal/session/session.go:139-147 | every in-flight job once, with its epoch |
| `SessionObjects.Session.SupportsAssignment` | internal/session/connection.go:443-451 | true exactly when the capability at that version was declared |
| `SessionObjects.Session.DispatchAssignment` | internal/session/connection.go:246-300 | admitted if and only if the session is not draining, the job is neither registered nor retained, it names this organisation and registration and a declared capability, and a slot is free; the condition, the literal message and the new state of every other case |
| `SessionObjects.Session.HandleResultAck` | internal/session/connection.go:118-165 | settles the result and frees a slot only if an entry was removed |
| `SessionObjects.Session.HandleCancellation` | internal/session/connection.go:172-185 | offers the CancelAck, saying whether the job had completed, and then cancels the job whether it was accepted or refused; while the offer waits nothing is cancelled |
| `SessionObjects.Session.Conclude` | internal/session/connection.go:301-322 | abandons a cancellation nobody asked for and frees its slot, or retains the result and keeps the slot |
| `SessionState.Answer` | internal/session/connection.go:246-300 | one message for every refusal and none for an admission: shed, re-acknowledged, identity mismatch or unsupported capability, each under the job and epoch, and never a cancelled result |
| `Snapshots.EncodingIsInjective` | internal/inventory/snapshot.go:114-129 | the name-NUL-value-NUL encoding in sorted order tells any two NUL-free field maps apart |
| `Snapshots.EncodingReadsBack` | internal/inventory/snapshot.go:114-129 | the encoding of a NUL-free field map, cut at its NULs, is its names and values in turn, the names ascending |
| `Snapshots.DigestFields` | internal/inventory/snapshot.go:114-129 | the digest of exactly that encoding |
| `Snapshots.ListKeys` | internal/inventory/snapshot.go:133-152 | the snapshot's keys, each once; the first of namespace, kind, name and uid in which two differ puts them in order |
| `Ordering.StringLessMeans` | internal/inventory/snapshot.go:133-152 | one string precedes another if and only if it is a proper prefix or smaller at the first byte in which they differ |
| `Snapshots.WorkloadState` | internal/inventory/snapshot.go:49-88 | the watched fields and the revision of a workload |
| `Snapshots.DigitsReadBack` | internal/inventory/snapshot.go:49-88 | the decimal digits of a generation read back to it, without a leading zero |
| `Snapshots.RevisionIsSpelled` | internal/inventory/snapshot.go:49-88 | a revision is g, the generation in decimal, a dot and the digest |
| `Snapshots.WorkloadKeySays` | internal/inventory/snapshot.go:49-88 | a workload is known by its namespace, name and uid and one of the three kinds, unspecified for any other |
| `Watching.WorkloadFieldsHold` | internal/inventory/snapshot.go:49-88 | the replicas, controller revision, reference lists and template hash of a workload stand each under its own field name, an absent field read as empty |
| `Watching.ContainerFieldsHold` | internal/inventory/snapshot.go:49-88 | image, requests and limits of every container whose list and name are its own stand each under its own field name |
| `Watching.NothingElseIsWatched` | internal/inventory/snapshot.go:49-88 | no other field is watched |
| `Watching.JoinSplits` | internal/inventory/snapshot.go:49-88 | a reference list whose names have no comma, cut at its commas, is the names that went into it |
| `Snapshots.RevisionTracksTheWorkload` | internal/inventory/snapshot.go:49-88 | if the digest does not confuse their field maps, two workloads have the same revision if and only if generation and watched fields agree |
| `Snapshots.RevisionMovesWithEitherPart` | internal/inventory/snapshot.go:49-88 | two revisions are equal if and only if both generation and digest are |
| `Snapshots.ConfigState` | internal/inventory/snapshot.go:93-104 | a configuration object's revision is the resource version it was read at, and its only field is that version, never content |
| `Diffs.Clip` | internal/inventory/diff.go:82-88 | at most 512 bytes: the value itself if and only if it fits, and otherwise its first 502 bytes and the marker |
| `Diffs.FieldValues` | internal/inventory/diff.go:91-98 | every field once, in name order, as a first sight |
| `Diffs.FirstSightIsExact` | internal/inventory/diff.go:91-98 | a first sight has one line per field, in name order, from nothing to its clipped value, and no other |
| `Diffs.FieldDifferences` | internal/inventory/diff.go:105-134 | the itemization of two field maps |
| `Diffs.DifferencesAreExact` | internal/inventory/diff.go:105-134 | every moved field but the hash has exactly one line, with its old and its new value clipped; no other line exists, the lines are in name order and no field has two, and a line for the hash, with both its values whole, comes last |
| `Diffs.DifferencesUndo` | internal/inventory/diff.go:105-134 | undoing the lines on the newer fields gives back the older ones, every field but the hash, when the older values fit |
| `Diffs.TemplateHashIsReportedAlone` | internal/inventory/diff.go:105-134 | the hash line, with the old and the new hash, is present if and only if the hash moved and no field under spec.template. did |
| `Diffs.DifferencesAreEmptyIffSame` | internal/inventory/diff.go:105-134 | the itemization is empty if and only if no field moved, absent read as empty |
| `Diffs.Diff` | internal/inventory/diff.go:13-43 | computes the diff of two snapshots |
| `Diffs.DiffIsExact` | internal/inventory/diff.go:13-43 | a diff reports exactly the objects that differ, each once and with its own report |
| `Diffs.ChangeSays` | internal/inventory/diff.go:13-43 | the change of an object names it, its new revision and whether it was created, modified or deleted, with its fields when it is first seen, their differences when it moved and nothing when it went |
| `Diffs.DiffIsOrdered` | internal/inventory/diff.go:13-43 | creations and modifications before deletions, each group by namespace, kind, name and uid |
| `Diffs.NothingMovedNothingSaid` | internal/inventory/diff.go:13-43 | for any two snapshots the diff is empty if and only if no object appeared, vanished or changed revision |
| `Diffs.Baseline` | internal/inventory/diff.go:47-56 | computes the baseline of a snapshot |
| `Diffs.BaselineIsDiffFromNothing` | internal/inventory/diff.go:47-56 | a baseline is the diff from the empty snapshot |
| `Diffs.BaselineListsEverything` | internal/inventory/diff.go:47-56 | a baseline has exactly one change per object |
| `Replay.DiffCarriesRevisions` | internal/inventory/diff.go:13-43 | replaying a diff on a mirror that agrees on revisions gives one that agrees with the new snapshot |
| `Replay.DiffCarriesFields` | internal/inventory/diff.go:58-71 | so for every watched field but the hash, when equal revisions mean equal fields and values are not clipped |
| `Replay.ChainCarriesFields` | internal/inventory/sync.go:228-275 | a baseline and any number of diffs replay to the last snapshot's fields, when equal revisions mean equal fields and values are not clipped |
| `Readers.ReadOfBaseline` | internal/inventory/sync.go:387-414 | a marked group and what follows it are read as one replay, from nothing when the reader starts over and from what it had when it does not |
| `Readers.ChainOnTopIff` | internal/inventory/sync.go:228-275 | a baseline and its diffs read on top of an old mirror give the last snapshot if and only if they mention every object the mirror held |
| `Readers.ChainCarriesRevisions` | internal/inventory/sync.go:228-275 | in particular, read from nothing, a baseline and any number of diffs always give the last snapshot's revisions |
| `Scopes.EffectiveNamespacesOnlyNarrow` | internal/inventory/sync.go:336-376 | a namespace is listed if and only if it was asked for, or nothing was, and the local list and the allowlist both admit it; in order, and as often as it was asked for; cluster-wide only when nothing is restricted |
| `Scopes.UnchangedPolicyChangesNothing` | internal/inventory/sync.go:107-139 | re-sending a policy at any later time changes no state at all |
| `Scopes.PolicyTakesHold` | internal/inventory/sync.go:107-139 | after a policy its scope has its revision, the larger of the two intervals and the effective namespaces; if it had them already nothing changes, and otherwise it is due at once, its running ticks are void, and it owes a baseline if it did or its namespaces moved; what it observed and queued stays, and no other scope is touched |
| `Scopes.PackDeltas` | internal/inventory/sync.go:390-414 | the chunks of the changes in order, none when there is nothing to say, and an empty baseline still sent |
| `Scopes.PackedHolds` | internal/inventory/sync.go:390-414 | the i-th message holds exactly the i-th run of 512 changes, under the i-th identifier and with the connection, revision, mark and time of the tick; no message for no change, but one for an empty baseline |
| `Scopes.ChunksConserve` | internal/inventory/sync.go:390-414 | chunking loses, repeats and reorders nothing and every chunk fits in 512 |
| `Scopes.ChunksCount` | internal/inventory/sync.go:390-414 | n changes take one message, or one per 512 begun |
| `Scopes.DebtIsPaidIffItFits` | internal/inventory/sync.go:252-275 | a baseline tick leaves no debt if and only if its messages fit beside what is queued; then everything is queued behind it, and otherwise the queue is emptied |
| `Scopes.WhatFitsAnEmptyQueue` | internal/inventory/sync.go:38-46 | a baseline fits an empty queue if and only if the scope has at most 32768 objects |
| `SyncObjects.Synchronizer.ResolveNamespaces` | internal/inventory/sync.go:336-376 | computes the effective namespaces |
| `SyncObjects.ScopeState.Adopt` | internal/inventory/sync.go:107-139 | the scope afterwards has this revision, interval and namespaces; unchanged ones change nothing, others make it due now under a new configuration, and it owes a baseline exactly when it did or the boundary of a known scope moved |
| `SyncObjects.Synchronizer.ApplyPolicy` | internal/inventory/sync.go:107-139 | only this connection's scope changes, and as the policy asks; disabled or unnamed policies change nothing |
| `SyncObjects.Synchronizer.Ack` | internal/inventory/sync.go:142-153 | drops exactly one pending delta of this identifier from one scope, or changes nothing because none has it |
| `SyncObjects.AckDropsTheFirst` | internal/inventory/sync.go:142-153 | a scope holds an identifier if and only if a queued delta has it, and acknowledging drops the first of those and nothing else |
| `SyncObjects.Synchronizer.Pending` | internal/inventory/sync.go:157-165 | every scope's queue whole and in its order, one right behind the other, scopes ascending by identifier, and nothing else |
| `Resends.ListingHolds` | internal/inventory/sync.go:157-165 | such a listing holds a delta if and only if some scope has it queued |
| `Resends.ResentIffUnacked` | internal/inventory/sync.go:157-165 | in every run a delta is listed for resending if and only if it is in what its scope queued, since its queue was last cleared, and was not acknowledged |
| `SyncObjects.Synchronizer.TakeDue` | internal/inventory/sync.go:207-223 | exactly the scopes whose time has come, ascending by identifier, each next due one interval from now, and nothing else of any scope touched |
| `SyncObjects.ScopeState.BeginTick` | internal/inventory/sync.go:228-240 | reads the namespaces, configuration, snapshot and revision in force, and whether a baseline is owed: never baselined, or due again |
| `SyncObjects.ScopeState.CommitTick` | internal/inventory/sync.go:241-275 | a tick whose configuration moved changes nothing and a failed one only marks the scope; otherwise the snapshot, the marks and the time are the tick's, its deltas stand behind the queue, or the queue is empty and a baseline owed if together they are more than 64 |
| `SyncRuns.LiveAfterAck` | internal/inventory/sync.go:142-153 | splicing a delta out of the queue leaves exactly what was queued and not acknowledged |
| `SyncRuns.PackedCarries` | internal/inventory/sync.go:390-414 | the messages of one tick, laid end to end, carry exactly its changes |
| `SyncRuns.PackedMarks` | internal/inventory/sync.go:387-414 | every message of one tick carries its mark and its observation time, and a baseline of n objects is one message, or one per 512 begun |
| `MirrorTheorems.MirrorAgreesIff` | internal/inventory/sync.go:228-275 | in every run, when no baseline is owed, any reader of all that was queued agrees with the stored snapshot if and only if it starts over at the last baseline or everything it held is mentioned since; and each delta is pending or acknowledged |
| `MirrorTheorems.MirrorAgreesWithSnapshot` | internal/inventory/sync.go:228-275 | in every run whose clock moves, when no baseline is owed, a reader that follows the marks over all that was queued, from any mirror, ends with the stored snapshot's revisions |
| `OneInstant.OneInstantMergesBaselines` | internal/inventory/sync.go:387-414 | for any two policies that draw the boundary differently there is a run from the start, two ticks observed at one instant, after which nothing is owed and every reader of all that was queued has an object the stored snapshot has not |
| `MirrorTheorems.MirrorAgreesOnFields` | internal/inventory/sync.go:228-275 | and with its watched fields, when every reading was collected from a cluster whose values are NUL-free and within 512 bytes and on which the digest does not collide |
| `SyncTheorems.DiffsStayWithinOneBoundary` | internal/inventory/sync.go:107-139 | when no baseline is owed the stored snapshot was collected under the namespaces in force; the queue never exceeds 64 |
| `SyncTheorems.LandingDiffComparesOneBoundary` | internal/inventory/sync.go:228-275 | a diff that lands compares two snapshots of one namespace list |
| `SyncTheorems.RebaselineSurvivesTheTick` | internal/inventory/sync.go:107-139 | a boundary change during a running tick is never erased by it: the commit changes no scope and the baseline stays owed |
| `SyncTheorems.TickRateIsBounded` | internal/inventory/sync.go:207-223 | over every run ticks times the minimum interval is at most configuration changes times it plus the time since the first policy |
| `SyncTheorems.StepKeepsInv` | internal/inventory/sync.go:107-275 | every critical section keeps the queue, chain, rate and running-tick invariants |
| `Collecting.CollectAll` | internal/inventory/sync.go:280-330 | collects if and only if all three reads of every namespace succeeded; then it gives the snapshot, marked truncated if and only if some page was cut |
| `Collecting.SnapshotHoldsWhatIsReferenced` | internal/inventory/sync.go:280-330 | a key is in the snapshot if and only if it is a listed workload's, or that of a listed ConfigMap, or Secret, that some listed workload of the same namespace names as such |
| `Collecting.SnapshotIsBounded` | internal/inventory/sync.go:280-330 | at most 2500 objects per namespace when each list honours its limit |
| `Collecting.SnapshotEntriesAreObserved` | internal/inventory/sync.go:280-330 | every entry is the state of a listed workload of that key, or the resource version of a listed ConfigMap or Secret of that namespace, name and uid |
| `Observations.CollectedIsObserved` | internal/inventory/snapshot.go:49-104 | every entry of a reading is the digested state of something the cluster showed |
| `Observations.CollectedIsFaithful` | internal/inventory/snapshot.go:114-129 | if the digest does not collide on what the cluster showed, equal revisions in any two collected snapshots mean equal fields |
| `Observations.CollectedIsShort` | internal/inventory/diff.go:82-88 | and no value of a collected snapshot is clipped when those the cluster showed fit in 512 bytes |
| `Recovery.LandingSettlesIff` | internal/inventory/sync.go:241-275 | in any run, a tick that lands a baseline settles the debt if and only if the baseline fits beside what is queued |
| `Recovery.ThirteenNamespacesAlwaysRecover` | internal/inventory/sync.go:33-50 | after an overflow and any run in which no tick of the scope lands, the next one that lands over at most thirteen namespaces, each answering within its limits, queues a complete baseline and settles the debt |
| `Recovery.TooLargeNeverRecovers` | internal/inventory/sync.go:252-275 | over any run whose landing ticks all read more than fits, the debt is never settled |
| `FullScope.FullNamespacesCollect` | internal/inventory/sync.go:280-330 | distinct namespaces that fill every list collect to at least 2500 objects each |
| `FullScope.FourteenNamespacesCanBeTooLarge` | internal/inventory/sync.go:33-50 | any fourteen namespaces within every limit can collect to more objects than the queue holds a baseline of |
| `FullScope.FourteenNamespacesNeverRecover` | internal/inventory/sync.go:241-275 | for any policy that comes to fourteen namespaces or more there is a run from the start to a tick over exactly those that, reading them full, leaves a debt and an empty queue; over every run from there whose landing ticks read full the debt is never settled |
| `Rounds.RoundRuns` | internal/inventory/sync.go:107-275 | from a quiet state a policy that moves the boundary can always be taken, fall due, tick and land, and the tick lands on a scope that owes a baseline under that policy |
| `Masking.MergeIsExact` | internal/redaction/rule.go:103-124 | regions are ordered with strict gaps, reach and cover exactly what the claims do, name exactly the rules that claimed inside, and are led by the longest claim at their start, the first in policy order on a tie |
| `Masking.LeaderIsBest` | internal/redaction/rule.go:103-124 | the leader at a position is the longest claim starting there and the earliest of those |
| `Masking.CanonicalIsUnique` | internal/redaction/rule.go:103-124 | regions with strict gaps are determined by the points they reach and the positions they cover |
| `Masking.MergingIgnoresOrder` | internal/redaction/rule.go:103-124 | claims in any order and any number of times merge to the same boundaries with the same rules in each region |
| `Masking.MaskingIgnoresRuleOrder` | internal/redaction/rule.go:61-124 | so for rules in any order |
| `Masking.AppendedRulesOnlyMaskMore` | internal/redaction/parse.go:95-128 | appended rules keep every masked position masked and every region inside one |
| `MaskedText.MaskedTextIsReference` | internal/redaction/rule.go:54-98 | the masked text is what asking the claims about every position gives: a marker where a stretch opens, and each uncovered character in order |
| `MaskedText.CountIsExact` | internal/redaction/rule.go:61-98 | the count is the number of places where a masked stretch opens, at most one more than the text has bytes |
| `MaskedText.MatchedAreExact` | internal/redaction/rule.go:89-97 | the reported rules are exactly those with a match, in policy order |
| `MaskedText.Mask` | internal/redaction/rule.go:61-98 | the loops compute the specified text, count and rules, for every text including the empty one |
| `MaskedText.Merge` | internal/redaction/rule.go:103-124 | the sort and the extending loop compute the specified regions |
| `MaskedText.Claim` | internal/redaction/rule.go:66-71 | every match of every rule, in policy order |
| `MaskedText.Rebuild` | internal/redaction/rule.go:76-88 | the cursor loop writes gaps and markers and collects the rules of every region |
| `MarkerNames.MarkerNamesPolicyFirstIff` | internal/redaction/rule.go:47-52 | a marker names the region's first rule in policy order if and only if that rule has a claim that starts the region and is as long as any that does |
| `MarkerNames.MarkerNeedNotNamePolicyFirst` | internal/redaction/rule.go:47-52 | two rules and a text where it does not |
| `Redaction.SweepFaultsIff` | internal/redaction/sweep.go:57-185 | a sweep faults if and only if the result holds a populated map, a populated string whose message and field the declaration table does not have, or more bytes to read than the bound |
| `Redaction.SweepMapsTheTree` | internal/redaction/sweep.go:111-185 | leaf for leaf, by the declaration table: structural strings untouched, excluded ones replaced by the literal marker unless empty, other free text masked, and nothing moved |
| `Redaction.ReportIsExact` | internal/redaction/sweep.go:187-225 | one line per path where something was masked, in the order first reached, with the true count and the sorted union of rules |
| `Redaction.ReportedIffMasked` | internal/redaction/sweep.go:187-225 | a path is in the report if and only if some string there was replaced or had a match |
| `Redaction.ReportLinesSay` | internal/redaction/sweep.go:187-225 | each line's count and rules are those of the strings at its path, counted one by one |
| `Occurrences.RefusedIff` | internal/redaction/sweep.go:57-185 | over the parts of the message rather than the walk: a sweep faults if and only if somewhere in it a map is populated, a string is populated that the table does not declare, or the bytes to be read exceed the bound |
| `Redaction.SilenceMeansNothingMasked` | internal/redaction/sweep.go:202-206 | there is no report if and only if nothing was masked |
| `Redaction.TalliesFitTheirWidth` | internal/redaction/sweep.go:187-198 | the tallies of a fault-free sweep add up to at most 8388608 over all paths, so none wraps |
| `Trees.MapTreeLeaves` | internal/redaction/sweep.go:57-142 | rewriting strings leaves the walk's leaves, paths and order as they were |
| `Sweeping.RunReadsBytes` | internal/redaction/sweep.go:145-155 | the bound is enforced exactly: a fault if and only if the bytes read exceed it or some leaf is unaccounted for |
| `Sweeping.ReachedInOrder` | internal/redaction/sweep.go:187-198 | paths are ranked in the order the walk first masked something at each |
| `Sweeping.TalliesAddUp` | internal/redaction/sweep.go:187-198 | the totals of the paths reached add up to the occurrences of every counted string: none is lost and none is counted twice |
| `Sweeping.Render` | internal/redaction/sweep.go:202-225 | the tallies by rank, each path once, rules sorted; nothing when there are none |
| `SweepObjects.Sweep.Record` | internal/redaction/sweep.go:187-198 | ranks a new path next, adds the count in 32 bits and joins the rules |
| `SweepObjects.Sweep.MaskValue` | internal/redaction/sweep.go:145-185 | the effect of one string on the sweep's state, and what it becomes |
| `SweepObjects.Sweep.Strings` | internal/redaction/sweep.go:111-142 | one field in place: its values mapped and the state advanced value by value, or a fault |
| `SweepObjects.Sweep.Messages` | internal/redaction/sweep.go:86-104 | a list of messages in place, one after the other |
| `SweepObjects.Sweep.Walk` | internal/redaction/sweep.go:57-83 | a whole message in place: the state is the fold over its leaves, and without a fault the tree is the mapped tree |
| `SweepObjects.SweepResult` | internal/redaction/sweep.go:21-34 | nothing for an absent result; otherwise it masks in place and overwrites the report with the exact one, nothing included, so that what leaves is what the specification says, or faults exactly when that does |
| `Reachability.FreeTextSearch.Search` | internal/redaction/declared.go:171-197 | true only if something reachable carries text; false only if everything newly visited is quiet and leads nowhere unvisited |
| `Reachability.MessageCarriesText` | internal/redaction/declared.go:171-197 | on any schema, cyclic or not, true if and only if a message with a free-text or unclassified string is reachable |
| `FreeText.CarriesTextIff` | internal/redaction/declared.go:171-197 | such a message is reachable if and only if some well-typed instance holds, anywhere in it and maps included, a string the table does not call structural |
| `Enforcement.CarriesFreeText` | internal/redaction/declared.go:150-169 | false if and only if the first table entry for the capability names a message field that can reach no such string |
| `Enforcement.QuietResultsPassUntouched` | internal/redaction/enforcement.go:117-129 | a result of such a capability passes the default sweep with no byte read and no string changed, faulting only on a map field |
| `Enforcement.Enforcer.Execute` | internal/redaction/enforcement.go:94-144 | under a fault the capability runs only if it can carry no free text; failures pass; a payload leaves only as swept under the loaded policy, or the defaults when none could be loaded, with its own report, and is otherwise refused whole under the job and epoch it was asked for |
| `FieldPaths.PathWalk.WalkStrings` | internal/redaction/paths.go:54-93 | enumerates the strings reachable without entering a message inside itself, and restores its guard |
| `FieldPaths.DeclaredPaths` | internal/redaction/paths.go:40-52 | exactly the declared paths of that enumeration |
| `FieldPaths.EveryPathIsLive` | internal/redaction/paths.go:54-93 | every enumerated path is the path of the one string, whatever it says, of some well-typed result |
| `PathTheorems.CompleteIff` | internal/redaction/paths.go:54-93 | every string of every well-typed result is enumerated under the sweep's name if and only if no string lies under a recursive message |
| `PathTheorems.AcyclicIsComplete` | internal/redaction/paths.go:11-15 | in particular for every schema without recursive messages |
| `PathTheorems.RecursiveMessageIsMissed` | internal/redaction/paths.go:54-57 | a schema the guarded enumeration does not cover |
| `PathTheorems.NamesAreLive` | internal/redaction/parse.go:130-144 | a name a policy may exclude is formed by the sweep for a declared string, whatever it says, that some well-typed result holds and no other |
| `Exclusions.ExclusionMattersIff` | internal/redaction/parse.go:130-144 | excluding a name a policy may use changes what leaves, for some result that arrives without a report, if and only if the name does not lie under the report's field |
| `Exclusions.ReportNamesDoNothing` | internal/redaction/sweep.go:26-33 | excluding a name under the report's field changes nothing that leaves, fault or report or string, of any result that arrives without a report |
| `Exclusions.RestIsTheSame` | internal/redaction/sweep.go:26-33 | and nothing outside the report of any result at all |
| `Exclusions.ReplacedReportIsCounted` | internal/redaction/sweep.go:26-33 | a result that arrives with a report leaves with a count of a string of the report it replaced, and otherwise as it would have |
| `Exclusions.ReportNameIsAccepted` | internal/redaction/declared.go:36-39 | redaction.fields.field_name is enumerated, is declared, and lies under the report's field |
| `Exclusions.NamesakeMasksAlike` | internal/redaction/parse.go:97-128 | a pattern may go by the name exclusions are reported under, and one that matches any text whole masks and reports just as an exclusion does |
| `PolicyFile.PolicyBuilder.AddPatterns` | internal/redaction/parse.go:97-128 | accepted if and only if every entry is usable and every name new; then the rules are appended and nothing else changes |
| `PolicyFile.PolicyBuilder.AddMaskedFields` | internal/redaction/parse.go:133-144 | accepted if and only if every name is known; then exactly those are excluded |
| `PolicyFile.PolicyBuilder.LowerLimits` | internal/redaction/parse.go:149-178 | accepted if and only if no bound is raised or non-positive; then exactly the given bounds apply |
| `PolicyFile.Parse` | internal/redaction/parse.go:75-93 | refused whole if and only if the version, a name, a pattern, an exclusion or a bound is not in order; otherwise the built-in rules, then the file's own with their trimmed names and compiled patterns in its order, exactly its trimmed exclusions, and its bounds where it gives any |
| `PolicyFile.PoliciesOnlyMaskMore` | internal/redaction/parse.go:95-97 | under any accepted file every position the built-in rules mask stays masked |
| `PolicyNames.Load` | internal/redaction/parse.go:75-144 | the same for a document read against the enumerated names; every exclusion it accepts is a name the sweep forms for some well-typed result, and every name the sweep forms can be excluded unless a string lies under a recursive message |
| `PolicyNames.FilePatternsMask` | internal/redaction/parse.go:97-128 | under a loaded file, every position one of its patterns matches is claimed by a rule, and so masked |
| `PolicyNames.FileExclusionsMask` | internal/redaction/parse.go:133-144 | and every non-empty string under a name it excludes leaves as the marker |
| `LogBounds.Lower` | internal/capabilities/policy.go:33-45 | exactly the request clamped between floor and compiled maximum, or a positive local cap where that is lower |
| `LogBounds.FetchCeiling` | internal/capabilities/kubernetes/logs/executor.go:148-154 | exactly four times the bound, or 4 MiB where that is less |
| `LogBounds.ParseLines` | internal/capabilities/kubernetes/logs/executor.go:237-260 | the lines of the kept entries, blanks skipped |
| `LogBounds.OneEntryOneLine` | internal/capabilities/kubernetes/logs/executor.go:237-260 | an entry that is not blank gives one line, without the carriage return it may end in, its time split off and the rest capped; a blank one none |
| `LogBounds.ReadGivesBackWhatWasWritten` | internal/capabilities/kubernetes/logs/executor.go:226-243 | a complete read splits back into exactly the lines written, a last one without newline included |
| `LogBounds.CutKeepsWholeLines` | internal/capabilities/kubernetes/logs/executor.go:226-243 | wherever a fetch is cut, in a line or after one, ended or not, exactly the lines that end before the cut are kept |
| `LogBounds.FetchedLinesAre` | internal/capabilities/kubernetes/logs/executor.go:117-141 | what a read works on is the newest lines up to one past the bound, all of them if they fit the fetch ceiling and otherwise, from the oldest on, exactly those that end within it |
| `LogBounds.TakeNewest` | internal/capabilities/kubernetes/logs/executor.go:320-328 | the backwards walk stops exactly at the first line that does not fit |
| `LogBounds.ApplyBounds` | internal/capabilities/kubernetes/logs/executor.go:292-343 | the longest end that fits both bounds; returned plus withheld bytes are all bytes; each flag and completeness exactly |
| `LogBounds.ReadLogs` | internal/capabilities/kubernetes/logs/executor.go:92-144 | the bounds applied are exactly the clamped and capped request, of 10 to 2000 lines and 4 to 256 KiB; what is emitted is the longest end of what was fetched that fits them, with every withheld byte counted and each flag exact |
| `LogBounds.CompleteIffEverythingFits` | internal/capabilities/kubernetes/logs/executor.go:117-141 | for any log a read is complete if and only if the fetch was not cut and what the tail holds fits the bounds; and a complete read returns the whole log if and only if the lines before the tail are all blank |
| `LogBounds.CompleteIffTheWholeLog` | internal/capabilities/kubernetes/logs/executor.go:117-141 | for a log without blank lines, its last line ended or not, a read is complete if and only if the whole log fits the bounds and the fetch, and then the whole log was returned |

## Left out

- gRPC streams, TLS, enrollment, heartbeats, backoff, tickers and the drain deadline: I/O and time with thin logic.
- Kubernetes reads and object mapping: a read is an arbitrary page or an error.
- Regular expressions, the built-in patterns and SHA-256: parameters, with a no-collision hypothesis only where fields must be rebuilt.
- YAML decoding and reading the policy file: the model starts from a decoded document.
- The sweep's wall-clock budget: `PolicyFile` carries it, the sweep does not measure it.
- SessionObjects.Session.Conclude: one critical section after another; the interleavings between them are in `SessionProtocol`.
- SweepObjects.Sweep.Walk: for results whose messages form a tree; a message object reached twice is not modelled.
- SweepObjects.SweepResult: says nothing of what a faulted result looks like, since it is dropped; what the report's field held is set aside rather than freed.
- Enforcement.Enforcer.Execute: the capability is represented by the result it would give and by whether it was run.
- MaskedText.Merge: the sort is a function on sequences rather than in place.
- Exclusions.ExclusionMattersIff: for policies none of whose rules goes by the name exclusions are reported under; a rule of that name can do just what an exclusion does (`NamesakeMasksAlike`).
- SyncTheorems.TickRateIsBounded: for a non-negative minimum interval; the configuration only accepts positive ones.
- MirrorTheorems.MirrorAgreesWithSnapshot: for a clock that moves between two ticks of a scope, and a reader not left inside a group of the first instant; `MirrorAgreesIff` has every clock and every reader.
- LogBounds.CompleteIffTheWholeLog: for logs served with timestamps, as the read asks, so that no line is blank; `CompleteIffEverythingFits` has every other log.
- The two reference maps of a tick are one set of (namespace, name) pairs each.
- Scope statuses, the dry run, policy descriptions, audit logging, argument validation, container resolution, the events capability and field caps: each would only add easy members.
