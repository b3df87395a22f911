# MiniGRC: a verified model of its event-sourced core

MiniGRC keeps compliance state as projections over an append-only table of domain events. This
project models that core in Dafny and proves what it guarantees over every run and every replay order.
`dafny verify dfyconfig.toml` checks everything.

Appenders, job workers and evidence captures interleave statement by statement. The lifecycle modules
(`PolicyLifecycle`, `ControlDefinitions`, `Findings`, and with them `History`, `LastWriters`,
`AuditExport`, `DefinitionReplay`, `Occurrences`, `Operations` and `Recovery`) and `Connectors` state their
theorems for runs of one command at a time: each command's guard, events and flush are one step.
`VersionRequests`, `FindingRequests` and `ConnectorRequests` drop that hypothesis, let requests overlap
between their reads and their writes, and prove what survives and exactly when the rest does. For
occurrences that is not done.

## What is modelled

- **Event store.** `EventLog.dfy` and `EventStore.dfy` model the event table and the optimistic append
  of app/events.py as a small-step machine: check the key, read the maximum, insert under both unique
  constraints, check the slot, retry at most five times. Any number of appenders interleave between
  single statements. The class `DomainEvents` is the program's own loop; it is shown to be a behaviour
  of that machine whatever its rivals do between its statements.
- **Order of appends.** `AppendOrder.dfy` says exactly which runs of that machine keep recorded times in
  order along each aggregate, which is the hypothesis of the rebuild theorems.
- **Replay.** `Replay.dfy` models the sorted replay for any projector that reads and writes only its own
  aggregate's row. An `ORDER BY` may return any arrangement that satisfies it.
- **Version lifecycles.** `VersionLifecycle.dfy` is the theory of the events that the policy and
  control-definition commands leave in the log. `PolicyLifecycle.dfy` has the policy commands,
  projectors, reset and rebuild (class `PolicySession`); `LastWriters.dfy` says exactly when the rebuild
  gives back the live table; `ControlDefinitions.dfy` has the definition versions and
  `DefinitionReplay.dfy` their replay, which flushes, and so checks constraints, in mid-replay. A flush
  writes the rows changed since the last one, statement by statement, in the order of the primary key or in
  any order.
- **Overlapping requests.** `Overlap.dfy` is the theory of logs whose events were guarded when they were
  read and appended later; `VersionRequests.dfy` and `FindingRequests.dfy` are machines of overlapping
  requests on versions and on findings; `ConnectorRequests.dfy` is one of overlapping applies of upgrade plans.
- **History.** `History.dfy` models point-in-time reconstruction (app/history.py), and `AuditExport.dfy`
  compares it with the selection of policy versions for the audit package.
- **Job queue.** `Jobs.dfy` models claims by guarded update, stale claims and backoff (app/jobs.py) as a
  timed machine over any number of workers, and the queue's methods on the table.
- **Control occurrences.** `Cadence.dfy` has the calendar arithmetic, `Occurrences.dfy` the
  materialization, manual recording, performance and evidence links, and `Operations.dfy` the runs in
  which commands on definitions, evidence versions and occurrences interleave.
- **Recovery.** `Recovery.dfy` models the registry of rebuilds (app/backup.py) over the three
  projections that refer to each other by foreign keys.
- **Evidence.** `Evidence.dfy` models captures across the object store and the database, with failing
  uploads, appends and deletions, rollbacks by the caller, and stale views of the artifact.
- **Findings and tests**, **connector upgrades** and **vendor rosters** are in `Findings.dfy`,
  `Connectors.dfy` and `Roster.dfy`.
- **What the tables hold.** `VersionRecords.dfy`, `DefinitionNumbers.dfy`, `OccurrenceRecords.dfy`,
  `FindingRecords.dfy` and `RosterRecords.dfy` say in plain terms, apart from the projectors and commands,
  what each row and list holds after any history, which commands are accepted, and what the events of
  every run state. `VersionText.dfy` does so for the version texts of connector manifests, by the decimal
  numerals of numbers.

Clock readings, newly drawn ids, answers of the database and failures of outside systems are
parameters. Timestamps are integers on one clock. A command that is refused leaves no trace.

## What turned out not to hold without a condition

- *One command at a time.* Nothing at the append compares the aggregate with what the guard saw. A
  request that loaded an approved version can make it effective after another request has withdrawn it
  (`VersionRequests.WithdrawnBecomesEffective`), and two overlapping requests close a finding twice
  (`FindingRequests.ClosedTwice`). "Superseded and withdrawn are final" and "a closing event is the last"
  hold exactly if no request was overtaken by such an event between its read and its append
  (`VersionRequests.TerminalIsFinalIff`, `FindingRequests.ClosingIsLastIff`); the whole invariant of one
  command at a time holds exactly if every disturbance was harmless (`VersionRequests.SequentialInvIff`,
  `FindingRequests.SequentialInvIff`).
  What holds in any case is one effective version per policy, by the index
  (`VersionRequests.OneEffectiveByIndex`), which then does refuse requests: exactly those that find a
  rival at their flush (`VersionRequests.WriteRefusedIff`, `VersionRequests.SecondIsRefused`).
- *Rebuild equals live* needs recorded times that do not fall along an aggregate's history. The clock is
  read before the sequence slot is chosen, so a rival may insert in between, with rising clock readings
  (`AppendOrder.RaceBreaksOrder`); `AppendOrder.RecordedInOrderIff` says exactly which runs of appenders
  keep the order. `VersionRequests.RacedSubmissionBreaksRebuild` shows such a race leave a log whose
  rebuild differs from the live table, and `LastWriters.EarlierApprovalBreaksRebuild` does so for a clock
  that steps back between two commands. `LastWriters.RebuildRestoresIff` gives the exact condition on the
  log: no version's last event, last submission or last decision was recorded earlier than another event,
  submission or decision of that version.
- *One effective version at every cutoff* needs withdrawals that are not post-dated.
  `History.PostDatedWithdrawalShowsTwo` is a family of counterexamples; `History.OneShownIffNoClash` is
  the exact condition.
- *The replay of definition versions never trips a constraint* needs more than separating the recorded
  times of supersede/effective pairs. A withdrawal tied with the next version's start trips the index, and
  so does a successor whose draft sorts after the supersession that names it (the foreign key of
  superseded_by_version_id). And since the projector of a withdrawal does not flush, a withdrawal and the
  next start may be written by one flush, the start first, even with rising clock readings. Families of
  counterexamples are `DefinitionReplay.TiedReadingsBreakRebuild`, `DefinitionReplay.TiedDraftDangles` and
  `DefinitionReplay.WithdrawalThenStartIsBatched`; `DefinitionReplay.RebuildSucceedsIff` is the exact
  condition, for recorded times that do not fall along any version, and `DefinitionReplay.SeparationSuffices`
  a sufficient one.
- *The audit package omits no version that a reconstruction inside the period shows* needs recorded times in
  order along each version. `AuditExport.EarlierSupersessionIsOmitted` is a family of counterexamples and
  `AuditExport.PackageCoversIff` the exact condition, for every course of the clock.
- *An instance's version never decreases and its audit trail is a chain* needs applies that do not overlap.
  `ConnectorRequests.SecondApplyLowers` is a family of counterexamples; for upgrades the trail is a chain
  exactly if nothing was written between an apply's check and its write
  (`ConnectorRequests.ChainIffUndisturbed`), and in general exactly if every version at a write is the one at
  its check (`ConnectorRequests.ChainIffSameVersions`).
- *The registry restores the projections* fails for pins and artifact links
  (`Recovery.RegistryOrderLoses`); `Recovery.RestoredIff` says exactly which orders of rebuilding, with
  any repetitions, restore a reachable state whose recorded times do not fall along any aggregate.
- *A due date that already has an occurrence is returned unchanged*, as the description of
  generate_occurrences says, fails if the occurrence was recorded by hand for the end of that day: the
  whole call is refused. `Occurrences.ManualBlocksPeriod` is a family of counterexamples and
  `Occurrences.GenerateSucceedsIff` the exact condition; a call without a period is never refused
  (`Occurrences.RollingNeverRefused`).
- *Exclusive jobs and final results* need workers that finish within the 120 seconds that the code
  assumes. `Jobs.StealIffStale` is exact about when a live claim can be taken, and
  `Jobs.LateWorkerOverwrites` shows what happens then. `attempts` never exceeds `max_attempts` unless
  that is below 1, since a claimed job is always run once.
- *A retest is a test of the finding's control*: open_finding does not compare the finding's control
  with its source test's, so this holds exactly if those two agree
  (`Findings.RetestHasFindingsControlIff`; `Findings.MismatchedRetest` is a run in which they do not).
- *What was planned is what is applied* holds for version, capabilities and permissions. Applying looks at
  nothing else again: `Connectors.SubstituteIsApplied` is a family of manifests that planning refuses and
  that are applied, and `Connectors.AppliedAsPlannedIff` is exact: the applied manifest would itself have
  led to the reviewed plan if and only if it is compatible with the core and its configuration is valid.

## Model

| member | source | states |
|---|---|---|
| EventLog.ContiguousMax | app/events.py:128-135 | With no gaps, the next number is one more than the number of the aggregate's events |
| EventLog.ContiguousAt | app/events.py:128-135 | The j-th event of an aggregate is numbered j |
| EventStore.FindKey | app/events.py:138-141 | Finds an event carrying the key exactly if there is one |
| EventStore.NextKeepsInv | app/events.py:144-227 | Every statement of every appender keeps the store's invariant |
| EventStore.RunKeepsInv | app/events.py:144-227 | The invariant holds in every state of every interleaving |
| EventStore.RunOnlyAppends | app/events.py:99-125 | In every interleaving rows are only ever added at the end |
| EventStore.SequencesAreContiguous | app/events.py:128-227 | In every interleaving each aggregate's numbers are exactly 1..n, and nothing is rewritten |
| EventStore.KeysNameOneEvent | app/events.py:163-221 | All callers with one key get the same event back, and at most one of them is told that it created it |
| EventStore.ConcurrentAppendMeansFiveLosses | app/events.py:172-227 | The error is raised only after five different slots of that aggregate were confirmed taken by rivals, and that appender wrote nothing |
| EventStore.IntegrityErrorMeansKeyTaken | app/events.py:204-221 | The re-raised error only reaches a caller whose key is stored already, and who wrote nothing |
| EventStore.UndisturbedAttemptReturns | app/events.py:172-203 | From any reachable store, one attempt without rivals returns an event |
| EventStore.ReturnedEvent | app/events.py:163-203 | In every interleaving, a created event carries its request and its appender's clock reading, with the stated time if there is one and the recorded time otherwise; an existing one has the request's key |
| EventStore.DomainEvents.Append | app/events.py:144-227 | The retry loop is a behaviour of the machine under any interference, and its result is the machine's; a created event has the request's id, body, actor and key, the clock's reading as recorded time, and the stated time if there is one |
| EventStore.DomainEvents.Attempt | app/events.py:172-223 | One turn of the loop refines the machine and goes on only after a lost slot; what it creates carries the request |
| EventStore.DomainEvents.FindExisting | app/events.py:163-181 | The key check returns what the machine returns |
| EventStore.DomainEvents.ReadNextSequence | app/events.py:183-183 | The slot is the machine's choice |
| EventStore.DomainEvents.TryInsert | app/events.py:184-203 | The row is inserted exactly if no unique constraint objects |
| EventStore.DomainEvents.ConfirmSlotTaken | app/events.py:204-223 | Retrying exactly if the slot of that aggregate is taken |
| AppendOrder.RecordedInOrderIff | app/events.py:163-203 | Under a clock that does not run backwards, a run keeps recorded times in order along every aggregate exactly if no appender that read the clock before a rival, and had not inserted when the rival did, inserts afterwards |
| AppendOrder.StoredCarriesRequest | app/events.py:168-203 | In every timed run, each stored event carries the request of the appender that wrote it, recorded at the reading that appender took of the clock |
| AppendOrder.RaceBreaksOrder | app/events.py:168-203 | With rising clock readings, the appender that read the clock first can take the later slot with the earlier time |
| AppendOrder.NoOverlapKeepsOrder | app/events.py:163-203 | Times are in order if nobody is between reading the clock and inserting for an aggregate while somebody else inserts for it |
| Overlap.EndsAreLastIff | app/events.py:163-203 | In a log whose events were guarded when read, ends are final exactly if no event was overtaken by an end between its read and its append |
| Overlap.UndisturbedHolds | app/events.py:163-203 | If nothing was appended to the aggregate in between, the guard still holds at the append |
| Replay.RowAfter | app/events.py:352-364 | A row after a replay depends only on its own aggregate's events, in their order |
| Replay.SameHistoriesSameTable | app/events.py:352-364 | Orders that agree on every aggregate replay to the same table |
| Replay.AscendingUnique | app/events.py:352-364 | There is only one arrangement strictly ascending in recorded_at and number |
| Replay.OrdersAgree | app/history.py:129-170 | The two ORDER BY clauses of the program agree on every aggregate, whatever the clock did |
| Replay.SortedKeepsHistories | app/events.py:352-364 | With recorded times in order, the sorted replay visits each aggregate in append order |
| Replay.RebuildEqualsLive | app/events.py:324-364 | If recorded times do not fall along any aggregate, the sorted replay gives the live table, however ties reorder aggregates |
| VersionLifecycle.EffectiveStory | app/policy_lifecycle.py:121-262 | A version becomes effective once, directly after submission and approval, and at most one final event follows |
| VersionLifecycle.TerminalIsLast | app/policy_lifecycle.py:234-262 | Supersession and withdrawal are the last event of a version |
| VersionLifecycle.LegalShape | app/policy_lifecycle.py:27-72 | Which columns are filled in which status |
| VersionLifecycle.LegalChronology | app/policy_lifecycle.py:27-72 | submitted_at <= reviewed_at <= effective_at <= superseded_at under a forward clock |
| VersionLifecycle.CutoffStatus | app/history.py:76-126 | A replay cut off at a time says effective exactly if the final columns' interval covers that time |
| VersionLifecycle.OneEffective | app/policy_lifecycle.py:172-231 | At every position of the log, also between supersede and effective, at most one version of a parent is effective |
| VersionLifecycle.EndedBefore | app/policy_lifecycle.py:172-231 | Of two versions of a parent that were effective, the first ended before the second began |
| VersionLifecycle.SuccessorFollows | app/policy_lifecycle.py:172-231 | A superseded version's successor became effective directly after the supersession |
| VersionLifecycle.ChainAscends | app/policy_lifecycle.py:59-64 | superseded_by chains visit versions that became effective at later and later positions |
| VersionLifecycle.EffectiveColumn | app/policy_lifecycle.py:44-56 | effective_at is the stated time of the one event that made the version effective |
| PolicyLifecycle.RunInv | app/policy_lifecycle.py:121-262 | One command at a time: after every run the table is what the events say, and every event obeyed its command's guard |
| PolicyLifecycle.RunOneEffective | app/models.py:1247-1253 | One command at a time: at most one version per policy is effective, and the index never refuses a command |
| PolicyLifecycle.MakeEffectiveSucceeds | app/policy_lifecycle.py:172-231 | One command at a time: an approved version can always be made effective, and the invariant holds after it |
| PolicyLifecycle.TerminalForever | app/policy_lifecycle.py:234-262 | One command at a time: a superseded or withdrawn version's row never changes again |
| PolicyLifecycle.EffectiveWasApproved | app/policy_lifecycle.py:121-231 | One command at a time: whatever was effective was submitted, then approved, with times in that order under a forward clock |
| PolicyLifecycle.SupersededByChains | app/policy_lifecycle.py:59-64 | One command at a time: superseded_by chains have no cycle and follow the time of becoming effective |
| PolicyLifecycle.RebuildRestoresVersions | app/policy_lifecycle.py:99-118 | Reset and sorted replay give back the live table, if recorded times do not fall along any version |
| PolicyLifecycle.PolicySession.Record | app/events.py:279-321 | Appends one numbered event and projects it, keeping the invariant's link of table and log |
| PolicyLifecycle.PolicySession.ProjectEvent | app/policy_lifecycle.py:27-81 | The projectors change exactly their own row, as the snapshot appliers do |
| PolicyLifecycle.PolicySession.SubmitForReview | app/policy_lifecycle.py:121-138 | Accepted exactly for a draft; event and new state of the command, and the invariant |
| PolicyLifecycle.PolicySession.ReviewVersion | app/policy_lifecycle.py:141-169 | Accepted exactly if the version is in review and the decision approves, or rejects with a comment that has text; event and new state, and the invariant |
| PolicyLifecycle.PolicySession.FindPreviousEffective | app/policy_lifecycle.py:172-231 | Finds another effective version of the policy exactly if there is one |
| PolicyLifecycle.PolicySession.MakeVersionEffective | app/policy_lifecycle.py:172-231 | Called alone: supersedes the previous effective version, then makes this one effective; not refused by the index |
| PolicyLifecycle.PolicySession.WithdrawVersion | app/policy_lifecycle.py:234-262 | Accepted exactly for a version that is not superseded or withdrawn; event with any stated time, new state, and the invariant |
| PolicyLifecycle.PolicySession.ResetLifecycle | app/policy_lifecycle.py:99-106 | Empties the lifecycle columns of every row and nothing else |
| PolicyLifecycle.PolicySession.ReplayEvents | app/events.py:352-364 | The loop over the sorted events is the projection of all of them |
| PolicyLifecycle.PolicySession.Rebuild | app/policy_lifecycle.py:109-118 | Leaves the live table unchanged if recorded times do not fall along any version |
| VersionRecords.AcceptedIff | app/policy_lifecycle.py:121-262 | From every reachable state, each command is accepted exactly under its stated condition, and refused with the error that says why |
| VersionRecords.ReviewRefusedIff | app/policy_lifecycle.py:141-157 | A review of a version in review is refused exactly if the decision is neither word, or it is a rejection whose comment is only white space |
| VersionRecords.LoadedIff | app/policy_lifecycle.py:121-262 | The same conditions decide which overlapping requests go on to write |
| VersionRecords.RunStated | app/policy_lifecycle.py:155-167 | One command at a time: in every run each review on record approves, or rejects with a comment that has text |
| VersionRecords.RunControlStated | app/control_definition_lifecycle.py:250-278 | The same for control definitions |
| VersionRecords.OverlappedStated | app/policy_lifecycle.py:155-167 | The same however requests overlap |
| VersionRecords.SubmitWrites | app/policy_lifecycle.py:27-31 | Submitting sets status, submitted_by and submitted_at of its row and nothing else |
| VersionRecords.ReviewWrites | app/policy_lifecycle.py:34-41 | A review sets its five columns of its row and nothing else; approved exactly by an approval, draft again exactly by a rejection |
| VersionRecords.EffectiveWrites | app/policy_lifecycle.py:172-231 | The version becomes effective, every other effective version of its policy is superseded by it, and no other row changes |
| VersionRecords.WithdrawWrites | app/policy_lifecycle.py:67-72 | Withdrawing sets reason and time, the stated one if there is one, of its row and nothing else |
| VersionRecords.CommandLogs | app/policy_lifecycle.py:121-262 | An accepted command appends its own event, numbered next, with its actor and times, and before it at most the supersession of the version in force |
| VersionRecords.RunNumbersDiffer | app/models.py:1232-1232 | One command at a time: no two versions of a policy share a number |
| VersionRecords.OverlappedNumbersDiffer | app/models.py:1232-1232 | The same however requests overlap |
| VersionRecords.LoneRequestIsCommand | app/policy_lifecycle.py:121-262 | A request with no other step in between does exactly what the command does when called alone |
| VersionRecords.CreatingIsAdding | app/models.py:1232-1232 | Adding a policy version is the same in both machines |
| VersionRecords.CreatingIsDrafting | app/control_definition_lifecycle.py:204-223 | Drafting a definition is the same in both machines |
| VersionRequests.RunKeepsInv | app/policy_lifecycle.py:121-262 | However requests overlap: the table is the replay of its events, each event was guarded when it was read, and no version became effective beside another |
| VersionRequests.OneEffectiveByIndex | app/models.py:1237-1253 | However requests overlap, at most one version per policy or control is effective |
| VersionRequests.WriteRefusedIff | app/policy_lifecycle.py:172-231 | The flush is refused exactly if another version of the parent, not the one found when looking, is effective by then |
| VersionRequests.MidwayPasses | app/control_definition_lifecycle.py:100-107 | A flush between the supersession and the effective event is never what refuses |
| VersionRequests.SecondIsRefused | app/models.py:1237-1246 | Of two overlapping requests to make versions of one parent effective, the second to write is refused |
| VersionRequests.TerminalIsFinalIff | app/policy_lifecycle.py:121-262 | However requests overlap, superseded and withdrawn are final exactly if no request was overtaken by such an event of its version between read and append |
| VersionRequests.WithdrawnBecomesEffective | app/policy_lifecycle.py:172-262 | From every state with an approved version, a request that loaded it makes it effective after another one withdrew it |
| VersionRequests.SequentialInvIff | app/policy_lifecycle.py:121-262 | The invariant of one command at a time holds exactly if, wherever a version was written between a request's read and append, the last such event still allows the command |
| VersionRequests.UndisturbedIsSequential | app/policy_lifecycle.py:121-262 | In particular it holds if no version was written between a request's read and its append |
| VersionRequests.SequentialControlInvIff | app/control_definition_lifecycle.py:163-363 | The same for control definitions, whose versions are created by drafting |
| VersionRequests.RebuildRestoresOverlapped | app/policy_lifecycle.py:99-118 | However requests overlap, a rebuild restores the table if recorded times do not fall along any version |
| VersionRequests.RacedSubmissionBreaksRebuild | app/events.py:168-203 | With rising clock readings, a submission that read the clock before a withdrawal and is appended after it leaves a log whose rebuild differs from the live table |
| LastWriters.AfterIsLastWriters | app/policy_lifecycle.py:27-72 | In whatever order a version's events are replayed, its columns are those of each column group's last writer |
| LastWriters.SameLastWriterIff | app/events.py:352-364 | The sorted replay keeps a group's last writer exactly if none was recorded later |
| LastWriters.SameColumnsIff | app/policy_lifecycle.py:27-118 | One version's replayed columns are the live ones exactly if status, submission and decision keep their last writers |
| LastWriters.RebuildRestoresIff | app/policy_lifecycle.py:99-118 | One command at a time: exactly when a rebuild gives back the live table, for every reachable state and every course of the clock |
| LastWriters.RunRebuildRestoresIff | app/policy_lifecycle.py:99-118 | The same for every run of commands |
| LastWriters.EarlierApprovalBreaksRebuild | app/policy_lifecycle.py:99-118 | If the clock steps back between a submission and its approval, the rebuild differs from the live table |
| History.ReplaySnapshots | app/history.py:160-170 | The loop over the snapshots dictionary gives each version the fold of its own events |
| History.ReconstructPolicyAsOf | app/history.py:129-170 | The result has a key for a version exactly if it belongs to the policy and was created by the cutoff, and each value is the replay of that version's answered events |
| History.ReconstructionEqualsReplay | app/history.py:129-170 | For every log, reconstruction at a cutoff equals folding the projectors, in rebuild order, over the events stated by then |
| History.ReconstructionAtTheEnd | app/history.py:129-170 | Past every event, reconstruction equals the rebuilt projection |
| History.ReconstructionShows | app/history.py:129-170 | With recorded times in order along each version: whatever the database answers, the reconstruction shows a version as its own events up to the cutoff say |
| History.ShownByEveryAnswer | app/history.py:129-170 | With recorded times in order along each version: a version that its events up to the cutoff leave effective is shown by every reconstruction of its policy, and by no other |
| History.ShownWhenInForce | app/history.py:94-126 | With recorded times in order along each version: a version is shown effective exactly while the cutoff lies in the interval of its final columns |
| History.OneShownIffNoClash | app/history.py:129-170 | No reconstruction, whatever the database answers, shows two effective versions of a policy at any cutoff if and only if no version began before the stated time of an earlier version's withdrawal |
| History.OneEffectiveAtEveryCutoff | app/history.py:129-170 | One command at a time, with a forward clock and no post-dated withdrawal: every reconstruction at every cutoff shows at most one effective version per policy |
| History.PostDatedWithdrawalShowsTwo | app/policy_lifecycle.py:234-262 | A post-dated withdrawal followed by a new effective version always shows two at once |
| AuditExport.PackageOmitsNothing | app/audit_package.py:88-97 | With recorded times in order along each version: a version that a reconstruction at an instant of the period shows effective is in the package |
| AuditExport.PackageHolds | app/audit_package.py:88-97 | The package holds exactly the policy's versions with an event that made them effective before the day after the period and without a supersession before its first day |
| AuditExport.PackageExtras | app/audit_package.py:88-97 | With recorded times in order along each version, after its creation: a version included without being effective in the period had been withdrawn or superseded by its start |
| AuditExport.ShowsIff | app/history.py:145-170 | For every course of the clock: a reconstruction shows a version effective exactly if the event recorded last, of those stated by the cutoff, made it so |
| AuditExport.PackageCoversIff | app/audit_package.py:88-97 | For every course of the clock: no package omits what a reconstruction inside its period shows exactly if there is no version whose supersession is recorded before its start, with nothing recorded later than the start before a new day begins |
| AuditExport.EarlierSupersessionIsOmitted | app/audit_package.py:88-97 | Superseding a version with a clock reading of an earlier day than its start makes that day's package omit what the reconstruction shows |
| ControlDefinitions.LastNumber | app/control_definition_lifecycle.py:163-223 | The largest number of the control's versions, 0 if there is none |
| ControlDefinitions.RunControlInv | app/control_definition_lifecycle.py:163-363 | One command at a time: after every run the table is what the events say, and each history starts with its one draft, which states the row's control and number |
| ControlDefinitions.EveryPrefixOneEffective | app/control_definition_lifecycle.py:281-334 | One command at a time: every prefix of the log in append order has at most one effective version per control |
| ControlDefinitions.LiveFlushesPass | app/control_definition_lifecycle.py:79-107 | One command at a time: no flush of a live command is refused by the index |
| DefinitionNumbers.LastNumberCounts | app/control_definition_lifecycle.py:204-204 | In every reachable state the largest number in use is the number of the control's drafts |
| DefinitionNumbers.VersionsAreNumbered | app/control_definition_lifecycle.py:204-223 | One command at a time: in every run the versions of a control are those of its draft events, numbered 1, 2, ..., n in the order of these events |
| DefinitionNumbers.NumbersAreUnique | app/control_definition_lifecycle.py:204-204 | One command at a time: no two versions of a control share a number |
| DefinitionNumbers.DraftAdds | app/control_definition_lifecycle.py:163-223 | A draft is refused exactly if its id is in use, and otherwise adds one fresh row with the number after the control's last, by its actor at the clock's time |
| DefinitionReplay.ReplayFlushingIff | app/control_definition_lifecycle.py:37-107 | The flushing replay succeeds exactly if every event fits its row and every flush is accepted after each of its statements, and has then the plain replay's rows |
| DefinitionReplay.CrossingTrips | app/models.py:262-268 | A start before the end of the version in force, in replay order, makes the replay fail |
| DefinitionReplay.DanglingTrips | app/models.py:294-296 | A supersession replayed before its successor's draft makes the replay fail |
| DefinitionReplay.FlushIff | app/control_definition_lifecycle.py:83-97 | A flush in which one version starts is accepted exactly if its end state is and no version that the database still has in force can be written after the start |
| DefinitionReplay.BatchedTrips | app/control_definition_lifecycle.py:79-115 | A withdrawal and a start of one control with no flush between them, the start's id first, make the replay fail |
| DefinitionReplay.RebuildRowsIff | app/control_definition_lifecycle.py:151-160 | The commit's own flush is never what fails |
| DefinitionReplay.TripHasCause | app/control_definition_lifecycle.py:79-115 | A refused flush has one of three causes: a crossing, a dangling successor, or a batched withdrawal and start |
| DefinitionReplay.RebuildSucceedsIff | app/control_definition_lifecycle.py:151-160 | Exactly when the rebuild succeeds, by key order or any order of statements, for reachable logs whose recorded times do not fall along any version: no crossing, no dangling successor, no batched pair; it then restores the table |
| DefinitionReplay.RunRebuildSucceedsIff | app/control_definition_lifecycle.py:151-160 | The same for every run of commands with recorded times in that order |
| DefinitionReplay.RebuildRestoresDefinitions | app/control_definition_lifecycle.py:37-160 | The plain replay restores the table, if recorded times do not fall along any version |
| DefinitionReplay.SeparationSuffices | app/control_definition_lifecycle.py:281-334 | Separating the recorded times of an end and the next start, and of a draft and the supersession it leads to, suffices if something is flushed between a withdrawal in force and the next start |
| DefinitionReplay.TiedTimesCross | app/models.py:262-268 | An end and a start with equal recorded times cross whenever the later version's id sorts first, also for withdrawals |
| DefinitionReplay.TiedReadingsBreakRebuild | app/control_definition_lifecycle.py:281-334 | Equal clock readings in one make-effective call leave a log that cannot be replayed, if the new id sorts first |
| DefinitionReplay.TiedDraftDangles | app/models.py:294-296 | Drafting, approving and making effective under one clock reading leaves a log that cannot be replayed, if the new id sorts last |
| DefinitionReplay.WithdrawalThenStartIsBatched | app/control_definition_lifecycle.py:79-115 | From every state with a version in force and an approved one with a smaller id, withdrawing the first and starting the second under rising clock readings leaves a log that cannot be replayed |
| DefinitionReplay.PolicyRebuildPasses | app/policy_lifecycle.py:99-118 | The one flush of the policy rebuild satisfies the index after each statement, in any order |
| DefinitionReplay.ControlDefinitionTable.FlushConflicts | app/models.py:262-268 | Tells exactly whether a flush, writing the changed rows by primary key, violates the index after some statement |
| DefinitionReplay.ControlDefinitionTable.Rebuild | app/control_definition_lifecycle.py:128-160 | The replay loop gives the flushing replay's table or, on its error, rolls back |
| Jobs.RunInv | app/jobs.py:82-164 | The invariant holds in every state of every prompt run |
| Jobs.Exclusive | app/jobs.py:88-112 | No two live workers ever hold the same job |
| Jobs.TerminalAbsorbing | app/jobs.py:143-164 | A succeeded or failed job's row never changes again |
| Jobs.StaleClaimCanBeTaken | app/jobs.py:82-112 | A crashed worker's job can be claimed once its claim is 120 seconds old, and nobody live holds it then |
| Jobs.AttemptsCountRuns | app/jobs.py:143-164 | attempts is the number of completed runs and at most max_attempts (or 1) |
| Jobs.SpacedTotal | app/jobs.py:155-164 | Backoffs add up to 5 * (2^(n-1) - 1) seconds |
| Jobs.FailsNoSooner | app/jobs.py:143-164 | A job claimed only by claim_job fails for good no sooner than 5 * (2^(max_attempts-1) - 1) seconds after its first failure |
| Jobs.KeysNameOneJob | app/jobs.py:48-79 | An idempotency key names at most one job |
| Jobs.StealIffStale | app/jobs.py:82-85 | A live worker's job can be claimed by another exactly from 120 seconds after its claim |
| Jobs.PicksAndClaimsIff | app/jobs.py:82-123 | The jobs that an idle worker can come to hold are exactly the oldest of those that wait with available_at reached or whose claim is 120 seconds old |
| Jobs.IdleWorkerClaims | app/jobs.py:115-123 | While any job waits or is stale, an idle worker comes to hold one |
| Jobs.NewJobIsClaimed | app/jobs.py:48-123 | A job just enqueued can be claimed at once, and is what an idle worker takes exactly if no older one waits or is stale |
| Jobs.RunEnds | app/jobs.py:143-164 | Status and attempts after a run; after a failed attempt that is not the last, the job can be claimed from 5 * 2^(attempts-1) seconds later on and not before |
| Jobs.ClaimIff | app/jobs.py:88-112 | A selected job is claimed exactly if, at the reading of its selection, it still waits or is stale |
| Jobs.ClaimSpecificIff | app/jobs.py:126-140 | In every reachable state the direct claim takes a pending job, whatever its backoff, and no other |
| Jobs.LateWorkerOverwrites | app/jobs.py:143-164 | A worker that is too late overwrites the result of the one that took over |
| Jobs.JobQueue.EnqueueJob | app/jobs.py:48-79 | Adds a pending job that is available at once, or returns the one that has the key and changes nothing |
| Jobs.JobQueue.TryClaim | app/jobs.py:88-112 | Claims exactly a job that is pending with available_at reached, or running with a claim 120 seconds old, and changes only that row |
| Jobs.JobQueue.SelectCandidate | app/jobs.py:115-123 | Finds such a job exactly if there is one, and none that is younger than another |
| Jobs.JobQueue.ClaimJob | app/jobs.py:115-123 | Claims an oldest such job exactly if there is one, and changes only its row |
| Jobs.JobQueue.ClaimSpecificJob | app/jobs.py:126-140 | Claims the job exactly if it is pending |
| Jobs.JobQueue.RunJob | app/jobs.py:143-164 | Writes status, attempts and, after a failure that is not the last, the backoff of 5 * 2^(attempts-1) seconds, without looking at the claim |
| Cadence.AddMonthsMoves | app/control_occurrences.py:148-154 | Moves by exactly the months asked for; the day changes only if the month is too short |
| Cadence.MonthLengths | app/control_occurrences.py:148-154 | The lengths of the twelve months, with 29 days in February exactly in Gregorian leap years |
| Cadence.YearLengths | app/control_occurrences.py:148-154 | 365 days in a common year and 366 in a leap year |
| Cadence.FourHundredYears | app/control_occurrences.py:148-154 | Any 400 consecutive years have 146097 days |
| Cadence.DateOrder | app/control_occurrences.py:172-172 | Dates are compared by year, then month, then day |
| Cadence.ChainDate | app/control_occurrences.py:148-194 | The k-th date is k intervals on, and its day the least of the start day and every visited month's length |
| Cadence.ChainRises | app/control_occurrences.py:148-194 | The dates of a chain are strictly later and later |
| Cadence.ComputeDates | app/control_occurrences.py:167-174 | The loop yields the dates from the start to the end |
| Cadence.DatesAreChain | app/control_occurrences.py:167-194 | Those dates are a chain, exactly up to the end |
| Cadence.DatesMembers | app/control_occurrences.py:167-194 | A date is yielded exactly if it is on the chain and not past the end |
| Cadence.ChainContinues | app/control_occurrences.py:179-194 | Continuing a chain after its last date gives the chain up to the later of both ends |
| Cadence.RollingIsOneChain | app/control_occurrences.py:176-194 | Any series of rolling calls and manual dates, none later than what is on record, leaves the dates of one chain, from the first date on record to the largest horizon since, and the manual dates |
| Cadence.FindLatest | app/control_occurrences.py:180-185 | The latest due date, if there is one |
| Occurrences.CoreOfHistory | app/control_occurrences.py:37-110 | A history starts with the creation of its row, and no later event changes control, period, due time, origin or pin |
| Occurrences.ExecKeepsInv | app/control_occurrences.py:197-397 | Every command keeps the table equal to its events, the slots unique and the references present |
| Occurrences.GeneratingAgain | app/control_occurrences.py:197-273 | Generating a period again, at any later time, appends nothing and returns the same occurrences |
| Occurrences.NamedRow | app/events.py:163-181 | What a materialization key names is the generated occurrence of that control, period and day |
| Occurrences.GeneratedIsNamed | app/control_occurrences.py:249-253 | Every generated occurrence is what its own key names |
| Occurrences.MaterializeAllGrows | app/control_occurrences.py:248-273 | A call adds only occurrences of its own plan and days and changes no other row |
| Occurrences.GenerateReturns | app/control_occurrences.py:248-273 | The k-th returned occurrence is the generated one of the k-th day |
| Occurrences.RollingCall | app/control_occurrences.py:176-194 | A rolling call changes the period-less days exactly as the calendar says |
| Occurrences.PeriodCall | app/control_occurrences.py:168-174 | After a call for an active period the generated days of the control and the period are those of before and exactly the dates on the chain from its start that are not past its end |
| Occurrences.GenerateGuards | app/control_occurrences.py:218-226 | Nothing is generated without a calendar cadence and a positive interval, and an inactive period is refused |
| Occurrences.MaterializeSucceedsIff | app/models.py:381-391 | One day is refused exactly if a manual occurrence takes its slot |
| Occurrences.GenerateSucceedsIff | app/control_occurrences.py:197-273 | A call is refused exactly if a manual occurrence takes the slot of one of its days |
| Occurrences.RollingNeverRefused | app/control_occurrences.py:176-194 | A rolling call is never refused, since its days lie after every period-less day on record |
| Occurrences.ManualBlocksPeriod | app/control_occurrences.py:276-310 | Recording the end of a period's first day by hand makes every later call for the period fail |
| Occurrences.OccurrenceTable.LatestDay | app/control_occurrences.py:180-185 | The latest period-less due day of the control, if there is one |
| Occurrences.OccurrenceTable.ComputeDueDays | app/control_occurrences.py:164-194 | Exactly the dates on the chain from the period's start up to its end; without a period, from one interval after the last due day, or from today, up to the horizon |
| Occurrences.OccurrenceTable.GenerateOccurrences | app/control_occurrences.py:197-273 | The loop gives the tables and ids of the specification, or rolls back; for a period, exactly the calendar's days of it are added |
| Occurrences.OccurrenceTable.MaterializeDays | app/control_occurrences.py:248-273 | The loop over the due dates, or the rollback of all of it |
| OccurrenceRecords.RowFromEvents | app/control_occurrences.py:37-110 | The whole row from its events: creation columns from the first, performance columns from the last performance with its stated time, and exactly the links of the linking events |
| OccurrenceRecords.RunRows | app/control_occurrences.py:37-110 | One command at a time: in every run there is a row exactly for each occurrence with events, and it tells them in every column |
| OccurrenceRecords.AcceptedIff | app/control_occurrences.py:276-397 | Recording is refused exactly if its due time is taken, performing only without a row, linking exactly if the link exists or the version does not |
| OccurrenceRecords.RecordingWrites | app/control_occurrences.py:276-310 | Recording by hand adds one row, pinned to the effective definition |
| OccurrenceRecords.PerformingWrites | app/control_occurrences.py:313-348 | A performance is stated at the caller's time and recorded at the clock's, and changes only its row |
| OccurrenceRecords.LinkingWrites | app/control_occurrences.py:351-397 | A link is added to its occurrence and nothing else changes |
| OccurrenceRecords.GeneratingWrites | app/control_occurrences.py:248-273 | Every row that a call adds is an unperformed one, due with the last microsecond of one of its days, with the id and time drawn for that day |
| OccurrenceRecords.GeneratingLogs | app/control_occurrences.py:248-273 | A call appends only materializing events, by its actor, stated and recorded at the clock's time |
| OccurrenceRecords.CallWrites | app/control_occurrences.py:228-273 | The control's owner is responsible and the effective definition is pinned in every row that a call adds |
| Operations.RunWorldInv | app/control_occurrences.py:197-397 | One command at a time: all three projections keep their invariants in every order of their commands |
| Operations.EvidenceRunsAgree | app/evidence_repository.py:143-189 | What interleaved captures have committed is what some run of these commands leaves |
| Operations.OneOccurrencePerSlot | app/models.py:381-391 | A control, period and due time have at most one occurrence |
| Operations.EffectiveIsUnique | app/models.py:184-191 | The effective version that a pin reads is unique |
| Operations.CoreForever | app/control_occurrences.py:276-397 | An occurrence keeps its control, period, due time, origin and pin under all later commands |
| Operations.PinnedWhenCreated | app/control_occurrences.py:230-246 | One command at a time: every occurrence is pinned to the version effective for its control when it was created, none exactly if none was |
| Operations.GeneratedOnceInARun | app/control_occurrences.py:197-273 | One command at a time: generating a period again later changes nothing |
| Operations.PeriodInARun | app/control_occurrences.py:168-174 | One command at a time, with fixed dates and interval: once a call for the period has succeeded, its generated days are exactly the calendar's, and before that there are none |
| Operations.DaysFollowCalendar | app/control_occurrences.py:176-194 | One command at a time: a control's period-less days are what the calendar makes of its rolling calls and manual days |
| Operations.RollingInARun | app/control_occurrences.py:176-194 | One command at a time, with a fixed interval and no later-dated manual day: those days are one chain, from the first day on record to the largest horizon since, and the manual days |
| Recovery.CapturesRestored | app/evidence_repository.py:67-90 | The evidence versions are restored from their events in any arrangement of them |
| Recovery.OccurrencesRestored | app/control_occurrences.py:123-145 | The replay of the occurrences meets every constraint and restores pins and links |
| Recovery.AfterRebuilds | app/backup.py:375-386 | What any series of rebuilds leaves of a reachable state whose recorded times do not fall along any aggregate |
| Recovery.RestoredIff | app/backup.py:342-386 | Exactly which orders of rebuilding restore such a state |
| Recovery.RegistryOrderLoses | app/backup.py:342-351 | From such a state the registry's order ends with all artifact links gone and, if the definitions replay, all pins gone; the rest is kept |
| Recovery.OccurrencesLastRestores | app/evidence_repository.py:80-90 | From such a state any series that ends with the occurrences restores it |
| Recovery.RecoveryFromAnything | app/control_definition_lifecycle.py:128-148 | Definitions and evidence first, occurrences last: restores such a state whatever the tables have come to hold |
| Recovery.ReportedExactly | app/backup.py:375-386 | Which names are reported as rebuilt and as failed; losing pins and links is not reported |
| Recovery.Database.RebuildDefinitions | app/control_definition_lifecycle.py:128-160 | Replaces the definitions and clears every pin, or changes nothing |
| Recovery.Database.RebuildEvidence | app/evidence_repository.py:67-90 | Replaces the evidence versions and clears every artifact link, or changes nothing |
| Recovery.Database.RebuildOccurrences | app/control_occurrences.py:123-145 | Replaces the occurrences, or changes nothing |
| Recovery.Database.RebuildAllProjections | app/backup.py:375-386 | The loop leaves what the series of rebuilds leaves, and reports successes and failures in order |
| Evidence.StaleViewRefused | app/models.py:1537-1537 | The constraint on version numbers refuses exactly the captures whose view is stale |
| Evidence.RunKeepsStoreInv | app/evidence_repository.py:143-189 | The invariant holds in every interleaving of captures with failures and rollbacks |
| Evidence.ObjectsArePresent | app/evidence_repository.py:150-189 | Every stored version's object is in the object store |
| Evidence.HashesAreUnique | app/evidence_repository.py:143-147 | No artifact has two versions with one hash or one number |
| Evidence.NumbersHaveNoGap | app/evidence_repository.py:157-157 | The version numbers of an artifact are exactly 1..n |
| Evidence.ResultsHoldRequests | app/evidence_repository.py:143-189 | However captures interleave and fail: one that ended without an error named a stored version with the requested content, and one that created it left the request's artifact, hash, object key, actor and stated time |
| Evidence.NoOrphans | app/evidence_repository.py:184-186 | With every failed append cleaned up and no rollback, each object belongs to a version or a capture in flight |
| Evidence.ObjectsAreExactlyTheVersions | app/evidence_repository.py:150-189 | Then, with no capture in flight, the object store holds exactly the stored versions' objects |
| Evidence.EvidenceRepository.LookUp | app/evidence_repository.py:143-147 | Finds a version with that content exactly if the artifact has one |
| Evidence.EvidenceRepository.AppendOrCleanUp | app/evidence_repository.py:157-186 | Inserts the next version, or deletes the uploaded object |
| Evidence.EvidenceRepository.EndTransaction | app/evidence_repository.py:112-142 | A commit adds exactly this version, as requested and with the stated time or the clock's; a rollback leaves the database as it was |
| Evidence.EvidenceRepository.CaptureVersion | app/evidence_repository.py:93-189 | Returns the existing version, or adds the next one as requested, or changes no row |
| Findings.Story | app/finding_lifecycle.py:39-99 | Closed exactly after a closing event; remediating or retesting only after an update |
| Findings.ClosingIsLast | app/finding_lifecycle.py:261-285 | A closing event is the last event of its finding |
| Findings.RetestAfterUpdate | app/finding_lifecycle.py:190-258 | A recorded retest follows a request, which follows a remediation update |
| Findings.RunInv | app/finding_lifecycle.py:124-285 | One command at a time: every run keeps findings equal to their events and retests within their lineage |
| Findings.RunClosesOnce | app/finding_lifecycle.py:261-285 | One command at a time: a finding has at most one closing event, the last, and is closed exactly then |
| Findings.RunUpdatesFirst | app/finding_lifecycle.py:62-99 | One command at a time: a finding in remediation or retest has an update on record, counted by the events |
| Findings.RetestHasSourcesControl | app/finding_lifecycle.py:209-258 | A retest of a finding that came from a test is a test of that test's control |
| Findings.RetestHasFindingsControlIff | app/finding_lifecycle.py:124-160 | A retest is of the finding's own control exactly if the source test was |
| Findings.MismatchedRetest | app/finding_lifecycle.py:124-258 | A run in which a finding's retest is not of the finding's own control |
| Findings.RetestedEarlier | app/control_tests.py:180-243 | The retested test was recorded earlier, for the same control |
| Findings.RetestsAreAcyclic | app/control_tests.py:180-243 | retest_of links never form a cycle |
| Findings.RebuildRestoresFindings | app/finding_lifecycle.py:111-121 | The findings are restored by a sorted replay, if recorded times do not fall along any of them |
| Findings.FindingSession.CheckExceptions | app/control_tests.py:210-216 | The loop accepts exactly exceptions that belong to the sample |
| Findings.FindingSession.RecordTestRow | app/control_tests.py:180-243 | Checks, new row and invariant of record_test |
| Findings.FindingSession.Open | app/finding_lifecycle.py:124-160 | Checks, event and invariant of open_finding |
| Findings.FindingSession.Update | app/finding_lifecycle.py:163-187 | Checks, event and invariant of record_remediation_update |
| Findings.FindingSession.AskForRetest | app/finding_lifecycle.py:190-206 | Check, event and invariant of request_retest |
| Findings.FindingSession.RecordRetestOf | app/finding_lifecycle.py:209-258 | Lineage checks, event and invariant of record_retest |
| Findings.FindingSession.Close | app/finding_lifecycle.py:261-285 | Checks, event, new row and invariant of close_finding; FindingRecords.RowFromEvents says what that row holds |
| FindingRecords.RowFromEvents | app/finding_lifecycle.py:39-99 | The whole row from its events: title, severity, control and source of the opening, the notes and the retests in order, the status that the last event other than an update left, decision and note of the last closing, and the times of the first and last event |
| FindingRecords.RunRows | app/finding_lifecycle.py:39-99 | One command at a time: in every run there is a row exactly for each finding with events, and it tells them in every column |
| FindingRecords.OverlappedRows | app/finding_lifecycle.py:39-99 | The same however requests overlap |
| FindingRecords.RunSound | app/finding_lifecycle.py:124-285 | One command at a time: every event on record has a title or note with text, a severity or decision of the list, a source test and a retest that were recorded |
| FindingRecords.OverlappedSound | app/finding_lifecycle.py:124-285 | The same however requests overlap |
| FindingRecords.RunTests | app/control_tests.py:180-220 | In every run each test met the conditions of record_test against the tests recorded before it |
| FindingRecords.AcceptedIff | app/finding_lifecycle.py:124-285 | From every reachable state, each command is accepted exactly under its stated condition; which ones are refused for a missing row |
| FindingRecords.AcceptedRecords | app/events.py:279-321 | An accepted command appends one event with its actor and time, numbered next, and changes no other finding |
| FindingRecords.LoneRequestIsCommand | app/finding_lifecycle.py:163-285 | A request with no other step in between does exactly what the command does when called alone |
| FindingRecords.CreatingIsCommand | app/finding_lifecycle.py:124-160 | Opening a finding and recording a test are the same in both machines |
| FindingRequests.RunKeepsInv | app/finding_lifecycle.py:124-285 | However requests overlap: findings are the replay of their events, and each event was guarded when it was read |
| FindingRequests.ClosingIsLastIff | app/finding_lifecycle.py:261-285 | However requests overlap, a closing event is the last exactly if no request was overtaken by a closing of its finding |
| FindingRequests.SequentialInvIff | app/finding_lifecycle.py:124-285 | The invariant of one command at a time holds exactly if, wherever a finding's status was set between a request's read and its append, the last such event still allows the command |
| FindingRequests.ClosedTwice | app/finding_lifecycle.py:261-285 | From every state with a finding that is not closed, two overlapping requests both close it |
| FindingRequests.UpdatesFirstOverlapped | app/finding_lifecycle.py:62-99 | However requests overlap, a finding in remediation or retest has an update on record |
| FindingRequests.LineageOverlapped | app/finding_lifecycle.py:209-258 | However requests overlap, retests stay within their finding's lineage |
| FindingRequests.UndisturbedIsSequential | app/finding_lifecycle.py:124-285 | The invariant of one command at a time holds if no finding was written between a request's read and its append |
| Connectors.AuditTrailIsAChain | app/connector_lifecycle.py:441-515 | One apply at a time: the audit trail leads from the first version to the present one without a gap |
| Connectors.DecreasesAreRollbacks | app/connector_lifecycle.py:476-500 | One apply at a time: a step lowers the version exactly if it is audited as a rollback, which needs allow_downgrade |
| Connectors.NeverDecreases | app/connector_lifecycle.py:400-515 | One apply at a time: without allow_downgrade no series of plans, stale or not, and applies lowers the version in the X.Y.Z order |
| Connectors.AppliedAsPlannedIff | app/connector_lifecycle.py:400-515 | In every audit record of every run the applied manifest has the planned version, capabilities and permissions, and planning it would have given that plan exactly if it is compatible and its configuration valid |
| Connectors.SubstituteIsApplied | app/connector_lifecycle.py:489-500 | A manifest that planning would refuse as incompatible is applied if it has the planned version, capabilities and permissions |
| Connectors.ConnectorInstance.ApplyUpgrade | app/connector_lifecycle.py:441-515 | Applied exactly if version, direction, connector and the reviewed parts of the manifest pass, with the new version and audit record; never lowers the version unless allowed |
| VersionText.ParseIff | app/connector_lifecycle.py:367-373 | A text parses as a version exactly if it is the decimal numerals of its three numbers joined by dots, up to leading zeros and a final newline |
| VersionText.NumeralsParse | app/connector_lifecycle.py:367-373 | The decimal numerals of any three numbers, joined by dots, parse as these numbers |
| VersionText.LessIffLighter | app/connector_lifecycle.py:416-421 | Versions are ordered as the numbers that their three parts are digits of, in any large enough base |
| VersionText.PlanMadeIff | app/connectors/manifest.py:65-111 | A plan is made exactly for a manifest of the instance's connector with a spelled version, known capabilities, distinct and typed configuration fields, and a range of contract versions that includes 1 |
| VersionText.PlanSays | app/connector_lifecycle.py:414-438 | A plan names both versions, its direction compares them as numbers, and new capabilities and permissions are exactly those that the starting manifest lacks |
| VersionText.WithoutAppend | app/connector_lifecycle.py:423-426 | What is new is listed in the manifest's order |
| VersionText.NumberNeverFalls | app/connector_lifecycle.py:400-515 | One apply at a time: without allow_downgrade the version never falls, as a number, over any series of plans and applies |
| ConnectorRequests.RunKeepsInv | app/connector_lifecycle.py:476-500 | However applies overlap: each record's apply found, when it was checked, the version its plan starts from |
| ConnectorRequests.ChainIffUndisturbed | app/connector_lifecycle.py:476-500 | Over overlapping upgrades the audit trail is a chain exactly if nothing was written between any apply's check and its write |
| ConnectorRequests.ChainIffSameVersions | app/connector_lifecycle.py:476-500 | Over any overlapping applies the trail is a chain exactly if every version at a write is the one at its check |
| ConnectorRequests.DecreaseHasCause | app/connector_lifecycle.py:476-500 | However applies overlap, a write that lowers the version is an allowed rollback or was disturbed |
| ConnectorRequests.UndisturbedNeverDecreases | app/connector_lifecycle.py:476-500 | Undisturbed applies without allow_downgrade never lower the version |
| ConnectorRequests.SecondApplyLowers | app/connector_lifecycle.py:476-500 | From every state, the second of two overlapping upgrades lowers the version without allow_downgrade, if its target is the lower one |
| ConnectorRequests.LoneApplyIsApply | app/connector_lifecycle.py:476-515 | A check and its write with no other step in between do exactly what the apply does when called alone |
| Roster.ParseRoster | app/vendor_roster_import.py:53-83 | Accepts exactly the non-empty files without an offending row, else rejects at the first one; accepted addresses are distinct |
| Roster.DistinctIsDictionary | app/vendor_roster_import.py:160-161 | A roster without duplicates is its own dictionary, in its own order |
| Roster.ByEmailFind | app/vendor_roster_import.py:160-161 | The dictionary keeps the last row of each address, once |
| Roster.CompareRow | app/vendor_roster_import.py:169-186 | What one address adds to each list |
| Roster.ComputeDelta | app/vendor_roster_import.py:156-194 | The loop computes the specified difference |
| Roster.ApplyingDeltaGivesCurrent | app/vendor_roster_import.py:156-194 | Applying the difference to the previous access gives exactly the current one |
| Roster.DeltaIsReversible | app/vendor_roster_import.py:156-194 | Read backwards it leads from the current access to the previous one |
| Roster.EmptyIffSameAccess | app/vendor_roster_import.py:156-194 | It is empty exactly if every address has the same role and status in both |
| Roster.NewAdminsAreRoleChanges | app/vendor_roster_import.py:173-178 | The new administrators are exactly the current rows whose role changed into admin |
| RosterRecords.LowerAt | app/security.py:40-41 | Lower-casing maps the capitals to the small letters of the alphabet and nothing else |
| RosterRecords.StripIs | app/security.py:40-41 | Stripping takes white space away at both ends and leaves none there |
| RosterRecords.OffendsIff | app/vendor_roster_import.py:56-78 | A row is refused exactly if it is one too many, or has no address, a bad login time, or an address seen before |
| RosterRecords.ImportedRows | app/vendor_roster_import.py:69-78 | Each accepted row holds its line's stripped texts, the address in small letters, in order |
| RosterRecords.AddedAndRemoved | app/vendor_roster_import.py:163-164 | Added and removed are exactly the rows, last of their address, whose address the other snapshot does not have |
| RosterRecords.RolesChanged | app/vendor_roster_import.py:169-176 | The role changes are exactly those of an address whose role before and now differ, with both values |
| RosterRecords.StatusesChanged | app/vendor_roster_import.py:179-186 | The status changes are exactly those of an address whose status before and now differ, with both values |
| RosterRecords.AdminsAdded | app/vendor_roster_import.py:173-178 | The new administrators are exactly the current rows whose role is admin now and was not before, in any letter case |
| RosterRecords.DeltaInOrder | app/vendor_roster_import.py:160-194 | Each list has an address once, in the order in which the addresses first occur in the snapshot |

## Left out

- Transactions of concurrent appenders: an inserted event is visible to all at once, so isolation levels, an outer transaction's rollback and pysqlite's savepoints are not modelled.
- Flushes of live commands are judged by the state they end with: SQLAlchemy's begin_nested flushes what is pending before each append, so that none of them writes an end and a start together.
- Operations.DaysFollowCalendar: calls do not overlap; two rolling calls on different days that both find no last due date would lay two chains.
- Operations.PinnedWhenCreated: calls do not overlap; a version may be superseded between the read of a pin and the write of its occurrence.
- EventStore.IntegrityErrorMeansKeyTaken: does not model NOT NULL and CHECK violations, which the same branch re-raises.
- VersionRequests.RunKeepsInv: a request's events are projected on the present row; that SQLAlchemy writes only columns that differ from what the session loaded is not modelled. The same holds of FindingRequests.RunKeepsInv.
- EventStore.DomainEvents.Interference: its body does nothing; its contract lets rivals do anything the machine allows, and that contract is what the loop is proved against.
- Jobs.JobQueue.ClaimJob: no other worker comes between its select and its update; the machine of the same module covers any interleaving. process_next_job is one claim followed by one run; handlers are a parameter (returned or raised).
- Control-definition commands are functions on values and not methods, since PolicySession already shows the same commands on a mutable table; bootstrap_initial_effective_version and the copied definition texts are not modelled.
- History.ReconstructPolicyAsOf: does not sort its result by version_number, since the result is a map.
- Evidence captures: one capture per transaction; a version insert waits for an uncommitted one with the same number. Temporary files and file metadata are not modelled.
- Recovery: no foreign key of a table outside the three projections blocks a reset (control test populations, findings). The other rebuilds of the registry are names that succeed or fail. The link tables' generated ids and created_at are not compared.
- Evidence snapshots are linked by id only; their foreign key is not checked.
- VersionText.PlanMadeIff: the manifest that a plan starts from is taken to have a validated version, as _semver_tuple demands; that int() also reads signs, underscores and spaces is not modelled.
- freeze_population and draw_sample: a sample is given by its control and items; they would only add easy members.
- run_connector_instance, installation and configuration of connectors: calls into connectors that cannot be seen.
- Text: strip, lower and digits are modelled for ASCII text; JSON and CSV syntax, datetime parsing, time zones and the year limits of Python's dates are not modelled.
- Correlation and causation ids, schema versions and actor types of events, and the columns of rows that no rule reads.
- Compliance scope and framework adoption: the same event pattern with simpler state, covered by Replay.RebuildEqualsLive for any such projector.
- Routers, pages, authentication, hashing, encryption, imports from directories, Drive, AWS and MCP clients, and the zip file of the audit package.
