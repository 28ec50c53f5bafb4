# Verification of the prober's stateful core

This project models the mechanisms of the Xray end-to-end prober that have to survive crashes,
failures, cancellations and interleavings, and proves what they keep. `dafny verify dfyconfig.toml`
checks all of it.

- **Identity reconciliation** (`Identity*.dfy`). The five passes are specified on sets in
  `IdentitySpec`; `IdentityMatching` and `Identity` are the staged loops over lists and
  dictionaries, proved to compute them; `IdentityAnswers` writes the answers out over candidates and
  rows alone; `IdentityStability` and `IdentityLaws` hold the laws over whole runs: order
  independence, partition, all-or-nothing, stability.
- **Configuration replacement** (`Config*.dfy`). The disk is a map from files to contents plus the
  journal; every protocol is a list of file operations, atomic on their own. `ConfigJournal` proves
  crash atomicity over any sequence of replacements and recoveries cut anywhere. `ConfigStore` is
  the code that performs the operations, each of which may raise before or after it took effect.
  `ConfigService` is the service above it, with cancellations deferred past the critical steps;
  `ConfigOutcome` is what a call leaves live and durable, and `ConfigRuns` executes any sequence of
  replacements, reloads, restarts and shutdowns.
- **Source publication** (`Source*.dfy`). Immutable generation, then state record, then one pointer
  rename; history pruning; and the commit in the service that resolves ambiguous write errors.
- **Scheduler** (`Scheduler.dfy`) and **runtime pool** (`PoolState.dfy`, `RuntimePool.dfy`). Each
  method is one stretch between awaits, the outcome of an await is a parameter, and `RunEvents`
  executes any sequence of enabled stretches, so that what it ensures holds over all interleavings.
  `RestartBackoff.dfy` is the backoff of one key and `Inventory.dfy` the capacity guard.
- **Configuration composition** (`TagNames.dfy`, `Outbounds.dfy`): unique tags, selection and the
  dependency worklist, against reachability by chains.
- **Output buffer** (`Lines.dfy`, `SanitizedBuffer.dfy`): bounded, never splitting a line.
- **Safe name patterns** (`SafeRegex.dfy`, `RegexAnswers.dfy`, `RegexValidator.dfy`,
  `RegexMeaning.dfy`): the cursor loops recognise exactly a grammar of flat tokens; what accepted
  patterns can match.

Digests are the bytes they were taken of, new identifiers are a supply of fresh names, clocks only
advance, and Python's character tables, regex engine and sanitizer are parameters.

## Where the code does less than it says

- Live and durable configuration are meant to agree while the service is ready. `ReplaceConfig`
  gives both after the call as a function of both before it, and `ConfigOutcome.Splits` is exactly
  when a call ends ready and apart. From agreement these are two families (`SplitsFromAgreement`):
  the candidate stays live although its commit was missed, because the commit fails in the
  committed-cancellation branch (`service.py:651-659`) or a cancellation is delivered while the
  missed commit is probed, rolled back or undone, where the handler catches only `Exception`
  (`service.py:675-701`); and the previous configuration is put back although the commit took
  effect, because the journal could not be read. Since a service that is not ready accepts further
  calls (`service.py:467-469`), write failures alone are enough over three of them
  (`ThreeWriteFailures`): the third puts back a configuration that was never durable. Each case has
  a run in `ConfigRuns`. A reload applies what stands in the file without recovering first, so that
  it makes an undone candidate live exactly if the file is not durable (`ReloadSplits`), which a
  replacement leaves behind exactly when `LeavesFile` says so: two write failures in one call and a
  reload are enough (`ReloadOfALeftFile`).
- Reconciling twice is not stable for every input: the exact condition is
  `IdentityStability.Distinguishable`, and `CrosswiseNewEntriesAreNotStable` is an input outside it.
- A durable source commit can be rejected: exactly when both attempts report a failure and, before
  the call, the mirror of all bindings or another source could not be read
  (`RejectedForTheMirror`, `RejectedThoughDurable`).
- A finished prune can leave four generations (`FourGenerationsSurvive`), when the pointer has no
  state; `PruneSourceHistory` says, in terms of the directory before it, exactly when it leaves three.
- Chunking matters exactly for complete lines over the pending limit that are not the marker
  (`ChunkingIsInvisibleIffLinesFit`); an unterminated line of any length does not matter.

## Model

| member | source | states |
|---|---|---|
| `IdentitySpec.PairsIsOneToOne` | src/xray_e2e_prober/identity.py:297-354 | Within one pass two candidates never claim the same row and no candidate claims two rows |
| `IdentitySpec.GroupSharesVerdict` | src/xray_e2e_prober/identity.py:339-394 | The candidates filed under one key are refused together or not at all, with the same conflict |
| `IdentitySpec.KeepsIsInjective` | src/xray_e2e_prober/identity.py:284-407 | Over all five passes, which candidate keeps which row is a partial injection: rows a pass used stay used |
| `IdentitySpec.Partition` | src/xray_e2e_prober/identity.py:297-407 | Every candidate keeps an entry ID, is in a conflict, or is new, and only one of the three |
| `IdentityStability.RepeatIsStableIffDistinguishable` | src/xray_e2e_prober/identity.py:265-435 | After a conflict-free run, a second run gives every candidate the row just written for it, exactly when each candidate without an external ID has a name or a present fingerprint that tells it from the others; any history of inactive rows |
| `IdentityStability.StableRepeatChangesNothing` | src/xray_e2e_prober/identity.py:265-435 | Such a second run has no conflict, no new entry and leaves no active row unkept |
| `IdentityStability.OwnNameOrFingerprintSuffices` | src/xray_e2e_prober/identity.py:314-354 | A name or a fingerprint of its own for every such candidate is enough for stability |
| `IdentityMatching.DecideMeans` | src/xray_e2e_prober/identity.py:297-400 | What the code decides from the two group sizes is what the pass does to each member of the group: claim, refuse or leave open |
| `IdentityAnswers.FatesAre` | src/xray_e2e_prober/identity.py:284-407 | Who keeps which row, who is refused and who is new, written out over the fields of candidates and rows alone, pass by pass |
| `IdentityAnswers.ConflictsAreListed` | src/xray_e2e_prober/identity.py:302-398 | Every conflict with exactly its candidates, its rows and its reason, written out over the fields |
| `IdentityAnswers.TwinsAreRefused` | src/xray_e2e_prober/identity.py:381-398 | Candidates without a stable identity that share name and fingerprint are refused against every registry |
| `IdentityAnswers.EmptyRegistryRefusesClashes` | src/xray_e2e_prober/identity.py:297-398 | Against an empty registry nobody is refused exactly if no two candidates share a stable identity, or name and fingerprint |
| `IdentityMatching.RunStage` | src/xray_e2e_prober/identity.py:297-400 | One staged loop over grouped candidates yields exactly the claims and the conflicts of its pass |
| `IdentityMatching.GroupCandidates` | src/xray_e2e_prober/identity.py:316-320 | Grouping files every keyed candidate under its key, in order, and no key twice |
| `Identity.RunPasses` | src/xray_e2e_prober/identity.py:287-400 | The five blocks in sequence compute the five passes: assignments, used rows, blocked candidates and conflicts |
| `Identity.AssignNew` | src/xray_e2e_prober/identity.py:399-407 | Exactly the candidates neither assigned nor blocked get fresh IDs, each its own |
| `Identity.WriteRows` | src/xray_e2e_prober/identity.py:419-434 | Writing back updates the row of each assigned entry or appends one, and deactivates every other row without changing it |
| `Identity.Match` | src/xray_e2e_prober/identity.py:279-418 | The result describes the passes: assignments injective, new IDs fresh, conflicts disjoint, disappeared rows exactly the active ones nobody kept |
| `Identity.IdentityRegistry.Reconcile` | src/xray_e2e_prober/identity.py:265-435 | Raises exactly on duplicate candidate IDs; otherwise answers every candidate and lists every conflict as written out over the fields; a conflict, a preview or an error leaves the registry unchanged; else the rows are rewritten; entry IDs stay unique within and across sources |
| `Identity.IdentityRegistry.ApplyManualMapping` | src/xray_e2e_prober/identity.py:437-481 | Each of the three refusals exactly when its condition holds, with nothing changed; otherwise the mapped rows are written and entry IDs stay unique within and across sources |
| `Identity.MappingRefusals` | src/xray_e2e_prober/identity.py:437-462 | What is refused of a manual mapping, over its entries and the rows of all sources |
| `Identity.WellFormedMeans` | src/xray_e2e_prober/identity.py:22 | An entry ID has 1 to 128 characters: ASCII letters and digits, and after the first also underscore, dot, colon and dash |
| `Identity.RowsWritten` | src/xray_e2e_prober/identity.py:419-434 | The written rows: for each candidate its external ID, name and fingerprint, active; every other old row as it was, inactive; nothing else |
| `Identity.IdentityRegistry.PruneUnmatchableInactive` | src/xray_e2e_prober/identity.py:245-263 | Each source keeps exactly its rows that are active or have a key; empty sources go; returns how many rows went |
| `Identity.InjectiveByCount` | src/xray_e2e_prober/identity.py:448 | A mapping has as many values as keys exactly when it is injective |
| `IdentityLaws.OrderDoesNotMatter` | src/xray_e2e_prober/identity.py:265-418 | Permuting candidates and stored rows changes neither who keeps which entry, who is new, the set of conflicts, nor what disappeared |
| `IdentityLaws.AssignedXorOneConflict` | src/xray_e2e_prober/identity.py:297-418 | Every candidate is assigned or listed in exactly one conflict, never both |
| `IdentityLaws.TwinsAreListed` | src/xray_e2e_prober/identity.py:381-398 | Two candidates without a stable identity that share name and fingerprint are never assigned and both listed in a conflict |
| `IdentityLaws.EmptyRegistryAccepts` | src/xray_e2e_prober/identity.py:297-398 | Against an empty registry the result has no conflict exactly if no two candidates share a stable identity, or name and fingerprint |
| `IdentityLaws.ActiveRowsAreTheAssignedOnes` | src/xray_e2e_prober/identity.py:419-434 | After an applied reconciliation the active rows are exactly those of the assigned entries |
| `IdentityLaws.SecondReconcileIsStable` | src/xray_e2e_prober/identity.py:265-435 | Reconciling again against the rows just written gives the same assignment with nothing new, conflicting or gone, exactly when the candidates are distinguishable |
| `IdentityLaws.PruningChangesNoResult` | src/xray_e2e_prober/identity.py:245-263 | A reconciliation against the pruned rows has exactly the same possible results as against all rows |
| `IdentityLaws.CrosswiseNewEntriesAreNotStable` | src/xray_e2e_prober/identity.py:339-394 | Four new entries that share names and fingerprints crosswise are accepted once and are not distinguishable, so reconciliation is not idempotent for them |
| `IdentityLaws.SuchEntriesExist` | src/xray_e2e_prober/identity.py:339-394 | Such four entries exist |
| `ConfigJournal.BeginRefusals` | src/xray_e2e_prober/storage.py:674-713 | When begin is refused and why: a journal, a name that is no safe path or taken, the first such name deciding, or a configuration over 16 MiB |
| `ConfigJournal.RecoveryRefusals` | src/xray_e2e_prober/storage.py:715-776 | When recovery, the question for a transaction and commit are refused and why: a journal that is unreadable, foreign or names no safe path, a backup that is missing, too large or not the one recorded |
| `ConfigJournal.RecoveredIs` | src/xray_e2e_prober/storage.py:734-763 | A completed recovery in closed form: old configuration or its absence restored, the transaction's secrets gone, journal and backup gone, every other file untouched |
| `ConfigJournal.InterruptedRecoveryKeepsMeaning` | src/xray_e2e_prober/storage.py:734-763 | A recovery cut after any operation can be run again and ends on the same disk |
| `ConfigJournal.PreparedStandsForOld` | src/xray_e2e_prober/storage.py:674-713 | Begin, secret writes and configuration write, cut anywhere, stand for the old disk: recovery does not raise and gives exactly the old files |
| `ConfigJournal.PreparedDisk` | src/xray_e2e_prober/storage.py:305-311 | Run to the end they leave the new configuration with all its secrets, and commit is two unlinks away |
| `ConfigJournal.CommittedStandsForNew` | src/xray_e2e_prober/storage.py:765-776 | Once the journal is unlinked recovery gives the new configuration with its secrets, whether or not the backup is gone |
| `ConfigJournal.EventIsAtomic` | src/xray_e2e_prober/storage.py:674-776 | One replacement or recovery, cut anywhere, keeps the disk recoverable and makes it stand for the same files or, only if commit unlinked the journal, for the updated ones |
| `ConfigJournal.RunsAreAtomic` | src/xray_e2e_prober/storage.py:674-776 | Over any sequence of cut replacements and cut recoveries recovery never raises, and it yields the files the committed replacements make as single updates |
| `ConfigJournal.CleanDiskIsRecoverable` | src/xray_e2e_prober/storage.py:734-743 | A data directory without a journal is a start of such runs |
| `ConfigStore.DataStore.BeginConfigReplace` | src/xray_e2e_prober/storage.py:674-713 | Refuses with the first problem and changes nothing, or performs its operations up to the first fault and succeeds exactly if there was none |
| `ConfigStore.DataStore.WriteNewSecret` | src/xray_e2e_prober/storage.py:305-311 | Refuses an unresolvable or existing name unchanged, otherwise one write that may fail before or after it took effect |
| `ConfigStore.DataStore.HasPendingConfigReplace` | src/xray_e2e_prober/storage.py:715-732 | Says whether a transaction for this target is pending, or why that cannot be said |
| `ConfigStore.DataStore.RecoverConfigReplace` | src/xray_e2e_prober/storage.py:734-763 | Refuses a foreign or damaged journal unchanged, otherwise performs the recovery up to the first fault; the answer says whether a transaction was rolled back |
| `ConfigStore.DataStore.CommitConfigReplace` | src/xray_e2e_prober/storage.py:765-776 | Succeeds exactly if the journal unlink succeeded; a fault at the backup does not count |
| `ConfigService.Service.ApplyConfig` | src/xray_e2e_prober/service.py:519-586 | Fails early with nothing changed, fails while quiescing with the old configuration and not ready, or makes the configuration live; ready only when activation finished and the service is not stopping |
| `ConfigService.Service.Prepare` | src/xray_e2e_prober/service.py:602-628 | Gets to the end exactly when begin is admissible, no two secrets share a file and no write fails or is cancelled, as decided by the disk and the schedule before; then the files are the old ones with the candidate and every secret under its own file; either way the disk stands for what it stood for |
| `ConfigService.Service.WriteSecrets` | src/xray_e2e_prober/service.py:613-626 | All new secrets are written, each with its own value, exactly when no two share a file and no write fails or is cancelled |
| `ConfigService.Service.Restart` | src/xray_e2e_prober/service.py:279-356 | A new process is ready only with the durable configuration live, and only after recovery, loading, applying and the control server all succeeded; any start that does not return leaves the service stopping and not ready |
| `ConfigService.Service.Shutdown` | src/xray_e2e_prober/service.py:381-389 | Takes readiness and nothing else away |
| `ConfigService.Service.Rollback` | src/xray_e2e_prober/storage.py:734-763 | A rollback, cut by any fault, never changes what the disk stands for; the file is durable after it unless its first operation failed before it took effect; without a fault nothing is pending any more |
| `ConfigService.Service.ReloadConfig` | src/xray_e2e_prober/service.py:588-600 | From every start: what stands in the file becomes live if applying it succeeds; a ready service runs what is durable after it exactly if the reload does not split, which is decided before it |
| `ConfigService.Service.ReplaceConfig` | src/xray_e2e_prober/service.py:602-703 | From every start and under every schedule of faults and cancellations: live, durable and file configuration and the readiness after the call, as a function of those before it; a restart finds the old files with the candidate and every secret under its own file if the journal gets unlinked, and exactly the old files otherwise; a service that ends ready runs what is durable exactly if the call does not split; what a normal return and a refusal mean |
| `ConfigService.Service.CommitActivated` | src/xray_e2e_prober/service.py:645-703 | The same for the commit of an activated candidate, whatever was live and durable before: all prepared files become final, or none |
| `ConfigService.Service.Restore` | src/xray_e2e_prober/service.py:675-703 | The handler never changes what the disk stands for; which configuration it leaves live, and exactly when the service is ready after it |
| `ConfigOutcome.AgreesUnlessItSplits` | src/xray_e2e_prober/service.py:602-703 | The condition is exact from every start, agreeing or not, for changes and for replacements that change nothing |
| `ConfigOutcome.SplitsFromAgreement` | src/xray_e2e_prober/service.py:645-703 | From agreement exactly two families of schedules split, and only for a real change: the candidate stays live although its commit was missed, or the previous configuration is put back although the commit took effect |
| `ConfigOutcome.CommittedNeverSplits` | src/xray_e2e_prober/service.py:645-680 | With a readable journal, an activated candidate whose commit took effect ends live, durable and ready, from every start and however the commit is cancelled |
| `ConfigOutcome.UncancelledSplitsOnlyByPuttingBack` | src/xray_e2e_prober/service.py:602-703 | Without cancellations after activation and with a readable journal, exactly one thing splits: putting back a configuration that was not durable before the call |
| `ConfigOutcome.ReloadAgreesUnlessItSplits` | src/xray_e2e_prober/service.py:588-600 | The condition for a reload is exact from every start: it leaves a disagreeing service alone, or makes live a file that is not durable; with a durable file an applied reload repairs any disagreement |
| `ConfigOutcome.FileIsDurableUnlessLeft` | src/xray_e2e_prober/service.py:602-703 | Exactly when a replacement leaves a file that is not durable, as decided before it: a missed commit without a rollback, or a rollback that fails before it has restored the file |
| `ConfigRuns.RunAgreesUnlessAStepSplits` | src/xray_e2e_prober/service.py:279-703 | Over every run of replacements, reloads, restarts and shutdowns from agreement: a ready service runs what is durable at every moment exactly if no step of the run splits |
| `ConfigRuns.ReloadsSplitOnlyAfterAFileWasLeft` | src/xray_e2e_prober/service.py:588-703 | Over every run in which no replacement leaves its file behind, the file is durable throughout, so that no reload splits an agreeing service |
| `ConfigRuns.HarmlessRunsAgree` | src/xray_e2e_prober/service.py:279-703 | Runs with write failures anywhere agree throughout, as long as no call puts back, and no reload loads, a configuration that is not durable |
| `ConfigRuns.RunEvents` | src/xray_e2e_prober/service.py:279-703 | Executing any sequence of replacements, reloads, restarts and shutdowns makes such a run |
| `ConfigRuns.CommitFailsAfterCancellation` | src/xray_e2e_prober/service.py:651-659 | A run that ends ready and apart: the commit fails in the branch that follows a cancellation after the swap |
| `ConfigRuns.RollbackIsCancelled` | src/xray_e2e_prober/service.py:675-703 | Another: a cancellation delivered while a missed commit is rolled back |
| `ConfigRuns.ProbeIsCancelled` | src/xray_e2e_prober/service.py:660-680 | Another: a cancellation delivered while a missed commit is probed |
| `ConfigRuns.PuttingBackIsCancelled` | src/xray_e2e_prober/service.py:686-703 | Another: a cancellation delivered before the previous configuration was applied again |
| `ConfigRuns.JournalCannotBeRead` | src/xray_e2e_prober/service.py:660-703 | Another: the commit took effect, reported a failure, and the journal cannot be looked at |
| `ConfigRuns.ThreeWriteFailures` | src/xray_e2e_prober/service.py:675-703 | And one with write failures alone, over three calls, from a service that is ready and agrees |
| `ConfigRuns.ReloadOfALeftFile` | src/xray_e2e_prober/service.py:588-674 | And one with two write failures in one call and a reload |
| `SourceStore.LoadStateMeans` | src/xray_e2e_prober/storage.py:421-465 | Following a pointer, file by file: the state it names and the generation, each there, readable and of this source and generation, and which error else |
| `SourceStore.LoadMeans` | src/xray_e2e_prober/storage.py:421-465 | What a restart knows of a source, from its directory and the mirror |
| `SourceStore.BindingsMean` | src/xray_e2e_prober/storage.py:575-599 | The registry takes the bindings from where a load takes them and fails where a load would |
| `SourceStore.PointerCommits` | src/xray_e2e_prober/storage.py:362-420 | Renaming the pointer makes the source load the new generation with its bindings and every other source load as before |
| `SourceStore.NewGenerationIsInvisible` | src/xray_e2e_prober/storage.py:324-344 | Writing an immutable generation changes no load of any source |
| `SourceStore.NewStateIsInvisible` | src/xray_e2e_prober/storage.py:362-420 | Writing a state record not yet named changes no load of any source |
| `SourceStore.MirrorIsInvisible` | src/xray_e2e_prober/storage.py:575-599 | Rewriting the mirror changes no load of a source with a state pointer |
| `SourceStore.UnnamedFilesAreInvisible` | src/xray_e2e_prober/storage.py:601-659 | Deleting a state or generation the pointer does not name changes no load of any source |
| `SourceStore.DataStore.LoadIdentityRegistry` | src/xray_e2e_prober/storage.py:575-599 | Succeeds exactly when the mirror, if any, and the pointer and state of every source can be read, and then holds, source by source, the state behind the pointer, else the mirror |
| `SourceStore.DataStore.SaveGenerationFile` | src/xray_e2e_prober/storage.py:324-344 | An existing generation is never rewritten, a differing one is refused, and no load changes |
| `SourceStore.DataStore.PublishSourceState` | src/xray_e2e_prober/storage.py:362-420 | With a failure before or after any write, the source loads entirely the new pair if the pointer was switched and entirely the old one otherwise; other sources with a state pointer load as before; mirror and pruning failures do not matter; without a pruning failure at most three states and three generations are left |
| `SourceStore.DataStore.PruneSourceHistory` | src/xray_e2e_prober/storage.py:601-659 | Whichever deletion fails or comes last every source loads as before; a finished prune leaves the states that the pointer and the order by age determine, deletes no generation a remaining readable state names, leaves at most three generations exactly when the pointer and the states to be kept name at most three, as seen before the prune, deletes nothing while there is room and keeps the newest |
| `SourceStore.RetainStates` | src/xray_e2e_prober/storage.py:620-634 | The current state if present, then the newest others, three in all or every one there is, without repetition |
| `SourceStore.RetainGenerations` | src/xray_e2e_prober/storage.py:647-656 | The named generations, filled up with the newest while there are fewer than three |
| `SourceStore.FourGenerationsCanBePinned` | src/xray_e2e_prober/storage.py:635-656 | A pointer without a state and three states to be kept name four generations |
| `SourceStore.FourGenerationsSurvive` | src/xray_e2e_prober/storage.py:601-659 | A prune without a fault that leaves four generation files |
| `SourceCommit.Service.SourcePublishIsVisible` | src/xray_e2e_prober/service.py:1180-1194 | True exactly when every source can be read and a restart would load this generation with these bindings; a damaged store answers no |
| `SourceCommit.Service.PublishDurably` | src/xray_e2e_prober/service.py:765-792 | On every store, damaged or not: after one retry and the question to the disk, a durable pair is accepted exactly when an attempt reports success or everything else that the registry is read from could be read before the call; on a well-formed store always; the pair is durable exactly when an attempt switches the pointer or it was before, if the source loaded before, and without a switch the old pair stays durable |
| `SourceCommit.Service.CommitSourceState` | src/xray_e2e_prober/service.py:763-871 | Raises exactly when the publication is not accepted, by the same condition on the store and the schedule before, and then identity, generations and inventory are unchanged; accepted, the new pair is durable and adopted; a later executor failure keeps the new state and gives up readiness |
| `SourceCommit.PublishedIsWellFormed` | src/xray_e2e_prober/storage.py:421-465 | Publication keeps every source of a well-formed store loadable |
| `SourceCommit.RejectedThoughDurable` | src/xray_e2e_prober/service.py:765-792 | Both attempts report a failure after the pointer was switched, and another source is damaged: the pair is durable and the commit rejected |
| `SourceCommit.RejectedForTheMirror` | src/xray_e2e_prober/storage.py:575-583 | The same without any other source, with a damaged mirror |
| `Scheduler.Scheduler.Update` | src/xray_e2e_prober/scheduler.py:80-116 | The last check given under an ID becomes its job; tracked are the generations of all jobs and, as gone, the checks that had one and are still queued or running; producers follow the jobs; the invariant is kept |
| `Scheduler.Retrack` | src/xray_e2e_prober/scheduler.py:84-109 | The loops over the dictionaries compute that tracking |
| `Scheduler.Scheduler.RunOnce` | src/xray_e2e_prober/scheduler.py:131-147 | Refused exactly when the check is queued or running or the queue is full, and then nothing changes; otherwise queued with a pending future; errors reported exactly for a full queue or when an item of the check in this very generation is queued or at a worker |
| `Scheduler.Scheduler.EnqueueScheduled` | src/xray_e2e_prober/scheduler.py:199-212 | A periodic tick is queued exactly when the check is not about and there is room |
| `Scheduler.Scheduler.Tick` | src/xray_e2e_prober/scheduler.py:190-193 | A producer whose job has been replaced queues nothing |
| `Scheduler.Scheduler.Start` | src/xray_e2e_prober/scheduler.py:68-78 | A stopped scheduler gets its workers and a producer per job; a started one is unchanged |
| `Scheduler.Scheduler.TakeNext` | src/xray_e2e_prober/scheduler.py:217-235 | The first item goes to the runner unless another generation is tracked, or it is a tick of a job that is gone or another one by now; such an item is dropped and accounted for, and a pending future of it fails |
| `Scheduler.Scheduler.Release` | src/xray_e2e_prober/scheduler.py:253-266 | An item that is through settles its future with exactly the outcome, unless it was settled already, and no other future; it is counted done once, and its tombstone goes exactly if nothing else needs it |
| `Scheduler.Scheduler.Finish` | src/xray_e2e_prober/scheduler.py:236-266 | A runner that ended frees its check, and a pending future of its item ends with exactly that outcome; every other future is unchanged |
| `Scheduler.Scheduler.CancelFuture` | src/xray_e2e_prober/scheduler.py:131-147 | A caller that gives up cancels its own pending future and no other |
| `Scheduler.Scheduler.FinishStop` | src/xray_e2e_prober/scheduler.py:156-170 | After stop nothing is queued or running, no task is unaccounted for, and exactly the futures that were pending are cancelled |
| `Scheduler.TrackedIsOk` | src/xray_e2e_prober/scheduler.py:80-109 | Tracking after an update satisfies the generation invariant for the new jobs |
| `Scheduler.QueueTakes` | src/xray_e2e_prober/scheduler.py:217-222 | Taking the head keeps queue, queued set and queued generations in step |
| `Scheduler.WorkersFinish` | src/xray_e2e_prober/scheduler.py:260-264 | A finishing worker keeps the running set and the running generations in step with the workers |
| `Scheduler.WorkersCount` | src/xray_e2e_prober/scheduler.py:214-266 | The running set is as large as the number of workers at the runner, never over the concurrency |
| `Scheduler.Scheduler.InvariantMeans` | src/xray_e2e_prober/scheduler.py:131-266 | At every await: queued and running disjoint and bounded, the two generation maps have exactly those domains, unfinished tasks are queued plus running, a tracked generation is the job's and a tombstone is queued or running |
| `Scheduler.Scheduler.Step` | src/xray_e2e_prober/scheduler.py:68-266 | Every stretch between awaits keeps the invariant, and only taking an item starts the runner |
| `Scheduler.Scheduler.RunEvents` | src/xray_e2e_prober/scheduler.py:68-291 | Over every run a periodic item reaches the runner only with the current job's generation, and a tracked manual item only with the tracked one |
| `Scheduler.Scheduler.SomethingCanHappen` | src/xray_e2e_prober/scheduler.py:214-266 | Nothing gets stuck: with workers left, a queued item is taken or a running one ends, and stopping comes to its end; calls, ticks and callers that give up are never held back |
| `PoolState.HeldByOne` | src/xray_e2e_prober/runtime_pool.py:134-136 | No two tasks hold the same key lock |
| `PoolState.SoundStep` | src/xray_e2e_prober/runtime_pool.py:132-171 | A task that changes what is published only under the key it holds disturbs no other task's expectations |
| `PoolState.OwnersMove` | src/xray_e2e_prober/runtime_pool.py:231-268 | A step changes the number of slot owners by exactly its own slot |
| `RuntimePool.SweepsStep` | src/xray_e2e_prober/runtime_pool.py:341-370 | A step that publishes only wanted generations and only while open keeps what sweeps rely on |
| `RuntimePool.Withdrawn` | src/xray_e2e_prober/runtime_pool.py:192-206 | Withdrawing a runtime removes one published key, keeps all locks exclusive and moves no other slot |
| `RuntimePool.RuntimePool.Acquire` | src/xray_e2e_prober/runtime_pool.py:95-126 | A closed pool raises; otherwise the caller waits for its key or its start |
| `RuntimePool.RuntimePool.EnterKey` | src/xray_e2e_prober/runtime_pool.py:132-152 | With the key lock: refused when closed or not wanted, the published runtime reused when current and alive, replaced when not, else started |
| `RuntimePool.RuntimePool.TakeSlot` | src/xray_e2e_prober/runtime_pool.py:234-237 | Starting takes exactly one slot |
| `RuntimePool.RuntimePool.Started` | src/xray_e2e_prober/runtime_pool.py:154-171 | A persistent runtime is published exactly when open and still wanted at that moment, else discarded with its slot; a fresh one keeps the slot |
| `RuntimePool.RuntimePool.Discarded` | src/xray_e2e_prober/runtime_pool.py:155-163 | A failed, cancelled, obsolete or finished runtime gives back exactly one slot, however stopping it ended |
| `RuntimePool.RuntimePool.EnterCheckup` | src/xray_e2e_prober/runtime_pool.py:177-221 | Only the runtime still published under the key is retired, when it is to go or dead |
| `RuntimePool.RuntimePool.Stopped` | src/xray_e2e_prober/runtime_pool.py:192-206 | A replaced or retired runtime frees exactly one slot whether stopping raised or not |
| `RuntimePool.RuntimePool.Reconcile` | src/xray_e2e_prober/runtime_pool.py:341-354 | The wanted generations change at once, and all published or locked keys are due for a visit |
| `RuntimePool.RuntimePool.SweepKey` | src/xray_e2e_prober/runtime_pool.py:355-370 | A visited key keeps its runtime exactly when its generation is wanted and alive |
| `RuntimePool.RuntimePool.SweepStopped` | src/xray_e2e_prober/runtime_pool.py:363-370 | A runtime a sweep stopped is withdrawn and frees one slot; if stopping raised the sweep is over |
| `RuntimePool.RuntimePool.ReconcileReturns` | src/xray_e2e_prober/runtime_pool.py:341-370 | When the latest reconcile returns every published runtime has the wanted generation |
| `RuntimePool.RuntimePool.CloseReturns` | src/xray_e2e_prober/runtime_pool.py:379-394 | When close returns nothing is published, so that clearing the dictionary loses no slot, and all remaining slots belong to tasks |
| `RuntimePool.RuntimePool.Step` | src/xray_e2e_prober/runtime_pool.py:95-394 | Every step of every interleaving keeps free slots + published runtimes + owning tasks equal to the limit; only a new sweep changes what is wanted |
| `RuntimePool.RuntimePool.RunEvents` | src/xray_e2e_prober/runtime_pool.py:95-394 | So over every run; and from a settled pool no run without a new sweep publishes anything obsolete |
| `RuntimePool.RuntimePool.AllSlotsFreeAfterClose` | src/xray_e2e_prober/runtime_pool.py:379-394 | Closed and with no task in flight, every slot is free |
| `RuntimePool.RuntimePool.NothingObsoleteIsPublished` | src/xray_e2e_prober/runtime_pool.py:173-175 | In a settled pool every published runtime is the wanted one of its key, and there are no more of them than wanted keys |
| `RuntimePool.RuntimePool.SomethingCanHappen` | src/xray_e2e_prober/runtime_pool.py:95-394 | No deadlock: while a task is not done, something other than a cancellation can happen, unless published runtimes take all slots; callers are never held back |
| `RestartBackoff.DelayBeginsInitial` | src/xray_e2e_prober/runtime_pool.py:280-287 | The first delay is the initial one |
| `RestartBackoff.DelayDoubles` | src/xray_e2e_prober/runtime_pool.py:286-289 | The closed form min(max, initial times 2 to the n-1) follows the code's doubling and capping |
| `RestartBackoff.DelayIsMonotoneAndBounded` | src/xray_e2e_prober/runtime_pool.py:280-294 | More failures never shorten the delay, which stays between the initial and the maximal one |
| `RestartBackoff.RestartBackoff.Record` | src/xray_e2e_prober/runtime_pool.py:280-294 | The recorded delay is the initial one at first, then twice the last one up to the maximum, which is the closed form; the retry time is that far off |
| `RestartBackoff.RestartBackoff.EnterLock` | src/xray_e2e_prober/runtime_pool.py:270-278 | With nothing published, a start is refused exactly while the retry time of the last failure is ahead |
| `RestartBackoff.RestartBackoff.StartSucceeds` | src/xray_e2e_prober/runtime_pool.py:165-171 | A started persistent runtime is to be forgiven once it has outlived the delay it was held back for, a fresh one at once |
| `RestartBackoff.RestartBackoff.ResetIfStable` | src/xray_e2e_prober/runtime_pool.py:223-229 | Failures are forgiven exactly when the published runtime has outlived the delay it was held back for |
| `RestartBackoff.RestartBackoff.RunEvents` | src/xray_e2e_prober/runtime_pool.py:223-294 | Over every run the manager is never asked before the retry time of any failure recorded before, forgiven or not |
| `RestartBackoff.RestartBackoff.SomethingCanHappen` | src/xray_e2e_prober/runtime_pool.py:223-294 | What can happen in each phase: a start is tried, reaches the manager, succeeds or fails; a published runtime is forgiven, retired or lost |
| `Inventory.Admit` | src/xray_e2e_prober/inventory.py:115-142 | An inventory is accepted exactly when its persistent profiles, and one more if a fresh check is enabled, fit into the limit |
| `Inventory.ProfilesMean` | src/xray_e2e_prober/inventory.py:115-141 | Only enabled checks count, persistent ones once for each key and generation |
| `Inventory.WantedIsLast` | src/xray_e2e_prober/runtime_pool.py:341-350 | Wanted under a key is the generation of the last enabled persistent check with it |
| `Inventory.WantedAreProfiles` | src/xray_e2e_prober/inventory.py:115-127 | What a reconcile over the enabled checks wants is among the guarded profiles |
| `Inventory.PersistentRuntimesNeverPinAllSlots` | src/xray_e2e_prober/inventory.py:128-142 | A pool settled on an accepted inventory with an enabled fresh check never has all slots pinned by persistent runtimes |
| `Inventory.NothingGetsStuck` | src/xray_e2e_prober/inventory.py:128-142 | A pool settled on an accepted inventory with an enabled fresh check never deadlocks |
| `TagNames.DigitsAreDecimal` | src/xray_e2e_prober/runtime.py:213-219 | Suffixes are printed in decimal without leading zeros |
| `TagNames.DigitsDiffer` | src/xray_e2e_prober/runtime.py:218-219 | Different suffixes print differently |
| `TagNames.FirstFree` | src/xray_e2e_prober/runtime.py:214-219 | The search for a free numbered tag ends and yields the first candidate not taken |
| `TagNames.FirstFreeIsUnique` | src/xray_e2e_prober/runtime.py:214-219 | That tag is determined by the base and the taken names |
| `Outbounds.CollectTags` | src/xray_e2e_prober/runtime.py:198-206 | Raises exactly when an item is no mapping or an explicit tag is not a new non-empty string |
| `Outbounds.TagsOkMeans` | src/xray_e2e_prober/runtime.py:198-206 | Every explicit tag is a string, not empty, and on no earlier outbound |
| `Outbounds.ProtocolsOkMeans` | src/xray_e2e_prober/runtime.py:207-211 | The protocols are vless, freedom, blackhole and dns |
| `Outbounds.Normalize` | src/xray_e2e_prober/runtime.py:188-223 | Succeeds exactly for a non-empty list with good tags and supported protocols; each outbound is kept but for a missing tag, which becomes the first free numbered one |
| `Outbounds.CompletionMeans` | src/xray_e2e_prober/runtime.py:212-223 | An untagged outbound gets its numbered name, or that name with the first numeric suffix, that is neither an explicit tag nor given to an earlier one; nothing else of it changes |
| `Outbounds.NormalizedTagsAreDistinct` | src/xray_e2e_prober/runtime.py:188-223 | All tags end up present and distinct and no explicit one is touched, wherever it stands |
| `Outbounds.MatchesMeans` | src/xray_e2e_prober/runtime.py:229-238 | With a requested tag the outbounds that carry it match, otherwise those that speak VLESS |
| `Outbounds.MatchingIsTheOnly` | src/xray_e2e_prober/runtime.py:229-238 | One match is found exactly when one outbound alone matches, and it is that one |
| `Outbounds.SelectionIsUnique` | src/xray_e2e_prober/runtime.py:226-241 | Selection succeeds exactly when one outbound alone matches the requested tag, or the protocol without a request, and it speaks VLESS |
| `Outbounds.SelectionErrors` | src/xray_e2e_prober/runtime.py:229-241 | A requested tag that is not there once is an invalid configuration, every other failure of selection is unsupported |
| `Outbounds.ChainsToMeans` | src/xray_e2e_prober/runtime.py:244-254 | An outbound chains to the tag in its proxy settings and to its dialer proxy, and to nothing else |
| `Outbounds.Visit` | src/xray_e2e_prober/runtime.py:262-272 | The new dependencies of one outbound are queued; reports exactly when one has no outbound |
| `Outbounds.ConnectionOutbounds` | src/xray_e2e_prober/runtime.py:257-275 | Terminates on every graph, fails exactly when the selected outbound reaches a missing tag, and otherwise keeps exactly the reachable outbounds in their order |
| `Outbounds.ClosedHoldsChain` | src/xray_e2e_prober/runtime.py:261-272 | A set of tags that chaining does not leave holds everything reachable from it |
| `Outbounds.KeptIsSelfContained` | src/xray_e2e_prober/runtime.py:273-275 | Among the kept outbounds every dependency is there and all are reachable through kept ones |
| `Outbounds.NormalizedIsDetermined` | src/xray_e2e_prober/runtime.py:188-223 | A list normalizes to one list only |
| `Outbounds.MissingDependencyFails` | src/xray_e2e_prober/runtime.py:264-270 | A reached outbound whose proxy or dialer has no outbound makes the composition fail |
| `Outbounds.BuildConnection` | src/xray_e2e_prober/runtime.py:427-455 | Succeeds exactly when the given list is good, one VLESS outbound is selected and nothing it reaches is missing, with the error else; the result is the closure, distinctly tagged; every proxy and every dialer of a kept outbound is kept, and every other kept outbound is one of these |
| `Outbounds.CollisionFreeInboundTag` | src/xray_e2e_prober/runtime.py:494-518 | The managed inbound tag is no inbound's and no routing rule names it, alone or in a list; it is the plain name or the first numbered one that is free |
| `Lines.MarkerMeans` | src/xray_e2e_prober/runtime.py:760-772 | The marker's text, and the byte that ends a line |
| `Lines.CutContinues` | src/xray_e2e_prober/runtime.py:760-766 | More bytes only continue the incomplete line |
| `Lines.CutJoins` | src/xray_e2e_prober/runtime.py:760-766 | Cutting a stream into lines loses nothing |
| `Lines.CutEndsLines` | src/xray_e2e_prober/runtime.py:760-766 | Every complete line ends with its only newline |
| `Lines.ItemsShowLines` | src/xray_e2e_prober/runtime.py:753-772 | For every chunking the appended items are the lines in order, each whole or as exactly one marker, a marker only for a line over the pending limit; what is pending stays within it |
| `Lines.StateIgnoresChunking` | src/xray_e2e_prober/runtime.py:753-772 | What is pending, and whether a line is being dropped, never depends on the chunking |
| `Lines.ChunkingIsInvisibleIffLinesFit` | src/xray_e2e_prober/runtime.py:753-772 | For every stream: all chunkings show the same exactly if each complete line fits the limit or is the marker itself; the unterminated end does not matter |
| `Lines.FittingLinesIgnoreChunking` | src/xray_e2e_prober/runtime.py:753-772 | With such lines the chunking makes no difference to items and state |
| `Lines.LongLineDependsOnChunking` | src/xray_e2e_prober/runtime.py:760-772 | With any other line it does: fed whole the line is shown, cut before its newline it is replaced |
| `SanitizedBuffer.TrimsEnd` | src/xray_e2e_prober/runtime.py:743-751 | Cutting excess bytes off the front leaves an end of the output |
| `SanitizedBuffer.SanitizedBuffer.AppendSafe` | src/xray_e2e_prober/runtime.py:736-751 | The output grows by one sanitized line; retained is an end of it, of exactly the limit or all of it |
| `SanitizedBuffer.SanitizedBuffer.Feed` | src/xray_e2e_prober/runtime.py:753-772 | After each chunk every complete line of the stream is there, in order, whole or as the marker if it is over the limit; the incomplete one is pending, within the limit, or is being dropped behind its marker; the retained bytes stay exact |
| `SanitizedBuffer.SanitizedBuffer.Finish` | src/xray_e2e_prober/runtime.py:774-777 | At the end of the stream the incomplete last line is shown too, whole or as its marker |
| `SanitizedBuffer.ChunkingIsInvisible` | src/xray_e2e_prober/runtime.py:718-777 | Two buffers fed the same bytes in different chunks end up the same if every complete line fits, whatever its unterminated end |
| `RegexAnswers.AcceptedMeans` | src/xray_e2e_prober/safe_regex.py:72-109 | What is accepted, with every character written out: literals other than the thirteen special ones, escapes of no digit and of fifteen letters only, classes, carets that open and dollars that close branches, at most 31 bars |
| `RegexAnswers.ClassesAreSafe` | src/xray_e2e_prober/safe_regex.py:50-69 | What a character class is, character by character: perhaps a caret, perhaps a literal closing bracket, then characters and escapes without an opening bracket |
| `RegexAnswers.FirstError` | src/xray_e2e_prober/safe_regex.py:72-109 | After accepted tokens the next character decides the error: each of the seven repetition and group characters, brackets, misplaced anchors, the 33rd branch and each bad escape with its own |
| `RegexAnswers.ClassErrors` | src/xray_e2e_prober/safe_regex.py:50-69 | A class that is not closed, contains an opening bracket or a bad escape raises the respective error |
| `SafeRegex.AcceptedIsFlat` | src/xray_e2e_prober/safe_regex.py:72-109 | An accepted expression is the text of tokens that are flat: single characters, escapes, classes, anchors at branch ends, at most 31 bars |
| `SafeRegex.FlatIsAccepted` | src/xray_e2e_prober/safe_regex.py:72-109 | Every flat sequence of tokens is accepted, and read back as these tokens |
| `SafeRegex.ClassIsLocal` | src/xray_e2e_prober/safe_regex.py:50-69 | A character class is recognised the same whatever follows it |
| `RegexValidator.IsEscaped` | src/xray_e2e_prober/safe_regex.py:28-34 | True exactly when an odd number of backslashes ends just before the index |
| `RegexValidator.ConsumeCharacterClass` | src/xray_e2e_prober/safe_regex.py:50-69 | The cursor loop ends where the class ends, or raises what is wrong with it |
| `RegexValidator.ValidateFlatAlternatives` | src/xray_e2e_prober/safe_regex.py:72-109 | The cursor loop raises exactly the error of the grammar, or none |
| `RegexValidator.StripLeavesNothing` | src/xray_e2e_prober/safe_regex.py:120-134 | The flag, the outer anchors and one outer group are taken off whenever they are there, a closing dollar only after an even number of backslashes |
| `RegexValidator.Strip` | src/xray_e2e_prober/safe_regex.py:120-134 | The stripped frame rendered around the stripped expression is the pattern again |
| `RegexValidator.AcceptedPatternIsFramedFlat` | src/xray_e2e_prober/safe_regex.py:112-140 | An accepted pattern of at most 256 characters is an optional flag, optional anchors and at most one group around flat tokens |
| `RegexValidator.ValidateSafeNameRegex` | src/xray_e2e_prober/safe_regex.py:112-140 | Returns the pattern exactly when it has at most 256 characters, is a frame around safe tokens and compiles; otherwise raises the first error, length before syntax before compilation |
| `RegexMeaning.AcceptedMatchesAreShort` | src/xray_e2e_prober/safe_regex.py:72-140 | No match of an accepted pattern is longer than the pattern, which has at most 32 branches |
| `RegexMeaning.SpecialMeans` | src/xray_e2e_prober/cli.py:620-628 | The characters that escaping puts a backslash before |
| `RegexMeaning.EscapedNameEndsEven` | src/xray_e2e_prober/safe_regex.py:125-127 | Escaping a name leaves no backslash that would escape the closing anchor |
| `RegexMeaning.ExactRuleParses` | src/xray_e2e_prober/cli.py:620-628 | The rule generated for a name parses as anchors around the name's characters, if it is not too long |
| `RegexMeaning.ExactRuleMatchesExactlyTheName` | src/xray_e2e_prober/cli.py:620-628 | A generated rule is accepted exactly if it has at most 256 characters, and it is found in exactly two values: the name, and the name with one newline after it |

## Left out

- HTTP probing, SOCKS, TLS, redirects, TTFB and the regex subprocess of `checker.py`: network behaviour.
- Spawning, readiness polling, port reservation and signals of `runtime.py`: a start returns a runtime or fails, a stop ends or raises.
- `cli.py`, `api.py`, `metrics.py`, `control.py`, `logging_config.py`, `importers.py`, `sources.py`, `assignments.py`, `security.py`: transport, rendering and validation chains; candidates and assignment decisions are inputs.
- Validation of configurations by pydantic and YAML, file modes, fsync below one file operation, temporary files of atomic writes and the advisory lock.
- Size limits of journal and secret payloads, and pruning of unreferenced transaction secrets after a replacement: an oversized payload behaves as a write that raises before it took effect.
- The configuration path is taken to be distinct from journal, backup and secrets.
- Identity rows are values in a sequence: sharing of one binding object between dictionaries of the original is not captured.
- Identity.IdentityRegistry.Reconcile: uniqueness of stored entry IDs is an invariant of the class, while a hand-edited registry file could break it, as the stored model does not validate it.
- Identity.IdentityRegistry.ApplyManualMapping: the new IDs are reported as a set, not in mapping order; uniqueness of stored entry IDs is assumed as for `Reconcile`.
- ConfigService.Service.ApplyConfig: validation, quiescing and activation are folded into one outcome parameter, which the contract spreads over configuration and readiness; what they do inside is not modelled.
- ConfigService.Service.Restart: a restart is a new process on the same data directory, and what it loads besides the configuration either loads or does not. Nobody else edits the configuration file. A shutdown that arrives during a call is taken to arrive right after it.
- The other parts of `apply_config`, such as source statuses, refresh locks and the old executor's objects, and the refresh loops of the service.
- Scheduler.Scheduler.Tick: a producer's sleeping and its hash-based first delay are not modelled; any tick may come at any time.
- Scheduler.Scheduler.FinishStop: two overlapping calls of stop are not modelled; payloads, log records and the error callback's own failures are not either.
- RuntimePool.RuntimePool.EnterStart: the per-start lock is not modelled in the pool, any task may pass it, which allows more interleavings than the code; `RestartBackoff` models what the lock is for.
- RestartBackoff.RestartBackoff.RunEvents: one effective key, used under one lifecycle and kept in the inventory; with both lifecycles on one key a retirement can record a failure between another task's look at the backoff and its start.
- Observatory warm-up is part of a start, whose outcome is a parameter.
- Inventory.Admit: the nested loops that fill the compiled dictionary are not modelled, only the capacity guard over their result.
- Outbounds.BuildConnection: rejection of unsafe features, the inbound, the routing rule and the final validation of the composed configuration are not modelled.
- SanitizedBuffer.SanitizedBuffer.AppendSafe: decoding, redaction and encoding of one line are one uninterpreted function; `text` is not modelled.
- RegexMeaning.AcceptedMatchesAreShort: time bounds of the engine are not modelled; letter escapes, classes, folding and boundaries are parameters.
