# Verified models of the hard cores

This project models six pieces of the repository whose correctness spans whole runs rather
than one function, and proves what each of them is for. Code that changes things step by
step is modelled by classes, in-place updates and loops, each proved to take one step of a
specification; what the system promises is then proved about every run of those steps.

| Part | Modules | Where it lives |
|---|---|---|
| GitHub cooldown protocol | `Cooldown`, `CooldownStore`, `CooldownRuns`, `CooldownLaws`, `CooldownMerge` | `internal/cache/github_rate_limits.go` |
| Quota families and the paced lane | `Quota`, `QuotaStore`, `QuotaRuns`, `AdmissionLane`, `AdmissionAnswer` | `internal/cache/github_quota.go` |
| Backup host | `BackupDisk`, `BackupRetention`, `BackupHost` | `deploy/scripts/pg-backup-policy.py`, `deploy/scripts/pg_backup_runtime.py` |
| Replay partitions | `Connectivity`, `UnionFind`, `ReplayEvidence`, `ReplayTimetable`, `PartitionSplit`, `ReplayAssignment`, `ReplayLaws`, `ReplaySelection` | `scripts/code_review_export_selection.py` |
| JSON framing scanner | `JsonGrammar`, `JsonNames`, `JsonPrimitive`, `JsonScan`, `JsonRescan`, `JsonDocument`, `JsonLanguage`, `JsonSoundness`, `JsonLaws` | `scripts/code_review_export_metadata.py` |
| Smaller pieces | `StringConstants`, `ConstantText`, `CyclicConstants`, `ConstantPasses`, `LogRing` | `cmd/lint-lifecycle/main.go`, `internal/cache/session_streams.go` |

`Sets` and `Options` hold shared helpers. `dafny verify dfyconfig.toml` checks everything.

**Cooldown.** Each Redis script is one atomic step on a record of generation, episodes,
deadline, attribution and probe lease; a run is any sequence of steps by any number of
controllers, and losing the key is a step of its own. Generation and deadline claims hold for
all four scripts with arbitrary reconciled states. Claims about a token's authority hold for
runs of observe, claim and complete, because reconcile can put a retained token into an empty
probe slot. `CooldownLaws` says what the scripts are bound to do rather than what they may not: a
lapsed lease is taken over by the next claim, and an undisturbed holder can always report and
complete. Two results are exact conditions rather than plain promises: key loss reopens
generations (`KeyLossReopensAGeneration` gives the run), and reconciling converges in every
order if and only if the record is not a completion tombstone or every offer it has closed is
outlasted by a newer one (`ConvergesInEveryOrder`).

**Quota.** The bounded table of reset windows with its lossy summary is compared with the full
history of reports, including what older binaries write into the shared scalar at any time. What a
background caller with low quota is told is stated by the lane it finds and the lane it leaves
(`Told`), and what an older reader finds in the scalar by the reports made since.

**Backup.** The disk is a value: archives, partials, receipts, one marker, the pin, guard
results. Every durable write goes through `Commit`, which may crash instead of writing and which
demands that the disk it would leave is valid. So a method that verifies has a valid disk at each
of its crash points, and `Operate` extends this to every sequence of the commands `backup`,
`resume-verification`, `resume-upload`, `prune`, `import-receipt`, `restore`, `pin-restored` and
`approve-checksums` (`plan` writes nothing). A valid disk has every unreceipted archive and every
partial named by the marker, its pin held, and the object keys tried so far distinct. A ghost
trail remembers what was first recorded for each archive: no run changes a recorded start or
checksum, and only `import-receipt` on a settled archive gives a receipt another size, the one the
database has at that time. The trail also has the content of every dump recorded as completed and
the names that retention removed: at every crash point of every run a completed dump is held under
the marker with that content, or has its receipt with that checksum, or was pruned, and then two
copies with receipts are on disk and one of them is newer (`Retained` as part of the disk's
validity, `CompletedDumpIsNeverLost`). Two copies with receipts, once there, are there after every
command and every crash, and so is each archive or a newer one.

**Interrupted backups.** A disk with a marker is `Resumable` when its dump completed, its last
transfer provably stopped and its file is unambiguous, and `Stuck` otherwise. Both halves are
proved. No sequence of commands changes a stuck disk, apart from recording the results of refused
attempts, and a `Stranded` one, on which a crash between linking and unlinking left both names, not
at all (`Operate`). And what is resumable is taken up: everything outside the host's control goes
through `Attempt`, which counts the faults, and a resume or reconciliation without a new fault
completes if and only if the disk is resumable and its arguments fit, the operator giving the size
exactly when the marker has none (`ResumeVerification`, `ResumeUpload`, `ReconcileReceipt`). The
same holds of the other commands: a `backup` completes only if and, without a new fault, whenever it
can start, has two archives or is a bootstrap, and has the approval or is a canary (`CanStartMeans`
says by the guards' results when it can start);
`ResumableMeansTakenUp` shows that fitting arguments exist for every resumable disk.
`AmbiguousMeansStranded` shows that finding both names or neither means finding both,
`InterruptedPublicationStrands` that every publication cut short after its link ends there, and
`StrandedIsReachable` gives the writes of a first backup that do.

**Retention and the clock.** Names sort by timestamp, so after a clock stepped back the backup just
taken may not be the newest archive. `KeptExactlyWhen` says which archives retention keeps, and
`RolledBackClockPrunesTheNewBackup` gives a case in which it removes the new one at once. What a
completed `backup` promises (`TookBackup`) is that a dump which had not completed before did, and
that its archive is there or was pruned for a newer one.

**Replay.** The rule is stated without any algorithm: groups are classes of a linking
relation, sorted, split by exact fractions, and quarantined on overlap. It determines the plan
uniquely, and the imperative computation with union-find is proved to produce it. `ReplayLaws` says
what the rule means for the rows themselves: which ties link them, when a row is sound, which
fractions of pull requests the partitions hold, and exactly which rows are quarantined.

**JSON.** The scanner is proved to accept exactly the printed forms of a grammar tree (sections
2, 6 and 7 of RFC 8259, distinct decoded member names, nesting at most 64), in both directions,
and to return exactly the spans the tree was printed to. Rescanning any inner span agrees. What name
a string gives is fixed by an encoder: decoding inverts every way of writing every name, and every
string is a way of writing its name (`ReadExactlyWhenSpelled`). Numbers and words are those of the
scanner's regular expression (`PrimitiveMatches`).

**Where code and comment differ.** `packageStringConstants` says that cyclic expressions "remain
dynamic", and its users compare values with the marker itself (`cmd/lint-lifecycle/main.go:488`
and `:692`). The value of a cyclic name always contains the marker but need not be it:
`SelfSumOutgrowsTheMarker` computes the outcome for `a = a + "x"`. `CyclicIsTheMarkerExactlyWhen`
says when it is: if and only if following bare references from the name meets no sum, provided
neither operand of the sum it meets resolves to the empty text. With such an operand the outcome
depends on file order, as `EmptyOperandDependsOnOrder` shows for `a = a + b; b = ""`. A log ring
of size zero grants every replay and returns nothing; the exact condition under which a granted
replay is complete is `ReplayIsCompleteExactlyWhen`.

## Model

| member | source | states |
|---|---|---|
| CooldownStore.CooldownHash.RunObserve | internal/cache/github_rate_limits.go:48-89 | the field-by-field script is one observe step of the record; an ordinary response always applies, a probe's if it is the stored one or brings a longer deadline of the provider; each field is written out |
| CooldownStore.CooldownHash.RunClaim | internal/cache/github_rate_limits.go:91-101 | the claim script is one claim step; it is taken exactly when there is a deadline, it has passed and the stored lease has lapsed, and then leaves exactly its own lease |
| CooldownStore.CooldownHash.RunComplete | internal/cache/github_rate_limits.go:103-120 | completes exactly for the stored generation, owner and token; a success closes the generation, a release opens the next, anything else changes nothing |
| CooldownStore.CooldownHash.RunReconcile | internal/cache/github_rate_limits.go:122-215 | the three-way merge script is one reconcile step with each field written out, and reports whether it wrote |
| CooldownRuns.RunKeepsCoherent | internal/cache/github_rate_limits.go:48-215 | every state of every run, key loss included, has a non-negative deadline and no probe of a generation beyond the record's |
| CooldownRuns.GenerationNeverDecreases | internal/cache/github_rate_limits.go:48-215 | without key loss the generation never decreases, whatever states reconcile is given |
| CooldownRuns.OneOutcomePerGeneration | internal/cache/github_rate_limits.go:48-215 | in every run of all four scripts at most one probe outcome is applied per generation |
| CooldownRuns.KeyLossReopensAGeneration | internal/cache/github_rate_limits.go:48-120 | a run with key loss in which generation 1 has two outcomes |
| CooldownRuns.StoredProbeIsTheLatestClaim | internal/cache/github_rate_limits.go:48-120 | in runs of observe, claim and complete a stored probe is the last claim taken, the record has not changed since, and its deadline has passed |
| CooldownRuns.SuccessLiftsItsOwnDeadline | internal/cache/github_rate_limits.go:91-120 | with a non-decreasing clock and fresh tokens an applied success lifts exactly the deadline its probe was admitted against |
| CooldownRuns.SupersededProbeNeverCompletes | internal/cache/github_rate_limits.go:91-120 | once a second claim is taken, the first probe's completion never applies |
| CooldownRuns.LiveLeaseExcludesSecondProbe | internal/cache/github_rate_limits.go:91-101 | a second probe is admitted within a live lease only after a step that revoked the first |
| CooldownRuns.DeadlineHolds | internal/cache/github_rate_limits.go:72-81 | over any run of all four scripts the deadline falls only by an applied success |
| CooldownRuns.NoProbeBeforeDeadline | internal/cache/github_rate_limits.go:91-202 | after an applied deadline no probe is claimed before it unless a success was applied in between |
| CooldownRuns.AttributionNamesTheDeadline | internal/cache/github_rate_limits.go:72-77 | in every run of all four scripts the stored attribution is that of a step which supplied the stored deadline |
| CooldownLaws.ClaimLeavesItsLease | internal/cache/github_rate_limits.go:91-101 | from an expired deadline and a free or lapsed slot a claim leaves exactly its own lease, from any other record it changes nothing |
| CooldownLaws.LapsedLeaseIsTakenOver | internal/cache/github_rate_limits.go:91-101 | in every run, after a claim that nothing revoked, the next claim takes the slot over if and only if the lease has lapsed |
| CooldownLaws.HolderCompletes | internal/cache/github_rate_limits.go:103-120 | in every run the holder of an undisturbed lease, lapsed or not, completes: success closes its generation, release opens the next |
| CooldownLaws.HolderReports | internal/cache/github_rate_limits.go:48-89 | in every run such a holder that is limited again opens the next episode, and the later of the two deadlines holds |
| CooldownLaws.EpisodesCountOpenings | internal/cache/github_rate_limits.go:62-71 | the episode counter counts exactly the observations after the deadline and those of the stored probe |
| CooldownLaws.EpisodesNeverDecrease | internal/cache/github_rate_limits.go:48-215 | without key loss the episode counter never falls, whatever states reconcile is given |
| CooldownMerge.LiveRecordJoins | internal/cache/github_rate_limits.go:122-202 | from any record that is not a tombstone, any list of retained states ends with the maximum generation and deadline and a matching attribution |
| CooldownMerge.OutlastedTombstoneJoins | internal/cache/github_rate_limits.go:134-142 | a tombstone still joins when each offer it closed is outlasted by a newer one |
| CooldownMerge.UnoutlastedTombstoneLoses | internal/cache/github_rate_limits.go:134-153 | otherwise there is an order of the same offers that loses a deadline |
| CooldownMerge.ConvergesInEveryOrder | internal/cache/github_rate_limits.go:122-215 | convergence in every order holds if and only if that condition does |
| CooldownMerge.OrderDoesNotMatter | internal/cache/github_rate_limits.go:122-215 | two orders of the same offers agree on generation and deadline |
| QuotaStore.QuotaHashes.PurgeExpired | internal/cache/github_quota.go:45-77 | the purge loop leaves exactly the unexpired families and reads off their true minimum and last reset |
| QuotaStore.QuotaHashes.MergeFamily | internal/cache/github_quota.go:78-101 | a report counts exactly if its reset is within two hours and it does not raise a window; it updates, adds, or past sixteen windows folds; the running minimum and last reset stay true |
| QuotaStore.QuotaHashes.LoadFamilies | internal/cache/github_quota.go:45-107 | purge and import of the older binaries' scalar are one load step; a live scalar bounds the reading and any other is ignored |
| QuotaStore.QuotaHashes.RetainFamilies | internal/cache/github_quota.go:108-115 | the families are kept exactly until the last reset they hold, and dropped with the lane when they hold none |
| QuotaStore.QuotaHashes.ObserveQuota | internal/cache/github_quota.go:118-132 | an observation is one observe step, an invalid one changes nothing; the scalar follows unless it is live and the report is of another window or higher; the hash is kept exactly until the last reset in it |
| QuotaStore.QuotaHashes.KeepScalar | internal/cache/github_quota.go:126-129 | the scalar follows a live report exactly when its own window has passed or is the same with no less remaining |
| QuotaStore.QuotaHashes.AdmitBackground | internal/cache/github_quota.go:134-230 | low exactly when a window or the summary is at or below the reserve; healthy or unknown quota admits and resets the lane; low quota overflows exactly as a newcomer to 1024 waiting, admits exactly the caller who takes the free slot and leaves the lane, and tells anybody else, who has a place, a time ahead |
| QuotaStore.QuotaHashes.RequestBackground | internal/cache/github_quota.go:248-262 | malformed requests are refused and change nothing, no reserve admits; the slot is never taken for more than 15 minutes, and who is told to wait keeps a place that outlives the time told |
| QuotaStore.QuotaHashes.ImportLane | internal/cache/github_quota.go:163-189 | migration keeps legacy places with a name of 1 to 128, a deadline within 45 minutes and a sequence below 2^53 - 1, all of them unless 1024 were reached; the counter is the highest, and a slot taken for up to 15 minutes stays taken |
| QuotaStore.QuotaHashes.ScanLane | internal/cache/github_quota.go:194-213 | the scan drops exactly the lapsed candidates and finds one with the smallest sequence |
| QuotaStore.QuotaHashes.Place | internal/cache/github_quota.go:214-229 | taking a place and, if first and the slot is free, the slot, is one call of the lane; the answer is what the lane before and after say |
| QuotaRuns.RunStaysSane | internal/cache/github_quota.go:78-101 | at most sixteen families are stored at every point of every run |
| QuotaRuns.LowestIsConservative | internal/cache/github_quota.go:45-132 | the lowest remaining quota is at most that of every valid report whose reset is still ahead |
| QuotaRuns.RunWitnessed | internal/cache/github_quota.go:78-107 | every window in the table holds a value that was reported for it, and the summary only reported numbers |
| QuotaRuns.SummaryIsExact | internal/cache/github_quota.go:84-92 | at every point of every run the overflow summary is exactly the last reset and the least remaining of the reports folded into it since it was last dropped, and absent when there are none |
| QuotaRuns.FoldsAreReports | internal/cache/github_quota.go:78-107 | only valid reports are ever folded |
| QuotaRuns.FoldsExist | internal/cache/github_quota.go:78-107 | every run has its sequence of folded reports |
| QuotaRuns.SummaryNeverOutlivesItsReports | internal/cache/github_quota.go:52-62 | a summary that a reading sees reaches exactly to the reset of a report folded into it, which is still ahead |
| QuotaRuns.NothingOverflows | internal/cache/github_quota.go:84-92 | nothing is folded while at most sixteen resets are ahead at once |
| QuotaRuns.LowestIsExact | internal/cache/github_quota.go:45-132 | whenever no summary is held, also after one has lapsed, the lowest remaining quota is exactly the minimum over live reports |
| QuotaRuns.LowestIsExactWhileTableSuffices | internal/cache/github_quota.go:45-132 | in particular while no more than sixteen resets have been ahead at once |
| QuotaRuns.LiveScalarHoldsItsWindow | internal/cache/github_quota.go:123-129 | over any run a live window in the scalar is replaced only by itself, and holds the least remaining reported for it |
| QuotaRuns.LapsedScalarIsReplaced | internal/cache/github_quota.go:123-129 | a window that has passed gives way to the very next valid report |
| QuotaRuns.ReportsAre | internal/cache/github_quota.go:104-107 | exactly the valid observations, and the live scalar at each reading, enter the history of reports |
| AdmissionLane.LaneStaysValid | internal/cache/github_quota.go:194-229 | the lane never holds more than 1024 candidates, with sequences at most the counter |
| AdmissionLane.AdmissionsAreSpaced | internal/cache/github_quota.go:222-229 | any two paced admissions are at least the interval granted to the first apart |
| AdmissionLane.AdmissionIsFirstInLine | internal/cache/github_quota.go:194-227 | each paced admission goes to a live candidate no live candidate precedes; a newcomer only to an empty lane |
| AdmissionLane.AheadShrinks | internal/cache/github_quota.go:194-229 | nobody gets in front of a waiting candidate and each admission takes one from in front |
| AdmissionLane.WaitIsBounded | internal/cache/github_quota.go:194-229 | over any stretch of waiting, admissions granted plus candidates still ahead never exceed those ahead at the start |
| AdmissionAnswer.ReplyTells | internal/cache/github_quota.go:214-229 | every answer is an overflow, an admission or a wait as described by the lane found and the lane left, with everybody else's place unmoved |
| AdmissionAnswer.AnswerMeans | internal/cache/github_quota.go:214-229 | each flag holds if and only if the two lanes say so; a caller strictly first at a free slot is admitted |
| BackupDisk.NoMarkerMeansSettled | deploy/scripts/pg-backup-policy.py:140-142 | with no marker every archive has its matching receipt and no partial exists |
| BackupDisk.CompletedDumpIsNeverLost | deploy/scripts/pg_backup_runtime.py:742-761 | whatever happened since, a dump recorded as completed is on disk with its content, under the marker or with its receipt; or it was pruned, and then two copies with receipts are on disk and one is newer |
| BackupDisk.PrunedAreSuperseded | deploy/scripts/pg-backup-policy.py:283-308 | a pruned archive is gone while two copies with receipts are on disk, one of them newer |
| BackupDisk.ArchivesAreDumps | deploy/scripts/pg-backup-policy.py:404-450 | every archive on disk is a dump recorded as completed |
| BackupDisk.FirstDumpCompletes | deploy/scripts/pg-backup-policy.py:404-414 | the writes of a first dump, each leaving a valid disk |
| BackupDisk.TransferCarries | deploy/scripts/pg_backup_runtime.py:742-761 | a transfer gives its archive up only to its receipt |
| BackupDisk.ResumableMeansTakenUp | deploy/scripts/pg-backup-policy.py:452-580 | a disk is resumable if and only if some command with some arguments takes it up |
| BackupDisk.CanStartMeans | deploy/scripts/pg-backup-policy.py:378-387 | a backup can start if and only if nothing is pending, or the dump completed, its last transfer provably stopped, its size is recorded and its file is unambiguous or not yet receipted |
| BackupDisk.AmbiguousMeansStranded | deploy/scripts/pg-backup-policy.py:466-467 | a verification marker is refused on its names if and only if both exist |
| BackupDisk.InterruptedPublicationStrands | deploy/scripts/pg-backup-policy.py:437-439 | every publication cut short between link and unlink leaves a valid, stranded disk |
| BackupDisk.StrandedIsReachable | deploy/scripts/pg-backup-policy.py:404-439 | from that dump two more writes strand it, each leaving a valid disk |
| BackupDisk.ReceiptCarriesMarkerEvidence | deploy/scripts/pg-backup-policy.py:404-414 | through any failures, resumes and imports the receipt carries the marker's dump start and checksum, and its size unless an import measured the database anew |
| BackupDisk.ReceiptEvidenceNeverChanges | deploy/scripts/pg-backup-policy.py:537-554 | a receipt is only ever replaced by one with the same dump start and checksum |
| BackupRetention.SelectionHolds | deploy/scripts/pg-backup-policy.py:260-274 | the selection holds the newest archive and the pin, and two distinct archives whenever there are two |
| BackupRetention.KeptExactlyWhen | deploy/scripts/pg-backup-policy.py:260-274 | an archive is kept if and only if it is the newest, or pinned, or the second newest with no older pin |
| BackupRetention.ExcessMeansMoreThanTwo | deploy/scripts/pg-backup-policy.py:286-289 | there is something to prune if and only if there are more than two archives, and then exactly two are kept |
| BackupRetention.SelectionIsExactly | deploy/scripts/pg-backup-policy.py:260-274 | the selection written out: the newest with the pin, or the two newest |
| BackupRetention.SelectionHeads | deploy/scripts/pg-backup-policy.py:260-274 | the first archive kept is the newest there is |
| BackupRetention.RolledBackClockPrunesTheNewBackup | deploy/scripts/pg-backup-policy.py:260-274 | a backup stamped before two existing archives is not selected |
| BackupRetention.SelectionIgnoresUnselected | deploy/scripts/pg-backup-policy.py:283-297 | removing an unselected archive never changes the selection |
| BackupRetention.ListingIsUnique | deploy/scripts/pg-backup-policy.py:236-258 | the newest-first inventory of a directory is unique |
| BackupRetention.PartlyPruned | deploy/scripts/pg-backup-policy.py:287-297 | however far removal got, what is kept stayed, the oldest went first and two copies are kept |
| BackupHost.Host.Commit | deploy/scripts/pg-backup-policy.py:404-414 | a durable write happens or the host crashes before it; only valid disks may be written |
| BackupHost.Host.Inventory | deploy/scripts/pg-backup-policy.py:236-258 | accepts only when every archive has a matching receipt, and lists exactly the archives, newest first |
| BackupHost.Host.Select | deploy/scripts/pg-backup-policy.py:260-274 | the choosing loop computes the selection, and refuses if and only if the pinned archive is missing or changed |
| BackupHost.Host.Prune | deploy/scripts/pg-backup-policy.py:283-308 | wherever it stops, kept archives stay, the oldest excess went first and only with two copies kept, and each archive or a newer one is there; when done exactly the selection remains; what went is recorded and nothing else; receipts go only with their archives and are retired; beside a marker it changes nothing; without a new fault it completes if there is nothing to prune or the approval is there |
| BackupHost.Host.RemoveOne | deploy/scripts/pg-backup-policy.py:292-305 | one unselected archive goes, or nothing does, and the selection is unchanged after it |
| BackupHost.Host.Recheck | deploy/scripts/pg-backup-policy.py:293-298 | the recheck before an unlink cannot fail by pruning's own doing: without a new fault it succeeds |
| BackupHost.Host.StartDump | deploy/scripts/pg-backup-policy.py:404-409 | the marker is written before the partial exists |
| BackupHost.Host.RunDump | deploy/scripts/pg_backup_runtime.py:464-478 | unless cleanup is proven the partial and its marker stay; a recorded proven failure left neither; a completed dump keeps both and its content is recorded; without a new fault it completes, and with none but the dump's own its failure is recorded as proven exactly when the stop is |
| BackupHost.Host.CleanupPartial | deploy/scripts/pg_backup_runtime.py:400-411 | only of a dump never recorded as completed: the partial goes first, then the marker naming it, and nothing else changes |
| BackupHost.Host.FinishArchive | deploy/scripts/pg-backup-policy.py:421-450 | from completed dump to receipt: at most this archive, its receipt and its first records are added, nothing is given up, and the dump stays in transit until its receipt, at every crash point; with its partial there and its name free it completes unless a fault occurs |
| BackupHost.Host.Publish | deploy/scripts/pg-backup-policy.py:437-440 | link then unlink moves the partial, with its content, to its final name under an unchanged marker; a crash leaves the disk as it was or stranded |
| BackupHost.Host.StartUpload | deploy/scripts/pg-backup-policy.py:441-448 | the upload marker names the published archive, the given checksum and size, and an untried key |
| BackupHost.Host.UploadArchive | deploy/scripts/pg-backup-policy.py:493-515 | one attempt under the marker's key; when done the receipt carries exactly the marker's evidence and the marker is gone |
| BackupHost.Host.PublishReceipt | deploy/scripts/pg-backup-policy.py:326-335 | the receipt is durable before the marker goes, and nothing else changes |
| BackupHost.Host.EndTransfer | deploy/scripts/pg_backup_runtime.py:742-761 | a transfer guard's result, written by it or by the process watching it, says whether it completed and otherwise whether its stop is proven; it never changes archive, partial, marker or another attempt's result |
| BackupHost.Host.ResumeVerification | deploy/scripts/pg-backup-policy.py:452-491 | keeps the dump in transit until its receipt; without a new fault it completes if and only if the disk is resumable and the size given fits; a stuck disk stays as it is, a stranded one exactly |
| BackupHost.Host.PendingVerification | deploy/scripts/pg-backup-policy.py:465-481 | accepts if and only if the marker is in verification, not stranded, and the size is given exactly when it has none; yields that size |
| BackupHost.Host.RecoverVerification | deploy/scripts/pg_backup_runtime.py:784-866 | changes nothing unless the dump completed and the last attempt provably stopped; then completes unless a fault occurs, from whichever name exists, and keeps the dump in transit until its receipt |
| BackupHost.Host.PendingUpload | deploy/scripts/pg-backup-policy.py:517-554 | accepts if and only if the marker is in upload, the size is given exactly when it has none, and a receipt is there only if allowed; yields that size |
| BackupHost.Host.ResumeUpload | deploy/scripts/pg-backup-policy.py:556-559 | keeps the archive in transit until its receipt; without a new fault it completes if and only if the disk is resumable, unreceipted and the size given fits; a stuck disk stays as it is |
| BackupHost.Host.RecoverUpload | deploy/scripts/pg_backup_runtime.py:887-959 | changes nothing without proof of the last stop, else completes unless a fault occurs; when done the receipt has the marker's identity, checksum and times under a key private to the fresh attempt |
| BackupHost.Host.ReconcileReceipt | deploy/scripts/pg-backup-policy.py:561-570 | without a new fault it publishes an independent receipt if and only if the disk is resumable and file, key, checksum and size fit the marker; no copy is lost |
| BackupHost.Host.PublishIndependentReceipt | deploy/scripts/pg_backup_runtime.py:961-975 | the receipt is durable before the marker goes |
| BackupHost.Host.ImportReceipt | deploy/scripts/pg-backup-policy.py:337-367 | reconciles beside a marker, else replaces the receipt of a settled archive with the same content, in each case exactly for fitting arguments unless a fault occurs; only then may a recorded size change |
| BackupHost.Host.ReplaceReceipt | deploy/scripts/pg-backup-policy.py:340-366 | marker, receipt, marker gone: archives, other receipts and copies stay, at every crash point |
| BackupHost.Host.RecordImport | deploy/scripts/pg-backup-policy.py:358-366 | the imported receipt keeps the prior one's file, identity, checksum, key and times |
| BackupHost.Host.Restore | deploy/scripts/pg-backup-policy.py:609-643 | a drill leaves the disk as it was, or, with cleanup unproven, with its marker only; with nothing pending and an archive there it completes unless a fault occurs, and never otherwise |
| BackupHost.Host.DumpAndTransfer | deploy/scripts/pg-backup-policy.py:393-416 | one new archive, of a dump that completed in this run, nothing else given up; completes unless a fault occurs |
| BackupHost.Host.FinishInterrupted | deploy/scripts/pg-backup-policy.py:378-387 | finishes exactly what a backup can start from, unless a fault occurs, dumping nothing and giving nothing up |
| BackupHost.Host.PinRestored | deploy/scripts/pg-backup-policy.py:771-785 | pins exactly a settled archive whose receipt has the given checksum, unless a fault occurs, and changes nothing else |
| BackupHost.Host.ApproveChecksums | deploy/scripts/pg-backup-policy.py:771-782 | approves exactly on a settled checksum upload, unless a fault occurs, and changes nothing else |
| BackupHost.Host.Backup | deploy/scripts/pg-backup-policy.py:377-419 | completes only if, and unless a fault occurs whenever, it can start, has two archives or is a bootstrap, and has the approval or is a canary; without the approval or the archives it dumps nothing; every crash point valid, the pin untouched, two copies kept once there, each archive or a newer one there; a canary gives up nothing and adds the archive of a dump that completed in this run; a normal run ends with at most two archives, that of such a dump there or pruned for a newer one; a stuck disk stays as it is |
| BackupHost.Host.Operate | deploy/scripts/pg-backup-policy.py:377-785 | every sequence of all commands, each crashing, refusing or completing anywhere, keeps the disk valid, the first records unchanged, every completed dump held, receipted or pruned while two copies and a newer one are there, and each archive or a newer one on disk; a stuck disk stays stuck and otherwise untouched for good |
| UnionFind.Forest.Root | scripts/code_review_export_selection.py:97-101 | path halving terminates at the root and changes no element's root |
| UnionFind.Forest.Join | scripts/code_review_export_selection.py:103-106 | joining a bucket merges exactly what the buckets joined so far connect |
| UnionFind.SameRootMeansConnected | scripts/code_review_export_selection.py:97-106 | one root if and only if a chain of joined buckets links the two |
| ReplayEvidence.JoinedMeansLinked | scripts/code_review_export_selection.py:108-147 | joining a provider review only on conflicting sources links exactly what all evidence links |
| ReplayTimetable.SameNumberMeansSameGroup | scripts/code_review_export_selection.py:156-160 | two eligible groups never tie in the sort key |
| ReplayTimetable.TimetableIsUnique | scripts/code_review_export_selection.py:148-160 | the sorted list of eligible groups is unique |
| ReplayTimetable.AssignmentIsUnique | scripts/code_review_export_selection.py:65-180 | the rule determines every label: no iteration order can matter |
| ReplayTimetable.LinkedRowsGetOneLabel | scripts/code_review_export_selection.py:148-180 | rows of linked pull requests get one label |
| ReplayTimetable.UnresolvedQuarantinesTheGroup | scripts/code_review_export_selection.py:151-155 | one unresolved reason quarantines everything linked to it |
| ReplayTimetable.KeptRowsAreSeparated | scripts/code_review_export_selection.py:171-180 | every publication kept in a partition strictly precedes every one planned in a later partition, kept there or quarantined in its turn |
| ReplayTimetable.KeptAsPlanned | scripts/code_review_export_selection.py:167-179 | a row that is not quarantined carries the label its group was planned with |
| PartitionSplit.LabelsAreOrdered | scripts/code_review_export_selection.py:161-170 | planned labels never go back along the sorted groups |
| PartitionSplit.OpenPartitionsAreLargestPrefixes | scripts/code_review_export_selection.py:167-170 | development, and development with calibration, are the largest whole-group prefixes within three and four fifths of the remainder |
| PartitionSplit.KeptPartitionsAreSeparated | scripts/code_review_export_selection.py:171-177 | a kept group ends before every group planned in a later partition begins |
| PartitionSplit.KeptExactlyWhenApart | scripts/code_review_export_selection.py:171-177 | and it is kept whenever it does: no embargo applies |
| PartitionSplit.Reserve | scripts/code_review_export_selection.py:161-166 | the holdout loop finds the smallest suffix of whole groups reaching a fifth of the total |
| PartitionSplit.Split | scripts/code_review_export_selection.py:161-177 | a group gets its planned label if and only if it ends before every group planned in a later partition begins, and is quarantined otherwise |
| ReplayAssignment.CollectEvidence | scripts/code_review_export_selection.py:75-86 | the maps collect, for each piece of evidence, exactly the pull requests that bring it |
| ReplayAssignment.JoinAll | scripts/code_review_export_selection.py:108-147 | all joins together link exactly by chains of evidence and mark exactly the conflicting evidence |
| ReplayAssignment.Gather | scripts/code_review_export_selection.py:148-150 | grouping by root |
| ReplayAssignment.EligibleGroups | scripts/code_review_export_selection.py:151-159 | exactly the classes without an unresolved reason, each with its true first, last and lowest number |
| ReplayAssignment.BuildTimetable | scripts/code_review_export_selection.py:75-160 | the computation produces the timetable |
| ReplayAssignment.Assign | scripts/code_review_export_selection.py:65-180 | the whole computation produces the assignment the rule prescribes |
| ReplayLaws.LinkedMeansWalked | scripts/code_review_export_selection.py:108-147 | two pull requests are linked if and only if a walk over rows leads from one to the other, each step a common public number, stack, source, provider review or alias |
| ReplayLaws.ResolvedMeansSound | scripts/code_review_export_selection.py:89-141 | a pull request has no reason against it if and only if each of its rows is complete, inside the window, with its whole stack present, and contradicted by no other row |
| ReplayLaws.KeptRowIsSound | scripts/code_review_export_selection.py:89-155 | a kept row and everything linked to it has a known request, number, stack, head, publication key and provider review and was published inside the window |
| ReplayLaws.QuarantinedExactlyWhen | scripts/code_review_export_selection.py:151-180 | a row is quarantined if and only if something linked to it is not sound, or a row planned in a later partition was published no later than the last publication of its group |
| ReplayLaws.TimetableIsChronological | scripts/code_review_export_selection.py:156-160 | groups are ordered by first publication and, at one time, by lowest repository and number |
| ReplayLaws.ProportionsAreOfPullRequests | scripts/code_review_export_selection.py:161-170 | a group's planned label by the numbers of pull requests before and after it: a fifth of all for the model holdout, three and four fifths of the rest |
| ReplaySelection.FullCountCovers | scripts/code_review_export_selection.py:193-201 | as many distinct agreeing entries as rows name every row, and only then |
| ReplaySelection.Claim | scripts/code_review_export_selection.py:194-212 | the entry loop accepts exactly distinct, agreeing entries |
| ReplaySelection.ValidateSelection | scripts/code_review_export_selection.py:192-215 | accepts if and only if the plan is the whole assignment and the selection is all of the requested open partitions |
| ReplaySelection.ValidateReplay | scripts/code_review_export_selection.py:183-215 | the same against the assignment recomputed from the evidence |
| ReplaySelection.AcceptableMeans | scripts/code_review_export_selection.py:192-215 | acceptable means every row in the plan once and truly, development or calibration or both in order, and every row of those selected once and truly and no other |
| ReplaySelection.LocatorsAreTheRows | scripts/code_review_export_selection.py:195-200 | entries are compared with the locator of the row they name |
| ReplaySelection.SelectionIsClosed | scripts/code_review_export_selection.py:183-215 | whatever a chain of evidence ties to a selected row of an accepted selection is selected too |
| ReplaySelection.SelectionPrecedesHoldouts | scripts/code_review_export_selection.py:183-215 | every row planned for a holdout, kept there or quarantined, was published after every selected row |
| JsonDocument.Ws | scripts/code_review_export_metadata.py:128-131 | the loop skips exactly the blanks, tabs and line ends |
| JsonDocument.StringEnd | scripts/code_review_export_metadata.py:133-151 | the loop with jumps to special characters agrees with scanning one character or escape at a time |
| JsonDocument.Value | scripts/code_review_export_metadata.py:153-182 | the recursive loop computes the specified scan, refusals included |
| JsonDocument.Load | scripts/code_review_export_metadata.py:122-126 | a document is accepted if and only if one value fills it |
| JsonDocument.Children | scripts/code_review_export_metadata.py:184-220 | on any container span of the first pass, nothing is refused or out of range and the result is exactly the first pass's children |
| JsonRescan.ShallowerAgrees | scripts/code_review_export_metadata.py:153-182 | a value accepted at some depth is accepted with the same end at every smaller depth |
| JsonRescan.ShallowerContainerAgrees | scripts/code_review_export_metadata.py:158-179 | likewise a container, with the same children |
| JsonRescan.ContainerChildren | scripts/code_review_export_metadata.py:184-220 | children are ordered, disjoint, inside their container, distinctly named, and again spans of the first pass |
| JsonLanguage.ValueScans | scripts/code_review_export_metadata.py:153-182 | every legal tree printed with any legal space scans to exactly its end |
| JsonLanguage.ContainerScans | scripts/code_review_export_metadata.py:158-179 | a printed container scans to its end with exactly the child spans it was printed to |
| JsonSoundness.ValueIsPrinted | scripts/code_review_export_metadata.py:153-182 | whatever the scanner accepts is the printed form of a legal tree |
| JsonSoundness.AcceptsExactlyDocuments | scripts/code_review_export_metadata.py:116-126 | a text is accepted if and only if it is a legal document |
| JsonNames.SpelledIsRead | scripts/code_review_export_metadata.py:168-169 | for every name and every choice per code point of character, short escape, number escape in either case or surrogate pair, the written string is legal and decodes to the name |
| JsonNames.BodyIsSpelled | scripts/code_review_export_metadata.py:133-151 | every legal string is its decoded name written in some such way |
| JsonNames.ReadExactlyWhenSpelled | scripts/code_review_export_metadata.py:168-169 | a string gives a name if and only if it is one of the ways of writing it |
| JsonNames.SpellingsNeverCollide | scripts/code_review_export_metadata.py:168-170 | two different names are never written alike |
| JsonLaws.ObjectIsAcceptedExactlyWhenNamesDiffer | scripts/code_review_export_metadata.py:165-179 | an object of well-formed members is accepted, wherever it stands, if and only if the names its members spell all differ, and those names are what its members get |
| JsonLaws.TwoSpellingsAreRefused | scripts/code_review_export_metadata.py:168-170 | a text whose object has two spellings of one name is refused |
| JsonLaws.NestingIsAcceptedExactlyTo64 | scripts/code_review_export_metadata.py:153-154 | arrays inside each other are accepted if and only if there are at most 64 levels below the first |
| JsonPrimitive.PrimitiveMatches | scripts/code_review_export_metadata.py:20 | the scanner's regular expression matches exactly the legal words and the printed numbers |
| JsonGrammar.LegalEntriesMeans | scripts/code_review_export_metadata.py:165-174 | legality of members means legal values, legal names and pairwise distinct decoded names |
| ConstantPasses.Pass | cmd/lint-lifecycle/main.go:826-849 | one pass computes the stated sweep of the table, and reports a change if and only if the table was not stable |
| ConstantPasses.PackageStringConstants | cmd/lint-lifecycle/main.go:809-852 | for all declarations the table is the sweep repeated until stable, at most valueCount + 1 times; with names declared once, every name that resolves has its recursive value and every other contains the marker |
| StringConstants.DepthIsBounded | cmd/lint-lifecycle/main.go:822-825 | a name that resolves at all resolves within as many levels as there are declarations |
| ConstantPasses.StableIsSound | cmd/lint-lifecycle/main.go:847-849 | stopping at an unchanged pass loses nothing: a stable table is right at every depth |
| StringConstants.CyclicIsDynamic | cmd/lint-lifecycle/main.go:854-875 | an expression no depth resolves evaluates to a text containing the dynamic marker |
| StringConstants.AcyclicNamesResolve | cmd/lint-lifecycle/main.go:854-875 | without cycles every name resolves |
| ConstantText.ValueIsTheSubstitutedText | cmd/lint-lifecycle/main.go:854-875 | the value of a name that resolves is what substituting names from left to right writes, opaque and unknown parts as the marker |
| ConstantPasses.FileOrderDoesNotMatter | cmd/lint-lifecycle/main.go:809-852 | acyclic declarations resolve to one table in every order of files and declarations |
| ConstantPasses.CyclicIsTheMarkerExactlyWhen | cmd/lint-lifecycle/main.go:822-852 | a cyclic name ends as the marker itself if and only if following bare references from it meets no sum, provided the operands of that sum do not resolve to the empty text |
| ConstantPasses.SelfSumOutgrowsTheMarker | cmd/lint-lifecycle/main.go:822-852 | `a = a + "x"` is cyclic and ends as the marker followed by two letters |
| ConstantPasses.EmptyOperandDependsOnOrder | cmd/lint-lifecycle/main.go:822-852 | `a = a + b; b = ""` ends with the marker twice in one order and the marker in the other |
| CyclicConstants.SumIsNear | cmd/lint-lifecycle/main.go:854-875 | a cyclic name that leads to a sum does so within as many references as there are declarations |
| ConstantPasses.FinishedResolves | cmd/lint-lifecycle/main.go:822-852 | the finished table is exact for every name that resolves and marked for every other |
| LogRing.Ring.Add | internal/cache/session_streams.go:74-83 | the ring holds exactly the latest entries ever added |
| LogRing.Ring.Snapshot | internal/cache/session_streams.go:119-132 | the snapshot is the latest entries, oldest first |
| LogRing.Ring.Since | internal/cache/session_streams.go:85-117 | granted exactly when stated; then every entry ever added above the identifier, in order |
| LogRing.EntriesAfter | internal/cache/session_streams.go:105-116 | the filter refuses exactly on an entry without a number and otherwise keeps exactly the later entries |
| LogRing.AfterPicksExactlyTheLater | internal/cache/session_streams.go:105-115 | the entries returned are those of the log, unchanged and in order, at exactly the positions whose number is above the identifier |
| LogRing.GrantedMeans | internal/cache/session_streams.go:85-113 | when a replay is granted, in terms of the history: what was retained, whether it parses, and the oldest of it |
| LogRing.GrantedReplayIsComplete | internal/cache/session_streams.go:85-117 | with identifiers that never fall, eviction loses nothing a granted replay owes |
| LogRing.ReplayIsCompleteExactlyWhen | internal/cache/session_streams.go:74-117 | a granted replay is complete if and only if the ring has room for an entry or nothing later was added |
| LogRing.EmptyRingLosesEntries | internal/cache/session_streams.go:74-77 | the ring of size zero that loses an entry |

## Left out

- Redis transport, result decoding, metrics and the circuit breaker: each script is one atomic step.
- Key expiry times of the cooldown record: the key may instead be lost at any step. The families
  hash expires only after its last reset, which `RetainFamilies` establishes.
- QuotaStore.QuotaHashes.AdmitBackground: the script is modelled for any interval, as the script
  itself checks none; the pacing theorems ask for a positive one, which `RequestBackground` ensures.
- Times are integers and clocks are natural numbers. Runs that need it assume a clock that never
  goes back; the theorems say so.
- Malformed stored fields of the quota hashes, which the scripts delete on sight.
- Docker, PostgreSQL, object storage, signals, resource sampling and watchdogs of the backup
  runtime: each appears as a refusal, a crash or a free choice of result.
- BackupHost.Host.Inventory: the validators of receipt fields (sizes, client image, algorithm,
  version) are taken as passed or folded into the free refusal of the remote comparison.
- BackupHost.Host.ImportReceipt: archives that no command wrote, such as those of an older
  installation without receipts, are not on the modelled disk, so an import always finds a prior
  receipt.
- A file whose identity is unchanged is taken to have its content, and so its checksum, unchanged.
- `retire_attempts`, `last-restore.json` and the attempt journal, which no command reads back, and
  the size estimate of `admission`.
- Upload and recovery timestamps of the timeline beyond the four that recovery checks.
- Quarantine reasons are kept as a set of marked pull requests, not as labelled strings, and the
  four evidence dictionaries are one map keyed by tagged evidence.
- ReplayAssignment.Assign: rows, graph and window are taken as validated, with rows keyed by
  locator; hashing, schema checks and the TOML protocol rules are not modelled.
- JsonDocument.Children: `members` and `items` are one method for both kinds of container; their
  checks are asserted rather than branched on, since none can fail on a span of the first pass.
- Decoding of raw bytes to text and of scalars to values; names are decoded to code points.
- ConstantPasses.PackageStringConstants: expressions that are neither string literals, names,
  sums nor parentheses are one opaque case, and names are declared once, as the compiler demands.
- LogRing.Ring.Since: parsing of a stream identifier is a three-way case (empty, malformed,
  numbered) rather than text.
- The rest of the repository (server wiring, API, CLI, authentication, SQL linters, cluster and
  idempotency stores), which holds short or library-bound code.
