# Verification of the extension platform

This project models the hard parts of a multi-tenant school platform in Dafny and proves what they
promise. The extension data plane keeps denormalised byte and record counters beside the records
themselves, and moves them from many code paths: record requests, migrations, rollbacks, removals and
the scheduled purge. Around it run protocols: lifecycle jobs, dead-letter replay, backup and restore,
cursor pagination, request limits, theme scoping, tenant query rewriting and a signature cache. Each is
modelled as a state with atomic steps, one database transaction or one guarded update to a step, and
the results are about every input and every run.

`dafny verify dfyconfig.toml` checks the whole project.

## Structure

| files | model |
|---|---|
| `Results`, `Totals` | option and result types; totals over maps |
| `DataPlane`, `Conservation`, `DataPlaneRuns`, `DataLaws`, `LostUpdates`, `Migrations`, `StaleReads`, `ExtensionPurge` | records, counters, migration and rollback as transactions; conservation, whole runs, the inverse law; what each transaction does and when it is refused, column by column; lost updates and the rollbacks that cause them; what migrations mean; removals that come too late; deleting an extension |
| `RecordStore` | the same operations as the services perform them: guarded updates, loops, a running delta |
| `IfMatch` | the header that carries the expected version |
| `Lifecycle`, `LifecycleLaws`, `LifecycleRaces` | the installation lifecycle, what each command leaves and when it is refused, and commands with reads and writes interleaved |
| `JobMachine`, `LifecycleJobs`, `UpgradeJobs` | the claim, effect and mark protocol, the jobs of the lifecycle, and upgrades that crash half-way |
| `Leases`, `DeadLetter`, `DeadLetterLaws`, `DeadLetterRuns`, `ReplayService` | leases, dead-letter replay with a crash at every await and exactly when it loses something, what each of its steps does, runs under leases, and a replay from end to end |
| `Base64Url`, `Keyset`, `Pagination`, `Cursors` | encoding, orders and cursor conditions, pages over changing tables, the client |
| `Backup`, `SnapshotLaws`, `BackupUndo`, `BackupService`, `RestoreApproval`, `ApprovalLaws` | the restore statement by statement, what its checks reject, exports and undoing, the service, the approval of restores, and what each of its handlers does |
| `FixedWindow`, `Semaphore`, `Governor` | request quotas, concurrency limits, and the service that combines them |
| `ThemeCss`, `ThemeCssLaws`, `ThemeComments`, `ThemeOverlay`, `ThemeLaws`, `ThemeRuns` | style sheet scoping, what its patterns mean, and comments in style sheets; themes over a school's settings, what each theme command does, and what is left of them over whole runs |
| `TenantPolicy`, `SignatureCache` | tenant rewriting of queries; the runtime signature check |

## What the model takes as given

Ids never repeat and are numbers where only their identity matters. The size of a record's JSON, the
comparison of text in the database, the JSON text of cursors, signatures, checksums and the answers of
catalogue, controls and storage are parameters, so that the results hold for all of them; where a result
needs something of a parameter (text comparison is a strict total order, parsing undoes printing) its
`requires` says so. Transactions, single statements and key-store commands are atomic; removals and the
scheduled purge run at the default isolation level, so that for them this is more than the database
promises. Handlers that read first and write later are two steps, for lifecycle commands and for restore
requests. The once-only results about jobs rest on the lock under which job commands run outlasting the
command. The clock, where there is one, does not run backwards.

Page limits and request limits are positive, as the code that reads them guarantees.

Commands of the data plane are timely: an authorisation was read from its installation, a run belongs to
its migration, and a removal's earlier read still stands. For the removals the exact conditions are
proved (`RemovalConservesIff`, `PurgeConservesIff`), and that they are not always met (`StaleReads`).

The safety export of a restore is read table by table before the restore's transaction. The service's
method takes them as undisturbed; what an export is worth when something was written after it was read,
table by table, is exactly `OlderExportUndoesIff`.

## Where the code does less than its description

- The scheduled purge deletes records before it re-checks the installation and commits either way; the
  counters stay exact only under the condition of `PurgeConservesIff`.
- Rollback puts old versions back, so that a write under a version read before it can overwrite a change
  made after it (`LowersIff`, `RollbackLosesUpdate`, `LostUpdateReachable`). It does not restore the
  author of the last change, and forgets the migration run.
- Without a captured target, repeating a rollback rolls forward again. A rollback submitted a second
  time under the same key after it was carried out is refused, because its payload has changed.
- The final status writes of a job are unguarded, so that a superseded worker can overwrite SUCCEEDED
  (`SucceededIsFinalIff`).
- Lifecycle commands write what they computed from an earlier read, without a guard: a late billing
  change leaves an active installation overdue, a late activation one without approval. Retiring a core
  module leaves its active installations ACTIVE and disabled (`LateBillingBreaks`,
  `LateActivationBreaks`, `RetirementBreaks`).
- Dead-letter replay can lose an envelope when its lease expires in mid-replay, and can leave a failed
  job without a dead letter (`ExpiredLeaseLoses`, `EarlyFailureStrands`).
- A restore moves a user of another school to this one when the snapshot has that user's id
  (`OtherSchoolsUsersIff`, `ForeignUserHappens`). A second execution of a request keeps the safety export
  of the first, which gives back only what has not changed since (`OlderExportUndoesIff`,
  `SecondExecutionKeepsFirst`). A safety export cannot always be restored, because users that a restore
  added stay (`UndoMayFail`).
- Restore handlers that overtake each other can reopen a running restore or let an executor execute
  what they approved (`LateVerificationReopens`, `StaleSubmissionSelfExecutes`).
- A deactivated theme leaves its fields behind when the school had no settings row, and overlapping
  themes leave those of the first unless it is stopped last (`GivesBackIff`, `OverlapGivesBackIff`). A
  theme that is suspended with its version, key or publisher leaves its fields for good, and the school
  cannot edit its style sheet away (`SuspensionLeavesTheme`, `StyleSheetStays`).
- Comments are removed from style sheets once, which can make another: what is judged is then not what a
  reader who drops comments sees (`ReaderSeesRulesIff`, `CommentMayHideRestriction`).
- The check of a snapshot looks at declared models only; data of others is restored without it
  (`UndeclaredEscapes`).
- The throwing unique read is rewritten to a read that returns nothing (`UniqueReadNeverThrows`).
- The signature cache evicts its oldest entry whether or not others have expired (`Evict`).

Two small facts are kept as remarks beside the results: that a failed upgrade changes nothing but its
run (`Conservation.FailedUpgradeChangesNothing`), and what an update writes
(`DataPlaneRuns.UpdateReplacesData`).

## Model

| member | source | states |
|---|---|---|
| `RecordStore.Store.ReserveCapacity` | backend/src/platform/extension-runtime.service.ts:163-175 | reserves in the installation, then in its school: succeeds exactly when both quotas have room, moves both counters by the amounts asked, and says which quota refused |
| `RecordStore.Store.AdjustBytes` | backend/src/platform/extension-runtime.service.ts:177-189 | growth reserves, shrinking gives back the same amount from both counters; neither guard can miss in a consistent store |
| `RecordStore.Store.CreateRecord` | backend/src/platform/extension-runtime.service.ts:73-98 | a creation is one transaction: its whole effect, or none with the reason |
| `RecordStore.Store.UpdateRecord` | backend/src/platform/extension-runtime.service.ts:100-122 | an update is one transaction, with size, visibility, version and quota failures in the order of the code, and nothing left behind by a failed one |
| `RecordStore.Store.DeleteRecord` | backend/src/platform/extension-runtime.service.ts:124-140 | a deletion gives back the record's bytes and its place in the counters of installation and school |
| `RecordStore.Store.ApplyOperations` | backend/src/platform/extension-installations.service.ts:1795-1818 | the in-place loop over one record's operations computes their fold, or reports the clash |
| `RecordStore.Store.ApplyMigration` | backend/src/platform/extension-installations.service.ts:1779-1868 | the loop that rewrites records with a running delta, then moves the counters once, has exactly the effect of the migration as one step; a clash or quota undoes all of it |
| `RecordStore.Store.UpgradeWithMigration` | backend/src/platform/extension-installations.service.ts:1762-1883 | run row, transaction, and run row again on failure, for new and retried runs |
| `RecordStore.Store.RollbackMigration` | backend/src/platform/extension-installations.service.ts:1885-1940 | the loop over backups restores each record and moves the counters once; a wrong run, a deleted record or a quota undoes all of it |
| `RecordStore.Store.RollbackInstallation` | backend/src/platform/extension-installations.service.ts:1316-1372 | rollback to a captured target, to the remembered version, or not at all, with or without a migration to undo |
| `RecordStore.Store.AdjustMigrationCapacity` | backend/src/platform/extension-installations.service.ts:1961-1973 | the summed delta of a migration or rollback is reserved or given back in both counters, and no guarded decrement misses |
| `RecordStore.Store.RemoveUninstalled` | backend/src/platform/extension-installations.service.ts:1239-1271 | the row read before the transaction decides; the transaction takes exactly the installation as it is by then, its records and runs, and gives the school back what was read; the store stays consistent when that read still stands |
| `RecordStore.Store.PurgeExpired` | backend/src/platform/extension-cleanup.service.ts:95-130 | one candidate of the scheduled purge, records first and guard afterwards, with the exact condition under which the counters stay right |
| `RecordStore.Store.PurgeExpiredInstallations` | backend/src/platform/extension-cleanup.service.ts:86-131 | the purge loop over all candidates of a scan, with a legal hold skipping some: every due installation goes, is counted once, and all counters stay exact |
| `Conservation.DecrementsHit` | backend/src/platform/extension-runtime.service.ts:177-189 | in a consistent database an installation's counters fit in its school's, and each record's size in its installation's, so that no guarded decrement misses |
| `Conservation.RecordIsCounted` | backend/src/platform/extension-runtime.service.ts:128-136 | a record's size is never more than its installation's bytes, and the record count is positive while there is a record |
| `Conservation.WithRecordsConserves` | backend/src/platform/extension-runtime.service.ts:163-189 | moving the counters by the change of the totals keeps every counter equal to the total it stands for, for this and every other installation and school |
| `Conservation.CreateConsistent` | backend/src/platform/extension-runtime.service.ts:73-98 | creation keeps links, totals, quotas and runs |
| `Conservation.UpdateConsistent` | backend/src/platform/extension-runtime.service.ts:100-122 | update keeps them |
| `Conservation.DeleteConsistent` | backend/src/platform/extension-runtime.service.ts:124-140 | deletion keeps them |
| `Conservation.MigrateConsistent` | backend/src/platform/extension-installations.service.ts:1779-1868 | migration keeps them |
| `Conservation.UpgradeConsistent` | backend/src/platform/extension-installations.service.ts:1762-1883 | an upgrade keeps them whether it succeeds or fails |
| `Conservation.RollbackConsistent` | backend/src/platform/extension-installations.service.ts:1316-1372 | rollback keeps them |
| `Conservation.TargetsAreOwned` | backend/src/platform/extension-installations.service.ts:1781-1793 | selecting records by school, extension and resource selects exactly the installation's own |
| `Conservation.RemovalConservesIff` | backend/src/platform/extension-installations.service.ts:1239-1271 | removal keeps the counters exact if and only if the counters read before the transaction still stand |
| `Conservation.FreshReadIsCurrent` | backend/src/platform/extension-installations.service.ts:1239-1271 | a read with nothing in between always stands |
| `Conservation.PurgeConservesIff` | backend/src/platform/extension-cleanup.service.ts:95-130 | the scheduled purge keeps the counters exact if and only if its guard holds and its read stands, or there was nothing to delete |
| `StaleReads.CreationInBetweenBreaks` | backend/src/platform/extension-installations.service.ts:1239-1271 | a record created between a removal's read and its transaction always leaves the school's counters wrong |
| `StaleReads.EnablingInBetweenBreaks` | backend/src/platform/extension-cleanup.service.ts:86-107 | an installation with records that is enabled between the purge's scan and its transaction always leaves wrong counters |
| `StaleReads.StaleRemovalReachable` | backend/src/platform/extension-installations.service.ts:1239-1271 | the first happens: reachable states that show it |
| `StaleReads.MissedGuardReachable` | backend/src/platform/extension-cleanup.service.ts:95-107 | so does the second |
| `DataPlaneRuns.ReachableConsistent` | backend/src/platform/extension-runtime.service.ts:163-189 | in every state reachable from the empty database by any commands on records, versions, migrations, removals and the scheduled purge, every counter equals its total and fits its quota |
| `ExtensionPurge.ExtensionPurgeConservesIff` | backend/src/platform/extensions.service.ts:1364-1392 | deleting an extension for good keeps the counters exact if and only if every school gives back what its installation holds by then |
| `ExtensionPurge.StandingReadConserves` | backend/src/platform/extensions.service.ts:1364-1380 | a read that still stands does: no guarded decrement misses |
| `DataPlaneRuns.WriteSucceedsIff` | backend/src/platform/extension-runtime.service.ts:100-140 | a change under If-Match succeeds if and only if the record is visible, has the version named, and the new data's size and growth fit |
| `DataPlaneRuns.WriteChangesOneRecord` | backend/src/platform/extension-runtime.service.ts:100-140 | it touches no other record, no run and no other installation |
| `DataPlaneRuns.CreateAddsOneRecord` | backend/src/platform/extension-runtime.service.ts:73-98 | a creation succeeds if and only if one more record of its size fits both quotas, and adds exactly that record at version one |
| `DataLaws.UpdateLaw` | backend/src/platform/extension-runtime.service.ts:100-122 | an update is refused, in this order, for too large data, for want of a record of that id with the request's school, installation, extension and resource, for another version, or for a quota; otherwise it succeeds |
| `DataLaws.UpdateLeaves` | backend/src/platform/extension-runtime.service.ts:108-122 | it leaves that record with the new data, its size, the request's version, schema and actor, one version on, and both byte counters moved by its growth |
| `DataLaws.DeleteLaw` | backend/src/platform/extension-runtime.service.ts:124-140 | a deletion is refused for want of such a record or for another version, and for nothing else |
| `DataLaws.DeleteLeaves` | backend/src/platform/extension-runtime.service.ts:128-140 | it takes that record, and its bytes and place from both counters |
| `DataLaws.CreateLaw` | backend/src/platform/extension-runtime.service.ts:73-98 | a creation is refused for too large data or for a quota of bytes or records, the installation's first |
| `DataLaws.CreateLeaves` | backend/src/platform/extension-runtime.service.ts:73-98 | it adds one record with the request's columns, at version one, to the table and to both counters |
| `DataLaws.QuotasHold` | backend/src/platform/extension-runtime.service.ts:163-175 | in every reachable state no counter is over its quota, and no installation holds more than its school |
| `DataLaws.BeginLaw` | backend/src/platform/extension-installations.service.ts:1769-1777 | a failed run is taken up again with one attempt more, one that waits for an operator refuses, and otherwise a new one starts |
| `DataLaws.UpgradeStops` | backend/src/platform/extension-installations.service.ts:1762-1777 | an upgrade to the version installed does nothing, and one whose run waits for an operator is refused before anything is written |
| `DataLaws.UpgradeInstalls` | backend/src/platform/extension-installations.service.ts:1819-1868 | an upgrade that migrates leaves the version asked for, the version before and the run to go back by, and no other installation or run changed |
| `DataLaws.UpgradeFails` | backend/src/platform/extension-installations.service.ts:1869-1883 | one whose transaction fails leaves its run FAILED, or for an operator once its attempts are used up, and nothing else changed |
| `DataPlaneRuns.VersionCountsChanges` | backend/src/platform/extension-runtime.service.ts:108-122 | each change of a record outside rollback raises its concurrency version by exactly one, and a deleted id never comes back |
| `LostUpdates.NoLostUpdate` | backend/src/platform/extension-runtime.service.ts:108-136 | whatever happens after an author reads a record, other rollbacks included, as long as none puts that record back: if the author's write under the version read succeeds, it finds the record exactly as it was read |
| `LostUpdates.WritesInOrder` | backend/src/platform/extension-runtime.service.ts:108-136 | of two successful writes to a record that no rollback in between puts back, the later one named a later version |
| `LostUpdates.ReachableOrdered` | backend/src/platform/extension-installations.service.ts:1843-1868 | in every reachable state the records of an applied run are at later versions than its backups |
| `LostUpdates.LowersIff` | backend/src/platform/extension-installations.service.ts:1885-1940 | a step lowers a record's version if and only if it is a rollback that goes through, is not at its target, and undoes a run with an older backup of the record |
| `LostUpdates.LowersIffPutBack` | backend/src/platform/extension-installations.service.ts:1885-1940 | in reachable states these are exactly the rollbacks that have a backup of the record; every other step leaves the record alone or raises its version by one |
| `LostUpdates.VersionPutBack` | backend/src/platform/extension-installations.service.ts:1885-1940 | a migrated record is one version on, and back at its version, with its data, after the rollback |
| `LostUpdates.RollbackLosesUpdate` | backend/src/platform/extension-installations.service.ts:1885-1940 | a write under the version read from the migrated record then goes through, after another's write, exactly when it is visible and fits, and overwrites it |
| `LostUpdates.LostUpdateReachable` | backend/src/platform/extension-installations.service.ts:1885-1940 | a reachable state in which that happens |
| `DataPlaneRuns.RollbackInvertsMigration` | backend/src/platform/extension-installations.service.ts:1885-1940 | right after a migration, rollback is never refused and gives back every record but for its author, all counters, and the version |
| `DataPlaneRuns.UndoOutcome` | backend/src/platform/extension-installations.service.ts:1885-1940 | undoing a run succeeds if and only if no backed-up record is gone and the restored sizes fit; what it leaves is consistent |
| `DataPlaneRuns.RollbackAfterEdits` | backend/src/platform/extension-installations.service.ts:1885-1940 | with any record edits, and anything at all on other installations, in between: exactly when rollback to the captured or remembered version goes through, that backed-up records return to their snapshots and all others stay as they were left |
| `DataLaws.RollbackLaw` | backend/src/platform/extension-installations.service.ts:1316-1372 | a rollback that goes through leaves the target installed, or the remembered version; if it changed anything it remembers the version left and has no run; it is refused without an installation and with nothing to go back to |
| `DataLaws.RollbackWithoutRun` | backend/src/platform/extension-installations.service.ts:1358-1364 | with no run it goes through whenever there is a version to go back to, and touches nothing but the version columns of that installation |
| `DataLaws.UndoRefused` | backend/src/platform/extension-installations.service.ts:1894-1918 | each reason for which a run cannot be undone |
| `DataLaws.UndoLeaves` | backend/src/platform/extension-installations.service.ts:1885-1940 | what undoing a run leaves, column by column |
| `DataLaws.RemovalLaw` | backend/src/platform/extension-installations.service.ts:1239-1271 | a removal is refused for a row that was not there, enabled or not uninstalled when read, or is gone; otherwise exactly the installation, its records and its runs go |
| `DataLaws.PurgeLaw` | backend/src/platform/extension-cleanup.service.ts:95-130 | the scheduled purge does the same exactly for a candidate still disabled and past its date, and otherwise deletes its records alone |
| `Migrations.OperationByField` | backend/src/platform/extension-installations.service.ts:1797-1818 | each operation, field by field: what a rename, a default and a removal do to the named fields and that no other field changes, and exactly when a rename clashes |
| `Migrations.RenameBack` | backend/src/platform/extension-installations.service.ts:1797-1811 | a rename that took place is undone by the opposite rename |
| `Migrations.FoldSplits` | backend/src/platform/extension-installations.service.ts:1795-1818 | two lists of operations in a row do what their concatenation does |
| `Migrations.FoldKeepsOtherFields` | backend/src/platform/extension-installations.service.ts:1795-1818 | fields that no operation of the resource names keep their values |
| `Migrations.RecordByRecord` | backend/src/platform/extension-installations.service.ts:1794-1818 | migrating record by record equals applying each operation to all records of its resource in turn: the same clashes, the same data |
| `Migrations.MigrationFailsOn` | backend/src/platform/extension-installations.service.ts:1779-1868 | a migration is refused for a clash if and only if some operation clashes on some record, and otherwise only by a quota |
| `Migrations.MigrationInstalls` | backend/src/platform/extension-installations.service.ts:1779-1868 | a successful one installs the version, remembers the old one, and backs up exactly the named records as they were |
| `Migrations.MigrationOfRecord` | backend/src/platform/extension-installations.service.ts:1793-1853 | every record in a named resource gets the result of the operations in order, one version on; every other record stays as it is |
| `IfMatch.TagRoundTrip` | backend/src/platform/extension-runtime.service.ts:210-215 | a version sent as a strong tag, a weak tag or bare digits is read as that version if and only if it is a positive safe integer (section 13.1.1 of RFC 9110 for the header) |
| `Lifecycle.StepSoundIff` | backend/src/platform/extension-installations.service.ts:400-1553 | a command carried out with no other in between keeps the stored state, the timestamps, payment and billing in agreement if and only if it does not retire an active installation, whatever catalogue, signatures and dependencies answer |
| `Lifecycle.SoundThroughoutIff` | backend/src/platform/extensions.service.ts:1304-1319 | a run of such commands keeps them so all the time if and only if no active installation of a core module is retired |
| `Lifecycle.LifecycleSafety` | backend/src/platform/extension-installations.service.ts:400-1553 | what that means: enabled if and only if ACTIVE; ACTIVE implies requested, approved and installed in that order since the last request, active billing unless free, and payment evidence if paid; UNINSTALLED implies disabled with a purge date; the stored state equals the one derived from the timestamps |
| `LifecycleRaces.LandsFresh` | backend/src/platform/extension-installations.service.ts:1001-1030 | reading a row and writing the columns computed from it, with nothing in between, is the command carried out at once |
| `LifecycleRaces.StaleWriteSoundIff` | backend/src/platform/extension-installations.service.ts:1001-1553 | for each command, exactly which rows a write computed from an earlier read may find without breaking the agreement |
| `LifecycleRaces.StaysSoundIff` | backend/src/platform/extension-installations.service.ts:400-1553 | over every interleaving of reads and writes, the row is in agreement all the time if and only if every write finds such a row |
| `LifecycleRaces.FreshWriteFits` | backend/src/platform/extension-installations.service.ts:400-1553 | a write that finds the row as it was read always does |
| `LifecycleRaces.WrittenColumns` | backend/src/platform/extension-installations.service.ts:1001-1553 | which columns each command writes as it computed them; all others stay as they are by then |
| `LifecycleRaces.LandedLaw` | backend/src/platform/extension-installations.service.ts:1001-1553 | what becomes of a command whose row was made, changed or removed between its read and its write |
| `LifecycleRaces.RemovedIsLost` | backend/src/platform/extension-installations.service.ts:1239-1271 | a write to a row that was removed since its read changes nothing, even if another row has taken its place |
| `LifecycleRaces.StatementLaw` | backend/src/platform/extensions.service.ts:923-927 | single statements are carried out on the row there is |
| `LifecycleRaces.SurvivesInterleaving` | backend/src/platform/extension-installations.service.ts:400-1553 | what every interleaving keeps: UNINSTALLED is disabled with its purge date, APPROVED was approved after the last request, payment review has its evidence, and ACTIVE is enabled unless a core module was retired |
| `LifecycleRaces.LateBillingBreaks` | backend/src/platform/extension-installations.service.ts:1032-1052 | a billing change that read the row before its activation makes it active and overdue: a reachable state that shows it |
| `LifecycleRaces.LateActivationBreaks` | backend/src/platform/extension-installations.service.ts:1374-1496 | an activation that read the row before a new request makes it active without an approval: a reachable state that shows it |
| `LifecycleRaces.RetirementBreaks` | backend/src/platform/extensions.service.ts:1304-1319 | retiring a core module leaves its active installations ACTIVE and disabled: a reachable state that shows it |
| `Lifecycle.RepeatIsSame` | backend/src/platform/extension-lifecycle-jobs.service.ts:142-178 | every job command, carried out again at any later time, gives the same row or is refused |
| `Lifecycle.UntargetedRollbackRepeatsIff` | backend/src/platform/extension-installations.service.ts:1316-1372 | without a captured target a rollback repeats to the same row if and only if it was to the version already installed |
| `LifecycleLaws.RequestLaw` | backend/src/platform/extension-installations.service.ts:400-473 | what a request leaves in every column, and its refusals |
| `LifecycleLaws.PaidRequestLaw` | backend/src/platform/extension-installations.service.ts:484-700 | the same for paid and initiated requests |
| `LifecycleLaws.EvidenceLaw` | backend/src/platform/extension-installations.service.ts:711-760 | finalising evidence and purging it |
| `LifecycleLaws.ApproveLaw` | backend/src/platform/extension-installations.service.ts:1002-1022 | exactly what approval takes, and what it writes |
| `LifecycleLaws.BillingLaw` | backend/src/platform/extension-installations.service.ts:1032-1044 | billing changes are refused for free and for active extensions |
| `LifecycleLaws.InstallLaw` | backend/src/platform/extension-installations.service.ts:1054-1094 | an installation succeeds exactly for an approved row and a usable package, or when nothing is to do; it leaves INSTALLED at the version asked for |
| `LifecycleLaws.UpgradeLaw` | backend/src/platform/extension-installations.service.ts:1106-1196 | an upgrade leaves the version asked for and the state as it was, exactly with a usable package, acknowledged permissions and a migration that goes through |
| `LifecycleLaws.UnusableLaw` | backend/src/platform/extension-installations.service.ts:1067-1084 | an unpublished, disallowed, incompatible or unsigned package, or unmet dependencies, refuse both |
| `LifecycleLaws.RollbackLaw` | backend/src/platform/extension-installations.service.ts:1316-1372 | a rollback leaves its target or the remembered version, and remembers the one it left |
| `LifecycleLaws.ActivateLaw` | backend/src/platform/extension-installations.service.ts:1375-1482 | exactly what activation takes; it leaves the version alone |
| `LifecycleLaws.DeactivateLaw` | backend/src/platform/extension-installations.service.ts:1379-1482 | deactivation leaves the version alone too |
| `LifecycleLaws.UninstallLaw` | backend/src/platform/extension-installations.service.ts:1498-1544 | removal is refused while another extension needs this one; the row keeps its version and gets its purge date |
| `LifecycleLaws.PurgeLaw` | backend/src/platform/extension-installations.service.ts:1239-1271 | what may be purged |
| `LifecycleLaws.CatalogueLaw` | backend/src/platform/extensions.service.ts:923-927 | what blocking and retiring leave |
| `LifecycleLaws.CanBecomeActive` | backend/src/platform/extension-installations.service.ts:400-1482 | at every price there is a way from nothing to an active installation of any version asked for |
| `LifecycleLaws.ActivationRoundTrip` | backend/src/platform/extension-installations.service.ts:1375-1482 | activating and deactivating undo each other |
| `LifecycleLaws.UpgradeRollback` | backend/src/platform/extension-installations.service.ts:1316-1364 | a rollback takes a migrating upgrade back, and another goes forward again |
| `LifecycleLaws.CanComeBack` | backend/src/platform/extension-installations.service.ts:1498-1544 | an uninstalled installation can be purged, or asked for, approved and installed again, after which it cannot |
| `LifecycleLaws.JobLaw` | backend/src/platform/extension-lifecycle-jobs.service.ts:140-205 | a job has its command's effect, and purging what is gone counts as done |
| `JobMachine.OnceOnlyEffect` | backend/src/platform/extension-lifecycle-jobs.service.ts:106-221 | claim, effect and mark with any number of workers, crashes and redeliveries: the target changes at most once, to one effect of the command, and SUCCEEDED implies it took place |
| `JobMachine.RefusedNeverRuns` | backend/src/platform/extension-lifecycle-jobs.service.ts:106-221 | a command that is always refused never changes anything and never succeeds |
| `JobMachine.SucceededIsFinalIff` | backend/src/platform/extension-lifecycle-jobs.service.ts:194-218 | the final writes being unguarded, SUCCEEDED is final if and only if no other worker is in flight: one that is may be refused, or fail after its effect, and write FAILED over it |
| `JobMachine.ClaimLaw` | backend/src/platform/extension-lifecycle-jobs.service.ts:110-131 | a claim goes through exactly for a waiting or failed job, and for a running one under an earlier attempt or started long enough ago |
| `JobMachine.WorkLaw` | backend/src/platform/extension-lifecycle-jobs.service.ts:140-213 | the worker that claimed carries the command out once and writes how it went |
| `JobMachine.CrashLaw` | backend/src/platform/extension-lifecycle-jobs.service.ts:106-213 | a worker that crashes leaves everything but itself |
| `JobMachine.DeliveryLaw` | backend/src/platform/extension-lifecycle-jobs.service.ts:106-213 | a delivery left alone changes nothing when the job has succeeded or is held, and otherwise ends SUCCEEDED exactly when the command is accepted, logged and written |
| `JobMachine.NextAttemptSucceeds` | backend/src/platform/extension-lifecycle-jobs.service.ts:110-120 | whatever crashes and interleavings went before, the next attempt of an acceptable command succeeds |
| `LifecycleJobs.LifecycleJobOnceOnly` | backend/src/platform/extension-lifecycle-jobs.service.ts:106-221 | the once-only result for each lifecycle command a job carries, with its captured rollback target |
| `LifecycleJobs.UncapturedRollbackNeverRuns` | backend/src/platform/extension-lifecycle-jobs.service.ts:54-65 | a rollback job submitted with nothing to roll back to never takes effect |
| `LifecycleJobs.DataRollbackOnceOnly` | backend/src/platform/extension-lifecycle-jobs.service.ts:106-221 | the once-only result for a rollback with all its records and counters |
| `LifecycleJobs.DataRollbackLaw` | backend/src/platform/extension-lifecycle-jobs.service.ts:142-178 | a rollback job is refused for an unsigned package or with its rollback, and otherwise is that rollback |
| `UpgradeJobs.UpgradeOnceOnly` | backend/src/platform/extension-installations.service.ts:1762-1883 | an upgrade with a migration, delivered any number of times with a crash before its run row, after it, or before the note of its failure: the database is as before but for run rows, or migrated once, and then nothing changes any more |
| `UpgradeJobs.FinishedIsMigrated` | backend/src/platform/extension-installations.service.ts:1762-1883 | a delivery that ends without a refusal has migrated it or found it migrated |
| `UpgradeJobs.AttemptConsistent` | backend/src/platform/extension-installations.service.ts:1762-1883 | every attempt, wherever it crashes, leaves all counters exact |
| `UpgradeJobs.AttemptLaw` | backend/src/platform/extension-installations.service.ts:1762-1883 | what each crash point of an attempt leaves: nothing, its run row, the migration, or a transaction that failed without a note |
| `LifecycleJobs.JobTable.Submit` | backend/src/platform/extension-lifecycle-jobs.service.ts:223-275 | an idempotency key answers with its job for the same request and is refused for another; a new key makes one job within both quotas, or none |
| `LifecycleJobs.JobTable.SubmitTwice` | backend/src/platform/extension-lifecycle-jobs.service.ts:42-66 | sending a request again gets the same job, except a rollback whose target has changed meanwhile |
| `LifecycleJobs.Execution.Execute` | backend/src/platform/extension-lifecycle-jobs.service.ts:106-213 | one delivery is the three steps of the machine; it changes nothing when the job has succeeded or is held, and otherwise the status says how the command went and the row is what it left |
| `Leases.KeyStore.AcquireLease` | backend/src/jobs/queue-infrastructure.service.ts:126-129 | acquires if and only if nobody holds an unexpired lease; rejects an empty key or owner and a time to live under a second |
| `Leases.KeyStore.RenewLease` | backend/src/jobs/queue-infrastructure.service.ts:131-137 | renews for the holder only; a non-positive time to live deletes the lease |
| `Leases.KeyStore.ReleaseLease` | backend/src/jobs/queue-infrastructure.service.ts:139-145 | releases for the holder only |
| `Leases.AcquireLaw` | backend/src/jobs/queue-infrastructure.service.ts:126-129 | a lease needs a key, an owner and a second; it is won exactly when no unexpired lease is on the key |
| `Leases.RenewLaw` | backend/src/jobs/queue-infrastructure.service.ts:131-137 | only the owner of an unexpired lease renews it, and gives it up with no time at all |
| `Leases.ReleaseLaw` | backend/src/jobs/queue-infrastructure.service.ts:139-145 | and only they release it |
| `Leases.FreeAgain` | backend/src/jobs/queue-infrastructure.service.ts:126-145 | a released or expired lease can be acquired at once by anybody |
| `Leases.ExclusiveUntilExpiry` | backend/src/jobs/queue-infrastructure.service.ts:126-145 | over every run of calls by anyone, a lease stays with its owner until it expires, unless the owner gives it up |
| `Leases.AcquiredOnce` | backend/src/jobs/queue-infrastructure.service.ts:126-129 | nobody else acquires a key before the time to live of an acquisition has passed |
| `Leases.StaleOwnerIsPowerless` | backend/src/jobs/queue-infrastructure.service.ts:131-145 | once its lease is gone, all of an owner's renewals and releases can be erased from a run without changing it |
| `DeadLetter.StepAuthentic` | backend/src/jobs/queue-infrastructure.service.ts:178-210 | whatever leases do, jobs and dead letters carry the envelopes that were submitted |
| `DeadLetter.LosesIff` | backend/src/jobs/queue-infrastructure.service.ts:191-206 | a step loses an envelope if and only if a replay removes its job while there is no dead letter for it, or its dead letter while the job is not in the target queue, and it has not completed |
| `DeadLetter.KeptThroughoutIff` | backend/src/jobs/queue-infrastructure.service.ts:178-210 | in any run, whatever leases expire, no envelope is lost at any time if and only if no step is such a removal |
| `DeadLetter.StrandsIff` | backend/src/jobs/queue-infrastructure.service.ts:109-120 | exactly which steps leave an envelope without a running job, a dead letter or a failure handler about to file one: the loss of the only handler, and the two removals where the other is gone or has failed for good |
| `DeadLetter.RecoverableThroughoutIff` | backend/src/jobs/queue-infrastructure.service.ts:109-120 | in any run every envelope stays recoverable all the time if and only if no step is such a one |
| `DeadLetterRuns.LeasePreventsLoss` | backend/src/jobs/queue-infrastructure.service.ts:178-210 | a replay whose lease lasts takes no losing step |
| `DeadLetterRuns.SmoothPreventsStranding` | backend/src/jobs/queue-infrastructure.service.ts:109-120 | nor, with failure handlers that are not lost or squeezed between its last two steps, a stranding one |
| `DeadLetterRuns.ReplayNeitherLosesNorDuplicates` | backend/src/jobs/queue-infrastructure.service.ts:109-120 | with a crash at any await and leases that last as long as their replay: every submitted envelope is in the dead-letter queue, in the target queue or completed; a successful replay added exactly one job, any other at most one |
| `DeadLetterRuns.StepSafe` | backend/src/jobs/queue-infrastructure.service.ts:178-210 | every step of workers, failure handlers, operators and the clock keeps what that rests on |
| `DeadLetterRuns.HoldersDiffer` | backend/src/jobs/queue-infrastructure.service.ts:178-184 | two replays with unexpired leases work on different jobs |
| `DeadLetterRuns.AlwaysRecoverable` | backend/src/jobs/queue-infrastructure.service.ts:109-120 | if no failure handler is lost or runs between the last two steps of a replay of its job, a job that failed for good has a dead letter or is about to get one |
| `DeadLetterRuns.ExpiredLeaseLoses` | backend/src/jobs/queue-infrastructure.service.ts:178-210 | a lease that expires in mid-replay can lose the envelope: a reachable state that shows it |
| `DeadLetterRuns.EarlyFailureStrands` | backend/src/jobs/queue-infrastructure.service.ts:109-120 | a job that fails for good before its old dead letter is removed is left without one: a reachable state that shows it |
| `ReplayService.Service.ReplayDeadLetter` | backend/src/jobs/queue-infrastructure.service.ts:178-210 | an undisturbed replay: refused while another holds the lease, for a missing letter or a source job in another state than failed; else the job is back in the queue and the letter gone; leases are as before |
| `ReplayService.StepsComputeReplay` | backend/src/jobs/queue-infrastructure.service.ts:178-210 | the steps of the protocol, undisturbed, come to exactly that |
| `DeadLetterLaws.FilingLaw` | backend/src/jobs/queue-infrastructure.service.ts:109-120 | a failure handler files the submitted envelope under the job's dead letter id, if nothing is there yet; a lost one files nothing |
| `DeadLetterLaws.OpenLaw` | backend/src/jobs/queue-infrastructure.service.ts:178-184 | a replay begins with a lease of thirty seconds that nobody may hold |
| `DeadLetterLaws.LookingLaw` | backend/src/jobs/queue-infrastructure.service.ts:178-190 | a replay goes on only with a dead letter whose job is gone or failed |
| `DeadLetterLaws.MovingLaw` | backend/src/jobs/queue-infrastructure.service.ts:191-210 | it removes the job unless a worker has it, adds it with the envelope of the dead letter, removes that, and releases only its own lease |
| `DeadLetterLaws.ReplayedLaw` | backend/src/jobs/queue-infrastructure.service.ts:178-210 | the undisturbed replay: its refusals, and what it leaves |
| `DeadLetterLaws.FailedJobComesBack` | backend/src/jobs/queue-infrastructure.service.ts:109-210 | submitted, failed for good, filed and replayed, a job waits again with the envelope that was submitted, and its dead letter is gone |
| `DeadLetterLaws.JobCompletes` | backend/src/jobs/queue-infrastructure.service.ts:109-120 | one that succeeds is remembered as completed and leaves the queue when it is evicted |
| `Base64Url.RoundTrip` | backend/src/common/cursor-pagination.ts:6-8 | decoding undoes encoding, for all bytes, and the length of the text (section 5 of RFC 4648, without padding) |
| `Base64Url.EncodedIsUrlSafe` | frontend/lib/api.ts:79-80 | percent-encoding leaves an encoded cursor as it is |
| `Base64Url.GroupLaw` | backend/src/common/cursor-pagination.ts:6-8 | three bytes are four sextets of the same number, and the one or two left over are filled with zero bits (section 4 of RFC 4648) |
| `Base64Url.DigitLaw` | backend/src/common/cursor-pagination.ts:6-8 | the digits are those of section 5 of RFC 4648 |
| `Base64Url.LenientLaw` | backend/src/common/cursor-pagination.ts:24-38 | the decoder takes both alphabets, skips anything else and stops at padding |
| `Keyset.CursorCutsOrder` | backend/src/platform/extension-installations.service.ts:185-195 | for each of the four orders, the cursor condition holds of a row if and only if the order-by lists it after the cursor's row |
| `Keyset.Transitive` | backend/src/platform/extension-installations.service.ts:88-94 | listing order is transitive |
| `Keyset.Comparable` | backend/src/platform/extension-installations.service.ts:88-94 | of two rows with different ids exactly one is listed first |
| `Keyset.ListingIsOrdered` | backend/src/platform/extension-installations.service.ts:88-117 | a listing is in order and has the table's rows, each as often |
| `Keyset.OrderedIsUnique` | backend/src/platform/extension-installations.service.ts:88-94 | two ordered lists of the same rows are equal |
| `Pagination.PageCuts` | backend/src/common/cursor-pagination.ts:44-49 | a page holds at most limit rows beyond the cursor, in order, and its next cursor separates them from all other such rows; no next cursor means there are none |
| `Pagination.QueryLaw` | backend/src/common/cursor-pagination.ts:44-49 | a page is cut from the first rows in order, one more than its limit |
| `Pagination.ExactlyOnce` | backend/src/common/cursor-pagination.ts:40-49 | whatever changes between pages, following cursors to the end gives a strictly ordered list that has no key twice, invents nothing, and has every key beyond the cursor that some row has in every table read, whatever becomes of the other columns |
| `Pagination.StableRowsOnce` | backend/src/common/cursor-pagination.ts:40-49 | a row that stays as it is in every table read is in the list |
| `Pagination.StaticListing` | backend/src/common/cursor-pagination.ts:40-49 | over a table at rest the pages together are the listing, and the end is reached if and only if there are as many tries as pages |
| `Pagination.PagesReadLaw` | backend/src/common/cursor-pagination.ts:40-49 | following cursors needs exactly the tables of the pages it reads: more make no difference and one fewer is not enough |
| `Pagination.PagesIsCeiling` | backend/src/common/cursor-pagination.ts:44-49 | the number of pages is the least that has room for all rows, and one for none |
| `Cursors.DateIdRoundTrip` | backend/src/common/cursor-pagination.ts:24-38 | a date and id cursor comes back as it was if and only if the id is not empty and its JSON has at most 1500 bytes; otherwise it is rejected |
| `Cursors.DateIdLaw` | backend/src/common/cursor-pagination.ts:24-38 | which texts are refused as a date and id cursor |
| `Cursors.CatalogRoundTrip` | backend/src/platform/extension-installations.service.ts:161-183 | a catalogue cursor comes back as it was under its own sort and is rejected under any other |
| `Cursors.CatalogLaw` | backend/src/platform/extension-installations.service.ts:161-183 | which are refused as a catalogue cursor, for each sort |
| `Cursors.FieldsLaw` | backend/src/platform/extension-installations.service.ts:175-183 | the fields that each kind of cursor holds |
| `Cursors.ApiCursorItems` | frontend/lib/api.ts:75-89 | the client loop computes the concatenation of the pages, or the error of the request or the page limit |
| `Cursors.ClientFollowsKeys` | frontend/lib/api.ts:75-89 | sending cursors as text gives what following the keys gives |
| `Cursors.ClientGetsEachRowOnce` | frontend/lib/api.ts:75-89 | end to end: what the client returns is ordered, has no key twice, invents nothing, and has every key that stays in the tables, and every row that stays as it is |
| `Cursors.ClientReach` | frontend/lib/api.ts:75-89 | over a table at rest the client returns the whole listing if and only if it has at most 10,000 rows |
| `BackupService.VerifySnapshot` | backend/src/backup/backup.service.ts:459-479 | accepts exactly version 2 snapshots with known models only, declared models present with no row of another school, and at most a million rows, which it counts; any defect rejects |
| `SnapshotLaws.VerifiedLaw` | backend/src/backup/backup.service.ts:459-479 | a snapshot is rejected exactly for another version, data of a model that is not backed up, a declared model that is unknown, missing or has a row of another school, or more than a million rows |
| `SnapshotLaws.ReferencesLaw` | backend/src/backup/backup.service.ts:414-423 | its references are rejected exactly for a child without its installation or for want of an administrator |
| `SnapshotLaws.UndeclaredEscapes` | backend/src/backup/backup.service.ts:465-476 | data of a model that is not declared is not looked at |
| `BackupService.VerifyRestoreReferences` | backend/src/backup/backup.service.ts:414-423 | accepts exactly snapshots whose children refer to installations in it and that have an administrator |
| `BackupService.Database.ExportAll` | backend/src/backup/backup.service.ts:494-507 | an export has every own row of every backup model once and nothing else |
| `BackupService.Database.PersistSafetyExport` | backend/src/backup/backup.service.ts:400-412 | exports the state before the first execution of a request; a repeated execution keeps that first export |
| `BackupService.Database.InsertModel` | backend/src/backup/backup.service.ts:316-326 | inserting in chunks of 250 is inserting all at once, and counts the rows |
| `BackupService.Database.ExecuteRestore` | backend/src/backup/backup.service.ts:288-337 | with nothing else writing meanwhile, a restore is refused before it writes anything, or records its safety export and leaves the tables alone and reports the failure, or leaves exactly the restored tables and reports the rows inserted |
| `Backup.RestoreSucceedsIff` | backend/src/backup/backup.service.ts:304-326 | a restore of a verified snapshot succeeds if and only if every user fits as it is taken over, and no restored model has an id or unique value twice, an id of another school's row, or a unique value of one; it never fails on a reference |
| `Backup.WithUsersIff` | backend/src/backup/backup.service.ts:309-315 | the users are taken over one by one if and only if none has, by then, a unique value of another user |
| `Backup.UsersFitIff` | backend/src/backup/backup.service.ts:309-315 | which holds if and only if no row shares a unique value with the last earlier row of another user, or with another user of the table before that has none: a condition on that table and the rows alone |
| `Backup.RestoreGivesSnapshot` | backend/src/backup/backup.service.ts:304-326 | each restored model then has exactly the snapshot's rows for this school and exactly the old ones for all others |
| `Backup.RestoreEndsSessions` | backend/src/backup/backup.service.ts:47-51 | the school's refresh and reset tokens are gone and models outside the backup are untouched |
| `Backup.RestoreKeepsUsers` | backend/src/backup/backup.service.ts:309-315 | every snapshot user is there with the snapshot's data and any earlier creation date; every other user is as before |
| `SnapshotLaws.InsertionLaw` | backend/src/backup/backup.service.ts:316-326 | a row is inserted, for this school, unless its id or a unique value of it is taken or its installation is missing |
| `SnapshotLaws.TakeOverLaw` | backend/src/backup/backup.service.ts:309-315 | a user is taken over with the snapshot's data and any creation date there was, unless a unique value is another user's |
| `SnapshotLaws.DeletionLaw` | backend/src/backup/backup.service.ts:305-308 | a deletion takes the school's own rows of one model and nothing else |
| `SnapshotLaws.OrdersLaw` | backend/src/backup/backup.service.ts:47-51 | a restore empties every restored model, reset links and sessions, but not the users |
| `Backup.OtherSchoolsUsersIff` | backend/src/backup/backup.service.ts:309-315 | other schools keep their users if and only if the snapshot names none of them |
| `BackupUndo.ForeignUserHappens` | backend/src/backup/backup.service.ts:309-315 | such a restore goes through and takes a user from another school |
| `Backup.ClearingKeepsReferences` | backend/src/backup/backup.service.ts:305-308 | no deletion on the way leaves a child without its installation |
| `Backup.InsertingKeepsReferences` | backend/src/backup/backup.service.ts:316-326 | nor does any insertion, wherever a batch stops |
| `Backup.RestoreKeepsReferences` | backend/src/backup/backup.service.ts:304-326 | nor does the whole |
| `BackupUndo.ExportVerifies` | backend/src/backup/backup.service.ts:414-423 | an export passes the reference checks if and only if the school has an administrator, and the snapshot checks if and only if it is not too long |
| `BackupUndo.SafetyExportUndoes` | backend/src/backup/backup.service.ts:400-412 | restoring the export taken before a restore goes through if and only if each user of it fits when it is taken over; it then gives back every restored model, for all schools, and every user the school had |
| `BackupUndo.UndoMayFail` | backend/src/backup/backup.service.ts:309-315 | it may not go through: a restore that gives one user's address to another, and the undo that then fails |
| `BackupUndo.OlderExportUndoesIff` | backend/src/backup/backup.service.ts:400-412 | an export that was read earlier, by a first execution or before other writes, gives a restored model back, if the undo goes through, if and only if the school's rows were still as the export found them |
| `BackupUndo.SecondExecutionKeepsFirst` | backend/src/backup/backup.service.ts:400-412 | a request executed again after a post was written keeps its first export, and restoring that loses the post |
| `RestoreApproval.StepInOrderIff` | backend/src/backup/backup.service.ts:232-327 | for each handler, exactly which requests its write may find without putting status and history out of order |
| `RestoreApproval.InOrderThroughoutIff` | backend/src/backup/backup.service.ts:232-327 | over every interleaving they are in order all the time if and only if every write finds such a request |
| `RestoreApproval.FreshFits` | backend/src/backup/backup.service.ts:232-327 | the writes of handlers that are not overtaken all do |
| `ApprovalLaws.VerifyLaw` | backend/src/backup/backup.service.ts:232-252 | what a verification does to the request it finds, and when it does nothing |
| `ApprovalLaws.ApproveLaw` | backend/src/backup/backup.service.ts:254-268 | an approval takes a request that was verified when it was read and still is, of somebody else |
| `ApprovalLaws.SubmitLaw` | backend/src/backup/backup.service.ts:270-286 | a submission takes one that was approved when it was read and still is, neither requested nor approved by its executor |
| `ApprovalLaws.EndLaw` | backend/src/backup/backup.service.ts:288-337 | an execution that ends well completes the request whatever it is by then; one that fails only marks it while it executes |
| `ApprovalLaws.CanComplete` | backend/src/backup/backup.service.ts:232-337 | three people take a request through to its completion |
| `ApprovalLaws.RejectedStays` | backend/src/backup/backup.service.ts:232-268 | one whose snapshot does not verify is rejected, and cannot be approved until it is verified again |
| `ApprovalLaws.UnreadLaw` | backend/src/backup/backup.service.ts:232-337 | a handler that has read no request does nothing |
| `RestoreApproval.CompletedInOrder` | backend/src/backup/backup.service.ts:232-327 | then a completed request was verified, approved and started just before, in that order, by an approver who is not the requester and an executor who is neither |
| `RestoreApproval.CompletedIsLast` | backend/src/backup/backup.service.ts:232-327 | and nothing happens to it afterwards |
| `RestoreApproval.DutiesAreSeparate` | backend/src/backup/backup.service.ts:254-286 | however handlers interleave, nobody approves or executes their own request, no approval starts two executions, and nothing completes that was not started |
| `RestoreApproval.SelfExecutesIff` | backend/src/backup/backup.service.ts:270-278 | exactly when a submission starts an execution by its own approver |
| `RestoreApproval.ReopensIff` | backend/src/backup/backup.service.ts:232-252 | exactly when a verification takes a request out of its execution or completion |
| `RestoreApproval.StaleSubmissionSelfExecutes` | backend/src/backup/backup.service.ts:270-278 | the first happens: a reachable state that shows it |
| `RestoreApproval.LateVerificationReopens` | backend/src/backup/backup.service.ts:232-252 | so does the second |
| `FixedWindow.OneWindow` | backend/src/platform/extension-resource-governor.service.ts:67-74 | while a window lasts no more than what is left of its quota is admitted, rejected requests counted too |
| `FixedWindow.WindowExact` | backend/src/platform/extension-resource-governor.service.ts:67-74 | and exactly that much if as many ask |
| `FixedWindow.IntervalBound` | backend/src/platform/extension-resource-governor.service.ts:67-74 | over every request sequence with a monotone clock, a half-open interval as long as a window admits at most 2 * limit - 1 requests |
| `FixedWindow.IntervalBoundReached` | backend/src/platform/extension-resource-governor.service.ts:95-101 | and that many are admitted by some sequence of requests in the order of their times, for every limit and window |
| `Semaphore.StepCounts` | backend/src/platform/extension-resource-governor.service.ts:95-107 | an event keeps the counter of a key at the number of its holders if and only if it does not need it and find it expired, and never takes it above |
| `Semaphore.ExactThroughoutIff` | backend/src/platform/extension-resource-governor.service.ts:95-107 | in any run a counter is the number of its holders all the time if and only if no acquisition finds it expired |
| `Semaphore.CountersNeverLeak` | backend/src/platform/extension-resource-governor.service.ts:20-39 | over every run with expiry, each counter is at most its limit and at most the number of requests that hold it, and equals that number while no acquisition finds it expired |
| `Semaphore.RefusedLeavesNoTrace` | backend/src/platform/extension-resource-governor.service.ts:26-32 | a request refused by its extension's limit leaves every counter as it was |
| `Semaphore.OverLimitLeavesNoTrace` | backend/src/platform/extension-resource-governor.service.ts:103-107 | an acquisition over the limit leaves every counter as it was |
| `Semaphore.LeaveTwice` | backend/src/platform/extension-resource-governor.service.ts:33-38 | releasing twice is releasing once |
| `Semaphore.EnterLaw` | backend/src/platform/extension-resource-governor.service.ts:20-32 | a request takes its school's unit, then its extension's, and is turned away without the first |
| `Semaphore.LeaveLaw` | backend/src/platform/extension-resource-governor.service.ts:28-38 | a refused request gives back its school's unit, and one inside both, once |
| `Semaphore.UnitLaw` | backend/src/platform/extension-resource-governor.service.ts:85-107 | a unit more or less, with expiry and limit |
| `Semaphore.ExpiryUndercounts` | backend/src/platform/extension-resource-governor.service.ts:95-101 | after an expiry a counter can stay below the number of its holders: a run that shows it |
| `Governor.Service.LocalIncrement` | backend/src/platform/extension-resource-governor.service.ts:95-101 | counts up in a running window and starts a new one otherwise |
| `Governor.Service.LocalAcquire` | backend/src/platform/extension-resource-governor.service.ts:103-107 | takes one unit or, over the limit, takes it back |
| `Governor.Service.Release` | backend/src/platform/extension-resource-governor.service.ts:85-93 | gives one unit back and drops a counter that would reach zero |
| `Governor.Service.Consume` | backend/src/platform/extension-resource-governor.service.ts:67-74 | admits if and only if the count is within the limit, and counts either way |
| `Governor.Service.EnterRequest` | backend/src/platform/extension-resource-governor.service.ts:20-39 | both quotas, then both units, each refusal undoing what was held |
| `Governor.Service.Leave` | backend/src/platform/extension-resource-governor.service.ts:33-38 | releases both units the first time and nothing afterwards |
| `Governor.EnterAndLeave` | backend/src/platform/extension-resource-governor.service.ts:20-39 | entering and leaving puts both concurrency counters back, and a refused request never had a hold on them |
| `Governor.EntersIff` | backend/src/platform/extension-resource-governor.service.ts:20-38 | a request enters exactly when, this one included, its school and its extension are within their requests of the minute and within their limits of requests at once |
| `Governor.EnteringCounts` | backend/src/platform/extension-resource-governor.service.ts:20-38 | which four counters move, by how much and until when, for admitted and refused requests; no other does |
| `ThemeCss.ScopeThemeCss` | backend/src/platform/extension-package-validator.service.ts:81-106 | the loop over leftmost pattern matches computes what a deterministic scanner computes, errors included |
| `ThemeCss.SkippedTextHasBrace` | backend/src/platform/extension-package-validator.service.ts:88-89 | text skipped by a leftmost match is never blank |
| `ThemeCss.ScopingPreservesRules` | backend/src/platform/extension-package-validator.service.ts:81-106 | a style sheet is accepted if and only if, without comments, it has no at-rule and is a sequence of flat rules with approved selectors and no restricted declaration; the output then parses, as text without comments, to the same rules in the same order, with the same declarations and every selector confined under .wattaman-theme |
| `ThemeComments.RemovalFixedIff` | backend/src/platform/extension-package-validator.service.ts:82-82 | removing comments leaves a text alone if and only if no comment in it ends |
| `ThemeComments.OutputCommentsIff` | backend/src/platform/extension-package-validator.service.ts:82-106 | an accepted sheet comes out with comments if and only if removing them once has left some, and with an opening if and only if that has left one |
| `ThemeComments.ReaderSeesRulesIff` | backend/src/platform/extension-package-validator.service.ts:81-106 | a reader who drops comments sees the same rules, scoped, if and only if nothing that opens a comment was left |
| `ThemeComments.CommentMayHideRestriction` | backend/src/platform/extension-package-validator.service.ts:82-94 | a sheet that is accepted and in which such a reader sees a declaration that would not have been |
| `ThemeCss.SelectorsPrinted` | backend/src/platform/extension-package-validator.service.ts:91-102 | printed selectors read back as they were |
| `ThemeCss.ScopeConfines` | backend/src/platform/extension-package-validator.service.ts:95-101 | scoping a selector confines it to the theme |
| `ThemeCssLaws.AtRuleLaw` | backend/src/platform/extension-package-validator.service.ts:83-83 | an at-rule is an at-sign that a letter or a hyphen follows |
| `ThemeCssLaws.AtRuleFirst` | backend/src/platform/extension-package-validator.service.ts:83-83 | and refuses the sheet before anything else |
| `ThemeCssLaws.RestrictedLaw` | backend/src/platform/extension-package-validator.service.ts:94-94 | a restricted declaration is one of behavior, of -moz-binding or of a fixed position, in any case and with any blanks around the colon |
| `ThemeCssLaws.SelectorsLaw` | backend/src/platform/extension-package-validator.service.ts:91-91 | the selectors of a rule are what stands between its commas, trimmed |
| `ThemeCssLaws.SplitLaw` | backend/src/platform/extension-package-validator.service.ts:91-91 | splitting at commas loses nothing and leaves none |
| `ThemeCssLaws.TrimLaw` | backend/src/platform/extension-package-validator.service.ts:91-91 | trimming takes all blanks off both ends and nothing else |
| `ThemeCssLaws.JudgeLaw` | backend/src/platform/extension-package-validator.service.ts:91-94 | a rule is objected to for a selector that is not approved, and then for a restricted declaration |
| `ThemeCssLaws.ApprovedLaw` | backend/src/platform/extension-package-validator.service.ts:24-28 | the approved selectors |
| `ThemeCssLaws.ScopeLaw` | backend/src/platform/extension-package-validator.service.ts:95-101 | root, body, dark body, what is under dark, and every other selector, scoped |
| `ThemeOverlay.ThemeOverrides` | backend/src/platform/extension-installations.service.ts:2007-2024 | the loop over the six fields finds exactly those that differ from the applied theme |
| `ThemeOverlay.ThemeService.ApplyThemeVersion` | backend/src/platform/extension-installations.service.ts:1975-2005 | writes the theme with the overrides on top and keeps the rest of the settings |
| `ThemeOverlay.ThemeService.ActivateTheme` | backend/src/platform/extension-installations.service.ts:1375-1482 | activation puts the settings aside and writes the theme; deactivation writes back what was put aside, if anything, with the refusals and early returns of the code |
| `ThemeOverlay.ThemeService.UninstallTheme` | backend/src/platform/extension-installations.service.ts:1498-1544 | removal gives the settings back only while the theme is enabled |
| `ThemeOverlay.ThemeService.UpgradeTheme` | backend/src/platform/extension-installations.service.ts:1148-1171 | an upgrade of an active theme rewrites the settings and the stored overlay; of another, only the version |
| `ThemeOverlay.ThemeService.RollbackTheme` | backend/src/platform/extension-installations.service.ts:1316-1363 | a rollback applies the target theme under the stored overrides |
| `ThemeOverlay.UpgradeKeepsChanges` | backend/src/platform/extension-installations.service.ts:1149-1171 | an upgrade keeps each of the six fields the school changed and takes the new theme for the rest |
| `ThemeLaws.ActivateLaw` | backend/src/platform/extension-installations.service.ts:1375-1482 | what activation puts aside, writes and remembers, and its refusals |
| `ThemeLaws.StopLaw` | backend/src/platform/extension-installations.service.ts:1426-1544 | deactivation and removal of an active theme write back what was put aside, and fail without settings to write to |
| `ThemeLaws.SuspendLaw` | backend/src/platform/extensions.service.ts:1905-1908 | a suspension takes an active theme back to installed, whatever the settings hold |
| `ThemeLaws.UpgradeLaw` | backend/src/platform/extension-installations.service.ts:1148-1171 | an upgrade, column by column |
| `ThemeLaws.RollbackLaw` | backend/src/platform/extension-installations.service.ts:1316-1363 | a rollback, column by column, and its refusal |
| `ThemeLaws.InstallationLaw` | backend/src/platform/extension-installations.service.ts:400-1094 | requests, installations and removals leave the settings alone |
| `ThemeLaws.EditLaw` | backend/src/site-settings/site-settings.service.ts:67-82 | an edit changes the fields it names but the style sheet, and starts from the defaults |
| `ThemeLaws.OthersStay` | backend/src/platform/extension-installations.service.ts:1375-1544 | no command touches another theme |
| `ThemeOverlay.RollbackUndoesUpgrade` | backend/src/platform/extension-installations.service.ts:1341-1348 | a rollback right after an upgrade gives the school back every field as it was |
| `ThemeRuns.StopGivesBackStart` | backend/src/platform/extension-installations.service.ts:1426-1477 | whatever happens to the theme, the settings and other themes in between: stopping it leaves the fields as they were when it was started, or, if there was no settings row then, as they are |
| `ThemeRuns.KeptThroughoutIff` | backend/src/platform/extension-installations.service.ts:1426-1477 | over every run of all theme commands, overlapping and suspended themes included, the school has its own fields whenever no theme is active if and only if every last stop is of a theme started over them, or finds them in the settings already |
| `ThemeRuns.OneAtATimeKeptIff` | backend/src/platform/extensions.service.ts:923-927 | with one theme at a time that holds if and only if no suspension finds other fields than the school's |
| `ThemeRuns.ThemesLeaveNoTrace` | backend/src/platform/extension-installations.service.ts:1411-1482 | and then the fields at the end are what the school edited itself while no theme was active |
| `ThemeRuns.SuspensionLeavesTheme` | backend/src/platform/extensions.service.ts:1905-1908 | a suspended theme leaves its fields in the settings, and deactivating or uninstalling it then gives nothing back |
| `ThemeRuns.StyleSheetStays` | backend/src/site-settings/site-settings.service.ts:67-82 | no edit of the school's takes a style sheet away that a theme has left |
| `ThemeRuns.GivesBackIff` | backend/src/platform/extension-installations.service.ts:1470-1482 | activating and deactivating gives the settings back if and only if there were any |
| `ThemeRuns.OverlapGivesBackIff` | backend/src/platform/extension-installations.service.ts:1470-1477 | of two themes active at once the one stopped last decides: the school gets its own fields back if and only if that one was started first, or the first theme's fields are its own |
| `TenantPolicy.ApplyTenantQueryPolicy` | backend/src/database/tenant-query-policy.ts:21-80 | rewrites the query in place as the policy says, or refuses it unchanged |
| `TenantPolicy.FlattenUniqueWhere` | backend/src/database/tenant-query-policy.ts:9-19 | the loop over the entries computes their flattening |
| `TenantPolicy.FlatStays` | backend/src/database/tenant-query-policy.ts:9-19 | a condition without nested objects is its own flattening, in any order |
| `TenantPolicy.NativeLaw` | backend/src/database/tenant-query-policy.ts:21-80 | an unscoped query finds the rows that meet its condition, and which queries fail for finding none |
| `TenantPolicy.NativeLeaves` | backend/src/database/tenant-query-policy.ts:21-80 | row by row: what reads, updates and deletions leave |
| `TenantPolicy.ScopedIsLocal` | backend/src/database/tenant-query-policy.ts:21-80 | a scoped read, bulk write, update or delete is the unscoped query on the school's own rows alone: same rows, same failures, same rows left behind, and no other school's row changes |
| `TenantPolicy.NonInterference` | backend/src/database/tenant-query-policy.ts:21-80 | so its outcome is the same whatever other schools' rows are |
| `TenantPolicy.UniqueReadStays` | backend/src/database/tenant-query-policy.ts:58-62 | a unique read made into a first read finds the same row when it is the school's, and none otherwise |
| `TenantPolicy.UniqueReadNeverThrows` | backend/src/database/tenant-query-policy.ts:58-62 | the throwing unique read no longer fails when nothing is found |
| `TenantPolicy.PayloadMovesRowsIff` | backend/src/database/tenant-query-policy.ts:31-69 | an update, in bulk or on a unique key, that names a school leaves other schools' rows alone if and only if it names this one, finds nothing, or is refused |
| `TenantPolicy.CreatedRowsAreStamped` | backend/src/database/tenant-query-policy.ts:42-56 | created rows get this school unless they name one |
| `TenantPolicy.CreatedRowIsStamped` | backend/src/database/tenant-query-policy.ts:42-47 | so is a single row |
| `TenantPolicy.UpsertCreatesOwn` | backend/src/database/tenant-query-policy.ts:74-78 | an upsert that finds no row of the school creates in it whatever the row names |
| `TenantPolicy.UnlistedStays` | backend/src/database/tenant-query-policy.ts:21-80 | actions that the policy does not list are left alone |
| `TenantPolicy.ForeignIsRefused` | backend/src/database/tenant-query-policy.ts:64-72 | what is not the school's own is not updated or deleted by a unique key |
| `SignatureCache.VerificationLaw` | backend/src/platform/extension-signing.service.ts:53-80 | a package is verified exactly when everything is there, the key is not revoked, the version is in a runtime state, the package is stored under its checksum and the signature is good; each refusal is the first of these that fails |
| `SignatureCache.VerificationCache.Lookup` | backend/src/platform/extension-signing.service.ts:83-92 | a hit if and only if the version may use the cache and its entry has not expired |
| `SignatureCache.VerificationCache.Evict` | backend/src/platform/extension-signing.service.ts:94-99 | the eviction loop drops the oldest entries, expired or not, until there is room |
| `SignatureCache.VerificationCache.Remember` | backend/src/platform/extension-signing.service.ts:93-101 | room is made and the entry is put, timed from the lookup |
| `SignatureCache.EvictionLaw` | backend/src/platform/extension-signing.service.ts:94-99 | eviction keeps a cache with room, and the newest 999 entries of a full one in order |
| `SignatureCache.CheckLaw` | backend/src/platform/extension-signing.service.ts:83-92 | a check says yes at once exactly for a complete version in a runtime state under a key not revoked that the cache remembers |
| `SignatureCache.FinishLaw` | backend/src/platform/extension-signing.service.ts:92-102 | a full verification that succeeds says yes and is remembered for five minutes from the start of the check; one that fails changes nothing |
| `SignatureCache.JoinInjective` | backend/src/platform/extension-signing.service.ts:90-90 | joined parts without colons tell versions apart |
| `SignatureCache.AcceptedOnlyVerified` | backend/src/platform/extension-signing.service.ts:83-102 | however checks interleave: a yes is for a version in a runtime state whose key is not revoked, and the full verification of the same id, checksum, signature, key and key status succeeded less than five minutes before; the cache never exceeds 1000 entries |
| `SignatureCache.RevokedIsRefused` | backend/src/platform/extension-signing.service.ts:87-89 | a revoked key or a version outside the runtime states is refused whatever is cached |
| `SignatureCache.RecentIsCached` | backend/src/platform/extension-signing.service.ts:92-101 | after a verification the next check within five minutes is answered from the cache |

## Left out

- LostUpdates.NoLostUpdate: no rollback in between puts that record back; where one does, an update can be lost.
- BackupService.Database.ExecuteRestore: nothing else writes between the reading of the safety export and the end of the transaction.
- Lifecycle.LifecycleSafety: the pricing model of the extension stays the same during the run.
- LifecycleJobs.LifecycleJobOnceOnly: covers declarative modules with no other command in between, under the lock of job commands; theme commands write in two steps.
- DeadLetter.LosesIff: a job id is submitted again only while its job is there; so in all results about dead letters.
- ThemeRuns.ThemesLeaveNoTrace: one theme is active at a time, the school has a settings row, and no suspension finds other fields than its own; without these, KeptThroughoutIff says exactly when.
- TenantPolicy.ScopedIsLocal: unique keys are flat, and payloads do not name a school.
- SignatureCache.AcceptedOnlyVerified: identifiers, checksums and signatures have no colons.
- Validation of record data against the manifest, filters, navigation, pages and exports of records.
- Dependency closure and conflict freedom: the code does not maintain them on deactivation and rollback.
- Operator intervention in migration runs, and the counting of migration attempts.
- Payment evidence objects: the lifecycle knows whether evidence is on file, and removal takes the retention check as an answer; whether finalising finds its pending evidence row is another, so that the interleavings allow it twice.
- Deleting an extension for good is one transaction with its own law, not a command of the data plane's runs; its checks, alerts and storage objects, the distributed lock and the purge report are not part of this model.
- Rows without a stored lifecycle state: the stored state is proved equal to the derived one for rows made by the commands.
- Theme activation, upgrade and rollback write the settings and the installation separately; the theme commands are atomic here.
- Upsert's effect and compound unique keys in the tenant policy: the rewriting is modelled, the results are about flat unique keys.
- Nested conditions in queries are evaluated row by row by a parameter.
- Restore of school counters and audit entries in restores; a restore also drops migration runs and lifecycle jobs that hang on its installations, which the tables here do not have.
- A snapshot is already parsed: dates, and the shape of rows other than their school, are not checked.
- The catalogue lookup of a restore is one answer.
- The style sheet parser, and the reader who drops comments, know neither strings nor escapes.
- A replayed dead letter is one that the failure handler filed: the checks of its payload and of the queue's name are not modelled.
- The key-store versions of the request counters, which behave like the ones in memory except that an acquisition also renews the expiry.
- Lenient decoding of cursors that were never issued, beyond skipping characters outside the alphabet.
- Publication signing, package validation other than style sheets, object storage, and the user interface.
