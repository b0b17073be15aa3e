// What the transactions of the data plane do and when they are refused, told column by column: the
// record requests, the run rows of an upgrade, rollback with and without a run, removal and purge.
module DataLaws {
  import opened Results
  import opened DataPlane
  import opened Conservation
  import opened DataPlaneRuns

  // ---------------------------------------------------------------- record requests

  // An update is refused for the first of these reasons that there is: the data is too large, no record
  // of that id has the request's school, installation, extension and resource, its version is another,
  // or its growth exceeds a quota. Otherwise it succeeds.
  lemma UpdateLaw(cfg: Settings, db: Db, a: Access, id: Id, data: Data, expected: int)
    requires Consistent(cfg, db)
    ensures var (r, size) := (Update(cfg, db, a, id, data, expected), cfg.jsonSize(data));
      if size > 1024 * 1024 then r == Err(RecordTooLarge)
      else if id !in db.records then r == Err(NotFound)
      else
        var found := db.records[id];
        if found.school != a.school || found.installation != a.installation then r == Err(NotFound)
        else if found.extension != a.extension || found.resource != a.resource then r == Err(NotFound)
        else if found.concurrencyVersion != expected then r == Err(VersionConflict)
        else if db.installations[found.installation].dataBytes + size - found.byteSize > cfg.installationBytes
        then r == Err(InstallationQuota)
        else if db.schools[found.school].dataBytes + size - found.byteSize > cfg.schoolBytes
        then r == Err(SchoolQuota)
        else r.Ok?
  {
    if id in db.records {
      assert LinkedRecord(db, db.records[id]);
      if Visible(db, a, id) {
        PutRecordTotals(db.records, id, EditedRecord(cfg, a, db.records[id], data));
      }
    }
  }

  // One that succeeds leaves that record with the new data, its size, the request's version, schema and
  // actor, one version on; the counters of its installation and school grow by what the data grew.
  lemma UpdateLeaves(cfg: Settings, db: Db, a: Access, id: Id, data: Data, expected: int)
    requires Consistent(cfg, db) && Update(cfg, db, a, id, data, expected).Ok?
    ensures id in db.records && a.installation in db.installations && a.school in db.schools
    ensures var (next, size) := (Update(cfg, db, a, id, data, expected).value, cfg.jsonSize(data));
      var found, i, s := db.records[id], db.installations[a.installation], db.schools[a.school];
      && next.records == db.records[id := Record(a.school, a.extension, a.installation, a.version, a.resource, data,
           size, a.schemaVersion, expected + 1, a.actor)]
      && next.installations == db.installations[
           a.installation := i.(dataBytes := i.dataBytes + size - found.byteSize)]
      && next.schools == db.schools[a.school := School(s.dataBytes + size - found.byteSize, s.dataRecords)]
      && next.runs == db.runs && next.nextId == db.nextId
  {
    assert LinkedRecord(db, db.records[id]);
    var r := EditedRecord(cfg, a, db.records[id], data);
    PutRecordTotals(db.records, id, r);
    WithRecordsIs(db, a.installation, db.records[id := r], cfg.jsonSize(data) - db.records[id].byteSize, 0);
  }

  // A deletion has no size and no quota to be refused for.
  lemma DeleteLaw(cfg: Settings, db: Db, a: Access, id: Id, expected: int)
    requires Consistent(cfg, db)
    ensures var r := Delete(cfg, db, a, id, expected);
      if id !in db.records then r == Err(NotFound)
      else
        var found := db.records[id];
        if found.school != a.school || found.installation != a.installation then r == Err(NotFound)
        else if found.extension != a.extension || found.resource != a.resource then r == Err(NotFound)
        else if found.concurrencyVersion != expected then r == Err(VersionConflict)
        else r.Ok?
  {
    if id in db.records { assert LinkedRecord(db, db.records[id]); }
  }

  lemma DeleteLeaves(cfg: Settings, db: Db, a: Access, id: Id, expected: int)
    requires Consistent(cfg, db) && Delete(cfg, db, a, id, expected).Ok?
    ensures id in db.records && a.installation in db.installations && a.school in db.schools
    ensures var (next, size) := (Delete(cfg, db, a, id, expected).value, db.records[id].byteSize);
      var i, s := db.installations[a.installation], db.schools[a.school];
      && next.records == db.records - {id}
      && next.installations == db.installations[
           a.installation := i.(dataBytes := i.dataBytes - size, dataRecords := i.dataRecords - 1)]
      && next.schools == db.schools[a.school := School(s.dataBytes - size, s.dataRecords - 1)]
      && next.runs == db.runs && next.nextId == db.nextId
  {
    assert LinkedRecord(db, db.records[id]);
    DropRecordTotals(db.records, id);
    WithRecordsIs(db, a.installation, db.records - {id}, -db.records[id].byteSize, -1);
  }

  // A creation is refused when the data is too large, the installation is gone, or one more record of
  // its size exceeds a quota of bytes or of records, the installation's first.
  lemma CreateLaw(cfg: Settings, db: Db, a: Access, data: Data)
    requires Consistent(cfg, db) && Genuine(db, a)
    ensures var (r, size) := (Create(cfg, db, a, data), cfg.jsonSize(data));
      if size > 1024 * 1024 then r == Err(RecordTooLarge)
      else if a.installation !in db.installations then r == Err(InstallationQuota)
      else
        var i, s := db.installations[a.installation], db.schools[db.installations[a.installation].school];
        if i.dataBytes + size > cfg.installationBytes || i.dataRecords + 1 > cfg.installationRecords
        then r == Err(InstallationQuota)
        else if s.dataBytes + size > cfg.schoolBytes || s.dataRecords + 1 > cfg.schoolRecords
        then r == Err(SchoolQuota)
        else r.Ok?
  {
    PutRecordTotals(db.records, db.nextId, NewRecord(cfg, a, data));
  }

  lemma CreateLeaves(cfg: Settings, db: Db, a: Access, data: Data)
    requires Consistent(cfg, db) && Genuine(db, a) && Create(cfg, db, a, data).Ok?
    ensures a.installation in db.installations && a.school in db.schools && db.nextId !in db.records
    ensures var (next, size) := (Create(cfg, db, a, data).value, cfg.jsonSize(data));
      var i, s := db.installations[a.installation], db.schools[a.school];
      && next.records == db.records[db.nextId := Record(a.school, a.extension, a.installation, a.version, a.resource,
           data, size, a.schemaVersion, 1, None)]
      && next.installations == db.installations[
           a.installation := i.(dataBytes := i.dataBytes + size, dataRecords := i.dataRecords + 1)]
      && next.schools == db.schools[a.school := School(s.dataBytes + size, s.dataRecords + 1)]
      && next.runs == db.runs && next.nextId == db.nextId + 1
  {
    var r := NewRecord(cfg, a, data);
    PutRecordTotals(db.records, db.nextId, r);
    WithRecordsIs(db, a.installation, db.records[db.nextId := r], cfg.jsonSize(data), 1);
  }

  // ---------------------------------------------------------------- the quotas and totals themselves

  // In every reachable state no counter is over its quota.
  lemma QuotasHold(cfg: Settings, cs: seq<Command>)
    requires AllTimely(cfg, EMPTY, cs)
    ensures var db := DataPlaneRuns.Run(cfg, EMPTY, cs);
      && (forall i :: i in db.installations ==>
            && 0 <= db.installations[i].dataBytes <= cfg.installationBytes
            && 0 <= db.installations[i].dataRecords <= cfg.installationRecords)
      && (forall i :: i in db.installations ==>
            && db.installations[i].school in db.schools
            && db.installations[i].dataBytes <= db.schools[db.installations[i].school].dataBytes <= cfg.schoolBytes
            && db.installations[i].dataRecords <= db.schools[db.installations[i].school].dataRecords
              <= cfg.schoolRecords)
  {
    ReachableConsistent(cfg, cs);
    var db := DataPlaneRuns.Run(cfg, EMPTY, cs);
    forall i | i in db.installations
      ensures 0 <= db.installations[i].dataBytes <= db.schools[db.installations[i].school].dataBytes
      ensures 0 <= db.installations[i].dataRecords <= db.schools[db.installations[i].school].dataRecords
    {
      DecrementsHit(cfg, db, i);
    }
  }

  // ---------------------------------------------------------------- upgrades

  // The run of an upgrade: a failed one of the same installation and versions is taken up again with one
  // attempt more, one that waits for an operator refuses, and otherwise a new one starts.
  lemma BeginLaw(db: Db, i: Id, to: Id, previous: Option<Id>)
    requires i in db.installations && PreviousRun(db, i, to, previous)
    ensures var r := Begin(db, i, to, previous);
      match previous
      case Some(p) =>
        var row := db.runs[p];
        if row.status == InterventionRequired then r == Err(InvalidState)
        else
          && r.Ok? && r.value.1 == p && r.value.0 == db.(runs := r.value.0.runs)
          && r.value.0.runs == db.runs[p := DataPlane.Run(row.installation, row.fromVersion, row.toVersion, Pending,
               row.attempts + 1, row.backups)]
      case None =>
        && r.Ok? && r.value.1 == db.nextId && r.value.0 == db.(runs := r.value.0.runs, nextId := db.nextId + 1)
        && r.value.0.runs == db.runs[db.nextId := DataPlane.Run(i, db.installations[i].version, to, Pending, 1, map[])]
  {
  }

  // The run an upgrade takes up or starts, and how many attempts that makes.
  function RunFor(db: Db, previous: Option<Id>): Id {
    if previous.Some? then previous.value else db.nextId
  }

  function Tries(db: Db, previous: Option<Id>): int
    requires previous.Some? ==> previous.value in db.runs
  {
    if previous.Some? then db.runs[previous.value].attempts + 1 else 1
  }

  // An upgrade to the version installed does nothing, and one whose run waits for an operator is refused
  // before anything is written.
  lemma UpgradeStops(cfg: Settings, db: Db, i: Id, m: Migration, previous: Option<Id>)
    requires i in db.installations && PreviousRun(db, i, m.toVersion, previous)
    ensures db.installations[i].version == m.toVersion ==> Upgrade(cfg, db, i, m, previous) == (db, None)
    ensures
      (db.installations[i].version != m.toVersion && previous.Some?
        && db.runs[previous.value].status == InterventionRequired) ==>
      Upgrade(cfg, db, i, m, previous) == (db, Some(InvalidState))
  {
  }

  lemma MigrationLabels(cfg: Settings, db: Db, i: Id, run: Id, m: Migration)
    requires MayMigrate(db, i, run) && Migrate(cfg, db, i, run, m).Ok?
    ensures var next := Migrate(cfg, db, i, run, m).value;
      && i in next.installations && next.installations == db.installations[i := next.installations[i]]
      && next.installations[i].version == m.toVersion && next.installations[i].migrationRun == Some(run)
      && next.installations[i].rollbackVersion == Some(db.installations[i].version)
      && run in next.runs && next.runs == db.runs[run := next.runs[run]]
      && next.runs[run] == db.runs[run].(status := Applied, backups := next.runs[run].backups)
  {
    MigratedState(cfg, db, i, run, m);
  }

  lemma RunWritten(runs: map<Id, DataPlane.Run>, run: Id, first: DataPlane.Run, second: DataPlane.Run)
    ensures runs[run := first][run := second] == runs[run := second]
  {
  }

  // One that goes through leaves the version asked for, remembers the one before and the run to go back
  // by, and touches no other installation and no other run.
  lemma UpgradeInstalls(cfg: Settings, db: Db, i: Id, m: Migration, previous: Option<Id>)
    requires i in db.installations && PreviousRun(db, i, m.toVersion, previous)
    requires db.installations[i].version != m.toVersion && Upgrade(cfg, db, i, m, previous).1 == None
    ensures var (next, run) := (Upgrade(cfg, db, i, m, previous).0, RunFor(db, previous));
      && i in next.installations && next.installations == db.installations[i := next.installations[i]]
      && next.installations[i].version == m.toVersion && next.installations[i].migrationRun == Some(run)
      && next.installations[i].rollbackVersion == Some(db.installations[i].version)
      && run in next.runs && next.runs == db.runs[run := next.runs[run]]
      && next.runs[run].status == Applied && next.runs[run].attempts == Tries(db, previous)
      && next.runs[run].fromVersion == db.installations[i].version && next.runs[run].toVersion == m.toVersion
  {
    BeginLaw(db, i, m.toVersion, previous);
    var (begun, run) := Begin(db, i, m.toVersion, previous).value;
    MigrationLabels(cfg, begun, i, run, m);
    RunWritten(db.runs, run, begun.runs[run], Upgrade(cfg, db, i, m, previous).0.runs[run]);
  }

  // One that fails in its transaction leaves its run failed, or for an operator once its attempts are
  // used up, and nothing else changed.
  lemma UpgradeFails(cfg: Settings, db: Db, i: Id, m: Migration, previous: Option<Id>)
    requires i in db.installations && PreviousRun(db, i, m.toVersion, previous)
    requires previous.Some? ==> db.runs[previous.value].status == Failed
    requires Upgrade(cfg, db, i, m, previous).1 != None
    ensures var (next, run, tries) := (Upgrade(cfg, db, i, m, previous).0, RunFor(db, previous), Tries(db, previous));
      && run in next.runs
      && next == db.(runs := db.runs[run := next.runs[run]],
           nextId := if previous.Some? then db.nextId else db.nextId + 1)
      && next.runs[run].installation == i && next.runs[run].attempts == tries
      && next.runs[run].fromVersion == db.installations[i].version && next.runs[run].toVersion == m.toVersion
      && next.runs[run].status == if tries >= cfg.migrationMaxAttempts then InterventionRequired else Failed
  {
    BeginLaw(db, i, m.toVersion, previous);
    var (begun, run) := Begin(db, i, m.toVersion, previous).value;
    FailureMarked(cfg, begun, run);
    RunWritten(db.runs, run, begun.runs[run], MarkFailed(cfg, begun, run).runs[run]);
  }

  lemma FailureMarked(cfg: Settings, db: Db, run: Id)
    requires run in db.runs
    ensures var next := MarkFailed(cfg, db, run);
      && run in next.runs && next == db.(runs := db.runs[run := next.runs[run]])
      && next.runs[run] == db.runs[run].(status :=
           if db.runs[run].attempts >= cfg.migrationMaxAttempts then InterventionRequired else Failed)
  {
  }

  // ---------------------------------------------------------------- rollback

  // A rollback is refused without an installation and with no version to go back to. One that goes
  // through leaves the target installed, or the remembered version where there is no target. If it
  // changes anything, the version it left is remembered and there is no run any more.
  lemma RollbackLaw(cfg: Settings, db: Db, i: Id, target: Option<Id>)
    requires Consistent(cfg, db)
    ensures var r := Rollback(cfg, db, i, target);
      && (i !in db.installations ==> r == Err(NotFound))
      && (i in db.installations ==>
            var inst := db.installations[i];
            && (target == Some(inst.version) ==> r == Ok(db))
            && (target == None && inst.rollbackVersion == None ==> r == Err(InvalidState))
            && (r.Ok? ==>
                  && i in r.value.installations
                  && Some(r.value.installations[i].version) ==
                       (if target.Some? then target else inst.rollbackVersion)
                  && (r.value != db ==>
                        && r.value.installations[i].rollbackVersion == Some(inst.version)
                        && r.value.installations[i].migrationRun == None)))
  {
    if i in db.installations && Rollback(cfg, db, i, target).Ok? && db.installations[i].migrationRun.Some? {
      var inst := db.installations[i];
      var to := if target.Some? then target else inst.rollbackVersion;
      if target != Some(inst.version) && to.Some? {
        UndoLeaves(cfg, db, i, inst.migrationRun.value, to.value);
      }
    }
  }

  // With no run to undo, it goes through whenever there is a version to go back to, and touches nothing
  // but the version columns of that installation.
  lemma RollbackWithoutRun(cfg: Settings, db: Db, i: Id, target: Option<Id>)
    requires i in db.installations && db.installations[i].migrationRun == None
    ensures var (r, inst) := (Rollback(cfg, db, i, target), db.installations[i]);
      && (r.Ok? <==> target.Some? || inst.rollbackVersion.Some?)
      && (r.Ok? ==>
            && r.value.records == db.records && r.value.schools == db.schools && r.value.runs == db.runs
            && r.value.nextId == db.nextId && i in r.value.installations
            && r.value.installations - {i} == db.installations - {i}
            && var after := r.value.installations[i];
              if target == Some(inst.version) then after == inst
              else after == Installation(inst.school, inst.extension, if target.Some? then target.value
                  else inst.rollbackVersion.value, inst.enabled, inst.uninstalled, inst.purgeAfter, inst.dataBytes,
                inst.dataRecords, Some(inst.version), None))
  {
    var next := Rollback(cfg, db, i, target);
    if next.Ok? && next.value != db {
      assert next.value.installations - {i} == db.installations - {i};
    }
  }

  // Undoing a run is refused unless the run is there, was applied, is of this installation, led to the
  // installed version from the version to go back to, and no backed-up record is gone.
  lemma UndoRefused(cfg: Settings, db: Db, i: Id, run: Id, to: Id)
    requires i in db.installations
    requires
      || run !in db.runs || db.runs[run].status != Applied || db.runs[run].installation != i
      || db.runs[run].toVersion != db.installations[i].version || db.runs[run].fromVersion != to
      || exists id :: id in db.runs[run].backups && id !in db.records
    ensures UndoMigration(cfg, db, i, run, to) == Err(InvalidState)
  {
  }

  // One that goes through leaves the run as rolled back, with its backups, and every backed-up record
  // with the data, size, versions and concurrency version of its backup.
  lemma UndoLeaves(cfg: Settings, db: Db, i: Id, run: Id, to: Id)
    requires Consistent(cfg, db) && i in db.installations && UndoMigration(cfg, db, i, run, to).Ok?
    ensures run in db.runs
    ensures var next := UndoMigration(cfg, db, i, run, to).value;
      && i in next.installations && next.installations - {i} == db.installations - {i}
      && next.installations[i] == db.installations[i].(version := to, migrationRun := None,
           rollbackVersion := Some(db.installations[i].version), dataBytes := next.installations[i].dataBytes)
      && next.runs == db.runs[run := db.runs[run].(status := RolledBack)] && next.nextId == db.nextId
      && next.records.Keys == db.records.Keys
      && forall id :: id in db.records ==>
           var (before, after) := (db.records[id], next.records[id]);
           if id !in db.runs[run].backups then after == before
           else
             var b := db.runs[run].backups[id];
             after == Record(before.school, before.extension, before.installation, b.version, before.resource, b.data,
               b.byteSize, b.schemaVersion, b.concurrencyVersion, before.updatedBy)
  {
    var backups := db.runs[run].backups;
    var back := RestoredTable(db.records, backups, backups.Keys);
    assert SoundRun(db, db.runs[run]);
    SameRowsSameCount(back, db.records, i);
    WithRecordsIs(Labelled(db, i, to, db.installations[i].version, None, run, db.runs[run].(status := RolledBack)),
        i, back, BytesOf(back, i) - BytesOf(db.records, i), 0);
  }

  // ---------------------------------------------------------------- removal and purge

  // A removal is refused for a row that was not there, or was enabled or not uninstalled when it was
  // read, or is gone since. Otherwise the installation goes with exactly its records and runs, and its
  // school gives back what the row held when read, if it has that much.
  lemma RemovalLaw(cfg: Settings, db: Db, i: Id, seen: Option<Installation>)
    requires Consistent(cfg, db)
    ensures var r := Remove(db, i, seen);
      if seen == None then r == Err(NotFound)
      else if seen.value.enabled || !seen.value.uninstalled then r == Err(InvalidState)
      else if i !in db.installations then r == Err(NotFound)
      else
        && r.Ok? && Taken(db, i, r.value)
        && GivesUp(db, i, seen.value.dataBytes, seen.value.dataRecords, r.value)
  {
    if i in db.installations && seen.Some? {
      RemovedRecords(cfg, db, i, seen.value.dataBytes, seen.value.dataRecords);
    }
  }

  // Gone are the installation, its records and its runs, and nothing else.
  ghost predicate Taken(db: Db, i: Id, next: Db) {
    && next.installations == db.installations - {i} && next.nextId == db.nextId
    && (forall id :: id in next.records <==> id in db.records && db.records[id].installation != i)
    && (forall id :: id in next.records ==> next.records[id] == db.records[id])
    && (forall run :: run in next.runs <==> run in db.runs && db.runs[run].installation != i)
    && (forall run :: run in next.runs ==> next.runs[run] == db.runs[run])
  }

  ghost predicate GivesUp(db: Db, i: Id, bytes: int, count: int, next: Db)
    requires i in db.installations && db.installations[i].school in db.schools
  {
    var s := db.installations[i].school;
    var school := db.schools[s];
    if bytes <= school.dataBytes && count <= school.dataRecords
    then next.schools == db.schools[s := School(school.dataBytes - bytes, school.dataRecords - count)]
    else next.schools == db.schools
  }

  // The scheduled purge does the same for a candidate that is still disabled and past its purge date.
  // Otherwise it deletes the candidate's records and keeps everything else.
  lemma PurgeLaw(cfg: Settings, db: Db, c: Candidate, now: int)
    requires Consistent(cfg, db) && GenuineCandidate(db, c)
    ensures var (next, i) := (Purge(db, c, now), c.installation);
      if i in db.installations && !db.installations[i].enabled && db.installations[i].purgeAfter.Some?
        && db.installations[i].purgeAfter.value <= now
      then Taken(db, i, next) && GivesUp(db, i, c.dataBytes, c.dataRecords, next)
      else
        && next == db.(records := next.records)
        && (forall id :: id in next.records <==>
              id in db.records && !(db.records[id].school == c.school && db.records[id].extension == c.extension))
        && (forall id :: id in next.records ==> next.records[id] == db.records[id])
  {
    if c.installation in db.installations {
      RemovedRecords(cfg, db, c.installation, c.dataBytes, c.dataRecords);
    }
  }

  // ---------------------------------------------------------------- schools and installations

  // A school is added empty; an installation is added empty to a school that has none of its extension;
  // its state and its version are written as they are given.
  lemma SurroundingsLaw(
      cfg: Settings, db: Db, s: Id, e: Id, v: Id, i: Id, enabled: bool, uninstalled: bool, purgeAfter: Option<int>)
    ensures DataPlaneRuns.Exec(cfg, db, AddSchool) ==
      Ok(Db(db.schools[db.nextId := School(0, 0)], db.installations, db.records, db.runs, db.nextId + 1))
    ensures DataPlaneRuns.Exec(cfg, db, Open(s, e, v)) ==
      if s in db.schools && forall j :: j in db.installations ==>
        !(db.installations[j].school == s && db.installations[j].extension == e)
      then Ok(Db(db.schools, db.installations[db.nextId := Installation(s, e, v, false, false, None, 0, 0, None, None)],
        db.records, db.runs, db.nextId + 1))
      else Err(InvalidState)
    ensures i in db.installations ==>
      var (inst, others) := (db.installations[i], db.installations);
      && DataPlaneRuns.Exec(cfg, db, SetState(i, enabled, uninstalled, purgeAfter)) ==
           Ok(Db(db.schools, others[i := Installation(inst.school, inst.extension, inst.version, enabled, uninstalled,
             purgeAfter, inst.dataBytes, inst.dataRecords, inst.rollbackVersion, inst.migrationRun)], db.records,
             db.runs, db.nextId))
      && DataPlaneRuns.Exec(cfg, db, SetVersion(i, v)) ==
           Ok(Db(db.schools, others[i := Installation(inst.school, inst.extension, v, inst.enabled, inst.uninstalled,
             inst.purgeAfter, inst.dataBytes, inst.dataRecords, inst.rollbackVersion, inst.migrationRun)], db.records,
             db.runs, db.nextId))
    ensures i !in db.installations ==>
      && DataPlaneRuns.Exec(cfg, db, SetState(i, enabled, uninstalled, purgeAfter)) == Err(NotFound)
      && DataPlaneRuns.Exec(cfg, db, SetVersion(i, v)) == Err(NotFound)
  {
  }
}
