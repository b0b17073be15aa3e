// The record store as the services run it: guarded updates of the counters, loops over records with
// a running byte delta, and restoring what a transaction wrote when it is abandoned. Every method is
// proved to have exactly the effect that DataPlane gives the transaction.
module RecordStore {
  import opened Results
  import opened Totals
  import opened DataPlane
  import opened Conservation

  function Due(found: seq<Candidate>, held: set<Id>): set<Id> {
    set c | c in found && c.installation !in held :: c.installation
  }

  ghost predicate DistinctCandidates(found: seq<Candidate>) {
    forall j, k :: 0 <= j < k < |found| ==> found[j].installation != found[k].installation
  }

  lemma DueNext(found: seq<Candidate>, held: set<Id>, n: nat)
    requires n < |found| && DistinctCandidates(found)
    ensures found[n].installation !in Due(found[..n], held)
    ensures Due(found[..n + 1], held) ==
      Due(found[..n], held) + (if found[n].installation in held then {} else {found[n].installation})
  {
    assert found[..n + 1] == found[..n] + [found[n]];
  }

  lemma MinusBoth<V>(m: map<Id, V>, done: set<Id>, i: Id)
    ensures (m - done) - {i} == m - (done + {i}) && m - (done + {}) == m - done
  {
  }

  class Store {
    const cfg: Settings
    var schools: map<Id, School>
    var installations: map<Id, Installation>
    var records: map<Id, Record>
    var runs: map<Id, Run>
    var nextId: Id

    function State(): Db
      reads this
    {
      Db(schools, installations, records, runs, nextId)
    }

    ghost predicate Valid()
      reads this
    {
      Consistent(cfg, State())
    }

    constructor (cfg: Settings)
      ensures Valid() && this.cfg == cfg
      ensures State() == Db(map[], map[], map[], map[], 0)
    {
      this.cfg := cfg;
      schools, installations, records, runs, nextId := map[], map[], map[], map[], 0;
    }

    // An abandoned transaction leaves nothing behind.
    method Abort(before: Db)
      modifies this
      ensures State() == before
    {
      schools, installations, records, runs, nextId :=
        before.schools, before.installations, before.records, before.runs, before.nextId;
    }

    // ------------------------------------------------------------ counters

    // Reserve room in the installation, then in its school.
    method ReserveCapacity(i: Id, school: Id, bytes: int, count: int) returns (failure: Option<Failure>)
      requires i in installations ==> installations[i].school == school
      modifies `installations, `schools
      ensures failure == None <==>
        && i in old(installations) && school in old(schools)
        && InstallationFits(cfg, Moved(old(installations)[i], bytes, count))
        && SchoolFits(cfg, Charged(old(schools), school, bytes, count)[school])
      ensures failure == None ==>
        && installations == old(installations)[i := Moved(old(installations)[i], bytes, count)]
        && schools == Charged(old(schools), school, bytes, count)
      ensures failure == Some(InstallationQuota) <==>
        i !in old(installations) || !InstallationFits(cfg, Moved(old(installations)[i], bytes, count))
      ensures failure != None ==> failure.value in {InstallationQuota, SchoolQuota}
    {
      if i !in installations
         || installations[i].dataBytes > cfg.installationBytes - bytes
         || installations[i].dataRecords > cfg.installationRecords - count {
        return Some(InstallationQuota);
      }
      installations := installations[i := Moved(installations[i], bytes, count)];
      if school !in schools
         || schools[school].dataBytes > cfg.schoolBytes - bytes
         || schools[school].dataRecords > cfg.schoolRecords - count {
        return Some(SchoolQuota);
      }
      schools := Charged(schools, school, bytes, count);
      return None;
    }

    // Growing reserves; shrinking gives back, from the school only what it has.
    method AdjustBytes(i: Id, school: Id, delta: int) returns (failure: Option<Failure>)
      requires i in installations && installations[i].school == school && school in schools
      requires delta < 0 ==> schools[school].dataBytes >= -delta
      requires installations[i].dataRecords <= cfg.installationRecords
      requires schools[school].dataRecords <= cfg.schoolRecords
      requires delta <= 0 ==> InstallationFits(cfg, installations[i]) && SchoolFits(cfg, schools[school])
      modifies `installations, `schools
      ensures failure ==
        if !InstallationFits(cfg, Moved(old(installations)[i], delta, 0)) then Some(InstallationQuota)
        else if !SchoolFits(cfg, Charged(old(schools), school, delta, 0)[school]) then Some(SchoolQuota)
        else None
      ensures failure == None ==>
        && installations == old(installations)[i := Moved(old(installations)[i], delta, 0)]
        && schools == Charged(old(schools), school, delta, 0)
    {
      failure := None;
      if delta > 0 {
        failure := ReserveCapacity(i, school, delta, 0);
      } else if delta < 0 {
        installations := installations[i := Moved(installations[i], delta, 0)];
        if schools[school].dataBytes >= -delta {
          schools := Charged(schools, school, delta, 0);
        }
      }
    }

    // One record fewer, in each counter only if it is positive.
    method DecrementRecords(i: Id, school: Id)
      requires i in installations && school in schools
      requires installations[i].dataRecords > 0 && schools[school].dataRecords > 0
      modifies `installations, `schools
      ensures installations == old(installations)[i := Moved(old(installations)[i], 0, -1)]
      ensures schools == Charged(old(schools), school, 0, -1)
    {
      if installations[i].dataRecords > 0 {
        installations := installations[i := Moved(installations[i], 0, -1)];
      }
      if schools[school].dataRecords > 0 {
        schools := Charged(schools, school, 0, -1);
      }
    }

    // ------------------------------------------------------------ records

    method CreateRecord(a: Access, data: Data) returns (r: Result<Id, Failure>)
      requires Valid() && Genuine(State(), a)
      modifies this
      ensures Valid()
      ensures match Create(cfg, old(State()), a, data)
        case Ok(next) => r == Ok(old(nextId)) && State() == next
        case Err(e) => r == Err(e) && State() == old(State())
    {
      var byteSize := cfg.jsonSize(data);
      if byteSize > MAX_RECORD_BYTES {
        return Err(RecordTooLarge);
      }
      var before := State();
      PutRecordTotals(records, nextId, NewRecord(cfg, a, data));
      if a.installation in installations {
        WithRecordsIs(before, a.installation, records[nextId := NewRecord(cfg, a, data)], byteSize, 1);
      }
      var failure := ReserveCapacity(a.installation, a.school, byteSize, 1);
      if failure.Some? {
        Abort(before);
        return Err(failure.value);
      }
      records := records[nextId := NewRecord(cfg, a, data)];
      nextId := nextId + 1;
      CreateConsistent(cfg, before, a, data);
      return Ok(before.nextId);
    }

    method UpdateRecord(a: Access, id: Id, data: Data, expected: int) returns (failure: Option<Failure>)
      requires Valid()
      modifies this
      ensures Valid()
      ensures match Update(cfg, old(State()), a, id, data, expected)
        case Ok(next) => failure == None && State() == next
        case Err(e) => failure == Some(e) && State() == old(State())
    {
      var byteSize := cfg.jsonSize(data);
      if byteSize > MAX_RECORD_BYTES {
        return Some(RecordTooLarge);
      }
      if !Visible(State(), a, id) {
        return Some(NotFound);
      }
      if records[id].concurrencyVersion != expected {
        return Some(VersionConflict);
      }
      var before := State();
      assert LinkedRecord(before, records[id]);
      PutRecordTotals(records, id, EditedRecord(cfg, a, records[id], data));
      WithRecordsIs(before, a.installation, records[id := EditedRecord(cfg, a, records[id], data)],
          byteSize - records[id].byteSize, 0);
      DecrementsHit(cfg, before, a.installation);
      failure := AdjustBytes(a.installation, a.school, byteSize - records[id].byteSize);
      if failure.Some? {
        Abort(before);
        return;
      }
      records := records[id := EditedRecord(cfg, a, records[id], data)];
      UpdateConsistent(cfg, before, a, id, data, expected);
    }

    method DeleteRecord(a: Access, id: Id, expected: int) returns (failure: Option<Failure>)
      requires Valid()
      modifies this
      ensures Valid()
      ensures match Delete(cfg, old(State()), a, id, expected)
        case Ok(next) => failure == None && State() == next
        case Err(e) => failure == Some(e) && State() == old(State())
    {
      if !Visible(State(), a, id) {
        return Some(NotFound);
      }
      if records[id].concurrencyVersion != expected {
        return Some(VersionConflict);
      }
      var before := State();
      var size := records[id].byteSize;
      assert LinkedRecord(before, records[id]);
      assert installations[a.installation].school == a.school;
      DropRecordTotals(records, id);
      WithRecordsIs(before, a.installation, records - {id}, -size, -1);
      DecrementsHit(cfg, before, a.installation);
      MovedTwice(installations, a.installation, -size, -1);
      ChargedTwice(schools, a.school, -size, -1);
      failure := AdjustBytes(a.installation, a.school, -size);
      records := records - {id};
      DecrementRecords(a.installation, a.school);
      assert State() == WithRecords(before, a.installation, before.records - {id});
      DeleteConsistent(cfg, before, a, id, expected);
    }

    // ------------------------------------------------------------ migration

    // The operations of one record's resource, applied in place and in order.
    method ApplyOperations(ops: seq<Operation>, resource: string, original: Data) returns (migrated: Option<Data>)
      ensures migrated == Fold(ops, resource, original)
    {
      var data := original;
      for k := 0 to |ops|
        invariant Fold(ops[k..], resource, data) == Fold(ops, resource, original)
      {
        assert ops[k..][1..] == ops[k + 1..];
        if ops[k].resource == resource {
          var next := Operate(ops[k], data);
          if next == None {
            return None;
          }
          data := next.value;
        }
      }
      return Some(data);
    }

    // One selected record is rewritten; what it was is returned for the backup.
    method RewriteRecord(ghost before: Db, i: Id, m: Migration, ghost done: set<Id>, id: Id)
      returns (clash: bool, delta: int, backup: Backup)
      requires done + {id} <= before.records.Keys && id !in done && !Clashes(before, m, done)
      requires before.records[id].installation == i
      requires records == MigratedTable(cfg, before, m, done)
      modifies `records
      ensures clash <==> Clashes(before, m, done + {id})
      ensures !clash ==> records == MigratedTable(cfg, before, m, done + {id})
      ensures !clash ==>
        delta == BytesOf(records, i) - BytesOf(old(records), i) && CountOf(records, i) == CountOf(old(records), i)
      ensures backup == BackupOf(before.records[id])
    {
      var record := records[id];
      clash, delta, backup := true, 0, BackupOf(record);
      var migrated := ApplyOperations(m.operations, record.resource, record.data);
      if migrated == None {
        return;
      }
      clash := false;
      var byteSize := cfg.jsonSize(migrated.value);
      var rewritten := record.(
        data := migrated.value, byteSize := byteSize, version := m.toVersion, schemaVersion := m.schemaVersion,
        concurrencyVersion := record.concurrencyVersion + 1, updatedBy := m.actor);
      MigratedTableStep(cfg, before, i, m, done, id);
      assert rewritten == MigratedRecord(cfg, m, before.records[id]);
      delta := byteSize - record.byteSize;
      records := records[id := rewritten];
    }

    method SelectRecords(i: Id, m: Migration) returns (rows: set<Id>)
      requires i in installations
      ensures rows == Targets(State(), i, m)
    {
      var resources := Resources(m.operations);
      var inst := installations[i];
      rows := set id | id in records && InScope(inst.school, inst.extension, resources, records[id]);
    }

    // All selected records, one by one in whatever order they come, with a running delta.
    method RewriteRecords(ghost before: Db, i: Id, m: Migration, rows: set<Id>)
      returns (clash: bool, byteDelta: int, backups: map<Id, Backup>)
      requires records == before.records && rows <= records.Keys
      requires forall id :: id in rows ==> before.records[id].installation == i
      modifies `records
      ensures clash <==> Clashes(before, m, rows)
      ensures !clash ==>
        && records == MigratedTable(cfg, before, m, rows)
        && backups == BackupsOf(before.records, rows)
        && byteDelta == BytesOf(records, i) - BytesOf(before.records, i)
        && CountOf(records, i) == CountOf(before.records, i)
    {
      var pending := rows;
      backups, byteDelta, clash := map[], 0, false;
      ghost var done := {};
      while pending != {}
        invariant pending !! done && pending + done == rows
        invariant !Clashes(before, m, done)
        invariant records == MigratedTable(cfg, before, m, done)
        invariant backups == BackupsOf(before.records, done)
        invariant byteDelta == BytesOf(records, i) - BytesOf(before.records, i)
        invariant CountOf(records, i) == CountOf(before.records, i)
        decreases |pending|
      {
        var id :| id in pending;
        MoveOne(pending, done, id);
        BackupsStep(before.records, done, id);
        var delta, backup;
        clash, delta, backup := RewriteRecord(before, i, m, done, id);
        if clash {
          return;
        }
        byteDelta := byteDelta + delta;
        backups := backups[id := backup];
        pending, done := pending - {id}, done + {id};
      }
    }

    // The migration transaction: all records, then the installation, then the counters once.
    method ApplyMigration(i: Id, run: Id, m: Migration) returns (failure: Option<Failure>)
      requires Valid() && MayMigrate(State(), i, run)
      modifies this
      ensures Valid()
      ensures match Migrate(cfg, old(State()), i, run, m)
        case Ok(next) => failure == None && State() == next
        case Err(e) => failure == Some(e) && State() == old(State())
    {
      var before := State();
      var inst := installations[i];
      TargetsAreOwned(cfg, before, i, m);
      var rows := SelectRecords(i, m);
      var clash, byteDelta, backups := RewriteRecords(before, i, m, rows);
      if clash {
        Abort(before);
        return Some(RenameClash);
      }
      MigratedTableWritable(cfg, before, i, m);
      TableBytesNonNegative(before, i, records);
      assert InstallationExact(before, i);
      installations := installations[i := inst.(
        version := m.toVersion, rollbackVersion := Some(inst.version), migrationRun := Some(run))];
      ghost var labelled := Labelled(before, i, m.toVersion, inst.version, Some(run), run,
          AppliedRun(before, run, rows));
      WithRecordsIs(labelled, i, records, byteDelta, 0);
      failure := AdjustMigrationCapacity(before, i, byteDelta);
      if failure.Some? {
        Abort(before);
        return;
      }
      runs := runs[run := runs[run].(status := Applied, backups := backups)];
      assert State() == WithRecords(labelled, i, MigratedTable(cfg, before, m, rows));
      MigrateConsistent(cfg, before, i, run, m);
    }

    // An upgrade with a declared migration, from the run row to the run row.
    method UpgradeWithMigration(i: Id, m: Migration, previous: Option<Id>) returns (failure: Option<Failure>)
      requires Valid() && i in installations && PreviousRun(State(), i, m.toVersion, previous)
      modifies this
      ensures Valid()
      ensures (State(), failure) == Upgrade(cfg, old(State()), i, m, previous)
    {
      if installations[i].version == m.toVersion {
        return None;
      }
      ghost var before := State();
      if previous.Some? && runs[previous.value].status == InterventionRequired {
        return Some(InvalidState);
      }
      var run := nextId;
      if previous.Some? {
        run := previous.value;
        runs := runs[run := runs[run].(status := Pending, attempts := runs[run].attempts + 1)];
      } else {
        runs := runs[run := Run(i, installations[i].version, m.toVersion, Pending, 1, map[])];
        nextId := nextId + 1;
      }
      BeginConsistent(cfg, before, i, m.toVersion, previous);
      assert (State(), run) == Begin(before, i, m.toVersion, previous).value;
      failure := ApplyMigration(i, run, m);
      if failure.Some? {
        MarkFailedConsistent(cfg, State(), run);
        runs := runs[run := runs[run].(
          status := if runs[run].attempts >= cfg.migrationMaxAttempts then InterventionRequired else Failed)];
      }
    }

    // ------------------------------------------------------------ rollback

    // One backed-up record goes back to its backup; a deleted one cannot.
    method RestoreRecord(ghost before: Db, i: Id, backups: map<Id, Backup>, ghost done: set<Id>, id: Id)
      returns (missing: bool, delta: int)
      requires done + {id} <= backups.Keys && id !in done
      requires id in before.records ==> before.records[id].installation == i
      requires records == RestoredTable(before.records, backups, done)
      modifies `records
      ensures missing <==> id !in before.records
      ensures !missing ==> records == RestoredTable(before.records, backups, done + {id})
      ensures !missing ==>
        delta == BytesOf(records, i) - BytesOf(old(records), i) && CountOf(records, i) == CountOf(old(records), i)
    {
      if id !in records {
        return true, 0;
      }
      RestoredTableStep(before.records, backups, i, done, id);
      missing, delta := false, backups[id].byteSize - records[id].byteSize;
      records := records[id := RestoredRecord(records[id], backups[id])];
    }

    // All of them, with a running delta; a missing one stops the rollback.
    method RestoreRecords(ghost before: Db, i: Id, backups: map<Id, Backup>) returns (missing: bool, byteDelta: int)
      requires records == before.records
      requires forall id :: id in backups && id in records ==> records[id].installation == i
      modifies `records
      ensures missing <==> !(backups.Keys <= before.records.Keys)
      ensures !missing ==>
        && records == RestoredTable(before.records, backups, backups.Keys)
        && byteDelta == BytesOf(records, i) - BytesOf(before.records, i)
        && CountOf(records, i) == CountOf(before.records, i)
    {
      var pending := backups.Keys;
      byteDelta, missing := 0, false;
      ghost var done := {};
      while pending != {}
        invariant pending !! done && pending + done == backups.Keys && done <= before.records.Keys
        invariant records == RestoredTable(before.records, backups, done)
        invariant byteDelta == BytesOf(records, i) - BytesOf(before.records, i)
        invariant CountOf(records, i) == CountOf(before.records, i)
        decreases |pending|
      {
        var id :| id in pending;
        MoveOne(pending, done, id);
        var delta;
        missing, delta := RestoreRecord(before, i, backups, done, id);
        if missing {
          return;
        }
        byteDelta := byteDelta + delta;
        pending, done := pending - {id}, done + {id};
      }
    }

    method RollbackMigration(i: Id, run: Id, to: Id) returns (failure: Option<Failure>)
      requires Valid() && i in installations
      modifies this
      ensures Valid()
      ensures match UndoMigration(cfg, old(State()), i, run, to)
        case Ok(next) => failure == None && State() == next
        case Err(e) => failure == Some(e) && State() == old(State())
    {
      if !MayUndo(State(), i, run, to) {
        return Some(InvalidState);
      }
      var before := State();
      var inst := installations[i];
      assert SoundRun(before, runs[run]);
      var missing, byteDelta := RestoreRecords(before, i, runs[run].backups);
      if missing {
        Abort(before);
        return Some(InvalidState);
      }
      RestoredTableWritable(cfg, before, i, run);
      TableBytesNonNegative(before, i, records);
      assert InstallationExact(before, i);
      installations := installations[i := inst.(
        version := to, rollbackVersion := Some(inst.version), migrationRun := None)];
      ghost var labelled := Labelled(before, i, to, inst.version, None, run, runs[run].(status := RolledBack));
      WithRecordsIs(labelled, i, records, byteDelta, 0);
      failure := AdjustMigrationCapacity(before, i, byteDelta);
      if failure.Some? {
        Abort(before);
        return;
      }
      runs := runs[run := runs[run].(status := RolledBack)];
      assert State() == WithRecords(labelled, i,
          RestoredTable(before.records, before.runs[run].backups, before.runs[run].backups.Keys));
      UndoConsistent(cfg, before, i, run, to);
    }

    method RollbackInstallation(i: Id, target: Option<Id>) returns (failure: Option<Failure>)
      requires Valid()
      modifies this
      ensures Valid()
      ensures match Rollback(cfg, old(State()), i, target)
        case Ok(next) => failure == None && State() == next
        case Err(e) => failure == Some(e) && State() == old(State())
    {
      if i !in installations {
        return Some(NotFound);
      }
      var inst := installations[i];
      if target == Some(inst.version) {
        return None;
      }
      var to := if target.Some? then target else inst.rollbackVersion;
      if to == None {
        return Some(InvalidState);
      }
      if inst.migrationRun.Some? {
        failure := RollbackMigration(i, inst.migrationRun.value, to.value);
      } else {
        RollbackConsistent(cfg, State(), i, target);
        installations := installations[i := inst.(version := to.value, rollbackVersion := Some(inst.version))];
        failure := None;
      }
    }

    // ------------------------------------------------------------ removal

    // The row was read before the transaction: it decides, and its counters are those given back.
    method RemoveUninstalled(i: Id, seen: Option<Installation>) returns (failure: Option<Failure>)
      requires Valid()
      modifies this
      ensures seen.Some? && i in old(installations) ==>
        old(ReadIsCurrent(State(), i, seen.value.dataBytes, seen.value.dataRecords)) ==> Valid()
      ensures match Remove(old(State()), i, seen)
        case Ok(next) => failure == None && State() == next
        case Err(e) => failure == Some(e) && State() == old(State())
    {
      if seen.None? {
        return Some(NotFound);
      }
      if !seen.value.uninstalled || seen.value.enabled {
        return Some(InvalidState);
      }
      if i !in installations {
        return Some(NotFound);
      }
      DropInstallation(i, seen.value.dataBytes, seen.value.dataRecords);
      failure := None;
    }

    method DropInstallation(i: Id, readBytes: int, readRecords: int)
      requires Valid() && i in installations
      modifies this
      ensures State() == WithoutInstallation(old(State()), i, readBytes, readRecords)
      ensures old(ReadIsCurrent(State(), i, readBytes, readRecords)) ==> Valid()
    {
      if ReadIsCurrent(State(), i, readBytes, readRecords) {
        RemovalConsistent(cfg, State(), i, readBytes, readRecords);
      }
      var inst := installations[i];
      records := map id | id in records &&
        !(records[id].school == inst.school && records[id].extension == inst.extension)
                          && records[id].installation != i :: records[id];
      if inst.school in schools && schools[inst.school].dataBytes >= readBytes &&
        schools[inst.school].dataRecords >= readRecords {
        schools := Charged(schools, inst.school, -readBytes, -readRecords);
      }
      installations := installations - {i};
      runs := map run | run in runs && runs[run].installation != i :: runs[run];
    }

    // One candidate of the scheduled cleanup: records first, then the guard.
    method PurgeExpired(c: Candidate, now: int) returns (purged: bool)
      requires Valid() && GenuineCandidate(State(), c)
      modifies this
      ensures State() == Purge(old(State()), c, now)
      ensures purged == StillExpired(old(State()), c, now)
      ensures purged && old(ReadIsCurrent(State(), c.installation, c.dataBytes, c.dataRecords)) ==> Valid()
      ensures Conserved(State()) <==>
        if purged then old(ReadIsCurrent(State(), c.installation, c.dataBytes, c.dataRecords))
        else !old(HasRecords(State(), c))
    {
      PurgeConservesIff(cfg, State(), c, now);
      purged := StillExpired(State(), c, now);
      if purged {
        DropInstallation(c.installation, c.dataBytes, c.dataRecords);
      } else {
        records := map id | id in records && !(records[id].school == c.school && records[id].extension == c.extension)
          :: records[id];
      }
    }

    // The candidates from the n-th on are still as the scan found them.
    ghost predicate AsFound(found: seq<Candidate>, n: nat, now: int)
      reads this
    {
      forall k :: n <= k < |found| ==>
        var c := found[k];
        StillExpired(State(), c, now) &&
        var inst := installations[c.installation];
        c == Candidate(c.installation, inst.school, inst.extension, inst.dataBytes, inst.dataRecords)
    }

    method PurgeNext(found: seq<Candidate>, n: nat, now: int)
      requires Valid() && n < |found| && DistinctCandidates(found) && AsFound(found, n, now)
      modifies this
      ensures Valid() && AsFound(found, n + 1, now) && installations == old(installations) - {found[n].installation}
    {
      FreshReadIsCurrent(cfg, State(), found[n].installation);
      var _ := PurgeExpired(found[n], now);
    }

    // All candidates of a scan, except those under a legal hold. Purging one leaves what was read of
    // the others current, so that all of them go and every counter stays exact.
    method PurgeExpiredInstallations(found: seq<Candidate>, held: set<Id>, now: int) returns (purged: nat)
      requires Valid() && DistinctCandidates(found) && AsFound(found, 0, now)
      modifies this
      ensures Valid()
      ensures installations == old(installations) - Due(found, held)
      ensures purged == |Due(found, held)|
    {
      purged := 0;
      var n := 0;
      while n < |found|
        invariant n <= |found| && Valid() && AsFound(found, n, now)
        invariant purged == |Due(found[..n], held)|
        invariant installations == old(installations) - Due(found[..n], held)
      {
        DueNext(found, held, n);
        MinusBoth(old(installations), Due(found[..n], held), found[n].installation);
        if found[n].installation !in held {
          PurgeNext(found, n, now);
          purged := purged + 1;
        }
        n := n + 1;
      }
      assert found[..n] == found;
    }

    method AdjustMigrationCapacity(ghost before: Db, i: Id, delta: int) returns (failure: Option<Failure>)
      requires Consistent(cfg, before) && i in installations && i in before.installations
      requires schools == before.schools
      requires installations[i] == before.installations[i].(
        version := installations[i].version, rollbackVersion := installations[i].rollbackVersion,
        migrationRun := installations[i].migrationRun)
      requires before.installations[i].dataBytes + delta >= 0
      modifies `installations, `schools
      ensures failure ==
        var s := old(installations)[i].school;
        if !InstallationFits(cfg, Moved(old(installations)[i], delta, 0)) then Some(InstallationQuota)
        else if !SchoolFits(cfg, Charged(old(schools), s, delta, 0)[s]) then Some(SchoolQuota)
        else None
      ensures failure == None ==>
        && installations == old(installations)[i := Moved(old(installations)[i], delta, 0)]
        && schools == Charged(old(schools), old(installations)[i].school, delta, 0)
    {
      failure := None;
      var school := installations[i].school;
      DecrementsHit(cfg, before, i);
      if delta > 0 {
        if installations[i].dataBytes > cfg.installationBytes - delta {
          return Some(InstallationQuota);
        }
        installations := installations[i := Moved(installations[i], delta, 0)];
        if schools[school].dataBytes > cfg.schoolBytes - delta {
          return Some(SchoolQuota);
        }
        schools := Charged(schools, school, delta, 0);
      } else if delta < 0 {
        if installations[i].dataBytes >= -delta {
          installations := installations[i := Moved(installations[i], delta, 0)];
        }
        if schools[school].dataBytes >= -delta {
          schools := Charged(schools, school, delta, 0);
        }
      }
    }
  }
}
