// Why the denormalised counters can be trusted: every transaction keeps them equal to the totals
// they stand for, so no guarded decrement can miss.
module Conservation {
  import opened Results
  import opened Totals
  import opened DataPlane

  // ---------------------------------------------------------------- totals of changed tables

  ghost predicate OnlyTouches(before: map<Id, Record>, after: map<Id, Record>, i: Id) {
    && (forall id :: id in before && before[id].installation != i ==> id in after && after[id] == before[id])
    && (forall id :: id in after && after[id].installation != i ==> id in before && before[id] == after[id])
  }

  lemma OtherTotalsKept(before: map<Id, Record>, after: map<Id, Record>, i: Id, j: Id)
    requires OnlyTouches(before, after, i) && j != i
    ensures BytesOf(after, j) == BytesOf(before, j) && CountOf(after, j) == CountOf(before, j)
  {
    assert RecordBytes(after, j) == RecordBytes(before, j);
  }

  lemma PutRecordTotals(records: map<Id, Record>, id: Id, r: Record)
    requires id in records ==> records[id].installation == r.installation
    ensures var i := r.installation;
      && BytesOf(records[id := r], i) ==
        BytesOf(records, i) + r.byteSize - (if id in records then records[id].byteSize else 0)
      && CountOf(records[id := r], i) == CountOf(records, i) + (if id in records then 0 else 1)
  {
    var i := r.installation;
    assert RecordBytes(records[id := r], i) == RecordBytes(records, i)[id := r.byteSize];
    TotalPut(RecordBytes(records, i), id, r.byteSize);
  }

  lemma DropRecordTotals(records: map<Id, Record>, id: Id)
    requires id in records
    ensures var i := records[id].installation;
      && BytesOf(records - {id}, i) == BytesOf(records, i) - records[id].byteSize
      && CountOf(records - {id}, i) == CountOf(records, i) - 1
  {
    var i := records[id].installation;
    assert RecordBytes(records - {id}, i) == RecordBytes(records, i) - {id};
    TotalRemove(RecordBytes(records, i), id);
    assert |RecordBytes(records, i)| == |(RecordBytes(records, i) - {id})[id := records[id].byteSize]| by {
      assert RecordBytes(records, i) == (RecordBytes(records, i) - {id})[id := records[id].byteSize];
    }
  }

  lemma PutInstallationTotals(installations: map<Id, Installation>, i: Id, inst: Installation, s: Id)
    requires i in installations ==> installations[i].school == inst.school
    ensures var known := i in installations;
      if inst.school == s then
        && SchoolBytes(installations[i := inst], s)
           == SchoolBytes(installations, s) + inst.dataBytes - (if known then installations[i].dataBytes else 0)
        && SchoolRecords(installations[i := inst], s)
           == SchoolRecords(installations, s) + inst.dataRecords - (if known then installations[i].dataRecords else 0)
      else
        && SchoolBytes(installations[i := inst], s) == SchoolBytes(installations, s)
        && SchoolRecords(installations[i := inst], s) == SchoolRecords(installations, s)
  {
    var bytes, count := BytesBySchool(installations, s), RecordsBySchool(installations, s);
    if inst.school == s {
      assert BytesBySchool(installations[i := inst], s) == bytes[i := inst.dataBytes];
      assert RecordsBySchool(installations[i := inst], s) == count[i := inst.dataRecords];
      TotalPut(bytes, i, inst.dataBytes);
      TotalPut(count, i, inst.dataRecords);
    } else {
      assert BytesBySchool(installations[i := inst], s) == bytes;
      assert RecordsBySchool(installations[i := inst], s) == count;
    }
  }

  lemma DropInstallationTotals(installations: map<Id, Installation>, i: Id, s: Id)
    requires i in installations
    ensures if installations[i].school == s then
        && SchoolBytes(installations - {i}, s) == SchoolBytes(installations, s) - installations[i].dataBytes
        && SchoolRecords(installations - {i}, s) == SchoolRecords(installations, s) - installations[i].dataRecords
      else
        && SchoolBytes(installations - {i}, s) == SchoolBytes(installations, s)
        && SchoolRecords(installations - {i}, s) == SchoolRecords(installations, s)
  {
    var bytes, count := BytesBySchool(installations, s), RecordsBySchool(installations, s);
    if installations[i].school == s {
      assert BytesBySchool(installations - {i}, s) == bytes - {i};
      assert RecordsBySchool(installations - {i}, s) == count - {i};
      TotalRemove(bytes, i);
      TotalRemove(count, i);
    } else {
      assert BytesBySchool(installations - {i}, s) == bytes;
      assert RecordsBySchool(installations - {i}, s) == count;
    }
  }

  // ---------------------------------------------------------------- guarded decrements never miss

  // The guards of the decrements in record deletion and shrinking, and in removal: a record's size
  // and an installation's counters are always available in the counters they are taken from.
  lemma DecrementsHit(cfg: Settings, db: Db, i: Id)
    requires Consistent(cfg, db) && i in db.installations
    ensures var inst := db.installations[i];
      var school := db.schools[inst.school];
      && 0 <= inst.dataBytes <= school.dataBytes
      && 0 <= inst.dataRecords <= school.dataRecords
      && forall id :: id in db.records && db.records[id].installation == i ==>
           db.records[id].byteSize <= inst.dataBytes && inst.dataRecords > 0
  {
    CountersNonNegative(cfg, db);
    var s := db.installations[i].school;
    assert SchoolExact(db, s);
    TotalAtLeast(BytesBySchool(db.installations, s), i);
    TotalAtLeast(RecordsBySchool(db.installations, s), i);
    forall id | id in db.records && db.records[id].installation == i
      ensures db.records[id].byteSize <= db.installations[i].dataBytes && db.installations[i].dataRecords > 0
    {
      RecordIsCounted(cfg, db, id);
    }
  }

  lemma CountersNonNegative(cfg: Settings, db: Db)
    requires Consistent(cfg, db)
    ensures forall j :: j in db.installations ==>
      db.installations[j].dataBytes >= 0 && db.installations[j].dataRecords >= 0
  {
    forall j | j in db.installations
      ensures db.installations[j].dataBytes >= 0 && db.installations[j].dataRecords >= 0
    {
      assert InstallationExact(db, j);
      TotalNonNegative(RecordBytes(db.records, j));
    }
  }

  lemma RecordIsCounted(cfg: Settings, db: Db, id: Id)
    requires Consistent(cfg, db) && id in db.records
    ensures var i := db.records[id].installation;
      db.records[id].byteSize <= db.installations[i].dataBytes && db.installations[i].dataRecords > 0
  {
    var i := db.records[id].installation;
    assert InstallationExact(db, i);
    TotalAtLeast(RecordBytes(db.records, i), id);
    DropRecordTotals(db.records, id);
  }

  // ---------------------------------------------------------------- each transaction conserves

  lemma WithRecordsConserves(db: Db, i: Id, table: map<Id, Record>)
    requires Linked(db) && Conserved(db) && i in db.installations && OnlyTouches(db.records, table, i)
    ensures Conserved(WithRecords(db, i, table))
  {
    var next := WithRecords(db, i, table);
    assert InstallationExact(db, i);
    forall j | j in next.installations
      ensures InstallationExact(next, j)
    {
      if j != i {
        assert InstallationExact(db, j);
        OtherTotalsKept(db.records, table, i, j);
      }
    }
    forall s | s in next.schools
      ensures SchoolExact(next, s)
    {
      assert SchoolExact(db, s);
      PutInstallationTotals(db.installations, i, next.installations[i], s);
    }
  }

  // The counters after a change of table whose effect on the totals is known.
  lemma WithRecordsIs(db: Db, i: Id, table: map<Id, Record>, bytes: int, count: int)
    requires i in db.installations
    requires BytesOf(table, i) == BytesOf(db.records, i) + bytes && CountOf(table, i) == CountOf(db.records, i) + count
    ensures WithRecords(db, i, table)
      == Db(Charged(db.schools, db.installations[i].school, bytes, count),
            db.installations[i := Moved(db.installations[i], bytes, count)], table, db.runs, db.nextId)
  {
  }

  lemma BackupsStep(records: map<Id, Record>, done: set<Id>, id: Id)
    requires done + {id} <= records.Keys
    ensures BackupsOf(records, done + {id}) == BackupsOf(records, done)[id := BackupOf(records[id])]
  {
  }

  lemma MovedTwice(installations: map<Id, Installation>, i: Id, bytes: int, count: int)
    requires i in installations
    ensures var once := installations[i := Moved(installations[i], bytes, 0)];
      once[i := Moved(once[i], 0, count)] == installations[i := Moved(installations[i], bytes, count)]
  {
  }

  lemma ChargedTwice(schools: map<Id, School>, s: Id, bytes: int, count: int)
    requires s in schools
    ensures Charged(Charged(schools, s, bytes, 0), s, 0, count) == Charged(schools, s, bytes, count)
  {
  }

  // Bytes in a well-formed table are never negative.
  lemma TableBytesNonNegative(db: Db, i: Id, table: map<Id, Record>)
    requires Writable(db, i, table, db.nextId)
    ensures BytesOf(table, i) >= 0
  {
    forall id | id in RecordBytes(table, i) ensures table[id].byteSize >= 0 {
      assert LinkedRecord(db, table[id]);
    }
    TotalNonNegative(RecordBytes(table, i));
  }

  // One more record migrated: the table changes in one row, the totals by its change of size.
  lemma MigratedTableStep(cfg: Settings, db: Db, i: Id, m: Migration, done: set<Id>, id: Id)
    requires done + {id} <= db.records.Keys && id !in done
    requires !Clashes(db, m, done + {id})
    requires db.records[id].installation == i
    requires Fold(m.operations, db.records[id].resource, db.records[id].data).Some?
    requires !Clashes(db, m, done)
    ensures var table := MigratedTable(cfg, db, m, done);
      var r := MigratedRecord(cfg, m, db.records[id]);
      && table[id] == db.records[id]
      && MigratedTable(cfg, db, m, done + {id}) == table[id := r]
      && BytesOf(table[id := r], i) == BytesOf(table, i) + r.byteSize - db.records[id].byteSize
      && CountOf(table[id := r], i) == CountOf(table, i)
  {
    PutRecordTotals(MigratedTable(cfg, db, m, done), id, MigratedRecord(cfg, m, db.records[id]));
  }

  // Columns other than the counters and the school may be rewritten freely.
  lemma SameCountersConserve(db: Db, i: Id, inst: Installation)
    requires Conserved(db) && i in db.installations
    requires inst.school == db.installations[i].school
    requires inst.dataBytes == db.installations[i].dataBytes && inst.dataRecords == db.installations[i].dataRecords
    ensures Conserved(db.(installations := db.installations[i := inst]))
  {
    var next := db.(installations := db.installations[i := inst]);
    forall j | j in next.installations
      ensures InstallationExact(next, j)
    {
      assert InstallationExact(db, j);
    }
    forall s | s in db.schools
      ensures SchoolExact(next, s)
    {
      assert SchoolExact(db, s);
      PutInstallationTotals(db.installations, i, inst, s);
    }
  }

  // The common part of every record transaction: a new table that touches one installation only,
  // with well-formed records, and new ids only where none was handed out.
  ghost predicate Writable(db: Db, i: Id, table: map<Id, Record>, nextId: Id) {
    && OnlyTouches(db.records, table, i)
    && (forall id :: id in table ==> LinkedRecord(db, table[id]) && id < nextId)
    && (forall id :: id in table && id !in db.records ==> id >= db.nextId)
    && nextId >= db.nextId
  }

  lemma WriteConsistent(cfg: Settings, db: Db, i: Id, table: map<Id, Record>, nextId: Id)
    requires Consistent(cfg, db) && i in db.installations && Writable(db, i, table, nextId)
    requires Commit(cfg, db, i, table, nextId).Ok?
    ensures Consistent(cfg, Commit(cfg, db, i, table, nextId).value)
  {
    var next := WithRecords(db, i, table).(nextId := nextId);
    WithRecordsConserves(db, i, table);
    assert Conserved(next) by {
      forall j | j in next.installations ensures InstallationExact(next, j) {
        assert InstallationExact(WithRecords(db, i, table), j);
      }
      forall s | s in next.schools ensures SchoolExact(next, s) {
        assert SchoolExact(WithRecords(db, i, table), s);
      }
    }
    WriteKeepsLinks(db, i, table, nextId);
    WriteKeepsRuns(db, i, table, nextId);
  }

  lemma WriteKeepsLinks(db: Db, i: Id, table: map<Id, Record>, nextId: Id)
    requires Linked(db) && i in db.installations && Writable(db, i, table, nextId)
    ensures Linked(WithRecords(db, i, table).(nextId := nextId))
  {
    var next := WithRecords(db, i, table).(nextId := nextId);
    forall j, k | j in next.installations && k in next.installations && SameSlot(next, j, k)
      ensures j == k
    {
      assert SameSlot(db, j, k);
    }
    forall id | id in next.records ensures LinkedRecord(next, next.records[id]) {
      assert LinkedRecord(db, table[id]);
    }
  }

  lemma WriteKeepsRuns(db: Db, i: Id, table: map<Id, Record>, nextId: Id)
    requires Linked(db) && SoundRuns(db) && i in db.installations && Writable(db, i, table, nextId)
    ensures SoundRuns(WithRecords(db, i, table).(nextId := nextId))
  {
    var next := WithRecords(db, i, table).(nextId := nextId);
    forall run | run in next.runs ensures SoundRun(next, next.runs[run]) {
      assert SoundRun(db, db.runs[run]);
    }
  }

  lemma CreateConsistent(cfg: Settings, db: Db, a: Access, data: Data)
    requires Consistent(cfg, db) && Genuine(db, a) && Create(cfg, db, a, data).Ok?
    ensures Consistent(cfg, Create(cfg, db, a, data).value)
  {
    var table := db.records[db.nextId := NewRecord(cfg, a, data)];
    NewRecordWritable(cfg, db, a, data);
    WriteConsistent(cfg, db, a.installation, table, db.nextId + 1);
  }

  lemma NewRecordWritable(cfg: Settings, db: Db, a: Access, data: Data)
    requires Linked(db) && Genuine(db, a) && a.installation in db.installations
    ensures Writable(db, a.installation, db.records[db.nextId := NewRecord(cfg, a, data)], db.nextId + 1)
  {
  }

  lemma UpdateConsistent(cfg: Settings, db: Db, a: Access, id: Id, data: Data, expected: int)
    requires Consistent(cfg, db) && Update(cfg, db, a, id, data, expected).Ok?
    ensures Consistent(cfg, Update(cfg, db, a, id, data, expected).value)
  {
    assert LinkedRecord(db, db.records[id]);
    WriteConsistent(cfg, db, a.installation, db.records[id := EditedRecord(cfg, a, db.records[id], data)], db.nextId);
  }

  // A deletion only lowers the counters, so it cannot leave the quotas.
  lemma DeleteConsistent(cfg: Settings, db: Db, a: Access, id: Id, expected: int)
    requires Consistent(cfg, db) && Delete(cfg, db, a, id, expected).Ok?
    ensures Consistent(cfg, Delete(cfg, db, a, id, expected).value)
  {
    assert LinkedRecord(db, db.records[id]);
    DropRecordTotals(db.records, id);
    WriteConsistent(cfg, db, a.installation, db.records - {id}, db.nextId);
  }

  // Rewriting the version and rollback columns of an installation.
  lemma RelabelConsistent(cfg: Settings, db: Db, i: Id, inst: Installation)
    requires Consistent(cfg, db) && i in db.installations
    requires inst.school == db.installations[i].school && inst.extension == db.installations[i].extension
    requires inst.dataBytes == db.installations[i].dataBytes && inst.dataRecords == db.installations[i].dataRecords
    ensures Consistent(cfg, db.(installations := db.installations[i := inst]))
  {
    var next := db.(installations := db.installations[i := inst]);
    SameCountersConserve(db, i, inst);
    forall j, k | j in next.installations && k in next.installations && SameSlot(next, j, k)
      ensures j == k
    {
      assert SameSlot(db, j, k);
    }
    forall id | id in next.records ensures LinkedRecord(next, next.records[id]) {
      assert LinkedRecord(db, db.records[id]);
    }
    forall run | run in next.runs ensures SoundRun(next, next.runs[run]) {
      assert SoundRun(db, db.runs[run]);
    }
  }

  lemma PutRunConsistent(cfg: Settings, db: Db, run: Id, row: Run, nextId: Id)
    requires Consistent(cfg, db) && SoundRun(db, row) && run < nextId && db.nextId <= nextId
    ensures Consistent(cfg, db.(runs := db.runs[run := row], nextId := nextId))
  {
    var next := db.(runs := db.runs[run := row], nextId := nextId);
    assert Conserved(next) by {
      forall j | j in next.installations ensures InstallationExact(next, j) { assert InstallationExact(db, j); }
      forall s | s in next.schools ensures SchoolExact(next, s) { assert SchoolExact(db, s); }
    }
    forall j, k | j in next.installations && k in next.installations && SameSlot(next, j, k)
      ensures j == k
    {
      assert SameSlot(db, j, k);
    }
    forall id | id in next.records ensures LinkedRecord(next, next.records[id]) {
      assert LinkedRecord(db, db.records[id]);
    }
    forall r | r in next.runs ensures SoundRun(next, next.runs[r]) {
      if r != run { assert SoundRun(db, db.runs[r]); }
    }
  }

  // Records are selected by school and extension, which pins down one installation.
  lemma TargetsAreOwned(cfg: Settings, db: Db, i: Id, m: Migration)
    requires Consistent(cfg, db) && i in db.installations
    ensures forall id :: id in Targets(db, i, m) <==>
      id in db.records && db.records[id].installation == i && db.records[id].resource in Resources(m.operations)
  {
    forall id | id in db.records
      ensures db.records[id].installation == i <==>
        db.records[id].school == db.installations[i].school && db.records[id].extension == db.installations[i].extension
    {
      SlotPinsInstallation(cfg, db, i, id);
    }
  }

  lemma SlotPinsInstallation(cfg: Settings, db: Db, i: Id, id: Id)
    requires Consistent(cfg, db) && i in db.installations && id in db.records
    ensures db.records[id].installation == i <==>
        db.records[id].school == db.installations[i].school && db.records[id].extension == db.installations[i].extension
  {
    assert LinkedRecord(db, db.records[id]);
    if db.records[id].school == db.installations[i].school &&
      db.records[id].extension == db.installations[i].extension {
      assert SameSlot(db, db.records[id].installation, i);
    }
  }

  lemma MigratedTableWritable(cfg: Settings, db: Db, i: Id, m: Migration)
    requires Consistent(cfg, db) && i in db.installations && !Clashes(db, m, Targets(db, i, m))
    ensures Writable(db, i, MigratedTable(cfg, db, m, Targets(db, i, m)), db.nextId)
  {
    TargetsAreOwned(cfg, db, i, m);
    var table := MigratedTable(cfg, db, m, Targets(db, i, m));
    forall id | id in table ensures LinkedRecord(db, table[id]) && id < db.nextId {
      assert LinkedRecord(db, db.records[id]);
    }
  }

  // Rewriting labels and a run row, without touching a record or a counter.
  lemma LabelConsistent(
      cfg: Settings, db: Db, i: Id, version: Id, rollback: Id, migrationRun: Option<Id>, run: Id, row: Run)
    requires Consistent(cfg, db) && i in db.installations && run < db.nextId && SoundRun(db, row)
    ensures Consistent(cfg, Labelled(db, i, version, rollback, migrationRun, run, row))
  {
    var inst := db.installations[i].(version := version, rollbackVersion := Some(rollback),
        migrationRun := migrationRun);
    PutRunConsistent(cfg, db, run, row, db.nextId);
    RelabelConsistent(cfg, db.(runs := db.runs[run := row], nextId := db.nextId), i, inst);
    assert Labelled(db, i, version, rollback, migrationRun, run, row)
        == db.(runs := db.runs[run := row], nextId := db.nextId).(installations := db.installations[i := inst]);
  }

  lemma MigrateConsistent(cfg: Settings, db: Db, i: Id, run: Id, m: Migration)
    requires Consistent(cfg, db) && MayMigrate(db, i, run) && Migrate(cfg, db, i, run, m).Ok?
    ensures Consistent(cfg, Migrate(cfg, db, i, run, m).value)
  {
    var targets := Targets(db, i, m);
    var row := AppliedRun(db, run, targets);
    BackupsSound(cfg, db, i, run, m);
    LabelConsistent(cfg, db, i, m.toVersion, db.installations[i].version, Some(run), run, row);
    var labelled := Labelled(db, i, m.toVersion, db.installations[i].version, Some(run), run, row);
    MigratedTableWritable(cfg, db, i, m);
    LabelKeepsWritable(db, labelled, i, MigratedTable(cfg, db, m, targets));
    WriteConsistent(cfg, labelled, i, MigratedTable(cfg, db, m, targets), db.nextId);
  }

  lemma LabelKeepsWritable(db: Db, labelled: Db, i: Id, table: map<Id, Record>)
    requires Writable(db, i, table, db.nextId) && i in db.installations
    requires labelled == db.(installations := labelled.installations, runs := labelled.runs)
    requires labelled.installations.Keys == db.installations.Keys
    requires forall j :: j in db.installations ==>
      labelled.installations[j].school == db.installations[j].school
      && labelled.installations[j].extension == db.installations[j].extension
    ensures Writable(labelled, i, table, db.nextId)
  {
    forall id | id in table ensures LinkedRecord(labelled, table[id]) {
      assert LinkedRecord(db, table[id]);
    }
  }

  lemma BackupsSound(cfg: Settings, db: Db, i: Id, run: Id, m: Migration)
    requires Consistent(cfg, db) && MayMigrate(db, i, run)
    ensures SoundRun(db, AppliedRun(db, run, Targets(db, i, m)))
  {
    TargetsAreOwned(cfg, db, i, m);
    forall id | id in Targets(db, i, m)
      ensures id < db.nextId && db.records[id].byteSize >= 0 && db.records[id].concurrencyVersion >= 1
    {
      assert LinkedRecord(db, db.records[id]);
    }
  }

  lemma BeginConsistent(cfg: Settings, db: Db, i: Id, to: Id, previous: Option<Id>)
    requires Consistent(cfg, db) && i in db.installations && PreviousRun(db, i, to, previous)
    requires Begin(db, i, to, previous).Ok?
    ensures var (begun, run) := Begin(db, i, to, previous).value;
      Consistent(cfg, begun) && MayMigrate(begun, i, run)
  {
    var (begun, run) := Begin(db, i, to, previous).value;
    if previous.Some? {
      assert SoundRun(db, db.runs[run]);
      assert SoundRun(db, begun.runs[run]);
    }
    PutRunConsistent(cfg, db, run, begun.runs[run], begun.nextId);
  }

  lemma MarkFailedConsistent(cfg: Settings, db: Db, run: Id)
    requires Consistent(cfg, db) && run in db.runs && db.runs[run].status == Pending
    ensures Consistent(cfg, MarkFailed(cfg, db, run))
  {
    assert SoundRun(db, db.runs[run]);
    var row := MarkFailed(cfg, db, run).runs[run];
    assert SoundRun(db, row);
    PutRunConsistent(cfg, db, run, row, db.nextId);
  }

  lemma UpgradeConsistent(cfg: Settings, db: Db, i: Id, m: Migration, previous: Option<Id>)
    requires Consistent(cfg, db) && i in db.installations && PreviousRun(db, i, m.toVersion, previous)
    ensures Consistent(cfg, Upgrade(cfg, db, i, m, previous).0)
  {
    if db.installations[i].version != m.toVersion && Begin(db, i, m.toVersion, previous).Ok? {
      var (begun, run) := Begin(db, i, m.toVersion, previous).value;
      BeginConsistent(cfg, db, i, m.toVersion, previous);
      if Migrate(cfg, begun, i, run, m).Ok? {
        MigrateConsistent(cfg, begun, i, run, m);
      } else {
        MarkFailedConsistent(cfg, begun, run);
      }
    }
  }

  // Atomic: an upgrade that fails changes no record, counter or installation, and no run but its
  // own, which is left without backups and not applied.
  lemma FailedUpgradeChangesNothing(cfg: Settings, db: Db, i: Id, m: Migration, previous: Option<Id>)
    requires Consistent(cfg, db) && i in db.installations && PreviousRun(db, i, m.toVersion, previous)
    requires Upgrade(cfg, db, i, m, previous).1.Some?
    ensures var after := Upgrade(cfg, db, i, m, previous).0;
      && after.records == db.records && after.installations == db.installations && after.schools == db.schools
      && (forall run :: run in db.runs && Some(run) != previous ==>
        run in after.runs && after.runs[run] == db.runs[run])
      && (forall run :: run in after.runs && after.runs[run].status in {Applied, RolledBack} ==>
            run in db.runs && after.runs[run] == db.runs[run])
  {
  }

  // One more record restored from its backup.
  lemma RestoredTableStep(records: map<Id, Record>, backups: map<Id, Backup>, i: Id, done: set<Id>, id: Id)
    requires done + {id} <= backups.Keys && id !in done && id in records && records[id].installation == i
    ensures var table := RestoredTable(records, backups, done);
      var r := RestoredRecord(records[id], backups[id]);
      && table[id] == records[id]
      && RestoredTable(records, backups, done + {id}) == table[id := r]
      && BytesOf(table[id := r], i) == BytesOf(table, i) + backups[id].byteSize - records[id].byteSize
      && CountOf(table[id := r], i) == CountOf(table, i)
  {
    PutRecordTotals(RestoredTable(records, backups, done), id, RestoredRecord(records[id], backups[id]));
  }

  lemma RestoredTableWritable(cfg: Settings, db: Db, i: Id, run: Id)
    requires Consistent(cfg, db) && i in db.installations && run in db.runs && db.runs[run].installation == i
    ensures Writable(db, i, RestoredTable(db.records, db.runs[run].backups, db.runs[run].backups.Keys), db.nextId)
  {
    assert SoundRun(db, db.runs[run]);
    var table := RestoredTable(db.records, db.runs[run].backups, db.runs[run].backups.Keys);
    forall id | id in table ensures LinkedRecord(db, table[id]) && id < db.nextId {
      assert LinkedRecord(db, db.records[id]);
    }
  }

  lemma UndoConsistent(cfg: Settings, db: Db, i: Id, run: Id, to: Id)
    requires Consistent(cfg, db) && i in db.installations && UndoMigration(cfg, db, i, run, to).Ok?
    ensures Consistent(cfg, UndoMigration(cfg, db, i, run, to).value)
  {
    var row := db.runs[run].(status := RolledBack);
    var labelled := Labelled(db, i, to, db.installations[i].version, None, run, row);
    assert SoundRun(db, row) by { assert SoundRun(db, db.runs[run]); }
    LabelConsistent(cfg, db, i, to, db.installations[i].version, None, run, row);
    RestoredTableWritable(cfg, db, i, run);
    LabelKeepsWritable(db, labelled, i, RestoredTable(db.records, db.runs[run].backups, db.runs[run].backups.Keys));
    WriteConsistent(cfg, labelled, i, RestoredTable(db.records, db.runs[run].backups, db.runs[run].backups.Keys),
        db.nextId);
  }

  lemma RollbackConsistent(cfg: Settings, db: Db, i: Id, target: Option<Id>)
    requires Consistent(cfg, db) && Rollback(cfg, db, i, target).Ok?
    ensures Consistent(cfg, Rollback(cfg, db, i, target).value)
  {
    var inst := db.installations[i];
    var next := Rollback(cfg, db, i, target).value;
    if target != Some(inst.version) {
      if inst.migrationRun.Some? {
        UndoConsistent(cfg, db, i, inst.migrationRun.value, if target.Some? then target.value
          else inst.rollbackVersion.value);
      } else {
        RelabelConsistent(cfg, db, i, next.installations[i]);
      }
    }
  }

  // ---------------------------------------------------------------- removal and scheduled purge

  // What a removal with counters read earlier takes off the school.
  function TakenOff(school: School, readBytes: int, readRecords: int): (int, int) {
    if school.dataBytes >= readBytes && school.dataRecords >= readRecords then (readBytes, readRecords) else (0, 0)
  }

  predicate ReadIsCurrent(db: Db, i: Id, readBytes: int, readRecords: int)
    requires i in db.installations
  {
    && db.installations[i].school in db.schools
    && TakenOff(db.schools[db.installations[i].school], readBytes, readRecords)
    == (db.installations[i].dataBytes, db.installations[i].dataRecords)
  }

  // The read before the transaction is current whenever nothing changed since.
  lemma FreshReadIsCurrent(cfg: Settings, db: Db, i: Id)
    requires Consistent(cfg, db) && i in db.installations
    ensures ReadIsCurrent(db, i, db.installations[i].dataBytes, db.installations[i].dataRecords)
  {
    DecrementsHit(cfg, db, i);
  }

  // Removing an installation conserves exactly when the counters read beforehand still stand.
  lemma RemovalConservesIff(cfg: Settings, db: Db, i: Id, readBytes: int, readRecords: int)
    requires Consistent(cfg, db) && i in db.installations
    ensures Conserved(WithoutInstallation(db, i, readBytes, readRecords))
            <==> ReadIsCurrent(db, i, readBytes, readRecords)
  {
    var next := WithoutInstallation(db, i, readBytes, readRecords);
    RemovalKeepsOthersExact(cfg, db, i, readBytes, readRecords);
    forall t | t in db.schools
      ensures SchoolExact(next, t) <==> t != db.installations[i].school || ReadIsCurrent(db, i, readBytes, readRecords)
    {
      RemovalSchoolExactIff(db, i, readBytes, readRecords, t);
    }
    assert next.schools.Keys == db.schools.Keys;
    assert db.installations[i].school in next.schools;
  }

  lemma RemovalKeepsOthersExact(cfg: Settings, db: Db, i: Id, readBytes: int, readRecords: int)
    requires Consistent(cfg, db) && i in db.installations
    ensures var next := WithoutInstallation(db, i, readBytes, readRecords);
      forall j {:trigger InstallationExact(next, j)} :: j in next.installations ==> InstallationExact(next, j)
  {
    var next := WithoutInstallation(db, i, readBytes, readRecords);
    RemovedRecords(cfg, db, i, readBytes, readRecords);
    forall j | j in next.installations
      ensures InstallationExact(next, j)
    {
      assert InstallationExact(db, j);
      OtherTotalsKept(db.records, next.records, i, j);
    }
  }

  lemma RemovalSchoolExactIff(db: Db, i: Id, readBytes: int, readRecords: int, t: Id)
    requires Conserved(db) && i in db.installations && t in db.schools
    ensures SchoolExact(WithoutInstallation(db, i, readBytes, readRecords), t)
            <==> t != db.installations[i].school || ReadIsCurrent(db, i, readBytes, readRecords)
  {
    assert SchoolExact(db, t);
    DropInstallationTotals(db.installations, i, t);
  }

  // Exactly the records of that installation go.
  lemma RemovedRecords(cfg: Settings, db: Db, i: Id, readBytes: int, readRecords: int)
    requires Consistent(cfg, db) && i in db.installations
    ensures WithoutInstallation(db, i, readBytes, readRecords).records
            == map id | id in db.records && db.records[id].installation != i :: db.records[id]
  {
    forall id | id in db.records
      ensures db.records[id].installation == i <==>
        db.records[id].school == db.installations[i].school && db.records[id].extension == db.installations[i].extension
    {
      SlotPinsInstallation(cfg, db, i, id);
    }
  }

  lemma RemovalConsistent(cfg: Settings, db: Db, i: Id, readBytes: int, readRecords: int)
    requires Consistent(cfg, db) && i in db.installations && ReadIsCurrent(db, i, readBytes, readRecords)
    ensures Consistent(cfg, WithoutInstallation(db, i, readBytes, readRecords))
  {
    var next := WithoutInstallation(db, i, readBytes, readRecords);
    RemovalConservesIff(cfg, db, i, readBytes, readRecords);
    RemovedRecords(cfg, db, i, readBytes, readRecords);
    CountersNonNegative(cfg, db);
    assert WithinQuotas(cfg, next);
    forall j, k | j in next.installations && k in next.installations && SameSlot(next, j, k)
      ensures j == k
    {
      assert SameSlot(db, j, k);
    }
    forall id | id in next.records ensures LinkedRecord(next, next.records[id]) {
      assert LinkedRecord(db, db.records[id]);
    }
    forall run | run in next.runs ensures SoundRun(next, next.runs[run]) {
      assert SoundRun(db, db.runs[run]);
    }
  }

  predicate GenuineCandidate(db: Db, c: Candidate) {
    c.installation in db.installations ==>
      && db.installations[c.installation].school == c.school
      && db.installations[c.installation].extension == c.extension
  }

  ghost predicate HasRecords(db: Db, c: Candidate) {
    exists id :: id in db.records && db.records[id].school == c.school && db.records[id].extension == c.extension
  }

  // The scheduled purge conserves exactly when its guard still holds and its read still stands,
  // or there is nothing to delete: the code deletes records before it looks at the guard.
  lemma PurgeConservesIff(cfg: Settings, db: Db, c: Candidate, now: int)
    requires Consistent(cfg, db) && GenuineCandidate(db, c)
    ensures Conserved(Purge(db, c, now)) <==>
      if StillExpired(db, c, now) then ReadIsCurrent(db, c.installation, c.dataBytes, c.dataRecords)
      else !HasRecords(db, c)
  {
    if StillExpired(db, c, now) {
      RemovalConservesIff(cfg, db, c.installation, c.dataBytes, c.dataRecords);
    } else if HasRecords(db, c) {
      var id :| id in db.records && db.records[id].school == c.school && db.records[id].extension == c.extension;
      UnguardedPurgeBreaks(cfg, db, c, now, id);
    } else {
      assert Purge(db, c, now).records == db.records;
      assert Purge(db, c, now) == db;
    }
  }

  lemma UnguardedPurgeBreaks(cfg: Settings, db: Db, c: Candidate, now: int, id: Id)
    requires Consistent(cfg, db) && !StillExpired(db, c, now)
    requires id in db.records && db.records[id].school == c.school && db.records[id].extension == c.extension
    ensures !Conserved(Purge(db, c, now))
  {
    var next := Purge(db, c, now);
    var j := db.records[id].installation;
    RecordIsCounted(cfg, db, id);
    assert LinkedRecord(db, db.records[id]);
    forall other | other in db.records && db.records[other].installation == j
      ensures other !in next.records
    {
      assert LinkedRecord(db, db.records[other]);
    }
    assert RecordBytes(next.records, j) == map[];
    assert !InstallationExact(next, j);
  }
}
