// Whole runs of the data plane: consistency in every reachable state, what a change does, and rollback
// as the inverse of migration.
module DataPlaneRuns {
  import opened Results
  import opened DataPlane
  import opened Conservation

  // A change of an existing record under If-Match; no data means deletion.
  datatype Write = Write(a: Access, id: Id, data: Option<Data>, expected: int)

  ghost function ExecWrite(cfg: Settings, db: Db, w: Write): Result<Db, Failure> {
    match w.data
    case Some(d) => Update(cfg, db, w.a, w.id, d, w.expected)
    case None => Delete(cfg, db, w.a, w.id, w.expected)
  }

  datatype Command =
    | AddSchool
    | Open(school: Id, extension: Id, version: Id)
    | SetState(i: Id, enabled: bool, uninstalled: bool, purgeAfter: Option<int>)
    | SetVersion(i: Id, to: Id)
    | CreateRecord(a: Access, data: Data)
    | WriteRecord(w: Write)
    | BeginRun(i: Id, to: Id, previous: Option<Id>)
    | MigrateRun(i: Id, run: Id, m: Migration)
    | FailRun(run: Id)
    | RollbackTo(i: Id, target: Option<Id>)
    | RemoveInstallation(i: Id, seen: Option<Installation>)
    | PurgeCandidate(c: Candidate, now: int)

  // What the rest of the system supplies with a command: authorisations that were read from the
  // installation, the run a migration belongs to, and removals whose earlier read still stands.
  ghost predicate Timely(db: Db, c: Command) {
    match c
    case CreateRecord(a, _) => Genuine(db, a)
    case BeginRun(i, to, previous) => i in db.installations && PreviousRun(db, i, to, previous)
    case MigrateRun(i, run, _) => MayMigrate(db, i, run)
    case FailRun(run) => run in db.runs && db.runs[run].status == Pending
    case RemoveInstallation(i, seen) =>
      i in db.installations && seen.Some? ==> ReadIsCurrent(db, i, seen.value.dataBytes, seen.value.dataRecords)
    case PurgeCandidate(c, now) =>
      GenuineCandidate(db, c) &&
      if StillExpired(db, c, now) then ReadIsCurrent(db, c.installation, c.dataBytes, c.dataRecords)
        else !HasRecords(db, c)
    case _ => true
  }

  ghost function Exec(cfg: Settings, db: Db, c: Command): Result<Db, Failure>
    requires Timely(db, c)
  {
    match c
    case AddSchool => Ok(db.(schools := db.schools[db.nextId := School(0, 0)], nextId := db.nextId + 1))
    case Open(s, e, v) => OpenInstallation(db, s, e, v)
    case SetState(i, enabled, uninstalled, purgeAfter) =>
      if i !in db.installations then Err(NotFound)
      else Ok(db.(installations := db.installations[i := db.installations[i].(
                    enabled := enabled, uninstalled := uninstalled, purgeAfter := purgeAfter)]))
    case SetVersion(i, to) =>
      if i !in db.installations then Err(NotFound)
      else Ok(db.(installations := db.installations[i := db.installations[i].(version := to)]))
    case CreateRecord(a, data) => Create(cfg, db, a, data)
    case WriteRecord(w) => ExecWrite(cfg, db, w)
    case BeginRun(i, to, previous) =>
      (match Begin(db, i, to, previous)
       case Err(e) => Err(e)
       case Ok(pair) => Ok(pair.0))
    case MigrateRun(i, run, m) => Migrate(cfg, db, i, run, m)
    case FailRun(run) => Ok(MarkFailed(cfg, db, run))
    case RollbackTo(i, target) => Rollback(cfg, db, i, target)
    case RemoveInstallation(i, seen) => Remove(db, i, seen)
    case PurgeCandidate(c, now) => Ok(Purge(db, c, now))
  }

  function OpenInstallation(db: Db, s: Id, e: Id, v: Id): Result<Db, Failure> {
    if s !in db.schools || exists i ::
      i in db.installations && db.installations[i].school == s && db.installations[i].extension == e
    then Err(InvalidState)
    else
      var bare := Installation(s, e, v, false, false, None, 0, 0, None, None);
      Ok(db.(installations := db.installations[db.nextId := bare], nextId := db.nextId + 1))
  }

  // A refused command changes nothing.
  ghost function Next(cfg: Settings, db: Db, c: Command): Db
    requires Timely(db, c)
  {
    match Exec(cfg, db, c)
    case Ok(next) => next
    case Err(_) => db
  }

  ghost predicate AllTimely(cfg: Settings, db: Db, cs: seq<Command>)
    decreases |cs|
  {
    cs == [] || (Timely(db, cs[0]) && AllTimely(cfg, Next(cfg, db, cs[0]), cs[1..]))
  }

  ghost function Run(cfg: Settings, db: Db, cs: seq<Command>): Db
    requires AllTimely(cfg, db, cs)
    decreases |cs|
  {
    if cs == [] then db else Run(cfg, Next(cfg, db, cs[0]), cs[1..])
  }

  // ---------------------------------------------------------------- consistency for ever

  lemma AddSchoolConsistent(cfg: Settings, db: Db)
    requires Consistent(cfg, db)
    ensures Consistent(cfg, Next(cfg, db, AddSchool))
  {
    var next := Next(cfg, db, AddSchool);
    KeepExact(cfg, db, next);
    assert BytesBySchool(next.installations, db.nextId) == map[];
    assert RecordsBySchool(next.installations, db.nextId) == map[];
    assert SchoolExact(next, db.nextId);
  }

  // Everything that was exact, linked and sound stays so when only schools or ids are added.
  lemma KeepExact(cfg: Settings, db: Db, next: Db)
    requires Consistent(cfg, db)
    requires next.installations == db.installations && next.records == db.records && next.runs == db.runs
    requires next.nextId >= db.nextId && forall s :: s in db.schools ==>
      s in next.schools && next.schools[s] == db.schools[s]
    ensures forall i {:trigger InstallationExact(next, i)} :: i in next.installations ==> InstallationExact(next, i)
    ensures forall s {:trigger SchoolExact(next, s)} :: s in db.schools ==> SchoolExact(next, s)
    ensures (forall s :: s in next.schools ==> s < next.nextId) ==> Linked(next)
    ensures SoundRuns(next)
  {
    forall i | i in next.installations ensures InstallationExact(next, i) { assert InstallationExact(db, i); }
    forall s | s in db.schools ensures SchoolExact(next, s) { assert SchoolExact(db, s); }
    forall i, j | i in next.installations && j in next.installations && SameSlot(next, i, j) ensures i == j {
      assert SameSlot(db, i, j);
    }
    forall id | id in next.records ensures LinkedRecord(next, next.records[id]) {
      assert LinkedRecord(db, db.records[id]);
    }
    forall run | run in next.runs ensures SoundRun(next, next.runs[run]) { assert SoundRun(db, db.runs[run]); }
  }

  lemma OpenConsistent(cfg: Settings, db: Db, s: Id, e: Id, v: Id)
    requires Consistent(cfg, db) && OpenInstallation(db, s, e, v).Ok?
    ensures Consistent(cfg, OpenInstallation(db, s, e, v).value)
  {
    var next := OpenInstallation(db, s, e, v).value;
    var i := db.nextId;
    forall id | id in next.records ensures LinkedRecord(next, next.records[id]) && next.records[id].installation != i {
      assert LinkedRecord(db, db.records[id]);
    }
    forall j | j in next.installations ensures InstallationExact(next, j) {
      if j == i { assert RecordBytes(next.records, i) == map[]; } else { assert InstallationExact(db, j); }
    }
    forall t | t in next.schools ensures SchoolExact(next, t) {
      assert SchoolExact(db, t);
      PutInstallationTotals(db.installations, i, next.installations[i], t);
    }
    forall j, k | j in next.installations && k in next.installations && SameSlot(next, j, k) ensures j == k {
      if j != i && k != i { assert SameSlot(db, j, k); }
    }
    forall run | run in next.runs ensures SoundRun(next, next.runs[run]) { assert SoundRun(db, db.runs[run]); }
  }

  lemma WriteRequestConsistent(cfg: Settings, db: Db, w: Write)
    requires Consistent(cfg, db) && ExecWrite(cfg, db, w).Ok?
    ensures Consistent(cfg, ExecWrite(cfg, db, w).value)
  {
    match w.data
    case Some(d) => UpdateConsistent(cfg, db, w.a, w.id, d, w.expected);
    case None => DeleteConsistent(cfg, db, w.a, w.id, w.expected);
  }

  lemma StepConsistent(cfg: Settings, db: Db, c: Command)
    requires Consistent(cfg, db) && Timely(db, c)
    ensures Consistent(cfg, Next(cfg, db, c))
  {
    if Exec(cfg, db, c).Ok? {
      match c
      case AddSchool => AddSchoolConsistent(cfg, db);
      case Open(s, e, v) => OpenConsistent(cfg, db, s, e, v);
      case SetState(i, enabled, uninstalled, purgeAfter) =>
        RelabelConsistent(cfg, db, i, Next(cfg, db, c).installations[i]);
      case SetVersion(i, to) => RelabelConsistent(cfg, db, i, Next(cfg, db, c).installations[i]);
      case CreateRecord(a, data) => CreateConsistent(cfg, db, a, data);
      case WriteRecord(w) => WriteRequestConsistent(cfg, db, w);
      case BeginRun(i, to, previous) => BeginConsistent(cfg, db, i, to, previous);
      case MigrateRun(i, run, m) => MigrateConsistent(cfg, db, i, run, m);
      case FailRun(run) => MarkFailedConsistent(cfg, db, run);
      case RollbackTo(i, target) => RollbackConsistent(cfg, db, i, target);
      case RemoveInstallation(i, seen) => RemovalConsistent(cfg, db, i, seen.value.dataBytes, seen.value.dataRecords);
      case PurgeCandidate(cand, now) => PurgeConsistent(cfg, db, cand, now);
    }
  }

  lemma PurgeConsistent(cfg: Settings, db: Db, c: Candidate, now: int)
    requires Consistent(cfg, db) && Timely(db, PurgeCandidate(c, now))
    ensures Consistent(cfg, Purge(db, c, now))
  {
    if StillExpired(db, c, now) {
      RemovalConsistent(cfg, db, c.installation, c.dataBytes, c.dataRecords);
    } else {
      assert Purge(db, c, now).records == db.records;
      assert Purge(db, c, now) == db;
    }
  }

  const EMPTY := Db(map[], map[], map[], map[], 0)

  // In every reachable state the counters equal the totals they stand for and fit the quotas.
  lemma {:induction false} ConsistentForever(cfg: Settings, db: Db, cs: seq<Command>)
    requires Consistent(cfg, db) && AllTimely(cfg, db, cs)
    ensures Consistent(cfg, Run(cfg, db, cs))
    decreases |cs|
  {
    if cs != [] {
      StepConsistent(cfg, db, cs[0]);
      ConsistentForever(cfg, Next(cfg, db, cs[0]), cs[1..]);
    }
  }

  lemma ReachableConsistent(cfg: Settings, cs: seq<Command>)
    requires AllTimely(cfg, EMPTY, cs)
    ensures Consistent(cfg, Run(cfg, EMPTY, cs))
  {
    ConsistentForever(cfg, EMPTY, cs);
  }

  // ---------------------------------------------------------------- versions and changes

  // How far one record moves between two states: gone stays gone, a version never falls.
  ghost predicate Advances(before: Db, after: Db, id: Id) {
    && before.nextId <= after.nextId
    && (id < before.nextId && id !in before.records ==> id !in after.records)
    && (id in before.records && id in after.records ==>
          after.records[id].concurrencyVersion >= before.records[id].concurrencyVersion)
  }

  // Each change of a record raises its version by exactly one, except through a rollback.
  lemma VersionCountsChanges(cfg: Settings, db: Db, c: Command, id: Id)
    requires Consistent(cfg, db) && Timely(db, c) && !c.RollbackTo?
    ensures Advances(db, Next(cfg, db, c), id) && ChangesCounted(db, Next(cfg, db, c), id)
  {
    match c
    case WriteRecord(w) =>
      if ExecWrite(cfg, db, w).Ok? { WriteCountsOnce(cfg, db, w, id); }
    case MigrateRun(i, run, m) =>
      if Migrate(cfg, db, i, run, m).Ok? { MigrationCountsOnce(cfg, db, i, run, m, id); }
    case _ =>
  }

  lemma WriteCountsOnce(cfg: Settings, db: Db, w: Write, id: Id)
    requires Consistent(cfg, db) && ExecWrite(cfg, db, w).Ok?
    ensures Advances(db, ExecWrite(cfg, db, w).value, id) && ChangesCounted(db, ExecWrite(cfg, db, w).value, id)
  {
  }

  lemma MigrationCountsOnce(cfg: Settings, db: Db, i: Id, run: Id, m: Migration, id: Id)
    requires Consistent(cfg, db) && MayMigrate(db, i, run) && Migrate(cfg, db, i, run, m).Ok?
    ensures Advances(db, Migrate(cfg, db, i, run, m).value, id) &&
      ChangesCounted(db, Migrate(cfg, db, i, run, m).value, id)
  {
  }

  ghost predicate ChangesCounted(before: Db, after: Db, id: Id) {
    id in before.records && id in after.records ==>
      || after.records[id] == before.records[id]
      || after.records[id].concurrencyVersion == before.records[id].concurrencyVersion + 1
  }

  // A successful write named the version the record had, and left the next one or no record.
  lemma WriteSettlesVersion(cfg: Settings, db: Db, w: Write)
    requires Consistent(cfg, db) && ExecWrite(cfg, db, w).Ok?
    ensures w.id in db.records && db.records[w.id].concurrencyVersion == w.expected
    ensures var next := ExecWrite(cfg, db, w).value;
      && w.id < next.nextId
      && (w.data.Some? <==> w.id in next.records)
      && (w.data.Some? ==> next.records[w.id].concurrencyVersion == w.expected + 1)
  {
  }

  // A write goes through exactly when the record is the request's to change, the version is the one it
  // has, and, for new data, the data is small enough and its growth fits both quotas.
  lemma WriteSucceedsIff(cfg: Settings, db: Db, w: Write)
    requires Consistent(cfg, db)
    ensures ExecWrite(cfg, db, w).Ok? <==>
      && Visible(db, w.a, w.id)
      && db.records[w.id].concurrencyVersion == w.expected
      && (w.data.Some? ==>
            && cfg.jsonSize(w.data.value) <= MAX_RECORD_BYTES
            && GrowthFits(cfg, db, w.a.installation, cfg.jsonSize(w.data.value) - db.records[w.id].byteSize))
  {
    if w.data.Some? && Visible(db, w.a, w.id) {
      var r := EditedRecord(cfg, w.a, db.records[w.id], w.data.value);
      assert LinkedRecord(db, db.records[w.id]);
      PutRecordTotals(db.records, w.id, r);
    }
  }

  predicate GrowthFits(cfg: Settings, db: Db, i: Id, bytes: int)
    requires i in db.installations
  {
    var s := db.installations[i].school;
    && InstallationFits(cfg, Moved(db.installations[i], bytes, 0))
    && s in db.schools && SchoolFits(cfg, Charged(db.schools, s, bytes, 0)[s])
  }

  // It touches nothing but that record and the counters of its installation and school.
  lemma WriteChangesOneRecord(cfg: Settings, db: Db, w: Write)
    requires Consistent(cfg, db) && ExecWrite(cfg, db, w).Ok?
    ensures var next := ExecWrite(cfg, db, w).value;
      && next.records - {w.id} == db.records - {w.id}
      && next.runs == db.runs
      && next.installations - {w.a.installation} == db.installations - {w.a.installation}
  {
    var table := match w.data
      case Some(d) => db.records[w.id := EditedRecord(cfg, w.a, db.records[w.id], d)]
      case None => db.records - {w.id};
    assert ExecWrite(cfg, db, w).value == WithRecords(db, w.a.installation, table);
  }

  // An update leaves the record with the new data, sized and labelled, in its place.
  lemma UpdateReplacesData(cfg: Settings, db: Db, a: Access, id: Id, data: Data, expected: int)
    requires Update(cfg, db, a, id, data, expected).Ok?
    ensures var (before, next) := (db.records[id], Update(cfg, db, a, id, data, expected).value);
      && id in next.records
      && next.records[id].data == data && next.records[id].byteSize == cfg.jsonSize(data)
      && next.records[id].version == a.version && next.records[id].updatedBy == a.actor
      && next.records[id].schemaVersion == a.schemaVersion
      && next.records[id].installation == before.installation && next.records[id].resource == before.resource
      && next.records[id].school == before.school && next.records[id].extension == before.extension
  {
  }

  // A creation goes through exactly when the data is small enough and one more record of its size fits
  // both quotas; it adds that record, at version one, and touches no other.
  lemma CreateAddsOneRecord(cfg: Settings, db: Db, a: Access, data: Data)
    requires Consistent(cfg, db) && Genuine(db, a)
    ensures Create(cfg, db, a, data).Ok? <==>
      && cfg.jsonSize(data) <= MAX_RECORD_BYTES && a.installation in db.installations
      && InstallationFits(cfg, Moved(db.installations[a.installation], cfg.jsonSize(data), 1))
      && a.school in db.schools && SchoolFits(cfg, Charged(db.schools, a.school, cfg.jsonSize(data), 1)[a.school])
    ensures Create(cfg, db, a, data).Ok? ==>
      var next := Create(cfg, db, a, data).value;
      && db.nextId !in db.records && db.nextId in next.records && next.nextId == db.nextId + 1
      && next.records - {db.nextId} == db.records && next.runs == db.runs
      && next.records[db.nextId].data == data && next.records[db.nextId].byteSize == cfg.jsonSize(data)
      && next.records[db.nextId].concurrencyVersion == 1 && next.records[db.nextId].installation == a.installation
      && next.records[db.nextId].resource == a.resource && next.records[db.nextId].version == a.version
  {
    PutRecordTotals(db.records, db.nextId, NewRecord(cfg, a, data));
  }

  // ---------------------------------------------------------------- rollback inverts migration

  // A record as a rollback right after the migration leaves it: as it was, but for its last author.
  ghost function GivenBack(records: map<Id, Record>, targets: set<Id>, actor: Option<string>): map<Id, Record> {
    map id | id in records :: if id in targets then records[id].(updatedBy := actor) else records[id]
  }

  // Labels and a table of as many rows written together.
  ghost function Written(
      db: Db, i: Id, version: Id, rollback: Id, mr: Option<Id>, run: Id, row: DataPlane.Run, table: map<Id, Record>): Db
    requires i in db.installations
  {
    var bytes := BytesOf(table, i) - BytesOf(db.records, i);
    Db(Charged(db.schools, db.installations[i].school, bytes, 0),
       db.installations[i := Moved(db.installations[i], bytes, 0).(
         version := version, rollbackVersion := Some(rollback), migrationRun := mr)],
       table, db.runs[run := row], db.nextId)
  }

  lemma LabelledWrite(
      db: Db, i: Id, version: Id, rollback: Id, mr: Option<Id>, run: Id, row: DataPlane.Run, table: map<Id, Record>)
    requires i in db.installations && CountOf(table, i) == CountOf(db.records, i)
    ensures WithRecords(Labelled(db, i, version, rollback, mr, run, row), i, table)
      == Written(db, i, version, rollback, mr, run, row, table)
  {
    WithRecordsIs(Labelled(db, i, version, rollback, mr, run, row), i, table,
        BytesOf(table, i) - BytesOf(db.records, i), 0);
  }

  // The state before a migration, but for the author of the last change, the rollback columns and
  // the run row, which stays as rolled back with its backups.
  ghost function Regained(db: Db, i: Id, run: Id, m: Migration): Db
    requires MayMigrate(db, i, run)
  {
    Db(db.schools,
       db.installations[i := db.installations[i].(rollbackVersion := Some(m.toVersion), migrationRun := None)],
       GivenBack(db.records, Targets(db, i, m), m.actor),
       db.runs[run := AppliedRun(db, run, Targets(db, i, m)).(status := RolledBack)],
       db.nextId)
  }

  // The outcome of a migration, written out.
  lemma MigratedState(cfg: Settings, db: Db, i: Id, run: Id, m: Migration)
    requires MayMigrate(db, i, run) && Migrate(cfg, db, i, run, m).Ok?
    ensures var targets := Targets(db, i, m);
      Migrate(cfg, db, i, run, m).value
      == Written(db, i, m.toVersion, db.installations[i].version, Some(run), run, AppliedRun(db, run, targets),
                 MigratedTable(cfg, db, m, targets))
  {
    var targets := Targets(db, i, m);
    var table := MigratedTable(cfg, db, m, targets);
    SameRowsSameCount(table, db.records, i);
    LabelledWrite(db, i, m.toVersion, db.installations[i].version, Some(run), run, AppliedRun(db, run, targets), table);
  }

  lemma SameRowsSameCount(after: map<Id, Record>, before: map<Id, Record>, i: Id)
    requires after.Keys == before.Keys
    requires forall id :: id in before ==> after[id].installation == before[id].installation
    ensures CountOf(after, i) == CountOf(before, i)
  {
    assert RecordBytes(after, i).Keys == RecordBytes(before, i).Keys;
    assert |RecordBytes(after, i)| == |RecordBytes(after, i).Keys|;
    assert |RecordBytes(before, i)| == |RecordBytes(before, i).Keys|;
  }

  lemma PutTwice<K, V>(m: map<K, V>, k: K, v: V, w: V)
    ensures m[k := v][k := w] == m[k := w]
  {
  }

  lemma ChargedBack(schools: map<Id, School>, s: Id, bytes: int)
    requires s in schools
    ensures Charged(Charged(schools, s, bytes, 0), s, -bytes, 0) == schools
  {
  }

  // A write of labels and table, taken back by the opposite write.
  lemma CancelOut(
      db: Db, i: Id, v: Id, run: Id, row: DataPlane.Run, table: map<Id, Record>, back: map<Id, Record>, done: Db)
    requires i in db.installations && db.installations[i].school in db.schools
    requires CountOf(back, i) == CountOf(table, i) && BytesOf(back, i) == BytesOf(db.records, i)
    requires done == Written(db, i, v, db.installations[i].version, Some(run), run, row, table)
    ensures WithRecords(Labelled(done, i, db.installations[i].version, v, None, run, row.(status := RolledBack)), i,
        back)
      == Db(db.schools, db.installations[i := db.installations[i].(rollbackVersion := Some(v), migrationRun := None)],
            back, db.runs[run := row.(status := RolledBack)], db.nextId)
  {
    var inst := db.installations[i];
    var bytes := BytesOf(table, i) - BytesOf(db.records, i);
    LabelledWrite(done, i, inst.version, v, None, run, row.(status := RolledBack), back);
    ChargedBack(db.schools, inst.school, bytes);
    var last := inst.(rollbackVersion := Some(v), migrationRun := None);
    assert Moved(done.installations[i], -bytes, 0).(version := inst.version, rollbackVersion := Some(v),
        migrationRun := None) == last;
    PutTwice(db.installations, i, done.installations[i], last);
    PutTwice(db.runs, run, row, row.(status := RolledBack));
  }

  // Undoing the migration from exactly the state it left.
  lemma UndoneState(cfg: Settings, db: Db, i: Id, run: Id, m: Migration, done: Db)
    requires MayMigrate(db, i, run) && Migrate(cfg, db, i, run, m) == Ok(done)
    requires db.runs[run].toVersion == m.toVersion
    requires InstallationFits(cfg, db.installations[i])
    requires db.installations[i].school in db.schools && SchoolFits(cfg, db.schools[db.installations[i].school])
    ensures UndoMigration(cfg, done, i, run, db.installations[i].version)
      == Ok(Regained(db, i, run, m))
  {
    var v := db.installations[i].version;
    var backups := BackupsOf(db.records, Targets(db, i, m));
    MigratedState(cfg, db, i, run, m);
    var back := RestoredTable(done.records, backups, backups.Keys);
    RestoredIsGivenBack(cfg, db, i, m);
    SameRowsSameCount(back, done.records, i);
    var row := AppliedRun(db, run, Targets(db, i, m));
    CancelOut(db, i, m.toVersion, run, row, done.records, back, done);
    assert done.runs[run] == row && done.installations[i].version == m.toVersion;
    CommitFits(cfg, Labelled(done, i, v, m.toVersion, None, run, row.(status := RolledBack)), i, back,
        Regained(db, i, run, m));
  }

  lemma CommitFits(cfg: Settings, db: Db, i: Id, table: map<Id, Record>, next: Db)
    requires i in db.installations && WithRecords(db, i, table) == next
    requires InstallationFits(cfg, next.installations[i])
    requires db.installations[i].school in db.schools && SchoolFits(cfg, next.schools[db.installations[i].school])
    ensures Commit(cfg, db, i, table, db.nextId) == Ok(next)
  {
  }

  lemma RestoredIsGivenBack(cfg: Settings, db: Db, i: Id, m: Migration)
    requires i in db.installations && !Clashes(db, m, Targets(db, i, m))
    ensures var backups := BackupsOf(db.records, Targets(db, i, m));
      var back := RestoredTable(MigratedTable(cfg, db, m, Targets(db, i, m)), backups, backups.Keys);
      back == GivenBack(db.records, Targets(db, i, m), m.actor) && BytesOf(back, i) == BytesOf(db.records, i)
  {
    assert RecordBytes(GivenBack(db.records, Targets(db, i, m), m.actor), i) == RecordBytes(db.records, i);
  }

  // Right after a migration, rollback is never refused and gives back every record, counter and the
  // version; the run is kept as rolled back.
  lemma RollbackInvertsMigration(cfg: Settings, db: Db, i: Id, run: Id, m: Migration, done: Db, target: Option<Id>)
    requires Consistent(cfg, db) && MayMigrate(db, i, run) && Migrate(cfg, db, i, run, m) == Ok(done)
    requires m.toVersion != db.installations[i].version && db.runs[run].toVersion == m.toVersion
    requires target == None || target == Some(db.installations[i].version)
    ensures Rollback(cfg, done, i, target)
      == Ok(Regained(db, i, run, m))
  {
    MigratedState(cfg, db, i, run, m);
    UndoneState(cfg, db, i, run, m, done);
  }

  // ---------------------------------------------------------------- rollback after edits

  // Any edit of records, and anything at all on other installations: all commands but those that give
  // the installation itself another version or remove it.
  predicate Spares(c: Command, i: Id) {
    match c
    case SetVersion(j, _) => j != i
    case MigrateRun(j, _, _) => j != i
    case RollbackTo(j, _) => j != i
    case RemoveInstallation(j, _) => j != i
    case PurgeCandidate(c, _) => c.installation != i
    case _ => true
  }

  // The installation is still at the version that the run left, with the run to go back by.
  ghost predicate SameRun(before: Db, after: Db, i: Id, run: Id)
    requires i in before.installations && run in before.runs
  {
    && i in after.installations && run in after.runs && after.runs[run] == before.runs[run]
    && after.installations[i].version == before.installations[i].version
    && after.installations[i].migrationRun == before.installations[i].migrationRun
    && after.installations[i].rollbackVersion == before.installations[i].rollbackVersion
  }

  predicate AppliedTo(db: Db, i: Id, run: Id) {
    i in db.installations && run in db.runs && db.runs[run].status == Applied && db.runs[run].installation == i
  }

  lemma RunsSpared(cfg: Settings, db: Db, c: Command, i: Id, run: Id)
    requires Consistent(cfg, db) && Timely(db, c) && Spares(c, i) && AppliedTo(db, i, run)
    requires c.BeginRun? || c.MigrateRun? || c.FailRun? || c.RollbackTo?
    ensures SameRun(db, Next(cfg, db, c), i, run)
  {
    assert SoundRun(db, db.runs[run]) && run < db.nextId;
  }

  lemma RemovalsSpared(cfg: Settings, db: Db, c: Command, i: Id, run: Id)
    requires Timely(db, c) && Spares(c, i) && AppliedTo(db, i, run)
    requires c.RemoveInstallation? || c.PurgeCandidate?
    ensures SameRun(db, Next(cfg, db, c), i, run)
  {
  }

  lemma EditsSpared(cfg: Settings, db: Db, c: Command, i: Id, run: Id)
    requires Timely(db, c) && AppliedTo(db, i, run) && (c.CreateRecord? || c.WriteRecord?)
    ensures SameRun(db, Next(cfg, db, c), i, run)
  {
  }

  lemma SparingKeepsRun(cfg: Settings, db: Db, c: Command, i: Id, run: Id)
    requires Consistent(cfg, db) && Timely(db, c) && Spares(c, i) && AppliedTo(db, i, run)
    ensures SameRun(db, Next(cfg, db, c), i, run)
  {
    if c.BeginRun? || c.MigrateRun? || c.FailRun? || c.RollbackTo? {
      RunsSpared(cfg, db, c, i, run);
    } else if c.RemoveInstallation? || c.PurgeCandidate? {
      RemovalsSpared(cfg, db, c, i, run);
    } else if c.CreateRecord? || c.WriteRecord? {
      EditsSpared(cfg, db, c, i, run);
    }
  }

  // Whatever spares the installation leaves its run, its backups and its version columns alone.
  lemma {:induction false} SparingRun(cfg: Settings, db: Db, cs: seq<Command>, i: Id, run: Id)
    requires Consistent(cfg, db) && AllTimely(cfg, db, cs) && AppliedTo(db, i, run)
    requires forall c :: c in cs ==> Spares(c, i)
    ensures SameRun(db, Run(cfg, db, cs), i, run)
    decreases |cs|
  {
    if cs != [] {
      SparingKeepsRun(cfg, db, cs[0], i, run);
      StepConsistent(cfg, db, cs[0]);
      SparingRun(cfg, Next(cfg, db, cs[0]), cs[1..], i, run);
    }
  }

  // Undoing a run: exactly when it goes through, and what it leaves.
  lemma UndoOutcome(cfg: Settings, db: Db, i: Id, run: Id, to: Id)
    requires Consistent(cfg, db) && i in db.installations && MayUndo(db, i, run, to)
    ensures var backups := db.runs[run].backups;
      var result := UndoMigration(cfg, db, i, run, to);
      && (result.Ok? <==> backups.Keys <= db.records.Keys && RestoreFits(cfg, db, i, backups))
      && (result.Ok? ==>
            && Consistent(cfg, result.value)
            && i in result.value.installations
            && result.value.installations[i].version == to
            && result.value.records == RestoredTable(db.records, backups, backups.Keys))
  {
    var backups := db.runs[run].backups;
    if backups.Keys <= db.records.Keys {
      assert SoundRun(db, db.runs[run]);
      var back := RestoredTable(db.records, backups, backups.Keys);
      SameRowsSameCount(back, db.records, i);
      WithRecordsIs(Labelled(db, i, to, db.installations[i].version, None, run, db.runs[run].(status := RolledBack)),
                    i, back, BytesOf(back, i) - BytesOf(db.records, i), 0);
      if UndoMigration(cfg, db, i, run, to).Ok? {
        UndoConsistent(cfg, db, i, run, to);
      }
    }
  }

  // The counters once the backups are back, within the quotas.
  ghost predicate RestoreFits(cfg: Settings, db: Db, i: Id, backups: map<Id, Backup>) {
    && i in db.installations
    && db.installations[i].school in db.schools
    && var bytes := BytesOf(RestoredTable(db.records, backups, backups.Keys), i) - BytesOf(db.records, i);
    && InstallationFits(cfg, Moved(db.installations[i], bytes, 0))
    && SchoolFits(cfg, Charged(db.schools, db.installations[i].school, bytes, 0)[db.installations[i].school])
  }

  lemma RollbackIsUndo(cfg: Settings, db: Db, i: Id, run: Id, to: Id, target: Option<Id>)
    requires i in db.installations && db.installations[i].migrationRun == Some(run) && db.installations[i].version != to
    requires target == Some(to) || (target == None && db.installations[i].rollbackVersion == Some(to))
    ensures Rollback(cfg, db, i, target) == UndoMigration(cfg, db, i, run, to)
  {
  }

  lemma StillUndoable(cfg: Settings, db: Db, i: Id, run: Id, m: Migration, done: Db, edited: Db)
    requires MayMigrate(db, i, run) && Migrate(cfg, db, i, run, m) == Ok(done)
    requires db.runs[run].toVersion == m.toVersion
    requires i in done.installations && run in done.runs && SameRun(done, edited, i, run)
    ensures edited.installations[i].migrationRun == Some(run)
    ensures edited.installations[i].version == m.toVersion
    ensures edited.installations[i].rollbackVersion == Some(db.installations[i].version)
    ensures MayUndo(edited, i, run, db.installations[i].version)
    ensures edited.runs[run].backups == BackupsOf(db.records, Targets(db, i, m))
  {
    MigratedState(cfg, db, i, run, m);
  }

  // With anything in between that spares the installation, a rollback to the captured or to the
  // remembered version goes through exactly when no migrated record was deleted and the restored sizes
  // fit the quotas; then the migrated records are back at their snapshots and every other record is as
  // it was left.
  lemma RollbackAfterEdits(
      cfg: Settings, db: Db, i: Id, run: Id, m: Migration, done: Db, cs: seq<Command>, edited: Db, target: Option<Id>)
    requires Consistent(cfg, db) && MayMigrate(db, i, run) && Migrate(cfg, db, i, run, m) == Ok(done)
    requires m.toVersion != db.installations[i].version && db.runs[run].toVersion == m.toVersion
    requires target in {None, Some(db.installations[i].version)}
    requires AllTimely(cfg, done, cs) && (forall c :: c in cs ==> Spares(c, i)) && edited == Run(cfg, done, cs)
    ensures var backups := BackupsOf(db.records, Targets(db, i, m));
      var result := Rollback(cfg, edited, i, target);
      && (result.Ok? <==> backups.Keys <= edited.records.Keys && RestoreFits(cfg, edited, i, backups))
      && (result.Ok? ==>
            && Consistent(cfg, result.value)
            && i in result.value.installations
            && result.value.installations[i].version == db.installations[i].version
            && result.value.records == RestoredTable(edited.records, backups, backups.Keys))
  {
    MigrateConsistent(cfg, db, i, run, m);
    ConsistentForever(cfg, done, cs);
    MigratedState(cfg, db, i, run, m);
    SparingRun(cfg, done, cs, i, run);
    StillUndoable(cfg, db, i, run, m, done, edited);
    RollbackIsUndo(cfg, edited, i, run, db.installations[i].version, target);
    UndoOutcome(cfg, edited, i, run, db.installations[i].version);
  }
}
