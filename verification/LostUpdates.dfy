// Lost updates: a write under If-Match finds the record as its author read it, unless a rollback has put
// that record back; which rollbacks do, and that then an update is lost.
module LostUpdates {
  import opened Results
  import opened DataPlane
  import opened Conservation
  import opened DataPlaneRuns
  import opened StaleReads

  // ---------------------------------------------------------------- a run is ahead of its backups

  // The records that undoing an installation's run would put back have all moved on since.
  ghost predicate RunAhead(db: Db, i: Id)
    requires i in db.installations
  {
    var mr := db.installations[i].migrationRun;
    mr.Some? && AppliedTo(db, i, mr.value) ==>
      forall id :: id in db.runs[mr.value].backups && id in db.records ==>
        db.records[id].concurrencyVersion > db.runs[mr.value].backups[id].concurrencyVersion
  }

  ghost predicate Ahead(db: Db) {
    forall i {:trigger RunAhead(db, i)} :: i in db.installations ==> RunAhead(db, i)
  }

  // Records only advance, or are not those of the installation.
  ghost predicate Advanced(db: Db, next: Db, i: Id) {
    forall id :: id in next.records && id < db.nextId ==>
      id in db.records &&
      (next.records[id].concurrencyVersion >= db.records[id].concurrencyVersion || db.records[id].installation != i)
  }

  lemma RunAheadKept(db: Db, next: Db, i: Id)
    requires SoundRuns(db) && i in db.installations && i in next.installations && RunAhead(db, i)
    requires next.installations[i].migrationRun == db.installations[i].migrationRun
    requires forall run :: AppliedTo(next, i, run) ==> AppliedTo(db, i, run) && next.runs[run] == db.runs[run]
    requires Advanced(db, next, i)
    ensures RunAhead(next, i)
  {
    var mr := next.installations[i].migrationRun;
    if mr.Some? && AppliedTo(next, i, mr.value) {
      assert AppliedTo(db, i, mr.value) && SoundRun(db, db.runs[mr.value]);
    }
  }

  lemma MigrateAhead(cfg: Settings, db: Db, i: Id, run: Id, m: Migration, j: Id)
    requires Consistent(cfg, db) && Ahead(db) && MayMigrate(db, i, run) && Migrate(cfg, db, i, run, m).Ok?
    requires j in db.installations
    ensures j in Migrate(cfg, db, i, run, m).value.installations && RunAhead(Migrate(cfg, db, i, run, m).value, j)
  {
    var next := Migrate(cfg, db, i, run, m).value;
    MigratedState(cfg, db, i, run, m);
    assert RunAhead(db, j);
    if j == i {
      assert next.installations[i].migrationRun == Some(run);
    } else {
      RunAheadKept(db, next, j);
    }
  }

  lemma UndoAhead(cfg: Settings, db: Db, i: Id, run: Id, to: Id, j: Id)
    requires Consistent(cfg, db) && Ahead(db) && i in db.installations && j in db.installations
    requires UndoMigration(cfg, db, i, run, to).Ok?
    ensures j in UndoMigration(cfg, db, i, run, to).value.installations
    ensures RunAhead(UndoMigration(cfg, db, i, run, to).value, j)
  {
    var next := UndoMigration(cfg, db, i, run, to).value;
    UndoOutcome(cfg, db, i, run, to);
    assert RunAhead(db, j) && SoundRun(db, db.runs[run]);
    if j == i {
      assert next.installations[i].migrationRun == None;
    } else {
      RunAheadKept(db, next, j);
    }
  }

  lemma CreateAhead(cfg: Settings, db: Db, c: Command, j: Id)
    requires Consistent(cfg, db) && Ahead(db) && Timely(db, c) && c.CreateRecord? && j in db.installations
    ensures j in Next(cfg, db, c).installations && RunAhead(Next(cfg, db, c), j)
  {
    assert RunAhead(db, j);
    RunAheadKept(db, Next(cfg, db, c), j);
  }

  lemma WriteAhead(cfg: Settings, db: Db, w: Write, j: Id)
    requires Consistent(cfg, db) && Ahead(db) && ExecWrite(cfg, db, w).Ok? && j in db.installations
    ensures j in ExecWrite(cfg, db, w).value.installations && RunAhead(ExecWrite(cfg, db, w).value, j)
  {
    var next := ExecWrite(cfg, db, w).value;
    assert RunAhead(db, j);
    WriteChangesOneRecord(cfg, db, w);
    WriteCountsOnce(cfg, db, w, w.id);
    forall id | id in next.records && id != w.id ensures id in db.records && next.records[id] == db.records[id] {
      assert id in next.records - {w.id};
    }
    WriteKeepsRun(cfg, db, w, j);
    RunAheadKept(db, next, j);
  }

  lemma WriteKeepsRun(cfg: Settings, db: Db, w: Write, j: Id)
    requires ExecWrite(cfg, db, w).Ok? && j in db.installations
    ensures j in ExecWrite(cfg, db, w).value.installations
    ensures ExecWrite(cfg, db, w).value.installations[j].migrationRun == db.installations[j].migrationRun
  {
  }

  lemma RollbackAhead(cfg: Settings, db: Db, c: Command, j: Id)
    requires Consistent(cfg, db) && Ahead(db) && c.RollbackTo? && j in db.installations
    ensures j in Next(cfg, db, c).installations && RunAhead(Next(cfg, db, c), j)
  {
    assert RunAhead(db, j);
    if Rollback(cfg, db, c.i, c.target).Ok? && Undoes(cfg, db, c) {
      UndoAhead(cfg, db, c.i, RunOf(db, c), Towards(db, c), j);
    } else {
      RunAheadKept(db, Next(cfg, db, c), j);
    }
  }

  lemma RemovalAhead(cfg: Settings, db: Db, c: Command, j: Id)
    requires Consistent(cfg, db) && Ahead(db) && Timely(db, c) && (c.RemoveInstallation? || c.PurgeCandidate?)
    requires j in Next(cfg, db, c).installations
    ensures RunAhead(Next(cfg, db, c), j)
  {
    assert RunAhead(db, j);
    RunAheadKept(db, Next(cfg, db, c), j);
  }

  // Commands on run rows: an applied run is not among them.
  lemma RunRowAhead(cfg: Settings, db: Db, c: Command, j: Id)
    requires Consistent(cfg, db) && Ahead(db) && Timely(db, c) && (c.BeginRun? || c.FailRun?)
    requires j in Next(cfg, db, c).installations
    ensures RunAhead(Next(cfg, db, c), j)
  {
    assert RunAhead(db, j);
    RunAheadKept(db, Next(cfg, db, c), j);
  }

  lemma LabelAhead(cfg: Settings, db: Db, c: Command, j: Id)
    requires Consistent(cfg, db) && Ahead(db) && Timely(db, c)
    requires c.AddSchool? || c.Open? || c.SetState? || c.SetVersion?
    requires j in Next(cfg, db, c).installations
    ensures RunAhead(Next(cfg, db, c), j)
  {
    if j in db.installations {
      assert RunAhead(db, j);
      RunAheadKept(db, Next(cfg, db, c), j);
    }
  }

  lemma StepAhead(cfg: Settings, db: Db, c: Command)
    requires Consistent(cfg, db) && Ahead(db) && Timely(db, c)
    ensures Ahead(Next(cfg, db, c))
  {
    var next := Next(cfg, db, c);
    forall j | j in next.installations ensures RunAhead(next, j) {
      match c
      case CreateRecord(_, _) => SameInstallations(cfg, db, c); CreateAhead(cfg, db, c, j);
      case WriteRecord(w) =>
        SameInstallations(cfg, db, c);
        assert RunAhead(db, j);
        if ExecWrite(cfg, db, w).Ok? { WriteAhead(cfg, db, w, j); }
      case MigrateRun(i, run, m) =>
        SameInstallations(cfg, db, c);
        assert RunAhead(db, j);
        if Migrate(cfg, db, i, run, m).Ok? { MigrateAhead(cfg, db, i, run, m, j); }
      case RollbackTo(_, _) => SameInstallations(cfg, db, c); RollbackAhead(cfg, db, c, j);
      case RemoveInstallation(_, _) => RemovalAhead(cfg, db, c, j);
      case PurgeCandidate(_, _) => RemovalAhead(cfg, db, c, j);
      case BeginRun(_, _, _) => RunRowAhead(cfg, db, c, j);
      case FailRun(_) => RunRowAhead(cfg, db, c, j);
      case _ => LabelAhead(cfg, db, c, j);
    }
  }

  lemma SameInstallations(cfg: Settings, db: Db, c: Command)
    requires Timely(db, c) && (c.CreateRecord? || c.WriteRecord? || c.MigrateRun? || c.RollbackTo?)
    ensures Next(cfg, db, c).installations.Keys == db.installations.Keys
  {
  }

  ghost predicate Ordered(cfg: Settings, db: Db) {
    Consistent(cfg, db) && Ahead(db)
  }

  // In every reachable state the records of an applied run are ahead of its backups.
  lemma {:induction false} OrderedForever(cfg: Settings, db: Db, cs: seq<Command>)
    requires Ordered(cfg, db) && AllTimely(cfg, db, cs)
    ensures Ordered(cfg, DataPlaneRuns.Run(cfg, db, cs))
    decreases |cs|
  {
    if cs != [] {
      StepConsistent(cfg, db, cs[0]);
      StepAhead(cfg, db, cs[0]);
      OrderedForever(cfg, Next(cfg, db, cs[0]), cs[1..]);
    }
  }

  lemma ReachableOrdered(cfg: Settings, cs: seq<Command>)
    requires AllTimely(cfg, EMPTY, cs)
    ensures Ordered(cfg, DataPlaneRuns.Run(cfg, EMPTY, cs))
  {
    OrderedForever(cfg, EMPTY, cs);
  }

  // ---------------------------------------------------------------- which steps put a record back

  // A rollback that goes through and has a run to undo.
  ghost predicate Undoes(cfg: Settings, db: Db, c: Command) {
    && c.RollbackTo? && c.i in db.installations && c.target != Some(db.installations[c.i].version)
    && db.installations[c.i].migrationRun.Some? && db.installations[c.i].migrationRun.value in db.runs
    && Rollback(cfg, db, c.i, c.target).Ok?
  }

  ghost function RunOf(db: Db, c: Command): Id
    requires c.RollbackTo? && c.i in db.installations && db.installations[c.i].migrationRun.Some?
  {
    db.installations[c.i].migrationRun.value
  }

  ghost function Towards(db: Db, c: Command): Id
    requires c.RollbackTo? && c.i in db.installations
  {
    match (if c.target.Some? then c.target else db.installations[c.i].rollbackVersion)
    case Some(to) => to
    case None => 0
  }

  ghost predicate PutsBack(cfg: Settings, db: Db, c: Command, id: Id) {
    Undoes(cfg, db, c) && id in db.runs[RunOf(db, c)].backups
  }

  ghost predicate Lowers(before: Db, after: Db, id: Id) {
    && id in before.records && id in after.records
    && after.records[id].concurrencyVersion < before.records[id].concurrencyVersion
  }

  lemma UndoRecords(cfg: Settings, db: Db, c: Command)
    requires Consistent(cfg, db) && Undoes(cfg, db, c)
    ensures AppliedTo(db, c.i, RunOf(db, c)) && db.runs[RunOf(db, c)].backups.Keys <= db.records.Keys
    ensures var backups := db.runs[RunOf(db, c)].backups;
      Next(cfg, db, c).records == RestoredTable(db.records, backups, backups.Keys)
    ensures Next(cfg, db, c).nextId == db.nextId
  {
    UndoOutcome(cfg, db, c.i, RunOf(db, c), Towards(db, c));
  }

  // A step lowers a record's version exactly when it is a rollback that goes through, is not at its
  // target already, and undoes a run with an older backup of the record.
  lemma LowersIff(cfg: Settings, db: Db, c: Command, id: Id)
    requires Consistent(cfg, db) && Timely(db, c) && id in db.records
    ensures Lowers(db, Next(cfg, db, c), id) <==>
      PutsBack(cfg, db, c, id) &&
      db.runs[RunOf(db, c)].backups[id].concurrencyVersion < db.records[id].concurrencyVersion
  {
    if c.RollbackTo? {
      if Undoes(cfg, db, c) { UndoRecords(cfg, db, c); }
    } else {
      VersionCountsChanges(cfg, db, c, id);
    }
  }

  // In reachable states the backup always is older: the rollbacks that lower a version are those that
  // put the record back, and every other step leaves it alone or counts its change.
  lemma LowersIffPutBack(cfg: Settings, db: Db, c: Command, id: Id)
    requires Ordered(cfg, db) && Timely(db, c)
    ensures id in db.records ==> (Lowers(db, Next(cfg, db, c), id) <==> PutsBack(cfg, db, c, id))
    ensures !PutsBack(cfg, db, c, id) ==>
      Advances(db, Next(cfg, db, c), id) && ChangesCounted(db, Next(cfg, db, c), id)
  {
    if id in db.records { LowersIff(cfg, db, c, id); }
    if c.RollbackTo? {
      if Undoes(cfg, db, c) {
        UndoRecords(cfg, db, c);
        assert RunAhead(db, c.i);
      }
    } else {
      VersionCountsChanges(cfg, db, c, id);
    }
  }

  // ---------------------------------------------------------------- no lost update

  ghost predicate NeverPutBack(cfg: Settings, db: Db, cs: seq<Command>, id: Id)
    requires AllTimely(cfg, db, cs)
    decreases |cs|
  {
    cs == [] || (!PutsBack(cfg, db, cs[0], id) && NeverPutBack(cfg, Next(cfg, db, cs[0]), cs[1..], id))
  }

  // Between two states the record is gone for good, or unchanged, or at a later version.
  ghost predicate Follows(before: Db, after: Db, id: Id) {
    && before.nextId <= after.nextId
    && (id < before.nextId && id !in before.records ==> id !in after.records)
    && (id in before.records && id in after.records ==>
          || after.records[id] == before.records[id]
          || after.records[id].concurrencyVersion > before.records[id].concurrencyVersion)
  }

  lemma {:induction false} RunFollows(cfg: Settings, db: Db, cs: seq<Command>, id: Id)
    requires Ordered(cfg, db) && AllTimely(cfg, db, cs) && NeverPutBack(cfg, db, cs, id)
    ensures id < db.nextId ==> Follows(db, DataPlaneRuns.Run(cfg, db, cs), id)
    decreases |cs|
  {
    if cs != [] {
      var next := Next(cfg, db, cs[0]);
      StepConsistent(cfg, db, cs[0]);
      StepAhead(cfg, db, cs[0]);
      LowersIffPutBack(cfg, db, cs[0], id);
      RunFollows(cfg, next, cs[1..], id);
    }
  }

  // An author reads a record. Whatever happens then, other rollbacks included, as long as none puts that
  // record back: if the author's write under the version read goes through, it finds the record exactly
  // as it was read, so that no change by anyone else is overwritten.
  lemma NoLostUpdate(cfg: Settings, db: Db, cs: seq<Command>, w: Write)
    requires Ordered(cfg, db) && AllTimely(cfg, db, cs) && NeverPutBack(cfg, db, cs, w.id)
    requires w.id in db.records && db.records[w.id].concurrencyVersion == w.expected
    requires ExecWrite(cfg, DataPlaneRuns.Run(cfg, db, cs), w).Ok?
    ensures w.id in DataPlaneRuns.Run(cfg, db, cs).records
    ensures DataPlaneRuns.Run(cfg, db, cs).records[w.id] == db.records[w.id]
  {
    assert w.id < db.nextId;
    RunFollows(cfg, db, cs, w.id);
    OrderedForever(cfg, db, cs);
    WriteSettlesVersion(cfg, DataPlaneRuns.Run(cfg, db, cs), w);
  }

  // Of two successful writes to a record that no rollback in between puts back, the later one named a
  // later version.
  lemma WritesInOrder(cfg: Settings, db: Db, first: Write, written: Db, between: seq<Command>, second: Write)
    requires Ordered(cfg, db) && ExecWrite(cfg, db, first) == Ok(written)
    requires AllTimely(cfg, written, between) && NeverPutBack(cfg, written, between, first.id)
    requires second.id == first.id && ExecWrite(cfg, DataPlaneRuns.Run(cfg, written, between), second).Ok?
    ensures first.expected < second.expected
  {
    WriteRequestConsistent(cfg, db, first);
    WriteSettlesVersion(cfg, db, first);
    assert written == Next(cfg, db, WriteRecord(first));
    StepAhead(cfg, db, WriteRecord(first));
    RunFollows(cfg, written, between, first.id);
    OrderedForever(cfg, written, between);
    WriteSettlesVersion(cfg, DataPlaneRuns.Run(cfg, written, between), second);
  }

  // ---------------------------------------------------------------- the update that a rollback loses

  lemma MigratedAt(cfg: Settings, db: Db, i: Id, run: Id, m: Migration, done: Db, id: Id)
    requires MayMigrate(db, i, run) && Migrate(cfg, db, i, run, m) == Ok(done) && id in Targets(db, i, m)
    ensures id in done.records
    ensures done.records[id].concurrencyVersion == db.records[id].concurrencyVersion + 1
    ensures Some(done.records[id].data) == Fold(m.operations, db.records[id].resource, db.records[id].data)
    ensures i in done.installations && done.installations[i].version == m.toVersion
    ensures done.installations[i].migrationRun == Some(run)
    ensures run in done.runs && id in done.runs[run].backups
  {
    MigratedState(cfg, db, i, run, m);
  }

  lemma RegainedAt(db: Db, i: Id, run: Id, m: Migration, id: Id)
    requires MayMigrate(db, i, run) && id in Targets(db, i, m)
    ensures var back := Regained(db, i, run, m).records;
      id in back && back[id] == db.records[id].(updatedBy := m.actor)
  {
  }

  lemma PutsBackHere(cfg: Settings, done: Db, i: Id, target: Option<Id>, run: Id, id: Id)
    requires i in done.installations && done.installations[i].migrationRun == Some(run) && run in done.runs
    requires target != Some(done.installations[i].version) && Rollback(cfg, done, i, target).Ok?
    requires id in done.runs[run].backups
    ensures PutsBack(cfg, done, RollbackTo(i, target), id)
  {
  }

  // A migrated record is one version on, and right back at its version after the rollback.
  lemma VersionPutBack(
      cfg: Settings, db: Db, i: Id, run: Id, m: Migration, done: Db, target: Option<Id>, id: Id)
    requires Consistent(cfg, db) && MayMigrate(db, i, run) && Migrate(cfg, db, i, run, m) == Ok(done)
    requires m.toVersion != db.installations[i].version && db.runs[run].toVersion == m.toVersion
    requires target in {None, Some(db.installations[i].version)} && id in Targets(db, i, m)
    ensures id in done.records
    ensures done.records[id].concurrencyVersion == db.records[id].concurrencyVersion + 1
    ensures var back := Next(cfg, done, RollbackTo(i, target));
      && Rollback(cfg, done, i, target) == Ok(back) && Consistent(cfg, back)
      && PutsBack(cfg, done, RollbackTo(i, target), id)
      && id in back.records && back.records[id] == db.records[id].(updatedBy := m.actor)
  {
    MigratedAt(cfg, db, i, run, m, done, id);
    RegainedAt(db, i, run, m, id);
    RollbackInvertsMigration(cfg, db, i, run, m, done, target);
    MigrateConsistent(cfg, db, i, run, m);
    StepConsistent(cfg, done, RollbackTo(i, target));
    PutsBackHere(cfg, done, i, target, run, id);
  }

  // Someone reads the migrated record, the rollback puts it back, and another writes it: its version is
  // again the one that was read, so that the reader's write goes through whenever it is theirs to make
  // and fits, and overwrites the other's data.
  lemma RollbackLosesUpdate(
      cfg: Settings, db: Db, i: Id, run: Id, m: Migration, done: Db, target: Option<Id>, first: Write, written: Db,
      second: Write)
    requires Consistent(cfg, db) && MayMigrate(db, i, run) && Migrate(cfg, db, i, run, m) == Ok(done)
    requires m.toVersion != db.installations[i].version && db.runs[run].toVersion == m.toVersion
    requires target in {None, Some(db.installations[i].version)} && first.id in Targets(db, i, m)
    requires first.data.Some? && ExecWrite(cfg, Next(cfg, done, RollbackTo(i, target)), first) == Ok(written)
    requires second.id == first.id && first.id in done.records
    requires second.expected == done.records[first.id].concurrencyVersion
    ensures first.id in written.records && written.records[first.id].data == first.data.value
    ensures ExecWrite(cfg, written, second).Ok? <==>
      && Visible(written, second.a, second.id)
      && (second.data.Some? ==>
            && cfg.jsonSize(second.data.value) <= MAX_RECORD_BYTES
            && GrowthFits(cfg, written, second.a.installation,
                cfg.jsonSize(second.data.value) - written.records[second.id].byteSize))
  {
    var back := Next(cfg, done, RollbackTo(i, target));
    VersionPutBack(cfg, db, i, run, m, done, target, first.id);
    WriteRequestConsistent(cfg, back, first);
    WriteSettlesVersion(cfg, back, first);
    UpdateReplacesData(cfg, back, first.a, first.id, first.data.value, first.expected);
    WriteSucceedsIff(cfg, written, second);
  }

  // ---------------------------------------------------------------- it happens

  function Plan(): Migration {
    Migration(9, 2, [SetDefault("notes", "f", Json("x"))], None)
  }

  // Where all records are of one size, a migration that sets a default goes through.
  lemma PlanGoesThrough(db: Db, run: Id)
    requires Consistent(Roomy(), db) && MayMigrate(db, 1, run)
    requires forall id :: id in db.records ==> db.records[id].byteSize == 1
    ensures Migrate(Roomy(), db, 1, run, Plan()).Ok?
  {
    var cfg, m, targets := Roomy(), Plan(), Targets(db, 1, Plan());
    forall id | id in targets ensures Fold(m.operations, db.records[id].resource, db.records[id].data).Some? {
      OneDefault(db.records[id].resource, db.records[id].data);
    }
    var table := MigratedTable(cfg, db, m, targets);
    assert RecordBytes(table, 1) == RecordBytes(db.records, 1);
    SameRowsSameCount(table, db.records, 1);
    var row := AppliedRun(db, run, targets);
    LabelledWrite(db, 1, m.toVersion, db.installations[1].version, Some(run), run, row, table);
    CommitFits(cfg, Labelled(db, 1, m.toVersion, db.installations[1].version, Some(run), run, row), 1, table,
        Written(db, 1, m.toVersion, db.installations[1].version, Some(run), run, row, table));
  }

  lemma OneDefault(resource: string, d: Data)
    ensures var r := Fold(Plan().operations, resource, d); r.Some? && ("g" !in d ==> "g" !in r.value)
  {
    assert Plan().operations[1..] == [];
  }

  // One record, in an installation that is about to migrate.
  lemma AboutToMigrate() returns (db: Db)
    ensures Reachable(db) && Consistent(Roomy(), db) && MayMigrate(db, 1, 3) && db.runs[3].toVersion == 9
    ensures db.installations[1].version == 8 && db.nextId == 4
    ensures db.records == map[2 := NewRecord(Roomy(), Request(), map[])]
  {
    var empty := Uninstalled();
    CreationKeepsColumns(Roomy(), empty, Request(), map[]) by {
      CreateAddsOneRecord(Roomy(), empty, Request(), map[]);
    }
    var full := WithRecord(empty);
    assert full.records == map[2 := NewRecord(Roomy(), Request(), map[])] && full.nextId == 3 && full.runs == map[];
    db := Onwards(full, BeginRun(1, 9, None));
    ReachableIsConsistent(db);
  }

  // Under Roomy a record of size one can be given any other data.
  lemma RoomyWrite(db: Db, w: Write)
    requires Consistent(Roomy(), db) && w.data.Some? && w.a == Request() && Visible(db, w.a, w.id)
    requires db.records[w.id].byteSize == 1 && db.records[w.id].concurrencyVersion == w.expected
    ensures ExecWrite(Roomy(), db, w).Ok?
  {
    WriteSucceedsIff(Roomy(), db, w);
    var i := db.installations[1];
    assert Moved(i, 0, 0) == i && InstallationFits(Roomy(), i) && SchoolFits(Roomy(), db.schools[i.school]);
    assert Charged(db.schools, i.school, 0, 0)[i.school] == db.schools[i.school];
  }

  lemma StillVisible(db: Db, r: Record)
    requires Consistent(Roomy(), db) && 2 in db.records && db.records[2] == r
    requires r.school == 0 && r.extension == 7 && r.installation == 1 && r.resource == "notes"
    ensures Visible(db, Request(), 2)
  {
    assert LinkedRecord(db, r);
  }

  // The author's write goes through, and the record has other data than the author read.
  ghost predicate Lost(seen: Db, cs: seq<Command>, w: Write) {
    && AllTimely(Roomy(), seen, cs)
    && w.id in seen.records && seen.records[w.id].concurrencyVersion == w.expected
    && var now := DataPlaneRuns.Run(Roomy(), seen, cs);
    && ExecWrite(Roomy(), now, w).Ok? && w.id in now.records
    && now.records[w.id].data != seen.records[w.id].data
  }

  function First(): Write {
    Write(Request(), 2, Some(map["g" := Json("y")]), 1)
  }

  function Second(): Write {
    Write(Request(), 2, Some(map[]), 2)
  }

  lemma NoteTargeted(db: Db)
    requires Consistent(Roomy(), db) && 1 in db.installations
    requires db.records == map[2 := NewRecord(Roomy(), Request(), map[])]
    ensures 2 in Targets(db, 1, Plan())
  {
    assert LinkedRecord(db, db.records[2]);
    assert Plan().operations[0] in Plan().operations;
  }

  lemma MigratedNote(db: Db) returns (done: Db)
    requires Reachable(db) && Consistent(Roomy(), db) && MayMigrate(db, 1, 3)
    requires db.records == map[2 := NewRecord(Roomy(), Request(), map[])]
    ensures Reachable(done) && Migrate(Roomy(), db, 1, 3, Plan()) == Ok(done) && 2 in Targets(db, 1, Plan())
    ensures 2 in done.records && done.records[2].concurrencyVersion == 2 && "g" !in done.records[2].data
  {
    PlanGoesThrough(db, 3);
    NoteTargeted(db);
    done := Onwards(db, MigrateRun(1, 3, Plan()));
    MigratedAt(Roomy(), db, 1, 3, Plan(), done, 2);
    OneDefault("notes", map[]);
  }

  lemma BackAndEdited(db: Db, done: Db) returns (back: Db, written: Db)
    requires Consistent(Roomy(), db) && MayMigrate(db, 1, 3) && Migrate(Roomy(), db, 1, 3, Plan()) == Ok(done)
    requires db.installations[1].version == 8 && db.records == map[2 := NewRecord(Roomy(), Request(), map[])]
    requires db.runs[3].toVersion == 9 && 2 in Targets(db, 1, Plan())
    ensures back == Next(Roomy(), done, RollbackTo(1, None)) && written == Next(Roomy(), back, WriteRecord(First()))
    ensures ExecWrite(Roomy(), back, First()) == Ok(written) && Consistent(Roomy(), written)
    ensures Visible(written, Request(), 2) && written.records[2].byteSize == 1
    ensures written.records[2].concurrencyVersion == 2 && written.records[2].data == First().data.value
  {
    VersionPutBack(Roomy(), db, 1, 3, Plan(), done, None, 2);
    back := Next(Roomy(), done, RollbackTo(1, None));
    StillVisible(back, back.records[2]);
    RoomyWrite(back, First());
    written := Next(Roomy(), back, WriteRecord(First()));
    WriteRequestConsistent(Roomy(), back, First());
    UpdateReplacesData(Roomy(), back, Request(), 2, First().data.value, 1);
    WriteSettlesVersion(Roomy(), back, First());
    StillVisible(written, written.records[2]);
  }

  lemma TwoSteps(db: Db, c: Command, d: Command)
    requires Timely(db, c) && Timely(Next(Roomy(), db, c), d)
    ensures AllTimely(Roomy(), db, [c, d])
    ensures DataPlaneRuns.Run(Roomy(), db, [c, d]) == Next(Roomy(), Next(Roomy(), db, c), d)
  {
    assert [c, d][1..] == [d] && [d][1..] == [];
    assert DataPlaneRuns.Run(Roomy(), Next(Roomy(), db, c), [d]) == Next(Roomy(), Next(Roomy(), db, c), d);
  }

  lemma SecondLoses(done: Db, back: Db, written: Db)
    requires back == Next(Roomy(), done, RollbackTo(1, None)) && written == Next(Roomy(), back, WriteRecord(First()))
    requires 2 in done.records && done.records[2].concurrencyVersion == 2 && "g" !in done.records[2].data
    requires ExecWrite(Roomy(), written, Second()).Ok?
    requires 2 in written.records && "g" in written.records[2].data
    ensures Lost(done, [RollbackTo(1, None), WriteRecord(First())], Second())
  {
    TwoSteps(done, RollbackTo(1, None), WriteRecord(First()));
  }

  lemma UpdateLost(db: Db, done: Db)
    requires Consistent(Roomy(), db) && MayMigrate(db, 1, 3) && Migrate(Roomy(), db, 1, 3, Plan()) == Ok(done)
    requires db.installations[1].version == 8 && db.records == map[2 := NewRecord(Roomy(), Request(), map[])]
    requires db.runs[3].toVersion == 9 && 2 in Targets(db, 1, Plan())
    requires 2 in done.records && done.records[2].concurrencyVersion == 2 && "g" !in done.records[2].data
    ensures Lost(done, [RollbackTo(1, None), WriteRecord(First())], Second())
  {
    var back, written := BackAndEdited(db, done);
    RoomyWrite(written, Second());
    SecondLoses(done, back, written);
  }

  // A reachable state in which the update is lost.
  lemma LostUpdateReachable()
    ensures exists seen, cs, w :: Reachable(seen) && Lost(seen, cs, w)
  {
    var db := AboutToMigrate();
    var done := MigratedNote(db);
    UpdateLost(db, done);
  }
}
