// A job that upgrades with a declared migration, delivered any number of times, with a crash before
// the run row, after it, or between the transaction and the note of its failure.
module UpgradeJobs {
  import opened Results
  import opened DataPlane
  import opened Conservation
  import opened DataPlaneRuns

  datatype Stop = BeforeRow | AfterRow | AfterTransaction | AtEnd

  // One delivery: the failed run that its lookup found, if any, and how far it gets.
  datatype Attempt = Attempt(previous: Option<Id>, stop: Stop)

  predicate Possible(db: Db, i: Id, m: Migration, a: Attempt) {
    i in db.installations && PreviousRun(db, i, m.toVersion, a.previous)
  }

  ghost function Attempted(cfg: Settings, db: Db, i: Id, m: Migration, a: Attempt): Db
    requires Possible(db, i, m, a)
  {
    if db.installations[i].version == m.toVersion || a.stop == BeforeRow then db
    else
      match Begin(db, i, m.toVersion, a.previous)
      case Err(_) => db
      case Ok((begun, run)) =>
        if a.stop == AfterRow then begun
        else
          match Migrate(cfg, begun, i, run, m)
          case Ok(next) => next
          case Err(_) => if a.stop == AfterTransaction then begun else MarkFailed(cfg, begun, run)
  }

  ghost predicate AllPossible(cfg: Settings, db: Db, i: Id, m: Migration, attempts: seq<Attempt>)
    decreases |attempts|
  {
    attempts == [] ||
    (Possible(db, i, m, attempts[0]) && AllPossible(cfg, Attempted(cfg, db, i, m, attempts[0]), i, m, attempts[1..]))
  }

  ghost function AllAttempted(cfg: Settings, db: Db, i: Id, m: Migration, attempts: seq<Attempt>): Db
    requires AllPossible(cfg, db, i, m, attempts)
    decreases |attempts|
  {
    if attempts == [] then db else AllAttempted(cfg, Attempted(cfg, db, i, m, attempts[0]), i, m, attempts[1..])
  }

  // Nothing but run rows differs.
  predicate NotYet(before: Db, db: Db) {
    db.schools == before.schools && db.installations == before.installations && db.records == before.records
  }

  // Migrated once: the records, the counters and the version columns as one migration of the state
  // before leaves them, and the run that did it, with its backups.
  ghost predicate Once(cfg: Settings, before: Db, i: Id, m: Migration, db: Db)
    requires i in before.installations
  {
    var targets := Targets(before, i, m);
    !Clashes(before, m, targets) &&
    var table := MigratedTable(cfg, before, m, targets);
    var inst := before.installations[i];
    var bytes := BytesOf(table, i) - BytesOf(before.records, i);
    && db.records == table
    && db.schools == Charged(before.schools, inst.school, bytes, 0)
    && exists run :: AppliedBy(before, i, m, db, run, bytes)
  }

  ghost predicate AppliedBy(before: Db, i: Id, m: Migration, db: Db, run: Id, bytes: int)
    requires i in before.installations
  {
    var inst := before.installations[i];
    && run in db.runs && db.runs[run].status == Applied && db.runs[run].installation == i
    && db.runs[run].backups == BackupsOf(before.records, Targets(before, i, m))
    && db.installations == before.installations[i := Moved(inst, bytes, 0).(
         version := m.toVersion, rollbackVersion := Some(inst.version), migrationRun := Some(run))]
  }

  lemma MigratesOnce(cfg: Settings, before: Db, db: Db, i: Id, run: Id, m: Migration)
    requires NotYet(before, db) && MayMigrate(db, i, run) && Migrate(cfg, db, i, run, m).Ok?
    ensures Once(cfg, before, i, m, Migrate(cfg, db, i, run, m).value)
  {
    var next := Migrate(cfg, db, i, run, m).value;
    MigratedState(cfg, db, i, run, m);
    var targets := Targets(db, i, m);
    assert targets == Targets(before, i, m);
    var table := MigratedTable(cfg, db, m, targets);
    assert table == MigratedTable(cfg, before, m, targets);
    assert AppliedBy(before, i, m, next, run, BytesOf(table, i) - BytesOf(before.records, i));
  }

  lemma AttemptOnce(cfg: Settings, before: Db, db: Db, i: Id, m: Migration, a: Attempt)
    requires i in before.installations && before.installations[i].version != m.toVersion
    requires Possible(db, i, m, a) && (NotYet(before, db) || Once(cfg, before, i, m, db))
    ensures var after := Attempted(cfg, db, i, m, a);
      && (NotYet(before, after) || Once(cfg, before, i, m, after))
      && (Once(cfg, before, i, m, db) ==> after == db)
  {
    if Once(cfg, before, i, m, db) {
      assert db.installations[i].version == m.toVersion;
    } else if a.stop != BeforeRow && Begin(db, i, m.toVersion, a.previous).Ok? {
      var (begun, run) := Begin(db, i, m.toVersion, a.previous).value;
      assert NotYet(before, begun) && MayMigrate(begun, i, run);
      if a.stop != AfterRow && Migrate(cfg, begun, i, run, m).Ok? {
        MigratesOnce(cfg, before, begun, i, run, m);
      }
    }
  }

  // However often the job is delivered and wherever its deliveries crash: the database is, but for run
  // rows, as it was, or it has been migrated once; and then further deliveries change nothing at all.
  lemma {:induction false} UpgradeOnceOnly(
      cfg: Settings, before: Db, db: Db, i: Id, m: Migration, attempts: seq<Attempt>)
    requires i in before.installations && before.installations[i].version != m.toVersion
    requires NotYet(before, db) || Once(cfg, before, i, m, db)
    requires AllPossible(cfg, db, i, m, attempts)
    ensures var after := AllAttempted(cfg, db, i, m, attempts);
      && (NotYet(before, after) || Once(cfg, before, i, m, after))
      && (Once(cfg, before, i, m, db) ==> after == db)
    decreases |attempts|
  {
    if attempts != [] {
      AttemptOnce(cfg, before, db, i, m, attempts[0]);
      UpgradeOnceOnly(cfg, before, Attempted(cfg, db, i, m, attempts[0]), i, m, attempts[1..]);
    }
  }

  // A delivery that gets to its end without a refusal has migrated it, or found it migrated.
  lemma FinishedIsMigrated(cfg: Settings, before: Db, db: Db, i: Id, m: Migration, previous: Option<Id>)
    requires i in before.installations && before.installations[i].version != m.toVersion
    requires Possible(db, i, m, Attempt(previous, AtEnd)) && (NotYet(before, db) || Once(cfg, before, i, m, db))
    ensures Attempted(cfg, db, i, m, Attempt(previous, AtEnd)) == Upgrade(cfg, db, i, m, previous).0
    ensures Upgrade(cfg, db, i, m, previous).1 == None ==> Once(cfg, before, i, m, Upgrade(cfg, db, i, m, previous).0)
  {
    if NotYet(before, db) && Begin(db, i, m.toVersion, previous).Ok? {
      var (begun, run) := Begin(db, i, m.toVersion, previous).value;
      if Migrate(cfg, begun, i, run, m).Ok? {
        MigratesOnce(cfg, before, begun, i, run, m);
      }
    }
  }

  // And through all of it the counters stay exact.
  lemma AttemptConsistent(cfg: Settings, db: Db, i: Id, m: Migration, a: Attempt)
    requires Consistent(cfg, db) && Possible(db, i, m, a)
    ensures Consistent(cfg, Attempted(cfg, db, i, m, a))
  {
    if a.stop != BeforeRow && db.installations[i].version != m.toVersion && Begin(db, i, m.toVersion, a.previous).Ok? {
      var (begun, run) := Begin(db, i, m.toVersion, a.previous).value;
      BeginConsistent(cfg, db, i, m.toVersion, a.previous);
      if a.stop != AfterRow {
        RestConsistent(cfg, begun, i, run, m);
      }
    }
  }

  lemma RestConsistent(cfg: Settings, begun: Db, i: Id, run: Id, m: Migration)
    requires Consistent(cfg, begun) && MayMigrate(begun, i, run)
    ensures Migrate(cfg, begun, i, run, m).Ok? ==> Consistent(cfg, Migrate(cfg, begun, i, run, m).value)
    ensures Consistent(cfg, MarkFailed(cfg, begun, run))
  {
    MarkFailedConsistent(cfg, begun, run);
    if Migrate(cfg, begun, i, run, m).Ok? {
      MigrateConsistent(cfg, begun, i, run, m);
    }
  }

  // ---------------------------------------------------------------- one delivery

  // A delivery that gets to its end does what the upgrade does. One that crashes before its run row does
  // nothing, one that crashes after it leaves the row pending, and so does one whose transaction fails
  // and that crashes before it notes the failure.
  lemma AttemptLaw(cfg: Settings, db: Db, i: Id, m: Migration, previous: Option<Id>)
    requires i in db.installations && PreviousRun(db, i, m.toVersion, previous)
    ensures Attempted(cfg, db, i, m, Attempt(previous, AtEnd)) == Upgrade(cfg, db, i, m, previous).0
    ensures Attempted(cfg, db, i, m, Attempt(previous, BeforeRow)) == db
    ensures db.installations[i].version != m.toVersion && Begin(db, i, m.toVersion, previous).Ok? ==>
      var (begun, run) := Begin(db, i, m.toVersion, previous).value;
      && Attempted(cfg, db, i, m, Attempt(previous, AfterRow)) == begun
      && Attempted(cfg, db, i, m, Attempt(previous, AfterTransaction)) ==
           (if Migrate(cfg, begun, i, run, m).Ok? then Migrate(cfg, begun, i, run, m).value else begun)
  {
  }

  // Deliveries come one after the other.
  lemma {:induction false} AttemptsAre(cfg: Settings, db: Db, i: Id, m: Migration, attempts: seq<Attempt>, a: Attempt)
    requires AllPossible(cfg, db, i, m, attempts)
    requires Possible(AllAttempted(cfg, db, i, m, attempts), i, m, a)
    ensures AllPossible(cfg, db, i, m, attempts + [a])
    ensures AllAttempted(cfg, db, i, m, attempts + [a]) ==
      Attempted(cfg, AllAttempted(cfg, db, i, m, attempts), i, m, a)
    decreases |attempts|
  {
    if attempts == [] {
      assert (attempts + [a])[1..] == [];
    } else {
      assert (attempts + [a])[1..] == attempts[1..] + [a];
      AttemptsAre(cfg, Attempted(cfg, db, i, m, attempts[0]), i, m, attempts[1..], a);
    }
  }
}
