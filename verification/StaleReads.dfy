// What a removal or a purge does to the counters when something commits between its read and its
// transaction: the conditions under which they conserve are not idle.
module StaleReads {
  import opened Results
  import opened DataPlane
  import opened Conservation
  import opened DataPlaneRuns

  // A removal that read the installation before a record was created in it takes too little off the
  // school, whatever the state and the record.
  lemma CreationInBetweenBreaks(cfg: Settings, db: Db, a: Access, data: Data)
    requires Consistent(cfg, db) && a.installation in db.installations && Genuine(db, a)
    requires db.installations[a.installation].uninstalled && !db.installations[a.installation].enabled
    requires Create(cfg, db, a, data).Ok?
    ensures var removed := Remove(Create(cfg, db, a, data).value, a.installation,
        Some(db.installations[a.installation]));
      removed.Ok? && !Conserved(removed.value)
  {
    var i := a.installation;
    var seen := db.installations[i];
    var next := Create(cfg, db, a, data).value;
    CreateConsistent(cfg, db, a, data);
    PutRecordTotals(db.records, db.nextId, NewRecord(cfg, a, data));
    assert next.installations[i].dataRecords == seen.dataRecords + 1;
    DecrementsHit(cfg, db, i);
    RemovalConservesIff(cfg, next, i, seen.dataBytes, seen.dataRecords);
  }

  // A purge whose candidate is enabled again before its transaction deletes the records and keeps the
  // counters, whatever the state.
  lemma EnablingInBetweenBreaks(cfg: Settings, db: Db, c: Candidate, now: int)
    requires Consistent(cfg, db) && GenuineCandidate(db, c) && StillExpired(db, c, now) && HasRecords(db, c)
    ensures !Conserved(Purge(Next(cfg, db, SetState(c.installation, true, false, None)), c, now))
  {
    var enable := SetState(c.installation, true, false, None);
    var next := Next(cfg, db, enable);
    StepConsistent(cfg, db, enable);
    assert next.records == db.records && !StillExpired(next, c, now) && GenuineCandidate(next, c);
    PurgeConservesIff(cfg, next, c, now);
    assert HasRecords(next, c);
  }

  // ---------------------------------------------------------------- both happen

  // Quotas and a size function under which a few records fit.
  function Roomy(): Settings {
    Settings((d: Data) => 1, 100, 100, 100, 100, 3)
  }

  ghost predicate Reachable(db: Db) {
    exists cs :: AllTimely(Roomy(), EMPTY, cs) && DataPlaneRuns.Run(Roomy(), EMPTY, cs) == db
  }

  lemma {:induction false} RunSnoc(db: Db, cs: seq<Command>, c: Command)
    requires AllTimely(Roomy(), db, cs) && Timely(DataPlaneRuns.Run(Roomy(), db, cs), c)
    ensures AllTimely(Roomy(), db, cs + [c]) &&
      DataPlaneRuns.Run(Roomy(), db, cs + [c]) == Next(Roomy(), DataPlaneRuns.Run(Roomy(), db, cs), c)
    decreases |cs|
  {
    if cs == [] {
      assert (cs + [c])[1..] == [];
      assert DataPlaneRuns.Run(Roomy(), Next(Roomy(), db, c), []) == Next(Roomy(), db, c);
    } else {
      assert (cs + [c])[1..] == cs[1..] + [c];
      RunSnoc(Next(Roomy(), db, cs[0]), cs[1..], c);
    }
  }

  lemma Onwards(db: Db, c: Command) returns (next: Db)
    requires Reachable(db) && Timely(db, c)
    ensures next == Next(Roomy(), db, c) && Reachable(next)
  {
    var cs :| AllTimely(Roomy(), EMPTY, cs) && DataPlaneRuns.Run(Roomy(), EMPTY, cs) == db;
    RunSnoc(EMPTY, cs, c);
    next := Next(Roomy(), db, c);
  }

  lemma ReachableIsConsistent(db: Db)
    requires Reachable(db)
    ensures Consistent(Roomy(), db)
  {
    var cs :| AllTimely(Roomy(), EMPTY, cs) && DataPlaneRuns.Run(Roomy(), EMPTY, cs) == db;
    ReachableConsistent(Roomy(), cs);
  }

  function Request(): Access {
    Access(1, 0, 7, 8, 1, "notes", None)
  }

  // A school with one installation, uninstalled and due for the purge.
  lemma Uninstalled() returns (db: Db)
    ensures Reachable(db) && Consistent(Roomy(), db) && db.nextId == 2 && db.records == map[] && db.runs == map[]
    ensures db.installations == map[1 := Installation(0, 7, 8, false, true, Some(0), 0, 0, None, None)]
    ensures db.schools == map[0 := School(0, 0)]
  {
    assert DataPlaneRuns.Run(Roomy(), EMPTY, []) == EMPTY;
    var school := Onwards(EMPTY, AddSchool);
    var bare := Onwards(school, Open(0, 7, 8));
    assert bare.installations == map[1 := Installation(0, 7, 8, false, false, None, 0, 0, None, None)];
    db := Onwards(bare, SetState(1, false, true, Some(0)));
    ReachableIsConsistent(db);
  }

  lemma CreationKeepsColumns(cfg: Settings, db: Db, a: Access, data: Data)
    requires Create(cfg, db, a, data).Ok?
    ensures var (before, next) := (db.installations[a.installation], Create(cfg, db, a, data).value);
      && a.installation in next.installations
      && next.installations[a.installation] == before.(
           dataBytes := next.installations[a.installation].dataBytes,
           dataRecords := next.installations[a.installation].dataRecords)
  {
  }

  // A record whose request was authorised before the uninstallation.
  lemma WithRecord(db: Db) returns (next: Db)
    requires Reachable(db) && Consistent(Roomy(), db) && db.nextId == 2
    requires db.installations == map[1 := Installation(0, 7, 8, false, true, Some(0), 0, 0, None, None)]
    requires db.schools == map[0 := School(0, 0)]
    ensures Genuine(db, Request()) && Create(Roomy(), db, Request(), map[]) == Ok(next) && Reachable(next)
  {
    CreateAddsOneRecord(Roomy(), db, Request(), map[]);
    next := Onwards(db, CreateRecord(Request(), map[]));
  }

  // A removal whose read is stale does happen, and leaves counters that are wrong.
  lemma StaleRemovalReachable()
    ensures exists db, next ::
      && Reachable(db) && Reachable(next) && 1 in db.installations && Create(Roomy(), db, Request(), map[]) == Ok(next)
      && Remove(next, 1, Some(db.installations[1])).Ok? && !Conserved(Remove(next, 1, Some(db.installations[1])).value)
  {
    var db := Uninstalled();
    var next := WithRecord(db);
    CreationInBetweenBreaks(Roomy(), db, Request(), map[]);
  }

  // So does a purge whose guard misses.
  lemma MissedGuardReachable()
    ensures exists db, c ::
      && Reachable(db) && GenuineCandidate(db, c)
      && !StillExpired(db, c, 0) && !Conserved(Purge(db, c, 0))
  {
    var db := Uninstalled();
    var full := WithRecord(db);
    var c := Candidate(1, 0, 7, 1, 1);
    CreationKeepsColumns(Roomy(), db, Request(), map[]);
    CreateAddsOneRecord(Roomy(), db, Request(), map[]);
    ReachableIsConsistent(full);
    var record := full.records[2];
    assert record.installation == 1 && LinkedRecord(full, record);
    assert HasRecords(full, c);
    EnablingInBetweenBreaks(Roomy(), full, c, 0);
    var next := Onwards(full, SetState(1, true, false, None));
    assert GenuineCandidate(next, c) && !StillExpired(next, c, 0);
  }
}
