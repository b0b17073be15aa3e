// Deleting an extension for good: every school gives back what a read before the transaction found its
// installation to hold, and the installations go with their records and runs.
module ExtensionPurge {
  import opened Totals
  import opened DataPlane
  import opened Conservation

  datatype Usage = Usage(bytes: int, records: int)

  const NOTHING := Usage(0, 0)

  // What the read found, by school; a school that no longer has that much gives nothing back.
  function GivenBack(db: Db, seen: map<Id, Usage>, s: Id): Usage
    requires s in db.schools
  {
    if s in seen && db.schools[s].dataBytes >= seen[s].bytes && db.schools[s].dataRecords >= seen[s].records
    then seen[s] else NOTHING
  }

  predicate Goes(db: Db, e: Id, i: Id) {
    i in db.installations && db.installations[i].extension == e
  }

  function Purged(db: Db, e: Id, seen: map<Id, Usage>): Db {
    Db(map s | s in db.schools ::
         School(db.schools[s].dataBytes - GivenBack(db, seen, s).bytes,
                db.schools[s].dataRecords - GivenBack(db, seen, s).records),
       map i | i in db.installations && !Goes(db, e, i) :: db.installations[i],
       map id | id in db.records && !Goes(db, e, db.records[id].installation) :: db.records[id],
       map run | run in db.runs && !Goes(db, e, db.runs[run].installation) :: db.runs[run],
       db.nextId)
  }

  ghost predicate HasOne(db: Db, e: Id, s: Id) {
    exists i :: Goes(db, e, i) && db.installations[i].school == s
  }

  // What the school's installation of the extension holds by the time of the transaction.
  ghost function Holds(db: Db, e: Id, s: Id): Usage {
    if HasOne(db, e, s) then
      var i :| Goes(db, e, i) && db.installations[i].school == s;
      Usage(db.installations[i].dataBytes, db.installations[i].dataRecords)
    else NOTHING
  }

  lemma SchoolTotals(db: Db, e: Id, seen: map<Id, Usage>, s: Id)
    requires Linked(db)
    ensures var after := Purged(db, e, seen).installations;
      && SchoolBytes(after, s) == SchoolBytes(db.installations, s) - Holds(db, e, s).bytes
      && SchoolRecords(after, s) == SchoolRecords(db.installations, s) - Holds(db, e, s).records
  {
    var after := Purged(db, e, seen).installations;
    if HasOne(db, e, s) {
      var i :| Goes(db, e, i) && db.installations[i].school == s &&
        Holds(db, e, s) == Usage(db.installations[i].dataBytes, db.installations[i].dataRecords);
      forall j | Goes(db, e, j) && db.installations[j].school == s ensures j == i {
        assert SameSlot(db, i, j);
      }
      assert BytesBySchool(after, s) == BytesBySchool(db.installations, s) - {i};
      assert RecordsBySchool(after, s) == RecordsBySchool(db.installations, s) - {i};
      TotalRemove(BytesBySchool(db.installations, s), i);
      TotalRemove(RecordsBySchool(db.installations, s), i);
    } else {
      assert forall j :: j in db.installations && db.installations[j].school == s ==> !Goes(db, e, j);
      assert BytesBySchool(after, s) == BytesBySchool(db.installations, s);
      assert RecordsBySchool(after, s) == RecordsBySchool(db.installations, s);
    }
  }

  lemma InstallationsStayExact(db: Db, e: Id, seen: map<Id, Usage>, i: Id)
    requires Conserved(db) && i in Purged(db, e, seen).installations
    ensures InstallationExact(Purged(db, e, seen), i)
  {
    assert InstallationExact(db, i);
    assert RecordBytes(Purged(db, e, seen).records, i) == RecordBytes(db.records, i);
  }

  lemma SchoolExactIff(db: Db, e: Id, seen: map<Id, Usage>, s: Id)
    requires Linked(db) && Conserved(db) && s in db.schools
    ensures SchoolExact(Purged(db, e, seen), s) <==> GivenBack(db, seen, s) == Holds(db, e, s)
  {
    assert SchoolExact(db, s);
    SchoolTotals(db, e, seen, s);
  }

  // The purge of an extension keeps the counters exact if and only if every school gives back what its
  // installation holds by then.
  lemma ExtensionPurgeConservesIff(cfg: Settings, db: Db, e: Id, seen: map<Id, Usage>)
    requires Consistent(cfg, db)
    ensures Conserved(Purged(db, e, seen)) <==>
      forall s :: s in db.schools ==> GivenBack(db, seen, s) == Holds(db, e, s)
  {
    var after := Purged(db, e, seen);
    forall i | i in after.installations ensures InstallationExact(after, i) {
      InstallationsStayExact(db, e, seen, i);
    }
    forall s | s in db.schools ensures SchoolExact(after, s) <==> GivenBack(db, seen, s) == Holds(db, e, s) {
      SchoolExactIff(db, e, seen, s);
    }
    assert after.schools.Keys == db.schools.Keys;
  }

  // A read that still stands when the transaction runs.
  ghost predicate SeenStands(db: Db, e: Id, seen: map<Id, Usage>) {
    forall s :: s in db.schools ==> (s in seen <==> HasOne(db, e, s)) && (s in seen ==> seen[s] == Holds(db, e, s))
  }

  // Such a read conserves: what an installation holds never exceeds what its school has.
  lemma StandingReadConserves(cfg: Settings, db: Db, e: Id, seen: map<Id, Usage>)
    requires Consistent(cfg, db) && SeenStands(db, e, seen)
    ensures Conserved(Purged(db, e, seen))
  {
    forall s | s in db.schools ensures GivenBack(db, seen, s) == Holds(db, e, s) {
      if HasOne(db, e, s) {
        var i :| Goes(db, e, i) && db.installations[i].school == s &&
          Holds(db, e, s) == Usage(db.installations[i].dataBytes, db.installations[i].dataRecords);
        DecrementsHit(cfg, db, i);
      }
    }
    ExtensionPurgeConservesIff(cfg, db, e, seen);
  }
}
