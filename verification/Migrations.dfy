// What declarative migrations mean: per record, per operation, and for a whole upgrade.
module Migrations {
  import opened Results
  import opened DataPlane
  import opened Conservation
  import opened DataPlaneRuns

  // ---------------------------------------------------------------- single operations

  function Fields(op: Operation): set<string> {
    match op
    case RenameField(_, from, to) => {from, to}
    case SetDefault(_, field, _) => {field}
    case RemoveField(_, field) => {field}
  }

  function Lookup(d: Data, f: string): Option<Json> {
    if f in d then Some(d[f]) else None
  }

  // Each operation field by field: a rename moves a value that is there and refuses to overwrite one,
  // a default fills in only what is missing, a removal leaves nothing, and no other field changes.
  lemma OperationByField(op: Operation, d: Data, f: string)
    ensures Operate(op, d).None? <==> op.RenameField? && op.from in d && op.to in d
    ensures Operate(op, d).Some? ==>
      var after := Lookup(Operate(op, d).value, f);
      && (f !in Fields(op) ==> after == Lookup(d, f))
      && (op.RenameField? && f == op.to && op.from in d ==> after == Lookup(d, op.from))
      && (op.RenameField? && f == op.from && op.from != op.to ==> after == None)
      && (op.SetDefault? && f == op.field ==> after == Some(if f in d then d[f] else op.value))
      && (op.RemoveField? && f == op.field ==> after == None)
  {
  }

  // A rename is undone by the opposite rename, whenever it took place.
  lemma RenameBack(resource: string, from: string, to: string, d: Data)
    requires from in d && Operate(RenameField(resource, from, to), d).Some?
    ensures Operate(RenameField(resource, to, from), Operate(RenameField(resource, from, to), d).value) == Some(d)
  {
    var renamed := d[to := d[from]] - {from};
    assert renamed[from := renamed[to]] - {to} == d;
  }

  // ---------------------------------------------------------------- sequences of operations

  // Two migrations in a row do what their operations do in a row.
  lemma {:induction false} FoldSplits(a: seq<Operation>, b: seq<Operation>, resource: string, d: Data)
    ensures Fold(a + b, resource, d) ==
      match Fold(a, resource, d)
      case None => None
      case Some(mid) => Fold(b, resource, mid)
    decreases |a|
  {
    if a == [] {
      assert a + b == b;
    } else {
      assert (a + b)[1..] == a[1..] + b;
      if a[0].resource != resource {
        FoldSplits(a[1..], b, resource, d);
      } else if Operate(a[0], d).Some? {
        FoldSplits(a[1..], b, resource, Operate(a[0], d).value);
      }
    }
  }

  // Fields that no operation for the resource names keep their values.
  lemma {:induction false} FoldKeepsOtherFields(ops: seq<Operation>, resource: string, d: Data, f: string)
    requires forall op :: op in ops && op.resource == resource ==> f !in Fields(op)
    requires Fold(ops, resource, d).Some?
    ensures Lookup(Fold(ops, resource, d).value, f) == Lookup(d, f)
    decreases |ops|
  {
    if ops != [] {
      if ops[0].resource != resource {
        FoldKeepsOtherFields(ops[1..], resource, d, f);
      } else {
        assert ops[0] in ops;
        OperationByField(ops[0], d, f);
        FoldKeepsOtherFields(ops[1..], resource, Operate(ops[0], d).value, f);
      }
    }
  }

  // ---------------------------------------------------------------- operation by operation

  // The data of a set of records, with the resource of each.
  type Documents = map<Id, (string, Data)>

  function Apply(op: Operation, doc: (string, Data)): Option<Data> {
    if op.resource == doc.0 then Operate(op, doc.1) else Some(doc.1)
  }

  // One operation on all records of its resource, as a single statement would do it.
  ghost function OnAll(op: Operation, docs: Documents): Option<Documents> {
    if exists id :: id in docs && Apply(op, docs[id]).None? then None
    else Some(map id | id in docs :: (docs[id].0, if Apply(op, docs[id]).Some? then Apply(op, docs[id]).value
      else docs[id].1))
  }

  ghost function OneByOne(ops: seq<Operation>, docs: Documents): Option<Documents>
    decreases |ops|
  {
    if ops == [] then Some(docs)
    else
      match OnAll(ops[0], docs)
      case None => None
      case Some(next) => OneByOne(ops[1..], next)
  }

  ghost predicate SomeClash(ops: seq<Operation>, docs: Documents) {
    exists id :: id in docs && Fold(ops, docs[id].0, docs[id].1).None?
  }

  ghost function EachFolded(ops: seq<Operation>, docs: Documents): Documents
    requires !SomeClash(ops, docs)
  {
    map id | id in docs :: (docs[id].0, Fold(ops, docs[id].0, docs[id].1).value)
  }

  lemma FoldFirst(ops: seq<Operation>, doc: (string, Data))
    requires ops != []
    ensures Fold(ops, doc.0, doc.1) ==
      match Apply(ops[0], doc)
      case None => None
      case Some(next) => Fold(ops[1..], doc.0, next)
  {
  }

  // Migrating record by record, as the loop does, is migrating operation by operation: it clashes in
  // the same cases and gives every record the same data.
  lemma {:induction false} RecordByRecord(ops: seq<Operation>, docs: Documents)
    ensures OneByOne(ops, docs) == if SomeClash(ops, docs) then None else Some(EachFolded(ops, docs))
    decreases |ops|
  {
    if ops == [] {
      assert EachFolded(ops, docs) == docs;
    } else {
      forall id | id in docs ensures Fold(ops, docs[id].0, docs[id].1) ==
          match Apply(ops[0], docs[id]) { case None => None case Some(next) => Fold(ops[1..], docs[id].0, next) } {
        FoldFirst(ops, docs[id]);
      }
      if OnAll(ops[0], docs).Some? {
        var next := OnAll(ops[0], docs).value;
        RecordByRecord(ops[1..], next);
        assert forall id :: id in docs ==> Fold(ops, docs[id].0, docs[id].1) == Fold(ops[1..], next[id].0, next[id].1);
        assert SomeClash(ops, docs) <==> SomeClash(ops[1..], next);
        if !SomeClash(ops, docs) {
          assert EachFolded(ops, docs) == EachFolded(ops[1..], next);
        }
      }
    }
  }

  // ---------------------------------------------------------------- a whole upgrade

  // The records of the installation in a resource that the migration names.
  predicate Named(db: Db, i: Id, m: Migration, id: Id)
    requires i in db.installations
  {
    id in db.records && db.records[id].installation == i && exists k ::
      0 <= k < |m.operations| && m.operations[k].resource == db.records[id].resource
  }

  ghost function DocumentsOf(db: Db, i: Id, m: Migration): Documents
    requires i in db.installations
  {
    map id | id in db.records && Named(db, i, m, id) :: (db.records[id].resource, db.records[id].data)
  }

  // What the migration leaves of a named record: the data it should have, sized and labelled, one
  // version on, and its old state in the backup.
  ghost predicate MigratedTo(cfg: Settings, m: Migration, before: Record, after: Record, data: Data) {
    && after.data == data && after.byteSize == cfg.jsonSize(data)
    && after.version == m.toVersion && after.schemaVersion == m.schemaVersion && after.updatedBy == m.actor
    && after.concurrencyVersion == before.concurrencyVersion + 1
    && after.school == before.school && after.extension == before.extension
    && after.installation == before.installation && after.resource == before.resource
  }

  lemma TargetsAreNamed(cfg: Settings, db: Db, i: Id, m: Migration)
    requires Consistent(cfg, db) && i in db.installations
    ensures forall id :: id in Targets(db, i, m) <==> Named(db, i, m, id)
    ensures Clashes(db, m, Targets(db, i, m)) <==> SomeClash(m.operations, DocumentsOf(db, i, m))
  {
    TargetsAreOwned(cfg, db, i, m);
    forall id ensures id in Targets(db, i, m) <==> Named(db, i, m, id) {
      if id in db.records {
        assert db.records[id].resource in Resources(m.operations) <==>
          exists k :: 0 <= k < |m.operations| && m.operations[k].resource == db.records[id].resource;
      }
    }
    var docs := DocumentsOf(db, i, m);
    if Clashes(db, m, Targets(db, i, m)) {
      var id :| id in Targets(db, i, m) && Fold(m.operations, db.records[id].resource, db.records[id].data).None?;
      assert id in docs && Fold(m.operations, docs[id].0, docs[id].1).None?;
    }
    if SomeClash(m.operations, docs) {
      var id :| id in docs && Fold(m.operations, docs[id].0, docs[id].1).None?;
      assert id in Targets(db, i, m);
    }
  }

  // A migration is refused on a clash, whatever the quotas, and otherwise only by a quota.
  lemma MigrationFailsOn(cfg: Settings, db: Db, i: Id, run: Id, m: Migration)
    requires Consistent(cfg, db) && MayMigrate(db, i, run)
    ensures var result := Migrate(cfg, db, i, run, m);
      && (OneByOne(m.operations, DocumentsOf(db, i, m)).None? <==> result == Err(RenameClash))
      && (result.Err? ==> result.error in {RenameClash, InstallationQuota, SchoolQuota})
  {
    TargetsAreNamed(cfg, db, i, m);
    RecordByRecord(m.operations, DocumentsOf(db, i, m));
  }

  // One that succeeds installs the version and backs up the named records, as they were.
  lemma MigrationInstalls(cfg: Settings, db: Db, i: Id, run: Id, m: Migration)
    requires Consistent(cfg, db) && MayMigrate(db, i, run) && Migrate(cfg, db, i, run, m).Ok?
    ensures var after := Migrate(cfg, db, i, run, m).value;
      && after.records.Keys == db.records.Keys
      && after.installations[i].version == m.toVersion
      && after.installations[i].rollbackVersion == Some(db.installations[i].version)
      && after.runs[run].status == Applied
      && after.runs[run].backups == BackupsOf(db.records, DocumentsOf(db, i, m).Keys)
  {
    TargetsAreNamed(cfg, db, i, m);
    MigratedState(cfg, db, i, run, m);
    assert Targets(db, i, m) == DocumentsOf(db, i, m).Keys;
  }

  // Each record in a named resource gets what the operations, one after the other, make of it; every
  // other record stays as it is.
  lemma MigrationOfRecord(cfg: Settings, db: Db, i: Id, run: Id, m: Migration, id: Id)
    requires Consistent(cfg, db) && MayMigrate(db, i, run) && Migrate(cfg, db, i, run, m).Ok? && id in db.records
    ensures var docs := OneByOne(m.operations, DocumentsOf(db, i, m));
      var after := Migrate(cfg, db, i, run, m).value.records;
      docs.Some? && id in after &&
      if Named(db, i, m, id) then id in docs.value && MigratedTo(cfg, m, db.records[id], after[id], docs.value[id].1)
      else after[id] == db.records[id]
  {
    TargetsAreNamed(cfg, db, i, m);
    RecordByRecord(m.operations, DocumentsOf(db, i, m));
    MigratedState(cfg, db, i, run, m);
  }
}
