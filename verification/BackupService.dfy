// The restore as the backup service performs it: checks, safety export, and one transaction of
// deletions, user updates and chunked insertions.
module BackupService {
  import opened Results
  import opened Backup
  import opened BackupUndo
  import opened SnapshotLaws

  // ---------------------------------------------------------------- checks

  lemma {:induction false} CountGrows(p: Payload, models: seq<Model>, k: nat)
    requires k <= |models|
    ensures CountRows(p, models[..k]) <= CountRows(p, models)
    decreases |models|
  {
    if k < |models| {
      assert models[..|models| - 1][..k] == models[..k];
      CountGrows(p, models[..|models| - 1], k);
    } else {
      assert models[..k] == models;
    }
  }

  lemma CountNext(p: Payload, models: seq<Model>, k: nat)
    requires k < |models|
    ensures CountRows(p, models[..k + 1]) == CountRows(p, models[..k]) + |RowsOf(p, models[k])|
  {
    assert models[..k + 1][..k] == models[..k];
  }

  lemma NextDeclaredWell(p: Payload, school: Id, i: nat)
    requires i < |p.models| && AllDeclaredWell(p, school, i) && DeclaredWell(p, school, p.models[i])
    ensures AllDeclaredWell(p, school, i + 1)
  {
  }

  method VerifyRows(rows: seq<SnapshotRow>, school: Id) returns (own: bool)
    ensures own <==> OwnRows(rows, school)
  {
    var j := 0;
    while j < |rows|
      invariant j <= |rows| && forall k :: 0 <= k < j ==> rows[k].school in {None, Some(school)}
    {
      if rows[j].school.Some? && rows[j].school.value != school {
        return false;
      }
      j := j + 1;
    }
    own := true;
  }

  method VerifyModel(p: Payload, school: Id, name: Model) returns (ok: bool)
    ensures ok <==> DeclaredWell(p, school, name)
  {
    if name !in BACKUP_MODELS || name !in p.data {
      return false;
    }
    ok := VerifyRows(p.data[name], school);
  }

  // The number of rows of an acceptable snapshot, or nothing.
  method VerifySnapshot(p: Payload, school: Id) returns (r: Option<nat>)
    ensures r.Some? <==> Verified(p, school)
    ensures r.Some? ==> r.value == |AllRows(p, p.models)|
    ensures
      || p.version != 2 || (exists m :: m in p.data && !BackedUp(m))
      || (exists k :: 0 <= k < |p.models| && Defective(p, school, k))
      || |AllRows(p, p.models)| > 1_000_000 ==>
      r == None
  {
    VerifiedLaw(p, school);
    RowsAreCounted(p, p.models);
    if p.version != 2 || exists m :: m in p.data && m !in BACKUP_MODELS {
      return None;
    }
    var rowCount, i := 0, 0;
    while i < |p.models|
      invariant i <= |p.models| && rowCount == CountRows(p, p.models[..i]) && rowCount <= MAX_ROWS
      invariant AllDeclaredWell(p, school, i)
    {
      var name := p.models[i];
      var ok := VerifyModel(p, school, name);
      if !ok {
        assert !AllDeclaredWell(p, school, |p.models|);
        return None;
      }
      NextDeclaredWell(p, school, i);
      CountNext(p, p.models, i);
      rowCount := rowCount + |p.data[name]|;
      if rowCount > MAX_ROWS {
        CountGrows(p, p.models, i + 1);
        return None;
      }
      i := i + 1;
    }
    assert p.models[..i] == p.models;
    r := Some(rowCount);
  }

  method VerifyRestoreReferences(p: Payload) returns (ok: bool)
    ensures ok <==> ReferencesVerified(p)
  {
    var children := [ExtensionPaymentEvidence, ExtensionPilotFeedback, ExtensionRecord];
    var i := 0;
    while i < |children|
      invariant i <= |children|
      invariant forall c :: 0 <= c < i ==>
        forall k {:trigger RowsOf(p, children[c])[k]} :: 0 <= k < |RowsOf(p, children[c])| ==>
          InstallationIn(p, RowsOf(p, children[c])[k])
    {
      var rows, j := RowsOf(p, children[i]), 0;
      while j < |rows|
        invariant j <= |rows| && forall k :: 0 <= k < j ==> InstallationIn(p, rows[k])
      {
        if !InstallationIn(p, rows[j]) {
          assert IsChild(children[i]) && !InstallationIn(p, RowsOf(p, children[i])[j]);
          return false;
        }
        j := j + 1;
      }
      i := i + 1;
    }
    assert forall m :: IsChild(m) ==> m == children[0] || m == children[1] || m == children[2];
    ok := exists k :: 0 <= k < |RowsOf(p, User)| && RowsOf(p, User)[k].body.role in {"ADMIN", "SUPER_ADMIN"};
  }

  // ---------------------------------------------------------------- chunks

  // Inserting in chunks is inserting all at once.
  lemma {:induction false} CreateManySplit(
      tables: Tables, school: Id, m: Model, a: seq<SnapshotRow>, b: seq<SnapshotRow>)
    ensures CreateMany(tables, school, m, a + b) ==
      match CreateMany(tables, school, m, a)
      case Err(e) => Err(e)
      case Ok(mid) => CreateMany(mid, school, m, b)
    decreases |a|
  {
    if a == [] {
      assert a + b == b;
    } else {
      assert (a + b)[1..] == a[1..] + b;
      var first := CreateOne(tables, school, m, a[0]);
      if first.Ok? { CreateManySplit(first.value, school, m, a[1..], b); }
    }
  }

  // ---------------------------------------------------------------- listing a table

  // The rows listed so far and those still to list make up the table.
  ghost predicate Listing(rows: seq<SnapshotRow>, todo: Table, own: Table, school: Id) {
    && DistinctIds(rows)
    && (forall k :: 0 <= k < |rows| ==> rows[k].school == Some(school) && rows[k].id !in todo)
    && (forall id :: id in todo ==> todo[id].school == school)
    && own == todo + TableOf(rows, school)
  }

  lemma ListingStep(rows: seq<SnapshotRow>, todo: Table, own: Table, school: Id, id: Id)
    requires Listing(rows, todo, own, school) && id in todo
    ensures Listing([SnapshotRow(id, Some(school), todo[id].body)] + rows, todo - {id}, own, school)
  {
    var row := SnapshotRow(id, Some(school), todo[id].body);
    assert ([row] + rows)[1..] == rows;
    TableKeys(rows, school, id);
    assert TableOf([row] + rows, school) == map[id := todo[id]] + TableOf(rows, school);
  }

  // ---------------------------------------------------------------- the service

  class Database {
    var tables: Tables
    // What was recorded before a restore request ran, by request.
    var safety: map<Id, Payload>

    constructor (initial: Tables)
      ensures tables == initial && safety == map[]
    {
      tables, safety := initial, map[];
    }

    function Contents(): Store
      reads this
    {
      Store(tables, safety)
    }

    method FindMany(school: Id, m: Model) returns (rows: seq<SnapshotRow>)
      ensures Lists(rows, At(tables, m), school)
    {
      var todo := Own(At(tables, m), school);
      ghost var own := todo;
      rows := [];
      while todo != map[]
        invariant Listing(rows, todo, own, school)
        decreases |todo|
      {
        var id :| id in todo;
        ListingStep(rows, todo, own, school, id);
        rows := [SnapshotRow(id, Some(school), todo[id].body)] + rows;
        todo := todo - {id};
      }
    }

    method ExportAll(school: Id) returns (p: Payload)
      ensures IsExport(tables, school, p)
    {
      var data: map<Model, seq<SnapshotRow>> := map[];
      var i := 0;
      while i < |BACKUP_MODELS|
        invariant i <= |BACKUP_MODELS|
        invariant forall m :: m in data <==> m in BACKUP_MODELS[..i]
        invariant forall m :: m in data ==> Lists(data[m], At(tables, m), school)
      {
        var rows := FindMany(school, BACKUP_MODELS[i]);
        data := data[BACKUP_MODELS[i] := rows];
        i := i + 1;
      }
      assert BACKUP_MODELS[..i] == BACKUP_MODELS;
      p := Payload(2, BACKUP_MODELS, data);
      forall m | m in BACKUP_MODELS ensures Lists(RowsOf(p, m), At(tables, m), school) { }
    }

    // The export recorded first for a request is kept when the request runs again.
    method PersistSafetyExport(school: Id, request: Id) returns (p: Payload)
      modifies this`safety
      ensures Recorded(old(Contents()), school, request, Contents()) && safety[request] == p
    {
      var snapshot := ExportAll(school);
      if request !in safety {
        safety := safety[request := snapshot];
      }
      p := safety[request];
    }

    method InsertModel(school: Id, m: Model, rows: seq<SnapshotRow>) returns (created: Result<nat, Failure>)
      modifies this`tables
      ensures match CreateMany(old(tables), school, m, rows) {
                case Err(e) => created == Err(e)
                case Ok(after) => created == Ok(|rows|) && tables == after
              }
    {
      ghost var before := tables;
      var offset := 0;
      assert rows[..0] == [];
      while offset < |rows|
        invariant offset <= |rows| && CreateMany(before, school, m, rows[..offset]) == Ok(tables)
      {
        var end := if offset + CHUNK_SIZE <= |rows| then offset + CHUNK_SIZE else |rows|;
        var chunk := rows[offset..end];
        CreateManySplit(before, school, m, rows[..offset], chunk);
        CreateManySplit(before, school, m, rows[..end], rows[end..]);
        assert rows[..offset] + chunk == rows[..end] && rows[..end] + rows[end..] == rows;
        var next := CreateMany(tables, school, m, chunk);
        if next.Err? {
          return Err(next.error);
        }
        tables := next.value;
        offset := end;
      }
      assert rows[..offset] == rows;
      created := Ok(|rows|);
    }

    method ClearSchool(school: Id)
      modifies this`tables
      ensures tables == Cleared(old(tables), school, DELETE_ORDER)
    {
      var i := 0;
      while i < |DELETE_ORDER|
        invariant i <= |DELETE_ORDER| && tables == Cleared(old(tables), school, DELETE_ORDER[..i])
      {
        assert DELETE_ORDER[..i + 1][..i] == DELETE_ORDER[..i];
        tables := DeleteMany(tables, school, DELETE_ORDER[i]);
        i := i + 1;
      }
      assert DELETE_ORDER[..i] == DELETE_ORDER;
    }

    method UpsertUsers(school: Id, rows: seq<SnapshotRow>) returns (r: Result<nat, Failure>)
      modifies this`tables
      ensures match WithUsers(old(tables), school, rows) {
                case Err(e) => r == Err(e)
                case Ok(after) => r == Ok(|rows|) && tables == after
              }
    {
      ghost var before := tables;
      var inserted := 0;
      while inserted < |rows|
        invariant inserted <= |rows| && WithUsers(before, school, rows[..inserted]) == Ok(tables)
      {
        assert rows[..inserted + 1][..inserted] == rows[..inserted];
        var next := UpsertUser(tables, school, rows[inserted]);
        if next.Err? {
          UserFailureStays(before, school, rows, inserted + 1, next.error);
          return Err(next.error);
        }
        tables := next.value;
        inserted := inserted + 1;
      }
      assert rows[..inserted] == rows;
      r := Ok(inserted);
    }

    method InsertModels(school: Id, p: Payload) returns (created: Result<nat, Failure>)
      modifies this`tables
      ensures match Inserted(old(tables), school, p, INSERT_ORDER) {
                case Err(e) => created == Err(e)
                case Ok(after) => created == Ok(CountRows(p, INSERT_ORDER)) && tables == after
              }
    {
      ghost var before := tables;
      var i, inserted := 0, 0;
      while i < |INSERT_ORDER|
        invariant i <= |INSERT_ORDER| && Inserted(before, school, p, INSERT_ORDER[..i]) == Ok(tables)
        invariant inserted == CountRows(p, INSERT_ORDER[..i])
      {
        var m := INSERT_ORDER[i];
        assert INSERT_ORDER[..i + 1][..i] == INSERT_ORDER[..i];
        var one := InsertModel(school, m, RowsOf(p, m));
        if one.Err? {
          FailureStays(before, school, p, INSERT_ORDER, i + 1, one.error);
          return Err(one.error);
        }
        inserted := inserted + one.value;
        i := i + 1;
      }
      assert INSERT_ORDER[..i] == INSERT_ORDER;
      created := Ok(inserted);
    }

    // One transaction, behind all checks and the safety export.
    method ExecuteRestore(school: Id, request: Id, p: Payload, catalogHasAll: bool) returns (r: Result<nat, Failure>)
      modifies this
      ensures !(Verified(p, school) && ReferencesVerified(p) && catalogHasAll) ==>
        r == Err(Rejected) && tables == old(tables) && safety == old(safety)
      ensures Faulty(p, school) || !catalogHasAll ==>
        r == Err(Rejected) && tables == old(tables) && safety == old(safety)
      ensures Verified(p, school) && ReferencesVerified(p) && catalogHasAll ==>
        && match Restored(old(tables), school, p) {
             case Err(e) => r == Err(e) && tables == old(tables)
             case Ok(after) => r == Ok(|RowsOf(p, User)| + CountRows(p, INSERT_ORDER)) && tables == after
           }
        && Recorded(old(Contents()), school, request, Store(old(tables), safety))
    {
      VerifiedLaw(p, school);
      ReferencesLaw(p);
      var report := VerifySnapshot(p, school);
      var references := VerifyRestoreReferences(p);
      if report.None? || !references || !catalogHasAll {
        return Err(Rejected);
      }
      var _ := PersistSafetyExport(school, request);
      r := Replace(school, p);
    }

    method Replace(school: Id, p: Payload) returns (r: Result<nat, Failure>)
      modifies this`tables
      ensures match Restored(old(tables), school, p) {
                case Err(e) => r == Err(e) && tables == old(tables)
                case Ok(after) => r == Ok(|RowsOf(p, User)| + CountRows(p, INSERT_ORDER)) && tables == after
              }
    {
      var before := tables;
      ClearSchool(school);
      var users := UpsertUsers(school, RowsOf(p, User));
      if users.Err? {
        tables := before;
        return Err(users.error);
      }
      var rows := InsertModels(school, p);
      if rows.Err? {
        tables := before;
        return Err(rows.error);
      }
      r := Ok(users.value + rows.value);
    }
  }

  lemma {:induction false} UserFailureStays(base: Tables, school: Id, rows: seq<SnapshotRow>, k: nat, e: Failure)
    requires 0 < k <= |rows| && WithUsers(base, school, rows[..k]) == Err(e)
    ensures WithUsers(base, school, rows) == Err(e)
    decreases |rows|
  {
    if k < |rows| {
      assert rows[..|rows| - 1][..k] == rows[..k];
      UserFailureStays(base, school, rows[..|rows| - 1], k, e);
    } else {
      assert rows[..k] == rows;
    }
  }

  lemma {:induction false} FailureStays(base: Tables, school: Id, p: Payload, order: seq<Model>, k: nat, e: Failure)
    requires 0 < k <= |order| && Inserted(base, school, p, order[..k]) == Err(e)
    ensures Inserted(base, school, p, order) == Err(e)
    decreases |order|
  {
    if k < |order| {
      assert order[..|order| - 1][..k] == order[..k];
      FailureStays(base, school, p, order[..|order| - 1], k, e);
    } else {
      assert order[..k] == order;
    }
  }
}
