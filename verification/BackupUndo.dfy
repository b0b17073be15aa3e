// Exports of a school, the checks they pass, and the export that undoes a restore.
module BackupUndo {
  import opened Results
  import opened Backup

  // ---------------------------------------------------------------- exports

  // The rows of one school's table, each once, in whatever order the database returns them.
  ghost predicate Lists(rows: seq<SnapshotRow>, t: Table, school: Id) {
    && DistinctIds(rows)
    && (forall k :: 0 <= k < |rows| ==> rows[k].school == Some(school))
    && TableOf(rows, school) == Own(t, school)
  }

  ghost predicate IsExport(tables: Tables, school: Id, p: Payload) {
    && p.version == 2 && p.models == BACKUP_MODELS
    && (forall m :: m in p.data <==> m in BACKUP_MODELS)
    && (forall m {:trigger RowsOf(p, m)} :: m in BACKUP_MODELS ==> Lists(RowsOf(p, m), At(tables, m), school))
  }

  lemma {:induction false} ListedRow(rows: seq<SnapshotRow>, school: Id, k: nat)
    requires DistinctIds(rows) && k < |rows|
    ensures rows[k].id in TableOf(rows, school) && TableOf(rows, school)[rows[k].id] == Row(school, rows[k].body)
  {
    if k > 0 {
      ListedRow(rows[1..], school, k - 1);
    } else {
      TableKeys(rows[1..], school, rows[0].id);
      assert forall i :: 0 <= i < |rows| - 1 ==> rows[1..][i] == rows[i + 1];
    }
  }

  ghost predicate HasAdmin(tables: Tables, school: Id) {
    exists id :: id in Own(At(tables, User), school) &&
      Own(At(tables, User), school)[id].body.role in {"ADMIN", "SUPER_ADMIN"}
  }

  // An export of a school with sound references passes the reference checks exactly when the school
  // has an administrator.
  lemma ExportVerifies(tables: Tables, school: Id, p: Payload)
    requires IsExport(tables, school, p) && Referenced(tables)
    ensures Verified(p, school) <==> CountRows(p, BACKUP_MODELS) <= MAX_ROWS
    ensures ReferencesVerified(p) <==> HasAdmin(tables, school)
  {
    forall m, k | IsChild(m) && 0 <= k < |RowsOf(p, m)| ensures InstallationIn(p, RowsOf(p, m)[k]) {
      ExportedReference(tables, school, p, m, k);
    }
    ExportedAdmin(tables, school, p);
    forall k | 0 <= k < |p.models| ensures DeclaredWell(p, school, p.models[k]) {
      assert Lists(RowsOf(p, p.models[k]), At(tables, p.models[k]), school);
    }
  }

  lemma ExportedReference(tables: Tables, school: Id, p: Payload, m: Model, k: nat)
    requires IsExport(tables, school, p) && Referenced(tables) && IsChild(m) && k < |RowsOf(p, m)|
    ensures InstallationIn(p, RowsOf(p, m)[k])
  {
    var rows, installations := RowsOf(p, m), RowsOf(p, ExtensionInstallation);
    assert m in BACKUP_MODELS;
    assert Lists(rows, At(tables, m), school) && Lists(installations, At(tables, ExtensionInstallation), school);
    ListedRow(rows, school, k);
    assert RowRefers(tables, m, rows[k].id);
    assert rows[k].body.installation in TableOf(installations, school);
    TableKeys(installations, school, rows[k].body.installation);
    var i :| 0 <= i < |installations| && installations[i].id == rows[k].body.installation;
    assert RowsOf(p, ExtensionInstallation)[i].id == rows[k].body.installation;
  }

  lemma ExportedAdmin(tables: Tables, school: Id, p: Payload)
    requires IsExport(tables, school, p)
    ensures HasAdmin(tables, school) <==>
      exists k :: 0 <= k < |RowsOf(p, User)| && RowsOf(p, User)[k].body.role in {"ADMIN", "SUPER_ADMIN"}
  {
    var users := RowsOf(p, User);
    assert Lists(users, At(tables, User), school);
    if HasAdmin(tables, school) {
      var id :| id in Own(At(tables, User), school) &&
        Own(At(tables, User), school)[id].body.role in {"ADMIN", "SUPER_ADMIN"};
      TableKeys(users, school, id);
      var k :| 0 <= k < |users| && users[k].id == id;
      ListedRow(users, school, k);
    }
    if exists k :: 0 <= k < |users| && users[k].body.role in {"ADMIN", "SUPER_ADMIN"} {
      var k :| 0 <= k < |users| && users[k].body.role in {"ADMIN", "SUPER_ADMIN"};
      ListedRow(users, school, k);
      assert users[k].id in Own(At(tables, User), school);
    }
  }

  lemma {:induction false} LastIsThere(rows: seq<SnapshotRow>, id: Id)
    requires Mentions(rows, id)
    ensures exists k :: 0 <= k < |rows| && rows[k].id == id && rows[k] == LastOf(rows, id)
  {
    MentionsSnoc(rows, id);
    var n := |rows| - 1;
    if rows[n].id != id {
      LastIsThere(rows[..n], id);
      var k :| 0 <= k < n && rows[..n][k].id == id && rows[..n][k] == LastOf(rows[..n], id);
      assert rows[k] == LastOf(rows, id);
    }
  }

  // ---------------------------------------------------------------- undoing a restore

  // The unique constraints of a model hold.
  ghost predicate Unique(t: Table) {
    forall a, b :: a in t && b in t && a != b ==> !Collide(t[a], t[b])
  }

  // Restoring the safety export undoes a restore, if it goes through: every restored model is as it was
  // before, for all schools, and so is every user the school had. It goes through exactly when each of
  // those users fits as it is taken over, for the users that the restore added are still there.
  lemma SafetyExportUndoes(tables: Tables, school: Id, p: Payload, safety: Payload)
    requires ReferencesVerified(p) && Restored(tables, school, p).Ok?
    requires IsExport(tables, school, safety) && ReferencesVerified(safety)
    requires forall m :: m in INSERT_ORDER ==> Unique(At(tables, m))
    ensures var mid := Restored(tables, school, p).value;
      var undone := Restored(mid, school, safety);
      && (undone.Ok? <==> UsersFit(At(mid, User), school, RowsOf(safety, User)))
      && (undone.Ok? ==>
            && (forall m :: m in INSERT_ORDER ==> At(undone.value, m) == At(tables, m))
            && (forall id :: id in Own(At(tables, User), school) ==>
                  id in At(undone.value, User) && At(undone.value, User)[id] == At(tables, User)[id]))
  {
    SafetyExportFits(tables, school, p, safety);
    var undone := Restored(Restored(tables, school, p).value, school, safety);
    if undone.Ok? {
      forall m | m in INSERT_ORDER ensures At(undone.value, m) == At(tables, m) {
        ModelUndone(tables, school, p, safety, m);
      }
      forall id | id in Own(At(tables, User), school)
        ensures id in At(undone.value, User) && At(undone.value, User)[id] == At(tables, User)[id] {
        UserUndone(tables, school, p, safety, id);
      }
    }
  }

  lemma SafetyExportFits(tables: Tables, school: Id, p: Payload, safety: Payload)
    requires ReferencesVerified(p) && Restored(tables, school, p).Ok?
    requires IsExport(tables, school, safety) && ReferencesVerified(safety)
    requires forall m :: m in INSERT_ORDER ==> Unique(At(tables, m))
    ensures var mid := Restored(tables, school, p).value;
      Restored(mid, school, safety).Ok? <==> UsersFit(At(mid, User), school, RowsOf(safety, User))
  {
    var mid := Restored(tables, school, p).value;
    forall m | m in INSERT_ORDER ensures ModelFits(mid, school, safety, m) {
      NothingForeign(tables, school, p, safety, m);
      ExportApart(tables, school, p, safety, m);
    }
    RestoreSucceedsIff(mid, school, safety);
  }

  lemma ExportApart(tables: Tables, school: Id, p: Payload, safety: Payload, m: Model)
    requires ReferencesVerified(p) && Restored(tables, school, p).Ok? && IsExport(tables, school, safety)
    requires m in INSERT_ORDER && Unique(At(tables, m))
    ensures Apart(RowsOf(safety, m), school)
    ensures Unclashing(Others(At(Restored(tables, school, p).value, m), school), RowsOf(safety, m), school)
  {
    InsertOrderParentsFirst();
    var rows, t := RowsOf(safety, m), At(tables, m);
    assert Lists(rows, t, school);
    RestoreGivesSnapshot(tables, school, p, m);
    forall k | 0 <= k < |rows| ensures rows[k].id in t && t[rows[k].id] == Row(school, rows[k].body) {
      ListedRow(rows, school, k);
      assert rows[k].id in Own(t, school);
    }
    forall i, j | 0 <= i < j < |rows| ensures !Collide(Row(school, rows[i].body), Row(school, rows[j].body)) {
      assert rows[i].id != rows[j].id;
    }
  }

  lemma ModelUndone(tables: Tables, school: Id, p: Payload, safety: Payload, m: Model)
    requires ReferencesVerified(p) && Restored(tables, school, p).Ok?
    requires IsExport(tables, school, safety) && ReferencesVerified(safety)
    requires Restored(Restored(tables, school, p).value, school, safety).Ok? && m in INSERT_ORDER
    ensures At(Restored(Restored(tables, school, p).value, school, safety).value, m) == At(tables, m)
  {
    InsertOrderParentsFirst();
    RestoreGivesSnapshot(tables, school, p, m);
    RestoreGivesSnapshot(Restored(tables, school, p).value, school, safety, m);
    assert Lists(RowsOf(safety, m), At(tables, m), school);
    OwnAndOthers(At(tables, m), school);
  }

  lemma OwnAndOthers(t: Table, school: Id)
    ensures Others(t, school) + Own(t, school) == t
  {
  }

  lemma NothingForeign(tables: Tables, school: Id, p: Payload, safety: Payload, m: Model)
    requires ReferencesVerified(p) && Restored(tables, school, p).Ok? && IsExport(tables, school, safety)
    requires m in INSERT_ORDER
    ensures DistinctIds(RowsOf(safety, m)) && !Foreign(Restored(tables, school, p).value, school, safety, m)
  {
    InsertOrderParentsFirst();
    var rows, mid := RowsOf(safety, m), Restored(tables, school, p).value;
    assert Lists(rows, At(tables, m), school);
    RestoreGivesSnapshot(tables, school, p, m);
    forall k | 0 <= k < |rows| ensures rows[k].id in At(mid, m) ==> At(mid, m)[rows[k].id].school == school {
      ListedRow(rows, school, k);
      assert rows[k].id in Own(At(tables, m), school);
      var id := rows[k].id;
      assert id in Others(At(mid, m), school) <==> id in Others(At(tables, m), school);
    }
  }

  lemma UserUndone(tables: Tables, school: Id, p: Payload, safety: Payload, id: Id)
    requires ReferencesVerified(p) && Restored(tables, school, p).Ok?
    requires IsExport(tables, school, safety) && ReferencesVerified(safety)
    requires Restored(Restored(tables, school, p).value, school, safety).Ok? && id in Own(At(tables, User), school)
    ensures var undone := Restored(Restored(tables, school, p).value, school, safety).value;
      id in At(undone, User) && At(undone, User)[id] == At(tables, User)[id]
  {
    var users, mid := RowsOf(safety, User), Restored(tables, school, p).value;
    assert User in BACKUP_MODELS;
    assert Lists(users, At(tables, User), school);
    TableKeys(users, school, id);
    LastIsThere(users, id);
    var k :| 0 <= k < |users| && users[k].id == id && users[k] == LastOf(users, id);
    ListedRow(users, school, k);
    RestoreKeepsUsers(tables, school, p, id);
    RestoreKeepsUsers(mid, school, safety, id);
  }

  // ---------------------------------------------------------------- an undo that does not go through

  function SomeUser(id: Id, role: string, email: string): SnapshotRow {
    SnapshotRow(id, Some(1), Body(0, role, 0, {PerSchool(email)}, ""))
  }

  function UsersOnly(users: seq<SnapshotRow>): Payload {
    Payload(2, BACKUP_MODELS, map m | m in BACKUP_MODELS :: if m == User then users else [])
  }

  function AdminA(): SnapshotRow {
    SomeUser(1, "ADMIN", "a")
  }

  // The administrator has another address, and a teacher has the one the administrator has now.
  function Changed(): seq<SnapshotRow> {
    [SomeUser(1, "ADMIN", "b"), SomeUser(2, "TEACHER", "a")]
  }

  function OneUser(): Tables {
    map[User := map[1 := Row(1, AdminA().body)]]
  }

  lemma NoRows(users: seq<SnapshotRow>, m: Model)
    requires m in INSERT_ORDER
    ensures RowsOf(UsersOnly(users), m) == [] && RowsOf(UsersOnly(users), User) == users
  {
    InsertOrderParentsFirst();
  }

  lemma UsersOnlyVerified(users: seq<SnapshotRow>)
    requires users != [] && users[0].body.role == "ADMIN"
    ensures ReferencesVerified(UsersOnly(users))
  {
    InsertOrderParentsFirst();
    assert RowsOf(UsersOnly(users), User)[0].body.role == "ADMIN";
    assert IsChild(ExtensionPaymentEvidence);
    forall m | IsChild(m) ensures RowsOf(UsersOnly(users), m) == [] { }
  }

  lemma ChangedFit()
    ensures UsersAfter(At(OneUser(), User), 1, Changed()) ==
      map[1 := Row(1, Changed()[0].body), 2 := Row(1, Changed()[1].body)]
    ensures UsersFit(At(OneUser(), User), 1, Changed())
  {
    var users, rows := At(OneUser(), User), Changed();
    assert rows[..2] == rows && rows[..1] == [rows[0]] && rows[..0] == [];
    assert [rows[0]][..0] == [];
    assert UsersAfter(users, 1, [rows[0]]) == map[1 := Row(1, rows[0].body)];
    assert UserFits(users, 1, rows, 0);
    assert UserFits(users, 1, rows, 1);
  }

  // Restoring that snapshot goes through, and then restoring the safety export does not.
  lemma UndoMayFail()
    ensures exists tables, p, safety ::
      && ReferencesVerified(p) && ReferencesVerified(safety) && IsExport(tables, 1, safety)
      && Restored(tables, 1, p).Ok? && Restored(Restored(tables, 1, p).value, 1, safety) == Err(ValueTaken)
  {
    var p, safety := UsersOnly(Changed()), UsersOnly([AdminA()]);
    InsertOrderParentsFirst();
    forall m | m in INSERT_ORDER ensures ModelFits(OneUser(), 1, p, m) && RowsOf(safety, m) == [] {
      NoRows(Changed(), m);
      NoRows([AdminA()], m);
    }
    UsersOnlyVerified(Changed());
    UsersOnlyVerified([AdminA()]);
    ChangedFit();
    RestoreSucceedsIff(OneUser(), 1, p);
    var mid := Restored(OneUser(), 1, p).value;
    AfterChange(mid);
    PreparedIff(mid, 1, safety);
    OneUserExported();
  }

  lemma AfterChange(mid: Tables)
    requires Restored(OneUser(), 1, UsersOnly(Changed())) == Ok(mid)
    ensures !UsersFit(At(mid, User), 1, RowsOf(UsersOnly([AdminA()]), User))
  {
    InsertOrderParentsFirst();
    UsersOnlyVerified(Changed());
    ChangedFit();
    PreparedIff(OneUser(), 1, UsersOnly(Changed()));
    InsertsIff(Prepared(OneUser(), 1, UsersOnly(Changed())).value, 1, UsersOnly(Changed()), INSERT_ORDER);
    var users, rows := At(mid, User), [AdminA()];
    assert users == map[1 := Row(1, Changed()[0].body), 2 := Row(1, Changed()[1].body)];
    assert rows[..0] == [] && PerSchool("a") in users[2].body.values;
    assert Collide(users[2], Upserted(users, 1, rows[0]));
    assert !UserFits(users, 1, rows, 0);
  }

  lemma OneRowListed(row: SnapshotRow, school: Id)
    requires row.school == Some(school)
    ensures Lists([row], map[row.id := Row(school, row.body)], school) && Lists([], map[], school)
  {
    var t: Table := map[row.id := Row(school, row.body)];
    assert [row][1..] == [] && TableOf([row], school) == t;
    assert Own(t, school) == t && Own(map[], school) == map[];
  }

  lemma OneUserExported()
    ensures IsExport(OneUser(), 1, UsersOnly([AdminA()]))
  {
    var p := UsersOnly([AdminA()]);
    OneRowListed(AdminA(), 1);
    UserRowsOnly([AdminA()]);
    assert At(OneUser(), User) == map[AdminA().id := Row(1, AdminA().body)];
    forall m | m in BACKUP_MODELS ensures Lists(RowsOf(p, m), At(OneUser(), m), 1) { }
  }

  lemma UserRowsOnly(users: seq<SnapshotRow>)
    ensures forall m :: m in BACKUP_MODELS ==> RowsOf(UsersOnly(users), m) == if m == User then users else []
  {
  }

  // ---------------------------------------------------------------- an export of earlier tables

  // Restoring an export that was read earlier, by a first execution of the request or before other
  // writes: if it goes through, a restored model is as it was before the restore exactly when the
  // school's rows were then as the export found them.
  lemma OlderExportUndoesIff(tables: Tables, school: Id, p: Payload, safety: Payload, m: Model, found: Table)
    requires ReferencesVerified(p) && Restored(tables, school, p).Ok?
    requires ReferencesVerified(safety) && Restored(Restored(tables, school, p).value, school, safety).Ok?
    requires m in INSERT_ORDER && Lists(RowsOf(safety, m), found, school)
    ensures var undone := Restored(Restored(tables, school, p).value, school, safety).value;
      && Own(At(undone, m), school) == Own(found, school)
      && (At(undone, m) == At(tables, m) <==> Own(At(tables, m), school) == Own(found, school))
  {
    InsertOrderParentsFirst();
    RestoreGivesSnapshot(tables, school, p, m);
    RestoreGivesSnapshot(Restored(tables, school, p).value, school, safety, m);
    OwnAndOthers(At(tables, m), school);
  }

  // The tables and the exports recorded beside them, by restore request.
  datatype Store = Store(tables: Tables, safety: map<Id, Payload>)

  // Recording an export for a request: the first one stays.
  ghost predicate Recorded(s: Store, school: Id, request: Id, t: Store) {
    && request in t.safety
    && (request in s.safety ==> t == s)
    && (request !in s.safety ==>
          && t == s.(safety := s.safety[request := t.safety[request]])
          && IsExport(s.tables, school, t.safety[request]))
  }

  function WithPost(): Tables {
    OneUser()[Post := map[5 := Row(1, Body(0, "", 0, {}, "news"))]]
  }

  ghost predicate HoldsOnly(p: Payload, row: SnapshotRow) {
    ReferencesVerified(p) && RowsOf(p, User) == [row] && forall m :: m in INSERT_ORDER ==> RowsOf(p, m) == []
  }

  lemma OneUserGoesThrough(tables: Tables, school: Id, p: Payload, row: SnapshotRow)
    requires HoldsOnly(p, row) && At(tables, User).Keys == {row.id}
    ensures Restored(tables, school, p).Ok?
  {
    OneUserFits(At(tables, User), school, row);
    forall m | m in INSERT_ORDER ensures ModelFits(tables, school, p, m) { }
    RestoreSucceedsIff(tables, school, p);
  }

  lemma OneUserStays(tables: Tables, school: Id, p: Payload, row: SnapshotRow)
    requires HoldsOnly(p, row) && At(tables, User) == map[row.id := Row(school, row.body)]
    requires Restored(tables, school, p).Ok?
    ensures At(Restored(tables, school, p).value, User) == At(tables, User)
  {
    assert [row][0].id == row.id;
    forall id ensures id in At(Restored(tables, school, p).value, User) <==> id == row.id {
      RestoreKeepsUsers(tables, school, p, id);
    }
    RestoreKeepsUsers(tables, school, p, row.id);
  }

  // A snapshot of one user and nothing else, restored over that user.
  lemma OneUserRestores(tables: Tables, school: Id, p: Payload, row: SnapshotRow)
    requires HoldsOnly(p, row) && At(tables, User) == map[row.id := Row(school, row.body)]
    ensures Restored(tables, school, p).Ok?
    ensures At(Restored(tables, school, p).value, User) == At(tables, User)
    ensures At(Restored(tables, school, p).value, Post) == Others(At(tables, Post), school)
  {
    OneUserGoesThrough(tables, school, p, row);
    OneUserStays(tables, school, p, row);
    PostIsRestored();
    RestoreGivesSnapshot(tables, school, p, Post);
    assert TableOf([], school) == map[];
  }

  lemma PostIsRestored()
    ensures Post in INSERT_ORDER
  {
    assert BACKUP_MODELS[3] == Post && INSERT_ORDER[2] == Post;
  }

  lemma OneUserFits(users: Table, school: Id, row: SnapshotRow)
    requires users.Keys == {row.id}
    ensures UsersFit(users, school, [row])
  {
    assert [row][..0] == [];
    assert UserFits(users, school, [row], 0);
  }

  // It happens: a request records its export and is executed again after a post was written. The first
  // export is kept, and restoring it gives back the school without the post.
  lemma SecondExecutionKeepsFirst(request: Id)
    ensures var p := UsersOnly([AdminA()]);
      var first := Store(OneUser(), map[request := p]);
      var again := first.(tables := WithPost());
      && Recorded(Store(OneUser(), map[]), 1, request, first) && Recorded(again, 1, request, again)
      && ReferencesVerified(p) && Restored(WithPost(), 1, p).Ok?
      && Restored(Restored(WithPost(), 1, p).value, 1, p).Ok?
      && At(Restored(Restored(WithPost(), 1, p).value, 1, p).value, Post) != At(WithPost(), Post)
  {
    var p := UsersOnly([AdminA()]);
    OneUserExported();
    UsersOnlyVerified([AdminA()]);
    PostIsRestored();
    forall m | m in INSERT_ORDER ensures RowsOf(p, m) == [] { NoRows([AdminA()], m); }
    NoRows([AdminA()], Post);
    PostGone(p, AdminA());
  }

  lemma PostGone(p: Payload, row: SnapshotRow)
    requires HoldsOnly(p, row)
    requires At(WithPost(), User) == map[row.id := Row(1, row.body)]
    ensures Restored(WithPost(), 1, p).Ok? && Restored(Restored(WithPost(), 1, p).value, 1, p).Ok?
    ensures At(Restored(Restored(WithPost(), 1, p).value, 1, p).value, Post) != At(WithPost(), Post)
  {
    OneUserRestores(WithPost(), 1, p, row);
    OneUserRestores(Restored(WithPost(), 1, p).value, 1, p, row);
    assert 5 in At(WithPost(), Post) && At(WithPost(), Post)[5].school == 1;
  }

  // ---------------------------------------------------------------- a user of another school

  // A snapshot whose one user has the id of a user of another school goes through, and the other school
  // loses that user.
  lemma UserTakenOver(tables: Tables, school: Id, other: Id, p: Payload, row: SnapshotRow, body: Body)
    requires HoldsOnly(p, row) && other != school && At(tables, User) == map[row.id := Row(other, body)]
    ensures Restored(tables, school, p).Ok? && Foreign(tables, school, p, User)
    ensures row.id in Own(At(tables, User), other)
    ensures row.id !in Own(At(Restored(tables, school, p).value, User), other)
  {
    OneUserGoesThrough(tables, school, p, row);
    assert RowsOf(p, User)[0].id == row.id;
    RestoreKeepsUsers(tables, school, p, row.id);
  }

  lemma ForeignUserHappens()
    ensures exists tables, p ::
      && ReferencesVerified(p) && Foreign(tables, 1, p, User) && Restored(tables, 1, p).Ok?
      && Others(At(Restored(tables, 1, p).value, User), 1) != Others(At(tables, User), 1)
  {
    var p := UsersOnly([AdminA()]);
    var tables: Tables := map[User := map[1 := Row(2, AdminA().body)]];
    UsersOnlyVerified([AdminA()]);
    PostIsRestored();
    forall m | m in INSERT_ORDER ensures RowsOf(p, m) == [] { NoRows([AdminA()], m); }
    NoRows([AdminA()], Post);
    UserTakenOver(tables, 1, 2, p, AdminA(), AdminA().body);
    OtherSchoolsUsersIff(tables, 1, p);
  }
}
