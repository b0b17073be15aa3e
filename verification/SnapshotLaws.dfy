// What the checks before a restore accept and reject, told row by row.
module SnapshotLaws {
  import opened Results
  import opened Backup

  // The rows of the declared models, one model after the other.
  function AllRows(p: Payload, models: seq<Model>): seq<SnapshotRow> {
    if models == [] then []
    else (if models[0] in p.data then p.data[models[0]] else []) + AllRows(p, models[1..])
  }

  lemma {:induction false} AllRowsSplit(p: Payload, a: seq<Model>, b: seq<Model>)
    ensures AllRows(p, a + b) == AllRows(p, a) + AllRows(p, b)
    decreases |a|
  {
    if a == [] {
      assert a + b == b;
    } else {
      assert (a + b)[1..] == a[1..] + b;
      AllRowsSplit(p, a[1..], b);
    }
  }

  lemma {:induction false} RowsAreCounted(p: Payload, models: seq<Model>)
    ensures CountRows(p, models) == |AllRows(p, models)|
    decreases |models|
  {
    if models != [] {
      var n := |models| - 1;
      RowsAreCounted(p, models[..n]);
      AllRowsSplit(p, models[..n], [models[n]]);
      assert models[..n] + [models[n]] == models && [models[n]][1..] == [];
    }
  }

  // ---------------------------------------------------------------- what acceptance means

  // The models of a backup.
  predicate BackedUp(m: Model) {
    m in {User, AuditCleanupSchedule, SiteSetting, Post, ExtensionVisibilityGrant, ExtensionInstallation,
          ExtensionPaymentEvidence, ExtensionPilotFeedback, ExtensionRecord}
  }

  lemma BackedUpIs(m: Model)
    ensures m in BACKUP_MODELS <==> BackedUp(m)
  {
    var l := BACKUP_MODELS;
    assert l[0] == User && l[1] == AuditCleanupSchedule && l[2] == SiteSetting && l[3] == Post;
    assert l[4] == ExtensionVisibilityGrant && l[5] == ExtensionInstallation && l[6] == ExtensionPaymentEvidence;
    assert l[7] == ExtensionPilotFeedback && l[8] == ExtensionRecord;
  }

  // A declared model that is not backed up, is missing, or has a row of another school.
  ghost predicate Defective(p: Payload, school: Id, k: nat)
    requires k < |p.models|
  {
    || !BackedUp(p.models[k]) || p.models[k] !in p.data
    || exists j :: 0 <= j < |p.data[p.models[k]]| && p.data[p.models[k]][j].school.Some?
         && p.data[p.models[k]][j].school.value != school
  }

  // A snapshot is rejected exactly for a version other than 2, data of a model that is not backed up, a
  // defective declared model, or more than a million rows.
  lemma VerifiedLaw(p: Payload, school: Id)
    ensures !Verified(p, school) <==>
      || p.version != 2
      || (exists m :: m in p.data && !BackedUp(m))
      || (exists k :: 0 <= k < |p.models| && Defective(p, school, k))
      || |AllRows(p, p.models)| > 1_000_000
  {
    RowsAreCounted(p, p.models);
    forall m ensures m in BACKUP_MODELS <==> BackedUp(m) { BackedUpIs(m); }
    forall k | 0 <= k < |p.models| ensures DeclaredWell(p, school, p.models[k]) <==> !Defective(p, school, k) {
      DefectiveIff(p, school, k);
    }
  }

  lemma DefectiveIff(p: Payload, school: Id, k: nat)
    requires k < |p.models|
    ensures DeclaredWell(p, school, p.models[k]) <==> !Defective(p, school, k)
  {
    BackedUpIs(p.models[k]);
    if p.models[k] in p.data {
      var rows := p.data[p.models[k]];
      if !OwnRows(rows, school) {
        var j :| 0 <= j < |rows| && rows[j].school !in {None, Some(school)};
        assert p.data[p.models[k]][j].school.Some?;
      }
    }
  }

  ghost predicate Orphaned(p: Payload, m: Model, k: nat)
    requires k < |RowsOf(p, m)|
  {
    forall i :: 0 <= i < |RowsOf(p, ExtensionInstallation)| ==>
      RowsOf(p, ExtensionInstallation)[i].id != RowsOf(p, m)[k].body.installation
  }

  // Any of the defects for which a snapshot or its references are rejected.
  ghost predicate Faulty(p: Payload, school: Id) {
    || p.version != 2 || (exists m :: m in p.data && !BackedUp(m))
    || (exists k :: 0 <= k < |p.models| && Defective(p, school, k))
    || |AllRows(p, p.models)| > 1_000_000
    || (exists m, k :: m in {ExtensionPaymentEvidence, ExtensionPilotFeedback, ExtensionRecord} &&
          0 <= k < |RowsOf(p, m)| && Orphaned(p, m, k))
    || (forall k :: 0 <= k < |RowsOf(p, User)| ==>
          RowsOf(p, User)[k].body.role != "ADMIN" && RowsOf(p, User)[k].body.role != "SUPER_ADMIN")
  }

  // Data of a model that the snapshot does not declare is not looked at, whoever's rows it has.
  lemma UndeclaredEscapes()
    ensures exists p, row :: Verified(p, 7) && Post in p.data && row in p.data[Post] && row.school == Some(9)
  {
    var row := SnapshotRow(1, Some(9), Body(0, "", 0, {}, ""));
    var p := Payload(2, [], map[Post := [row]]);
    BackedUpIs(Post);
    assert CountRows(p, []) == 0;
    assert row in p.data[Post] && Verified(p, 7);
  }

  // The references of a snapshot are rejected exactly for a child without its installation or for want of
  // an administrator.
  lemma ReferencesLaw(p: Payload)
    ensures !ReferencesVerified(p) <==>
      || (exists m, k :: m in {ExtensionPaymentEvidence, ExtensionPilotFeedback, ExtensionRecord} &&
            0 <= k < |RowsOf(p, m)| && Orphaned(p, m, k))
      || (forall k :: 0 <= k < |RowsOf(p, User)| ==>
            RowsOf(p, User)[k].body.role != "ADMIN" && RowsOf(p, User)[k].body.role != "SUPER_ADMIN")
  {
    forall m, k | 0 <= k < |RowsOf(p, m)| ensures InstallationIn(p, RowsOf(p, m)[k]) <==> !Orphaned(p, m, k) {
    }
    if exists m, k :: IsChild(m) && 0 <= k < |RowsOf(p, m)| && !InstallationIn(p, RowsOf(p, m)[k]) {
      var m, k :| IsChild(m) && 0 <= k < |RowsOf(p, m)| && !InstallationIn(p, RowsOf(p, m)[k]);
      assert Orphaned(p, m, k);
    }
  }

  // ---------------------------------------------------------------- the statements of a restore

  // Another row has a value that is unique everywhere, or one that is unique in a school and that school.
  ghost predicate TakenElsewhere(t: Table, id: Id, school: Id, body: Body) {
    exists other, text :: other in t && other != id &&
      (|| (Everywhere(text) in t[other].body.values && Everywhere(text) in body.values)
       || (t[other].school == school && PerSchool(text) in t[other].body.values && PerSchool(text) in body.values))
  }

  lemma ClashesIff(t: Table, id: Id, school: Id, body: Body)
    ensures Clashes(t, id, Row(school, body)) <==> TakenElsewhere(t, id, school, body)
  {
    var row := Row(school, body);
    if Clashes(t, id, row) {
      var other :| other in t && other != id && Collide(t[other], row);
      var v :| v in t[other].body.values && v in body.values && (v.Everywhere? || t[other].school == school);
      assert v.Everywhere? ==> Everywhere(v.text) == v;
      assert v.PerSchool? ==> PerSchool(v.text) == v;
    }
    if TakenElsewhere(t, id, school, body) {
      var other, text :| other in t && other != id &&
        (|| (Everywhere(text) in t[other].body.values && Everywhere(text) in body.values)
         || (t[other].school == school && PerSchool(text) in t[other].body.values && PerSchool(text) in body.values));
      if Everywhere(text) in t[other].body.values && Everywhere(text) in body.values {
        assert Everywhere(text).Everywhere?;
      }
      assert Collide(t[other], row);
    }
  }

  // A row is inserted unless its id is taken, a unique value of it is, or it refers to an installation
  // that is not there.
  lemma InsertionLaw(tables: Tables, school: Id, m: Model, row: SnapshotRow)
    ensures var r := CreateOne(tables, school, m, row);
      if m in tables && row.id in tables[m] then r == Err(IdTaken)
      else if m in tables && TakenElsewhere(tables[m], row.id, school, row.body) then r == Err(ValueTaken)
      else if m in {ExtensionPaymentEvidence, ExtensionPilotFeedback, ExtensionRecord} &&
        !(ExtensionInstallation in tables && row.body.installation in tables[ExtensionInstallation])
      then r == Err(MissingInstallation)
      else
        && r.Ok? && m in r.value
        && r.value[m] == (if m in tables then tables[m] else map[])[row.id := Row(school, row.body)]
        && r.value - {m} == tables - {m}
  {
    ClashesIff(At(tables, m), row.id, school, row.body);
    if CreateOne(tables, school, m, row).Ok? {
      assert tables[m := At(tables, m)[row.id := Row(school, row.body)]] - {m} == tables - {m};
    }
  }

  // A user is taken over with the snapshot's data, keeping a creation date that there was, unless a
  // unique value is another user's.
  lemma TakeOverLaw(tables: Tables, school: Id, row: SnapshotRow)
    requires User in tables
    ensures var (r, users) := (UpsertUser(tables, school, row), tables[User]);
      if TakenElsewhere(users, row.id, school, row.body) then r == Err(ValueTaken)
      else
        && r.Ok? && User in r.value && r.value - {User} == tables - {User}
        && r.value[User] - {row.id} == users - {row.id} && row.id in r.value[User]
        && r.value[User][row.id] == Row(school, Body(
             if row.id in users then users[row.id].body.createdAt else row.body.createdAt, row.body.role,
             row.body.installation, row.body.values, row.body.content))
  {
    var users := tables[User];
    var body := Upserted(users, school, row).body;
    ClashesIff(users, row.id, school, body);
    assert body.values == row.body.values;
    assert TakenElsewhere(users, row.id, school, body) <==> TakenElsewhere(users, row.id, school, row.body);
    if UpsertUser(tables, school, row).Ok? {
      assert tables[User := users[row.id := Row(school, body)]] - {User} == tables - {User};
      assert users[row.id := Row(school, body)] - {row.id} == users - {row.id};
    }
  }

  // A deletion takes the school's own rows of one model and nothing else.
  lemma DeletionLaw(tables: Tables, school: Id, m: Model)
    ensures var after := DeleteMany(tables, school, m);
      && m in after && after - {m} == tables - {m}
      && forall id :: id in after[m] <==> m in tables && id in tables[m] && tables[m][id].school != school
    ensures forall id :: m in tables && id in DeleteMany(tables, school, m)[m] && id in tables[m] ==>
      DeleteMany(tables, school, m)[m][id] == tables[m][id]
  {
    assert DeleteMany(tables, school, m) - {m} == tables - {m};
  }

  // What a restore empties: every restored model, reset links and sessions, and not the users.
  lemma OrdersLaw(m: Model)
    ensures m in DELETE_ORDER <==> (BackedUp(m) && m != User) || m in {PasswordResetToken, RefreshToken}
    ensures m in INSERT_ORDER <==> BackedUp(m) && m != User
  {
    var d, l := DELETE_ORDER, INSERT_ORDER;
    assert d[0] == ExtensionRecord && d[1] == ExtensionPilotFeedback && d[2] == ExtensionPaymentEvidence;
    assert d[3] == ExtensionInstallation && d[4] == ExtensionVisibilityGrant && d[5] == Post && d[6] == SiteSetting;
    assert d[7] == AuditCleanupSchedule && d[8] == PasswordResetToken && d[9] == RefreshToken;
    assert l[0] == AuditCleanupSchedule && l[1] == SiteSetting && l[2] == Post && l[3] == ExtensionVisibilityGrant;
    assert l[4] == ExtensionInstallation && l[5] == ExtensionPaymentEvidence && l[6] == ExtensionPilotFeedback;
    assert l[7] == ExtensionRecord;
  }
}
