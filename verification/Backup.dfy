// School snapshots: what a restore does to the tables, statement by statement, and what it leaves.
module Backup {
  import opened Results

  type Id = nat

  datatype Model =
    | User | AuditCleanupSchedule | SiteSetting | Post | ExtensionVisibilityGrant
    | ExtensionInstallation | ExtensionPaymentEvidence | ExtensionPilotFeedback | ExtensionRecord
    | PasswordResetToken | RefreshToken
    | Unknown(name: string)

  // What the unique constraints of its model, other than that on the id, make of a row: a value that no
  // other row of the school, or no other row at all, may have.
  datatype Value = PerSchool(text: string) | Everywhere(text: string)

  // The columns of a row that matter here; installation refers to an ExtensionInstallation where the
  // model is one of its children.
  datatype Body = Body(createdAt: int, role: string, installation: Id, values: set<Value>, content: string)

  datatype Row = Row(school: Id, body: Body)

  type Table = map<Id, Row>

  type Tables = map<Model, Table>

  datatype SnapshotRow = SnapshotRow(id: Id, school: Option<Id>, body: Body)

  datatype Payload = Payload(version: int, models: seq<Model>, data: map<Model, seq<SnapshotRow>>)

  datatype Failure = Rejected | IdTaken | ValueTaken | MissingInstallation

  const BACKUP_MODELS: seq<Model> := [
    User, AuditCleanupSchedule, SiteSetting, Post, ExtensionVisibilityGrant,
    ExtensionInstallation, ExtensionPaymentEvidence, ExtensionPilotFeedback, ExtensionRecord]

  const DELETE_ORDER: seq<Model> := [
    ExtensionRecord, ExtensionPilotFeedback, ExtensionPaymentEvidence, ExtensionInstallation,
    ExtensionVisibilityGrant, Post, SiteSetting, AuditCleanupSchedule, PasswordResetToken,
    RefreshToken]

  const INSERT_ORDER: seq<Model> := BACKUP_MODELS[1..]

  const CHUNK_SIZE: nat := 250

  const MAX_ROWS: nat := 1_000_000

  function At(tables: Tables, m: Model): Table {
    if m in tables then tables[m] else map[]
  }

  function RowsOf(p: Payload, m: Model): seq<SnapshotRow> {
    if m in p.data then p.data[m] else []
  }

  predicate IsChild(m: Model) {
    m in {ExtensionPaymentEvidence, ExtensionPilotFeedback, ExtensionRecord}
  }

  // ---------------------------------------------------------------- checks before a restore

  predicate OwnRows(rows: seq<SnapshotRow>, school: Id) {
    forall k :: 0 <= k < |rows| ==> rows[k].school in {None, Some(school)}
  }

  function CountRows(p: Payload, models: seq<Model>): nat {
    if models == [] then 0 else CountRows(p, models[..|models| - 1]) + |RowsOf(p, models[|models| - 1])|
  }

  // A declared model that the data does not hold is not an array.
  predicate DeclaredWell(p: Payload, school: Id, m: Model) {
    m in BACKUP_MODELS && m in p.data && OwnRows(p.data[m], school)
  }

  predicate AllDeclaredWell(p: Payload, school: Id, n: nat)
    requires n <= |p.models|
  {
    forall k :: 0 <= k < n ==> DeclaredWell(p, school, p.models[k])
  }

  ghost predicate Verified(p: Payload, school: Id) {
    && p.version == 2
    && (forall m :: m in p.data ==> m in BACKUP_MODELS)
    && AllDeclaredWell(p, school, |p.models|)
    && CountRows(p, p.models) <= MAX_ROWS
  }

  predicate InstallationIn(p: Payload, row: SnapshotRow) {
    exists k :: 0 <= k < |RowsOf(p, ExtensionInstallation)| &&
      RowsOf(p, ExtensionInstallation)[k].id == row.body.installation
  }

  ghost predicate ReferencesVerified(p: Payload) {
    && (forall m, k {:trigger RowsOf(p, m)[k]} :: IsChild(m) && 0 <= k < |RowsOf(p, m)| ==>
      InstallationIn(p, RowsOf(p, m)[k]))
    && (exists k :: 0 <= k < |RowsOf(p, User)| && RowsOf(p, User)[k].body.role in {"ADMIN", "SUPER_ADMIN"})
  }

  // ---------------------------------------------------------------- statements

  function Others(t: Table, school: Id): Table {
    map id | id in t && t[id].school != school :: t[id]
  }

  function Own(t: Table, school: Id): Table {
    map id | id in t && t[id].school == school :: t[id]
  }

  function DeleteMany(tables: Tables, school: Id, m: Model): Tables {
    tables[m := Others(At(tables, m), school)]
  }

  predicate Collide(a: Row, b: Row) {
    exists v :: v in a.body.values && v in b.body.values && (v.Everywhere? || a.school == b.school)
  }

  predicate Clashes(t: Table, id: Id, row: Row) {
    exists other :: other in t && other != id && Collide(t[other], row)
  }

  // An existing user, of whichever school, keeps its id and creation date and moves to this school.
  function Upserted(users: Table, school: Id, row: SnapshotRow): Row {
    Row(school, if row.id in users then row.body.(createdAt := users[row.id].body.createdAt) else row.body)
  }

  function UpsertUser(tables: Tables, school: Id, row: SnapshotRow): Result<Tables, Failure> {
    var users := At(tables, User);
    var user := Upserted(users, school, row);
    if Clashes(users, row.id, user) then Err(ValueTaken) else Ok(tables[User := users[row.id := user]])
  }

  function CreateOne(tables: Tables, school: Id, m: Model, row: SnapshotRow): Result<Tables, Failure> {
    if row.id in At(tables, m) then Err(IdTaken)
    else if Clashes(At(tables, m), row.id, Row(school, row.body)) then Err(ValueTaken)
    else if IsChild(m) && row.body.installation !in At(tables, ExtensionInstallation) then Err(MissingInstallation)
    else Ok(tables[m := At(tables, m)[row.id := Row(school, row.body)]])
  }

  function CreateMany(tables: Tables, school: Id, m: Model, rows: seq<SnapshotRow>): Result<Tables, Failure>
    decreases |rows|
  {
    if rows == [] then Ok(tables)
    else
      match CreateOne(tables, school, m, rows[0])
      case Err(e) => Err(e)
      case Ok(next) => CreateMany(next, school, m, rows[1..])
  }

  // ---------------------------------------------------------------- the restore

  function Cleared(tables: Tables, school: Id, order: seq<Model>): Tables {
    if order == [] then tables
    else DeleteMany(Cleared(tables, school, order[..|order| - 1]), school, order[|order| - 1])
  }

  function WithUsers(tables: Tables, school: Id, rows: seq<SnapshotRow>): Result<Tables, Failure> {
    if rows == [] then Ok(tables)
    else
      match WithUsers(tables, school, rows[..|rows| - 1])
      case Err(e) => Err(e)
      case Ok(mid) => UpsertUser(mid, school, rows[|rows| - 1])
  }

  function Inserted(tables: Tables, school: Id, p: Payload, order: seq<Model>): Result<Tables, Failure> {
    if order == [] then Ok(tables)
    else
      match Inserted(tables, school, p, order[..|order| - 1])
      case Err(e) => Err(e)
      case Ok(mid) => CreateMany(mid, school, order[|order| - 1], RowsOf(p, order[|order| - 1]))
  }

  function Prepared(tables: Tables, school: Id, p: Payload): Result<Tables, Failure> {
    WithUsers(Cleared(tables, school, DELETE_ORDER), school, RowsOf(p, User))
  }

  function Restored(tables: Tables, school: Id, p: Payload): Result<Tables, Failure> {
    match Prepared(tables, school, p)
    case Err(e) => Err(e)
    case Ok(base) => Inserted(base, school, p, INSERT_ORDER)
  }

  // ---------------------------------------------------------------- what each stage leaves

  lemma {:induction false} ClearedTable(tables: Tables, school: Id, order: seq<Model>, m: Model)
    ensures At(Cleared(tables, school, order), m) == if m in order then Others(At(tables, m), school) else At(tables, m)
  {
    if order != [] {
      var n := |order| - 1;
      ClearedTable(tables, school, order[..n], m);
      assert order == order[..n] + [order[n]];
      assert Others(Others(At(tables, m), school), school) == Others(At(tables, m), school);
    }
  }

  // The users after all updates, if none is refused.
  function UsersAfter(users: Table, school: Id, rows: seq<SnapshotRow>): Table {
    if rows == [] then users
    else
      var n := |rows| - 1;
      var mid := UsersAfter(users, school, rows[..n]);
      mid[rows[n].id := Upserted(mid, school, rows[n])]
  }

  // The k-th user of the snapshot, as it is by then, has no value of another user.
  predicate UserFits(users: Table, school: Id, rows: seq<SnapshotRow>, k: nat)
    requires k < |rows|
  {
    var mid := UsersAfter(users, school, rows[..k]);
    !Clashes(mid, rows[k].id, Upserted(mid, school, rows[k]))
  }

  predicate UsersFit(users: Table, school: Id, rows: seq<SnapshotRow>) {
    forall k :: 0 <= k < |rows| ==> UserFits(users, school, rows, k)
  }

  lemma UserFitsPrefix(users: Table, school: Id, rows: seq<SnapshotRow>, n: nat, k: nat)
    requires k < n <= |rows|
    ensures UserFits(users, school, rows[..n], k) == UserFits(users, school, rows, k)
  {
    assert rows[..n][..k] == rows[..k];
  }

  // The users are taken over exactly when each fits, and then nothing but the users changes.
  lemma {:induction false} WithUsersIff(tables: Tables, school: Id, rows: seq<SnapshotRow>)
    ensures var r := WithUsers(tables, school, rows);
      if UsersFit(At(tables, User), school, rows)
      then r.Ok? && At(r.value, User) == UsersAfter(At(tables, User), school, rows)
           && forall m :: m != User ==> At(r.value, m) == At(tables, m)
      else r == Err(ValueTaken)
  {
    if rows != [] {
      var n := |rows| - 1;
      var users := At(tables, User);
      WithUsersIff(tables, school, rows[..n]);
      forall k | 0 <= k < n ensures UserFits(users, school, rows[..n], k) == UserFits(users, school, rows, k) {
        UserFitsPrefix(users, school, rows, n, k);
      }
      assert UsersFit(users, school, rows) <==> UsersFit(users, school, rows[..n]) && UserFits(users, school, rows, n);
    }
  }

  predicate Mentions(rows: seq<SnapshotRow>, id: Id) {
    exists k :: 0 <= k < |rows| && rows[k].id == id
  }

  lemma MentionsSnoc(rows: seq<SnapshotRow>, id: Id)
    requires rows != []
    ensures Mentions(rows, id) <==> Mentions(rows[..|rows| - 1], id) || rows[|rows| - 1].id == id
  {
  }

  // The last row of a user in the snapshot is the one that counts.
  function LastOf(rows: seq<SnapshotRow>, id: Id): SnapshotRow
    requires Mentions(rows, id)
  {
    MentionsSnoc(rows, id);
    if rows[|rows| - 1].id == id then rows[|rows| - 1] else LastOf(rows[..|rows| - 1], id)
  }

  // Every user of the snapshot is there as the snapshot has it, apart from a creation date that was
  // there before; every other user is as before.
  lemma {:induction false} UsersRestored(before: Table, school: Id, rows: seq<SnapshotRow>, id: Id)
    ensures var after := UsersAfter(before, school, rows);
      if !Mentions(rows, id) then (id in after <==> id in before) && (id in before ==> after[id] == before[id])
      else
        var row := LastOf(rows, id);
        && id in after && after[id].school == school
        && after[id].body == row.body.(createdAt := after[id].body.createdAt)
        && (id in before ==> after[id].body.createdAt == before[id].body.createdAt)
  {
    if rows != [] {
      MentionsSnoc(rows, id);
      UsersRestored(before, school, rows[..|rows| - 1], id);
    }
  }

  // What the values of a user are held against, told from the table before and the rows alone: the last
  // earlier row of every other user that has one, and every other user as it was before.
  ghost predicate ValueTakenBy(users: Table, school: Id, rows: seq<SnapshotRow>, k: nat, id: Id)
    requires k < |rows|
  {
    && id != rows[k].id
    && if Mentions(rows[..k], id) then Collide(Row(school, LastOf(rows[..k], id).body), Row(school, rows[k].body))
      else id in users && Collide(users[id], Row(school, rows[k].body))
  }

  ghost predicate NoneTaken(users: Table, school: Id, rows: seq<SnapshotRow>, k: nat)
    requires k < |rows|
  {
    forall id :: !ValueTakenBy(users, school, rows, k, id)
  }

  lemma CollideByValues(a: Row, b: Row, c: Row, d: Row)
    requires a.school == c.school && b.school == d.school
    requires a.body.values == c.body.values && b.body.values == d.body.values
    ensures Collide(a, b) <==> Collide(c, d)
  {
  }

  lemma UserFitsIff(users: Table, school: Id, rows: seq<SnapshotRow>, k: nat)
    requires k < |rows|
    ensures UserFits(users, school, rows, k) <==> NoneTaken(users, school, rows, k)
  {
    var mid := UsersAfter(users, school, rows[..k]);
    var user, written := Upserted(mid, school, rows[k]), Row(school, rows[k].body);
    forall id ensures ValueTakenBy(users, school, rows, k, id) <==>
        id in mid && id != rows[k].id && Collide(mid[id], user) {
      UsersRestored(users, school, rows[..k], id);
      if Mentions(rows[..k], id) {
        CollideByValues(mid[id], user, Row(school, LastOf(rows[..k], id).body), written);
      } else if id in users {
        CollideByValues(mid[id], user, users[id], written);
      }
    }
  }

  // So the users fit exactly when no value is taken, of which a caller can judge before the restore.
  lemma UsersFitIff(users: Table, school: Id, rows: seq<SnapshotRow>)
    ensures UsersFit(users, school, rows) <==> forall k :: 0 <= k < |rows| ==> NoneTaken(users, school, rows, k)
  {
    forall k | 0 <= k < |rows| ensures UserFits(users, school, rows, k) <==> NoneTaken(users, school, rows, k) {
      UserFitsIff(users, school, rows, k);
    }
  }

  // The rows of a model as a table, if no id occurs twice.
  predicate DistinctIds(rows: seq<SnapshotRow>) {
    forall i, j :: 0 <= i < j < |rows| ==> rows[i].id != rows[j].id
  }

  function TableOf(rows: seq<SnapshotRow>, school: Id): Table {
    if rows == [] then map[]
    else map[rows[0].id := Row(school, rows[0].body)] + TableOf(rows[1..], school)
  }

  lemma {:induction false} TableKeys(rows: seq<SnapshotRow>, school: Id, id: Id)
    ensures id in TableOf(rows, school) <==> Mentions(rows, id)
    ensures id in TableOf(rows, school) ==> TableOf(rows, school)[id].school == school
  {
    if rows != [] {
      TableKeys(rows[1..], school, id);
      if Mentions(rows, id) {
        var k :| 0 <= k < |rows| && rows[k].id == id;
        assert k > 0 ==> rows[1..][k - 1].id == id;
      }
      if Mentions(rows[1..], id) {
        var k :| 0 <= k < |rows| - 1 && rows[1..][k].id == id;
        assert rows[k + 1].id == id;
      }
      assert rows[0].id == id ==> Mentions(rows, id);
    } else {
      assert !Mentions(rows, id);
    }
  }

  // No two rows have a value that only one may have.
  predicate Apart(rows: seq<SnapshotRow>, school: Id) {
    forall i, j :: 0 <= i < j < |rows| ==> !Collide(Row(school, rows[i].body), Row(school, rows[j].body))
  }

  predicate Unclashing(t: Table, rows: seq<SnapshotRow>, school: Id) {
    forall k :: 0 <= k < |rows| ==> !Clashes(t, rows[k].id, Row(school, rows[k].body))
  }

  predicate NewIds(t: Table, rows: seq<SnapshotRow>) {
    DistinctIds(rows) && forall k :: 0 <= k < |rows| ==> rows[k].id !in t
  }

  // No id or unique value occurs twice or is taken, and every child finds its installation.
  predicate Fits(tables: Tables, school: Id, m: Model, rows: seq<SnapshotRow>) {
    && NewIds(At(tables, m), rows) && Apart(rows, school) && Unclashing(At(tables, m), rows, school)
    && (IsChild(m) ==> forall k :: 0 <= k < |rows| ==> rows[k].body.installation in At(tables, ExtensionInstallation))
  }

  lemma FirstJoins(t: Table, school: Id, rows: seq<SnapshotRow>)
    requires rows != [] && DistinctIds(rows)
    ensures t[rows[0].id := Row(school, rows[0].body)] + TableOf(rows[1..], school) == t + TableOf(rows, school)
  {
    TableKeys(rows[1..], school, rows[0].id);
    assert forall k :: 0 <= k < |rows| - 1 ==> rows[1..][k] == rows[k + 1];
  }

  lemma {:induction false} CreatesIff(tables: Tables, school: Id, m: Model, rows: seq<SnapshotRow>)
    ensures CreateMany(tables, school, m, rows).Ok? <==> Fits(tables, school, m, rows)
    decreases |rows|
  {
    if rows != [] {
      var first := CreateOne(tables, school, m, rows[0]);
      if first.Ok? {
        CreatesIff(first.value, school, m, rows[1..]);
        FitsStep(tables, school, m, rows);
      }
    }
  }

  lemma {:induction false} CreatesAll(tables: Tables, school: Id, m: Model, rows: seq<SnapshotRow>)
    requires Fits(tables, school, m, rows)
    ensures var r := CreateMany(tables, school, m, rows);
      && r.Ok?
      && At(r.value, m) == At(tables, m) + TableOf(rows, school)
      && forall other :: other != m ==> At(r.value, other) == At(tables, other)
    decreases |rows|
  {
    CreatesIff(tables, school, m, rows);
    if rows != [] {
      var next := CreateOne(tables, school, m, rows[0]).value;
      FitsStep(tables, school, m, rows);
      CreatesAll(next, school, m, rows[1..]);
      FirstJoins(At(tables, m), school, rows);
      assert At(next, m) == At(tables, m)[rows[0].id := Row(school, rows[0].body)];
    }
  }

  lemma ClashesWithNew(t: Table, first: Id, added: Row, id: Id, row: Row)
    requires first !in t && id != first
    ensures Clashes(t[first := added], id, row) <==> Clashes(t, id, row) || Collide(added, row)
  {
    var longer := t[first := added];
    if Clashes(t, id, row) {
      var other :| other in t && other != id && Collide(t[other], row);
      assert other in longer && longer[other] == t[other];
    }
    if Collide(added, row) {
      assert first in longer && longer[first] == added;
    }
  }

  lemma IdsStep(t: Table, rows: seq<SnapshotRow>, row: Row)
    requires rows != [] && rows[0].id !in t
    ensures NewIds(t, rows) <==> NewIds(t[rows[0].id := row], rows[1..])
    ensures NewIds(t, rows) ==> forall k :: 0 < k < |rows| ==> rows[k].id != rows[0].id
  {
    var tail := rows[1..];
    assert forall k :: 0 < k < |rows| ==> rows[k] == tail[k - 1];
    assert forall k :: 0 <= k < |tail| ==> tail[k] == rows[k + 1];
  }

  lemma FitsStep(tables: Tables, school: Id, m: Model, rows: seq<SnapshotRow>)
    requires rows != [] && CreateOne(tables, school, m, rows[0]).Ok?
    ensures Fits(tables, school, m, rows) <==> Fits(CreateOne(tables, school, m, rows[0]).value, school, m, rows[1..])
  {
    var t := At(tables, m);
    var next := CreateOne(tables, school, m, rows[0]).value;
    var added := Row(school, rows[0].body);
    assert At(next, m) == t[rows[0].id := added];
    IdsStep(t, rows, added);
    ValuesStep(t, school, rows);
    if IsChild(m) {
      assert At(next, ExtensionInstallation) == At(tables, ExtensionInstallation);
      ParentsStep(At(tables, ExtensionInstallation), rows);
    }
  }

  lemma ParentsStep(installations: Table, rows: seq<SnapshotRow>)
    requires rows != [] && rows[0].body.installation in installations
    ensures (forall k :: 0 <= k < |rows| ==> rows[k].body.installation in installations) <==>
      forall k :: 0 <= k < |rows[1..]| ==> rows[1..][k].body.installation in installations
  {
    var tail := rows[1..];
    assert forall k :: 0 < k < |rows| ==> rows[k] == tail[k - 1];
    assert forall k :: 0 <= k < |tail| ==> tail[k] == rows[k + 1];
  }

  lemma ValuesStep(t: Table, school: Id, rows: seq<SnapshotRow>)
    requires rows != [] && rows[0].id !in t && !Clashes(t, rows[0].id, Row(school, rows[0].body))
    ensures (forall k :: 0 < k < |rows| ==> rows[k].id != rows[0].id) ==>
      ((Apart(rows, school) && Unclashing(t, rows, school)) <==>
       (Apart(rows[1..], school) && Unclashing(t[rows[0].id := Row(school, rows[0].body)], rows[1..], school)))
  {
    var tail, added := rows[1..], Row(school, rows[0].body);
    assert forall k :: 0 < k < |rows| ==> rows[k] == tail[k - 1];
    assert forall k :: 0 <= k < |tail| ==> tail[k] == rows[k + 1];
    if forall k :: 0 < k < |rows| ==> rows[k].id != rows[0].id {
      forall k | 0 < k < |rows|
        ensures Clashes(t[rows[0].id := added], rows[k].id, Row(school, rows[k].body)) <==>
          Clashes(t, rows[k].id, Row(school, rows[k].body)) || Collide(added, Row(school, rows[k].body)) {
        ClashesWithNew(t, rows[0].id, added, rows[k].id, Row(school, rows[k].body));
      }
    }
  }

  // A unique constraint is in the way.
  predicate IsTaken(e: Failure) {
    e == IdTaken || e == ValueTaken
  }

  lemma {:induction false} OnlyTakenFails(tables: Tables, school: Id, m: Model, rows: seq<SnapshotRow>)
    requires IsChild(m) ==> forall k :: 0 <= k < |rows| ==>
      rows[k].body.installation in At(tables, ExtensionInstallation)
    ensures CreateMany(tables, school, m, rows).Err? ==> IsTaken(CreateMany(tables, school, m, rows).error)
    decreases |rows|
  {
    if rows != [] && CreateOne(tables, school, m, rows[0]).Ok? {
      var next := CreateOne(tables, school, m, rows[0]).value;
      assert forall k :: 0 < k < |rows| ==> rows[k] == rows[1..][k - 1];
      OnlyTakenFails(next, school, m, rows[1..]);
    }
  }

  // ---------------------------------------------------------------- the result of a restore

  // The ids and unique values of the snapshot are free once this school's own rows are gone.
  predicate Free(base: Tables, school: Id, p: Payload, m: Model) {
    && DistinctIds(RowsOf(p, m)) && Apart(RowsOf(p, m), school) && Unclashing(At(base, m), RowsOf(p, m), school)
    && forall k :: 0 <= k < |RowsOf(p, m)| ==> RowsOf(p, m)[k].id !in At(base, m)
  }

  // Installations come before the models that refer to them, and no model comes twice.
  predicate ParentsFirst(order: seq<Model>) {
    && (forall i, j :: 0 <= i < j < |order| ==> order[i] != order[j])
    && (forall i :: 0 <= i < |order| && IsChild(order[i]) ==> ExtensionInstallation in order[..i])
  }

  lemma InsertOrderParentsFirst()
    ensures ParentsFirst(INSERT_ORDER) && User !in INSERT_ORDER && forall m :: m in INSERT_ORDER ==> m in DELETE_ORDER
    ensures forall m :: m in BACKUP_MODELS <==> m == User || m in INSERT_ORDER
  {
    assert INSERT_ORDER == [AuditCleanupSchedule, SiteSetting, Post, ExtensionVisibilityGrant,
                           ExtensionInstallation, ExtensionPaymentEvidence, ExtensionPilotFeedback, ExtensionRecord];
    assert forall i :: 4 < i < |INSERT_ORDER| ==> INSERT_ORDER[..i][4] == ExtensionInstallation;
  }

  lemma ParentsFirstPrefix(order: seq<Model>)
    requires ParentsFirst(order) && order != []
    ensures var n := |order| - 1;
      && ParentsFirst(order[..n]) && order[n] !in order[..n]
      && (IsChild(order[n]) ==> ExtensionInstallation in order[..n])
      && order == order[..n] + [order[n]]
  {
    assert forall i :: 0 <= i < |order| - 1 ==> order[..|order| - 1][..i] == order[..i];
  }

  ghost predicate HasInserted(base: Tables, school: Id, p: Payload, order: seq<Model>, result: Tables) {
    forall m {:trigger At(result, m)} ::
      At(result, m) == if m in order then At(base, m) + TableOf(RowsOf(p, m), school) else At(base, m)
  }

  ghost predicate AllFree(base: Tables, school: Id, p: Payload, order: seq<Model>) {
    forall m {:trigger Free(base, school, p, m)} :: m in order ==> Free(base, school, p, m)
  }

  lemma {:induction false} InsertsIff(base: Tables, school: Id, p: Payload, order: seq<Model>)
    requires ReferencesVerified(p) && ParentsFirst(order)
    ensures var r := Inserted(base, school, p, order);
      if AllFree(base, school, p, order) then r.Ok? && HasInserted(base, school, p, order, r.value)
      else r.Err? && IsTaken(r.error)
  {
    if order != [] {
      var n := |order| - 1;
      var m := order[n];
      ParentsFirstPrefix(order);
      InsertsIff(base, school, p, order[..n]);
      assert AllFree(base, school, p, order) <==> AllFree(base, school, p, order[..n]) && Free(base, school, p, m);
      var before := Inserted(base, school, p, order[..n]);
      if before.Ok? {
        InsertsModel(base, school, p, order[..n], m, before.value);
      }
    }
  }

  lemma ParentsThere(base: Tables, school: Id, p: Payload, order: seq<Model>, m: Model, mid: Tables)
    requires ReferencesVerified(p) && HasInserted(base, school, p, order, mid)
    requires IsChild(m) && ExtensionInstallation in order
    ensures forall k :: 0 <= k < |RowsOf(p, m)| ==> RowsOf(p, m)[k].body.installation in At(mid, ExtensionInstallation)
  {
    var rows := RowsOf(p, m);
    forall k | 0 <= k < |rows| ensures rows[k].body.installation in At(mid, ExtensionInstallation) {
      assert InstallationIn(p, RowsOf(p, m)[k]);
      TableKeys(RowsOf(p, ExtensionInstallation), school, rows[k].body.installation);
      assert Mentions(RowsOf(p, ExtensionInstallation), rows[k].body.installation);
    }
  }

  lemma InsertsModel(base: Tables, school: Id, p: Payload, order: seq<Model>, m: Model, mid: Tables)
    requires ReferencesVerified(p) && HasInserted(base, school, p, order, mid)
    requires m !in order && (IsChild(m) ==> ExtensionInstallation in order)
    ensures var r := CreateMany(mid, school, m, RowsOf(p, m));
      if Free(base, school, p, m) then r.Ok? && HasInserted(base, school, p, order + [m], r.value)
      else r.Err? && IsTaken(r.error)
  {
    var rows := RowsOf(p, m);
    assert At(mid, m) == At(base, m);
    if IsChild(m) { ParentsThere(base, school, p, order, m, mid); }
    OnlyTakenFails(mid, school, m, rows);
    CreatesIff(mid, school, m, rows);
    assert Free(base, school, p, m) <==> Fits(mid, school, m, rows);
    if Fits(mid, school, m, rows) {
      CreatesAll(mid, school, m, rows);
    }
  }

  // Whether a snapshot uses an id, in one of the restored models, that another school's row has.
  predicate Foreign(tables: Tables, school: Id, p: Payload, m: Model) {
    exists k :: 0 <= k < |RowsOf(p, m)| && RowsOf(p, m)[k].id in At(tables, m) &&
      At(tables, m)[RowsOf(p, m)[k].id].school != school
  }

  // Whether a model can take the snapshot's rows: no id or unique value occurs twice, no id is another
  // school's, and no unique value is one of another school's rows.
  predicate ModelFits(tables: Tables, school: Id, p: Payload, m: Model) {
    && DistinctIds(RowsOf(p, m)) && Apart(RowsOf(p, m), school) && !Foreign(tables, school, p, m)
    && Unclashing(Others(At(tables, m), school), RowsOf(p, m), school)
  }

  // What the tables are before the insertions, if the users were taken over.
  lemma PreparedIff(tables: Tables, school: Id, p: Payload)
    ensures var r := Prepared(tables, school, p);
      if UsersFit(At(tables, User), school, RowsOf(p, User))
      then && r.Ok? && At(r.value, User) == UsersAfter(At(tables, User), school, RowsOf(p, User))
           && forall m :: m != User ==>
             At(r.value, m) == if m in DELETE_ORDER then Others(At(tables, m), school) else At(tables, m)
      else r == Err(ValueTaken)
  {
    var cleared := Cleared(tables, school, DELETE_ORDER);
    ClearedTable(tables, school, DELETE_ORDER, User);
    WithUsersIff(cleared, school, RowsOf(p, User));
    forall m ensures At(cleared, m) == if m in DELETE_ORDER then Others(At(tables, m), school) else At(tables, m) {
      ClearedTable(tables, school, DELETE_ORDER, m);
    }
  }

  // A restore of a snapshot with sound references succeeds exactly when every user fits as it is taken
  // over and every restored model can take the snapshot's rows; it never fails on a reference.
  lemma RestoreSucceedsIff(tables: Tables, school: Id, p: Payload)
    requires ReferencesVerified(p)
    ensures var r := Restored(tables, school, p);
      if UsersFit(At(tables, User), school, RowsOf(p, User)) && forall m :: m in INSERT_ORDER ==>
        ModelFits(tables, school, p, m)
      then r.Ok? else r.Err? && IsTaken(r.error)
  {
    InsertOrderParentsFirst();
    PreparedIff(tables, school, p);
    if Prepared(tables, school, p).Ok? {
      var base := Prepared(tables, school, p).value;
      InsertsIff(base, school, p, INSERT_ORDER);
      forall m | m in INSERT_ORDER ensures Free(base, school, p, m) <==> ModelFits(tables, school, p, m) {
        FreeIsFits(tables, base, school, p, m);
      }
    }
  }

  lemma FreeIsFits(tables: Tables, base: Tables, school: Id, p: Payload, m: Model)
    requires At(base, m) == Others(At(tables, m), school)
    ensures Free(base, school, p, m) <==> ModelFits(tables, school, p, m)
  {
  }

  // After a restore each restored model holds exactly the snapshot's rows for this school, and every
  // other school's rows are as before.
  lemma RestoreGivesSnapshot(tables: Tables, school: Id, p: Payload, m: Model)
    requires ReferencesVerified(p) && Restored(tables, school, p).Ok? && m in INSERT_ORDER
    ensures var after := At(Restored(tables, school, p).value, m);
      && DistinctIds(RowsOf(p, m))
      && Own(after, school) == TableOf(RowsOf(p, m), school)
      && Others(after, school) == Others(At(tables, m), school)
      && after == Others(At(tables, m), school) + TableOf(RowsOf(p, m), school)
  {
    InsertOrderParentsFirst();
    PreparedIff(tables, school, p);
    var base := Prepared(tables, school, p).value;
    InsertsIff(base, school, p, INSERT_ORDER);
    assert Free(base, school, p, m);
    Split(At(tables, m), RowsOf(p, m), school);
  }

  // The school's sessions and reset links are gone, and no other model is touched.
  lemma RestoreEndsSessions(tables: Tables, school: Id, p: Payload, m: Model)
    requires ReferencesVerified(p) && Restored(tables, school, p).Ok? && m !in BACKUP_MODELS
    ensures At(Restored(tables, school, p).value, m) ==
      if m in DELETE_ORDER then Others(At(tables, m), school) else At(tables, m)
  {
    InsertOrderParentsFirst();
    PreparedIff(tables, school, p);
    InsertsIff(Prepared(tables, school, p).value, school, p, INSERT_ORDER);
  }

  lemma Split(t: Table, rows: seq<SnapshotRow>, school: Id)
    requires forall k :: 0 <= k < |rows| ==> rows[k].id !in Others(t, school)
    ensures Own(Others(t, school) + TableOf(rows, school), school) == TableOf(rows, school)
    ensures Others(Others(t, school) + TableOf(rows, school), school) == Others(t, school)
  {
    forall id ensures id in TableOf(rows, school) ==>
      id !in Others(t, school) && TableOf(rows, school)[id].school == school {
      TableKeys(rows, school, id);
    }
  }

  // Users are updated or added, never deleted.
  lemma RestoreKeepsUsers(tables: Tables, school: Id, p: Payload, id: Id)
    requires ReferencesVerified(p) && Restored(tables, school, p).Ok?
    ensures var before, after := At(tables, User), At(Restored(tables, school, p).value, User);
      if !Mentions(RowsOf(p, User), id)
      then (id in after <==> id in before) && (id in before ==> after[id] == before[id])
      else
        var row := LastOf(RowsOf(p, User), id);
        && id in after && after[id].school == school
        && after[id].body == row.body.(createdAt := after[id].body.createdAt)
        && (id in before ==> after[id].body.createdAt == before[id].body.createdAt)
  {
    InsertOrderParentsFirst();
    PreparedIff(tables, school, p);
    InsertsIff(Prepared(tables, school, p).value, school, p, INSERT_ORDER);
    UsersRestored(At(tables, User), school, RowsOf(p, User), id);
  }

  // The users of other schools are as before exactly when the snapshot names none of them: a user of
  // another school whose id the snapshot has is moved to this school.
  lemma OtherSchoolsUsersIff(tables: Tables, school: Id, p: Payload)
    requires ReferencesVerified(p) && Restored(tables, school, p).Ok?
    ensures Others(At(Restored(tables, school, p).value, User), school) == Others(At(tables, User), school)
      <==> !Foreign(tables, school, p, User)
  {
    var before, after := At(tables, User), At(Restored(tables, school, p).value, User);
    var rows := RowsOf(p, User);
    forall id ensures id in Others(after, school) <==> id in Others(before, school) && !Mentions(rows, id) {
      RestoreKeepsUsers(tables, school, p, id);
    }
    forall id | id in Others(after, school) ensures after[id] == before[id] {
      RestoreKeepsUsers(tables, school, p, id);
    }
    if Foreign(tables, school, p, User) {
      var k :| 0 <= k < |rows| && rows[k].id in before && before[rows[k].id].school != school;
      assert Mentions(rows, rows[k].id) && rows[k].id in Others(before, school);
    } else {
      forall id | id in Others(before, school) ensures !Mentions(rows, id) { }
    }
  }

  // ---------------------------------------------------------------- references, statement by statement

  predicate RowRefers(tables: Tables, m: Model, id: Id) {
    IsChild(m) && id in At(tables, m) ==>
      var row := At(tables, m)[id];
      row.body.installation in At(tables, ExtensionInstallation) &&
      At(tables, ExtensionInstallation)[row.body.installation].school == row.school
  }

  // Every child of an installation finds it, in its own school.
  ghost predicate Referenced(tables: Tables) {
    forall m, id {:trigger RowRefers(tables, m, id)} :: RowRefers(tables, m, id)
  }

  // Children are deleted before what they refer to.
  ghost predicate ChildrenFirst(order: seq<Model>) {
    ExtensionInstallation in order ==> forall m :: IsChild(m) ==> m in order
  }

  lemma DeleteOrderChildrenFirst(k: nat)
    requires k <= |DELETE_ORDER|
    ensures ChildrenFirst(DELETE_ORDER[..k])
  {
    if ExtensionInstallation in DELETE_ORDER[..k] {
      assert k > 3;
      assert DELETE_ORDER[..k][0] == ExtensionRecord && DELETE_ORDER[..k][1] == ExtensionPilotFeedback;
      assert DELETE_ORDER[..k][2] == ExtensionPaymentEvidence;
    }
  }

  // No deletion on the way leaves a dangling reference.
  lemma ClearingKeepsReferences(tables: Tables, school: Id, k: nat)
    requires Referenced(tables) && k <= |DELETE_ORDER|
    ensures Referenced(Cleared(tables, school, DELETE_ORDER[..k]))
  {
    DeleteOrderChildrenFirst(k);
    var after := Cleared(tables, school, DELETE_ORDER[..k]);
    forall m, id ensures RowRefers(after, m, id) {
      assert RowRefers(tables, m, id);
      ClearedTable(tables, school, DELETE_ORDER[..k], m);
      ClearedTable(tables, school, DELETE_ORDER[..k], ExtensionInstallation);
    }
  }

  lemma UsersKeepReferences(tables: Tables, school: Id, rows: seq<SnapshotRow>)
    requires Referenced(tables) && WithUsers(tables, school, rows).Ok?
    ensures Referenced(WithUsers(tables, school, rows).value)
  {
    WithUsersIff(tables, school, rows);
    forall m, id ensures RowRefers(WithUsers(tables, school, rows).value, m, id) {
      assert RowRefers(tables, m, id);
    }
  }

  // All of this school's installations that a batch of rows refers to.
  predicate RefersToOwn(tables: Tables, school: Id, m: Model, rows: seq<SnapshotRow>) {
    IsChild(m) ==>
      forall k :: 0 <= k < |rows| ==>
        rows[k].body.installation in At(tables, ExtensionInstallation) &&
        At(tables, ExtensionInstallation)[rows[k].body.installation].school == school
  }

  // Nor does any row that is inserted, wherever the batch stops.
  lemma {:induction false} CreatingKeepsReferences(tables: Tables, school: Id, m: Model, rows: seq<SnapshotRow>)
    requires Referenced(tables) && RefersToOwn(tables, school, m, rows) && CreateMany(tables, school, m, rows).Ok?
    ensures Referenced(CreateMany(tables, school, m, rows).value)
    decreases |rows|
  {
    if rows != [] {
      var next := CreateOne(tables, school, m, rows[0]).value;
      assert At(next, m) == At(tables, m)[rows[0].id := Row(school, rows[0].body)];
      forall n, id ensures RowRefers(next, n, id) {
        assert RowRefers(tables, n, id);
      }
      assert forall k :: 0 < k < |rows| ==> rows[k] == rows[1..][k - 1];
      CreatingKeepsReferences(next, school, m, rows[1..]);
    }
  }

  lemma InstallationsAreOwn(base: Tables, school: Id, p: Payload, order: seq<Model>, m: Model, mid: Tables, j: nat)
    requires ReferencesVerified(p) && HasInserted(base, school, p, order, mid)
    requires (IsChild(m) ==> ExtensionInstallation in order) && j <= |RowsOf(p, m)|
    ensures RefersToOwn(mid, school, m, RowsOf(p, m)[..j])
  {
    if IsChild(m) {
      ParentsThere(base, school, p, order, m, mid);
      var rows := RowsOf(p, m);
      forall k | 0 <= k < j ensures rows[k].body.installation in At(mid, ExtensionInstallation) &&
          At(mid, ExtensionInstallation)[rows[k].body.installation].school == school {
        assert InstallationIn(p, RowsOf(p, m)[k]);
        TableKeys(RowsOf(p, ExtensionInstallation), school, rows[k].body.installation);
        assert Mentions(RowsOf(p, ExtensionInstallation), rows[k].body.installation);
      }
    }
  }

  lemma {:induction false} InsertedReferenced(base: Tables, school: Id, p: Payload, order: seq<Model>)
    requires ReferencesVerified(p) && ParentsFirst(order) && Referenced(base)
    ensures var r := Inserted(base, school, p, order); r.Ok? ==> Referenced(r.value)
    decreases |order|
  {
    if order != [] {
      var n := |order| - 1;
      var rows := RowsOf(p, order[n]);
      ParentsFirstPrefix(order);
      InsertedReferenced(base, school, p, order[..n]);
      InsertsIff(base, school, p, order[..n]);
      var mid := Inserted(base, school, p, order[..n]);
      if mid.Ok? {
        InsertingMore(base, school, p, order[..n], order[n], mid.value, |rows|);
        assert rows[..|rows|] == rows;
      }
    }
  }

  // The tables after some models and the first j rows of the next are in.
  lemma InsertingKeepsReferences(base: Tables, school: Id, p: Payload, order: seq<Model>, j: nat)
    requires ReferencesVerified(p) && ParentsFirst(order) && Referenced(base) && order != []
    requires j <= |RowsOf(p, order[|order| - 1])|
    ensures var mid := Inserted(base, school, p, order[..|order| - 1]);
      mid.Ok? ==>
        var m := order[|order| - 1];
        var r := CreateMany(mid.value, school, m, RowsOf(p, m)[..j]);
        r.Ok? ==> Referenced(r.value)
  {
    var n := |order| - 1;
    ParentsFirstPrefix(order);
    InsertedReferenced(base, school, p, order[..n]);
    InsertsIff(base, school, p, order[..n]);
    var mid := Inserted(base, school, p, order[..n]);
    if mid.Ok? {
      InsertingMore(base, school, p, order[..n], order[n], mid.value, j);
    }
  }

  lemma InsertingMore(base: Tables, school: Id, p: Payload, order: seq<Model>, m: Model, mid: Tables, j: nat)
    requires ReferencesVerified(p) && HasInserted(base, school, p, order, mid) && Referenced(mid)
    requires (IsChild(m) ==> ExtensionInstallation in order) && j <= |RowsOf(p, m)|
    ensures var r := CreateMany(mid, school, m, RowsOf(p, m)[..j]); r.Ok? ==> Referenced(r.value)
  {
    InstallationsAreOwn(base, school, p, order, m, mid, j);
    if CreateMany(mid, school, m, RowsOf(p, m)[..j]).Ok? {
      CreatingKeepsReferences(mid, school, m, RowsOf(p, m)[..j]);
    }
  }

  lemma RestoreKeepsReferences(tables: Tables, school: Id, p: Payload)
    requires ReferencesVerified(p) && Referenced(tables) && Restored(tables, school, p).Ok?
    ensures Referenced(Restored(tables, school, p).value)
  {
    InsertOrderParentsFirst();
    ClearingKeepsReferences(tables, school, |DELETE_ORDER|);
    assert DELETE_ORDER[..|DELETE_ORDER|] == DELETE_ORDER;
    UsersKeepReferences(Cleared(tables, school, DELETE_ORDER), school, RowsOf(p, User));
    InsertedReferenced(Prepared(tables, school, p).value, school, p, INSERT_ORDER);
  }
}
