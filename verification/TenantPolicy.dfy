// Tenant scoping of queries: how a query is rewritten for a school, and what the rewritten query can
// see and change.
module TenantPolicy {
  import opened Results

  type Id = string

  // A row by column; rows carry the school they belong to.
  type Row = map<string, string>

  type Table = map<Id, Row>

  datatype Condition = Equals(value: string) | Object(fields: map<string, string>) | List(text: string)

  type Where = map<string, Condition>

  datatype Action =
    | FindMany | FindFirst | FindFirstOrThrow | Count | Aggregate | GroupBy | UpdateMany | DeleteMany
    | Create | CreateMany | FindUnique | FindUniqueOrThrow | Update | Delete | Upsert | Unlisted

  datatype Query = Query(action: Action, where: Where, data: Row, rows: seq<Row>, create: Row)

  datatype Failure = RecordNotFound

  const SCHOOL_ID: string := "schoolId"

  // ---------------------------------------------------------------- rewriting

  function AsConditions(fields: map<string, string>): Where {
    map f | f in fields :: Equals(fields[f])
  }

  // The entries in the order they are given; an object's own entries take its place.
  function Flattened(where: Where, order: seq<string>): Where
    requires forall k :: 0 <= k < |order| ==> order[k] in where
  {
    if order == [] then map[]
    else
      var n := |order| - 1;
      var flat := Flattened(where, order[..n]);
      match where[order[n]]
      case Object(fields) => flat + AsConditions(fields)
      case c => flat[order[n] := c]
  }

  function Stamped(row: Row, school: string): Row {
    if SCHOOL_ID in row then row else row[SCHOOL_ID := school]
  }

  function StampedAll(rows: seq<Row>, school: string): seq<Row> {
    seq(|rows|, k requires 0 <= k < |rows| => Stamped(rows[k], school))
  }

  function Rewritten(q: Query, school: string, owned: bool): Result<Query, Failure> {
    match q.action
    case FindMany => Ok(q.(where := q.where[SCHOOL_ID := Equals(school)]))
    case FindFirst => Ok(q.(where := q.where[SCHOOL_ID := Equals(school)]))
    case FindFirstOrThrow => Ok(q.(where := q.where[SCHOOL_ID := Equals(school)]))
    case Count => Ok(q.(where := q.where[SCHOOL_ID := Equals(school)]))
    case Aggregate => Ok(q.(where := q.where[SCHOOL_ID := Equals(school)]))
    case GroupBy => Ok(q.(where := q.where[SCHOOL_ID := Equals(school)]))
    case UpdateMany => Ok(q.(where := q.where[SCHOOL_ID := Equals(school)]))
    case DeleteMany => Ok(q.(where := q.where[SCHOOL_ID := Equals(school)]))
    case Create => Ok(q.(data := Stamped(q.data, school)))
    case CreateMany => Ok(q.(rows := StampedAll(q.rows, school)))
    case FindUnique => Ok(q.(action := FindFirst, where := q.where[SCHOOL_ID := Equals(school)]))
    case FindUniqueOrThrow => Ok(q.(action := FindFirst, where := q.where[SCHOOL_ID := Equals(school)]))
    case Update => if owned then Ok(q) else Err(RecordNotFound)
    case Delete => if owned then Ok(q) else Err(RecordNotFound)
    case Upsert => Ok(if owned then q else q.(create := q.create[SCHOOL_ID := school]))
    case Unlisted => Ok(q)
  }

  // ---------------------------------------------------------------- what queries do

  // How the database evaluates conditions other than equality: on one row at a time.
  type Evaluator = (string, Condition, Row) -> bool

  predicate Meets(eval: Evaluator, where: Where, row: Row) {
    forall f :: f in where ==>
      if where[f].Equals? then f in row && row[f] == where[f].value else eval(f, where[f], row)
  }

  function Matching(eval: Evaluator, table: Table, where: Where): Table {
    map id | id in table && Meets(eval, where, table[id]) :: table[id]
  }

  function Own(table: Table, school: string): Table {
    map id | id in table && SCHOOL_ID in table[id] && table[id][SCHOOL_ID] == school :: table[id]
  }

  function Others(table: Table, school: string): Table {
    map id | id in table && !(SCHOOL_ID in table[id] && table[id][SCHOOL_ID] == school) :: table[id]
  }

  // The rows that a query finds, counts, groups or changes, and the table it leaves.
  datatype Outcome = Outcome(rows: Table, after: Table)

  function Changed(rows: Table, data: Row): Table {
    map id | id in rows :: rows[id] + data
  }

  predicate IsRead(a: Action) {
    a in {FindMany, FindFirst, FindFirstOrThrow, Count, Aggregate, GroupBy, FindUnique, FindUniqueOrThrow}
  }

  // A query as the database performs it. Finding one row or none is up to the reader of the rows.
  function Native(eval: Evaluator, table: Table, q: Query): Result<Outcome, Failure> {
    var rows := Matching(eval, table, q.where);
    if IsRead(q.action) then
      if q.action in {FindFirstOrThrow, FindUniqueOrThrow} && rows == map[] then Err(RecordNotFound)
      else Ok(Outcome(rows, table))
    else if q.action == UpdateMany then Ok(Outcome(rows, table + Changed(rows, q.data)))
    else if q.action == DeleteMany then Ok(Outcome(rows, table - rows.Keys))
    else if q.action == Update then
      if rows == map[] then Err(RecordNotFound) else Ok(Outcome(rows, table + Changed(rows, q.data)))
    else if q.action == Delete then
      if rows == map[] then Err(RecordNotFound) else Ok(Outcome(rows, table - rows.Keys))
    else Ok(Outcome(map[], table))
  }

  ghost predicate NoneMeets(eval: Evaluator, table: Table, where: Where) {
    forall id :: id in table ==> !Meets(eval, where, table[id])
  }

  // What a query finds are the rows that meet its condition. One for a single row is refused when there is
  // none, except for the reads that may find nothing.
  lemma NativeLaw(eval: Evaluator, table: Table, q: Query)
    requires q.action !in {Create, CreateMany, Upsert, Unlisted}
    ensures var r := Native(eval, table, q);
      && (r.Err? <==>
            q.action in {FindFirstOrThrow, FindUniqueOrThrow, Update, Delete} && NoneMeets(eval, table, q.where))
      && (r.Ok? ==>
            && (forall id :: id in r.value.rows <==> id in table && Meets(eval, q.where, table[id]))
            && (forall id :: id in r.value.rows ==> r.value.rows[id] == table[id]))
  {
    var rows := Matching(eval, table, q.where);
    assert NoneMeets(eval, table, q.where) <==> rows == map[] by {
      if !NoneMeets(eval, table, q.where) {
        var id :| id in table && Meets(eval, q.where, table[id]);
        assert id in rows;
      }
    }
  }

  // Row by row: reads change nothing, updates write their data over the rows found, deletions take them
  // away.
  lemma NativeLeaves(eval: Evaluator, table: Table, q: Query, id: Id)
    requires q.action !in {Create, CreateMany, Upsert, Unlisted} && Native(eval, table, q).Ok?
    ensures var after := Native(eval, table, q).value.after;
      && (id in after <==> id in table && !(q.action in {Delete, DeleteMany} && Meets(eval, q.where, table[id])))
      && (id in after ==>
            var found := q.action in {Update, UpdateMany} && Meets(eval, q.where, table[id]);
            after[id] == if found then table[id] + q.data else table[id])
  {
    var rows := Matching(eval, table, q.where);
    assert id in rows <==> id in table && Meets(eval, q.where, table[id]);
  }

  // Whether the school has a row of its own that the flattened condition finds.
  function Owns(eval: Evaluator, table: Table, where: Where, school: string): bool {
    Matching(eval, table, where[SCHOOL_ID := Equals(school)]) != map[]
  }

  function Scoped(eval: Evaluator, table: Table, school: string, q: Query, order: seq<string>): Result<Outcome, Failure>
    requires forall k :: 0 <= k < |order| ==> order[k] in q.where
  {
    match Rewritten(q, school, Owns(eval, table, Flattened(q.where, order), school))
    case Err(e) => Err(e)
    case Ok(rewritten) => Native(eval, table, rewritten)
  }

  // ---------------------------------------------------------------- in place

  class Params {
    var action: Action
    var where: Where
    var data: Row
    var rows: seq<Row>
    var create: Row

    constructor (q: Query)
      ensures Contents() == q
    {
      action, where, data, rows, create := q.action, q.where, q.data, q.rows, q.create;
    }

    function Contents(): Query
      reads this
    {
      Query(action, where, data, rows, create)
    }
  }

  method FlattenUniqueWhere(where: Where, order: seq<string>) returns (flat: Where)
    requires forall k :: 0 <= k < |order| ==> order[k] in where
    ensures flat == Flattened(where, order)
  {
    flat := map[];
    var i := 0;
    while i < |order|
      invariant i <= |order| && flat == Flattened(where, order[..i])
    {
      var value := where[order[i]];
      assert order[..i + 1][..i] == order[..i];
      if value.Object? {
        flat := flat + AsConditions(value.fields);
      } else {
        flat := flat[order[i] := value];
      }
      i := i + 1;
    }
    assert order[..i] == order;
  }

  method ApplyTenantQueryPolicy(params: Params, school: string, eval: Evaluator, table: Table, order: seq<string>)
    returns (r: Result<(), Failure>)
    requires forall k :: 0 <= k < |order| ==> order[k] in params.where
    modifies params
    ensures match Rewritten(old(params.Contents()), school,
        Owns(eval, table, old(Flattened(params.where, order)), school)) {
              case Err(e) => r == Err(e) && params.Contents() == old(params.Contents())
              case Ok(q) => r.Ok? && params.Contents() == q
            }
  {
    r := Ok(());
    match params.action {
      case Create => params.data := Stamped(params.data, school);
      case CreateMany => params.rows := StampedAll(params.rows, school);
      case FindUnique =>
        params.action := FindFirst;
        params.where := params.where[SCHOOL_ID := Equals(school)];
      case FindUniqueOrThrow =>
        params.action := FindFirst;
        params.where := params.where[SCHOOL_ID := Equals(school)];
      case Update =>
        var flat := FlattenUniqueWhere(params.where, order);
        if !Owns(eval, table, flat, school) {
          r := Err(RecordNotFound);
        }
      case Delete =>
        var flat := FlattenUniqueWhere(params.where, order);
        if !Owns(eval, table, flat, school) {
          r := Err(RecordNotFound);
        }
      case Upsert =>
        var flat := FlattenUniqueWhere(params.where, order);
        if !Owns(eval, table, flat, school) {
          params.create := params.create[SCHOOL_ID := school];
        }
      case Unlisted =>
      case _ => params.where := params.where[SCHOOL_ID := Equals(school)];
    }
  }

  // ---------------------------------------------------------------- non-interference

  // Every key once, whatever the order.
  ghost predicate Enumerates(order: seq<string>, where: Where) {
    forall f :: f in order <==> f in where
  }

  ghost predicate IsFlat(where: Where) {
    forall f :: f in where ==> !where[f].Object?
  }

  lemma {:induction false} FlatStays(where: Where, order: seq<string>)
    requires IsFlat(where) && forall k :: 0 <= k < |order| ==> order[k] in where
    ensures Flattened(where, order) == map f | f in where && f in order :: where[f]
  {
    if order != [] {
      var n := |order| - 1;
      FlatStays(where, order[..n]);
      assert order == order[..n] + [order[n]];
    }
  }

  // A condition on a unique key finds at most one row of the whole table.
  ghost predicate FindsOne(eval: Evaluator, table: Table, where: Where) {
    forall a, b :: a in Matching(eval, table, where) && b in Matching(eval, table, where) ==> a == b
  }

  ghost predicate OnUniqueKey(eval: Evaluator, table: Table, q: Query, order: seq<string>) {
    IsFlat(q.where) && SCHOOL_ID !in q.where && Enumerates(order, q.where) && FindsOne(eval, table, q.where)
  }

  ghost predicate Covered(eval: Evaluator, table: Table, q: Query, order: seq<string>) {
    || (IsRead(q.action) && q.action !in {FindUnique, FindUniqueOrThrow})
    || q.action in {UpdateMany, DeleteMany}
    || (q.action in {FindUnique, FindUniqueOrThrow, Update, Delete} && OnUniqueKey(eval, table, q, order))
  }

  // The query that asks the same without regard to schools.
  function Unscoped(q: Query): Query {
    q.(where := q.where - {SCHOOL_ID},
       action := if q.action in {FindUnique, FindUniqueOrThrow} then FindFirst else q.action)
  }

  // Whatever condition on the school the query brought, the rewritten one matches what the rest of it
  // matches among the school's own rows.
  lemma ScopedMatching(eval: Evaluator, table: Table, where: Where, school: string)
    ensures Matching(eval, table, where[SCHOOL_ID := Equals(school)]) ==
      Matching(eval, Own(table, school), where - {SCHOOL_ID})
  {
    var scoped := where[SCHOOL_ID := Equals(school)];
    forall id | id in table
      ensures Meets(eval, scoped, table[id]) <==>
        id in Own(table, school) && Meets(eval, where - {SCHOOL_ID}, table[id]) {
      var rest := where - {SCHOOL_ID};
      assert forall f :: f in scoped <==> f == SCHOOL_ID || f in rest;
      assert forall f :: f in rest ==> scoped[f] == rest[f];
      assert scoped[SCHOOL_ID] == Equals(school);
      MeetsBoth(eval, scoped, rest, school, table[id]);
    }
  }

  lemma MeetsBoth(eval: Evaluator, scoped: Where, rest: Where, school: string, row: Row)
    requires SCHOOL_ID !in rest && scoped == rest[SCHOOL_ID := Equals(school)]
    ensures Meets(eval, scoped, row) <==> (SCHOOL_ID in row && row[SCHOOL_ID] == school && Meets(eval, rest, row))
  {
    if Meets(eval, scoped, row) {
      assert SCHOOL_ID in scoped;
      assert forall f :: f in rest ==> f in scoped;
    }
  }

  lemma MatchingOwn(eval: Evaluator, table: Table, where: Where, school: string)
    ensures Matching(eval, Own(table, school), where) == Own(Matching(eval, table, where), school)
  {
  }

  // On a unique key the ownership check decides, and then the row found is the school's.
  lemma OwnershipDecides(eval: Evaluator, table: Table, q: Query, school: string, order: seq<string>)
    requires OnUniqueKey(eval, table, q, order)
    ensures var own := Matching(eval, Own(table, school), q.where);
      && (Owns(eval, table, Flattened(q.where, order), school) <==> own != map[])
      && (own != map[] ==> Matching(eval, table, q.where) == own)
      && q.where - {SCHOOL_ID} == q.where
  {
    FlatStays(q.where, order);
    assert Flattened(q.where, order) == q.where;
    ScopedMatching(eval, table, q.where, school);
    assert q.where - {SCHOOL_ID} == q.where;
    MatchingOwn(eval, table, q.where, school);
    var all, own := Matching(eval, table, q.where), Matching(eval, Own(table, school), q.where);
    if own != map[] {
      var id :| id in own;
      forall other ensures other in all <==> other in own {
        assert id in all;
      }
    }
  }

  ghost predicate AreOwn(table: Table, rows: Table, school: string) {
    forall id :: id in rows ==>
      id in table && rows[id] == table[id] && SCHOOL_ID in table[id] && table[id][SCHOOL_ID] == school
  }

  lemma OwnRows(eval: Evaluator, table: Table, where: Where, school: string)
    ensures AreOwn(table, Matching(eval, Own(table, school), where), school)
  {
  }

  lemma ChangedRow(rows: Table, data: Row, school: string, id: Id)
    requires id in rows && SCHOOL_ID in rows[id] && rows[id][SCHOOL_ID] == school
    requires SCHOOL_ID in data ==> data[SCHOOL_ID] == school
    ensures id in Changed(rows, data) && SCHOOL_ID in Changed(rows, data)[id] &&
      Changed(rows, data)[id][SCHOOL_ID] == school
  {
  }

  // Changing or deleting own rows leaves the rest alone.
  lemma ChangeIsLocal(table: Table, rows: Table, data: Row, school: string)
    requires AreOwn(table, rows, school) && (SCHOOL_ID in data ==> data[SCHOOL_ID] == school)
    ensures Own(table + Changed(rows, data), school) == Own(table, school) + Changed(rows, data)
    ensures Others(table + Changed(rows, data), school) == Others(table, school)
  {
    var changed := Changed(rows, data);
    forall id | id in changed ensures id in rows && SCHOOL_ID in changed[id] && changed[id][SCHOOL_ID] == school {
      ChangedRow(rows, data, school, id);
    }
    Overlay(table, changed, school);
    NoneOfOthers(table, changed, school);
  }

  lemma NoneOfOthers(table: Table, changed: Table, school: string)
    requires forall id :: id in changed ==> id in table && SCHOOL_ID in table[id] && table[id][SCHOOL_ID] == school
    ensures Others(table, school) - changed.Keys == Others(table, school)
  {
  }

  lemma Overlay(table: Table, changed: Table, school: string)
    requires forall id :: id in changed ==> SCHOOL_ID in changed[id] && changed[id][SCHOOL_ID] == school
    ensures Own(table + changed, school) == Own(table, school) + changed
    ensures Others(table + changed, school) == Others(table, school) - changed.Keys
  {
  }

  lemma DeletionIsLocal(table: Table, rows: Table, school: string)
    requires AreOwn(table, rows, school)
    ensures Own(table - rows.Keys, school) == Own(table, school) - rows.Keys
    ensures Others(table - rows.Keys, school) == Others(table, school)
  {
  }

  // The school's own copy of an outcome.
  function Seen(r: Result<Outcome, Failure>, school: string): Result<Outcome, Failure> {
    match r
    case Err(e) => Err(e)
    case Ok(o) => Ok(Outcome(o.rows, Own(o.after, school)))
  }

  predicate LeavesOthers(r: Result<Outcome, Failure>, table: Table, school: string) {
    r.Ok? ==> Others(r.value.after, school) == Others(table, school)
  }

  ghost predicate IsLocal(eval: Evaluator, table: Table, school: string, q: Query, r: Result<Outcome, Failure>) {
    Seen(r, school) == Native(eval, Own(table, school), Unscoped(q)) && LeavesOthers(r, table, school)
  }

  lemma ReadIsLocal(eval: Evaluator, table: Table, school: string, q: Query, order: seq<string>)
    requires IsRead(q.action) && q.action != FindUniqueOrThrow && forall k :: 0 <= k < |order| ==> order[k] in q.where
    ensures IsLocal(eval, table, school, q, Scoped(eval, table, school, q, order))
  {
    ScopedMatching(eval, table, q.where, school);
  }

  lemma BulkIsLocal(eval: Evaluator, table: Table, school: string, q: Query, order: seq<string>)
    requires q.action in {UpdateMany, DeleteMany} && SCHOOL_ID !in q.data && forall k :: 0 <= k < |order| ==>
      order[k] in q.where
    ensures IsLocal(eval, table, school, q, Scoped(eval, table, school, q, order))
  {
    var rows := Matching(eval, Own(table, school), q.where - {SCHOOL_ID});
    ScopedMatching(eval, table, q.where, school);
    OwnRows(eval, table, q.where - {SCHOOL_ID}, school);
    if q.action == UpdateMany {
      ChangeIsLocal(table, rows, q.data, school);
    } else {
      DeletionIsLocal(table, rows, school);
    }
  }

  lemma UpdateIsLocal(eval: Evaluator, table: Table, school: string, q: Query, order: seq<string>)
    requires q.action == Update && SCHOOL_ID !in q.data && OnUniqueKey(eval, table, q, order)
    ensures IsLocal(eval, table, school, q, Scoped(eval, table, school, q, order))
  {
    OwnershipDecides(eval, table, q, school, order);
    OwnRows(eval, table, q.where, school);
    ChangeIsLocal(table, Matching(eval, Own(table, school), q.where), q.data, school);
  }

  lemma DeleteIsLocal(eval: Evaluator, table: Table, school: string, q: Query, order: seq<string>)
    requires q.action == Delete && OnUniqueKey(eval, table, q, order)
    ensures IsLocal(eval, table, school, q, Scoped(eval, table, school, q, order))
  {
    OwnershipDecides(eval, table, q, school, order);
    OwnRows(eval, table, q.where, school);
    DeletionIsLocal(table, Matching(eval, Own(table, school), q.where), school);
  }

  // A scoped query is the unscoped query on the school's own rows alone: it finds the same rows, fails
  // in the same cases, leaves the same rows behind, and changes no other school's.
  lemma ScopedIsLocal(eval: Evaluator, table: Table, school: string, q: Query, order: seq<string>)
    requires forall k :: 0 <= k < |order| ==> order[k] in q.where
    requires Covered(eval, table, q, order) && SCHOOL_ID !in q.data
    ensures Seen(Scoped(eval, table, school, q, order), school) == Native(eval, Own(table, school), Unscoped(q))
    ensures LeavesOthers(Scoped(eval, table, school, q, order), table, school)
  {
    if q.action == FindUniqueOrThrow {
      ScopedMatching(eval, table, q.where, school);
    } else if IsRead(q.action) {
      ReadIsLocal(eval, table, school, q, order);
    } else if q.action in {UpdateMany, DeleteMany} {
      BulkIsLocal(eval, table, school, q, order);
    } else if q.action == Update {
      UpdateIsLocal(eval, table, school, q, order);
    } else {
      DeleteIsLocal(eval, table, school, q, order);
    }
  }

  // What other schools' rows are makes no difference.
  lemma NonInterference(eval: Evaluator, a: Table, b: Table, school: string, q: Query, order: seq<string>)
    requires forall k :: 0 <= k < |order| ==> order[k] in q.where
    requires Covered(eval, a, q, order) && Covered(eval, b, q, order) && SCHOOL_ID !in q.data
    requires Own(a, school) == Own(b, school)
    ensures Seen(Scoped(eval, a, school, q, order), school) == Seen(Scoped(eval, b, school, q, order), school)
  {
    ScopedIsLocal(eval, a, school, q, order);
    ScopedIsLocal(eval, b, school, q, order);
  }

  // A unique read made into a first read finds the same row when it is the school's, and none otherwise.
  lemma UniqueReadStays(eval: Evaluator, table: Table, school: string, q: Query, order: seq<string>, id: Id)
    requires q.action == FindUnique && OnUniqueKey(eval, table, q, order)
    requires id in Matching(eval, table, q.where)
    ensures Rewritten(q, school, false).value.action == FindFirst
    ensures Scoped(eval, table, school, q, order) ==
      Ok(Outcome(if id in Own(table, school) then Matching(eval, table, q.where) else map[], table))
    ensures Matching(eval, table, q.where) == map[id := table[id]]
  {
    var found := Matching(eval, table, q.where);
    assert q.where - {SCHOOL_ID} == q.where;
    assert found == map[id := table[id]];
    ScopedMatching(eval, table, q.where, school);
    MatchingOwn(eval, table, q.where, school);
    assert Own(found, school) == if id in Own(table, school) then found else map[];
  }

  // The read that should fail when nothing is found is made into one that does not.
  lemma UniqueReadNeverThrows(eval: Evaluator, table: Table, school: string, q: Query, order: seq<string>)
    requires q.action == FindUniqueOrThrow && forall k :: 0 <= k < |order| ==> order[k] in q.where
    ensures Scoped(eval, table, school, q, order).Ok?
  {
  }

  // A payload that names a school moves rows, in a bulk update or on a unique key: other schools' rows
  // stay as they are exactly when it names this one, or no row is found, or the update is refused.
  lemma PayloadMovesRowsIff(eval: Evaluator, table: Table, school: string, q: Query, order: seq<string>)
    requires forall k :: 0 <= k < |order| ==> order[k] in q.where
    requires q.action == UpdateMany || (q.action == Update && OnUniqueKey(eval, table, q, order))
    requires SCHOOL_ID in q.data
    ensures var r := Scoped(eval, table, school, q, order);
      LeavesOthers(r, table, school) <==> r.Err? || q.data[SCHOOL_ID] == school || r.value.rows == map[]
  {
    var rows := Matching(eval, Own(table, school), q.where - {SCHOOL_ID});
    ScopedUpdate(eval, table, school, q, order);
    OwnRows(eval, table, q.where - {SCHOOL_ID}, school);
    if q.data[SCHOOL_ID] == school {
      ChangeIsLocal(table, rows, q.data, school);
    } else {
      ChangeMovesAway(table, rows, q.data, school);
    }
  }

  lemma ScopedUpdate(eval: Evaluator, table: Table, school: string, q: Query, order: seq<string>)
    requires forall k :: 0 <= k < |order| ==> order[k] in q.where
    requires q.action == UpdateMany || (q.action == Update && OnUniqueKey(eval, table, q, order))
    ensures var rows := Matching(eval, Own(table, school), q.where - {SCHOOL_ID});
      Scoped(eval, table, school, q, order) ==
        if q.action == Update && rows == map[] then Err(RecordNotFound)
        else Ok(Outcome(rows, table + Changed(rows, q.data)))
  {
    if q.action == Update {
      OwnershipDecides(eval, table, q, school, order);
    } else {
      ScopedMatching(eval, table, q.where, school);
    }
  }

  lemma ChangeMovesAway(table: Table, rows: Table, data: Row, school: string)
    requires AreOwn(table, rows, school) && SCHOOL_ID in data && data[SCHOOL_ID] != school
    ensures Others(table + Changed(rows, data), school) == Others(table, school) <==> rows == map[]
  {
    var after := table + Changed(rows, data);
    if rows != map[] {
      var id :| id in rows;
      assert id in Others(after, school) && id !in Others(table, school);
    } else {
      assert after == table;
    }
  }

  // Rows that are created without a school get this one, and explicit ones are kept.
  lemma CreatedRowsAreStamped(school: string, q: Query, owned: bool, k: nat)
    requires q.action == CreateMany && k < |q.rows|
    ensures var rows := Rewritten(q, school, owned).value.rows;
      && |rows| == |q.rows| && SCHOOL_ID in rows[k]
      && rows[k] - {SCHOOL_ID} == q.rows[k] - {SCHOOL_ID}
      && rows[k][SCHOOL_ID] == if SCHOOL_ID in q.rows[k] then q.rows[k][SCHOOL_ID] else school
  {
  }

  // A single row is created in this school unless it names one, and otherwise as it was given.
  lemma CreatedRowIsStamped(school: string, q: Query, owned: bool)
    requires q.action == Create
    ensures var r := Rewritten(q, school, owned);
      && r.Ok? && r.value.action == Create && r.value.where == q.where && "schoolId" in r.value.data
      && r.value.data - {"schoolId"} == q.data - {"schoolId"}
      && r.value.data["schoolId"] == if "schoolId" in q.data then q.data["schoolId"] else school
  {
  }

  // An upsert that finds no row of this school's creates in this school whatever the row names; one that
  // finds a row is left alone, and so is every action that the policy does not list.
  lemma UpsertCreatesOwn(school: string, q: Query)
    requires q.action == Upsert
    ensures Rewritten(q, school, true) == Ok(q)
    ensures var r := Rewritten(q, school, false);
      && r.Ok? && r.value.action == Upsert && r.value.where == q.where && r.value.data == q.data
      && SCHOOL_ID in r.value.create && r.value.create[SCHOOL_ID] == school
      && r.value.create - {SCHOOL_ID} == q.create - {SCHOOL_ID}
  {
  }

  lemma UnlistedStays(school: string, q: Query, owned: bool)
    requires q.action == Unlisted
    ensures Rewritten(q, school, owned) == Ok(q)
  {
  }

  // Nothing that is not the school's own is updated or deleted by a unique key.
  lemma ForeignIsRefused(school: string, q: Query)
    requires q.action in {Update, Delete}
    ensures Rewritten(q, school, false) == Err(RecordNotFound) && Rewritten(q, school, true) == Ok(q)
  {
  }
}
