// Keyset order: the orders rows are listed in, and the cursor conditions that cut them.
module Keyset {
  import opened Results

  // The columns that lists are ordered by. For lists of other entities createdAt stands for the date
  // column of that list.
  datatype Row = Row(id: string, createdAt: int, name: string, featuredRank: int)

  datatype Sort = Featured | Newest | NameAsc | NameDesc

  datatype Column = Id | CreatedAt | Name | FeaturedRank

  datatype Term = Asc(column: Column) | Desc(column: Column)

  datatype Value = Number(n: int) | Text(s: string)

  // The database's comparison of text; the order of a listing.
  datatype Order = Order(textLess: (string, string) -> bool, sort: Sort)

  ghost predicate Collates(o: Order) {
    && (forall a, b :: !(o.textLess(a, b) && o.textLess(b, a)))
    && (forall a, b :: a != b ==> o.textLess(a, b) || o.textLess(b, a))
    && (forall a, b, c {:trigger o.textLess(a, b), o.textLess(b, c)} :: o.textLess(a, b) && o.textLess(b, c) ==>
      o.textLess(a, c))
  }

  function OrderBy(sort: Sort): seq<Term> {
    match sort
    case Featured => [Asc(FeaturedRank), Desc(CreatedAt), Desc(Id)]
    case Newest => [Desc(CreatedAt), Desc(Id)]
    case NameAsc => [Asc(Name), Asc(Id)]
    case NameDesc => [Desc(Name), Desc(Id)]
  }

  function Field(row: Row, column: Column): Value {
    match column
    case Id => Text(row.id)
    case CreatedAt => Number(row.createdAt)
    case Name => Text(row.name)
    case FeaturedRank => Number(row.featuredRank)
  }

  predicate Less(o: Order, a: Value, b: Value) {
    if a.Number? && b.Number? then a.n < b.n
    else a.Text? && b.Text? && o.textLess(a.s, b.s)
  }

  predicate Lexicographic(o: Order, terms: seq<Term>, a: Row, b: Row) {
    terms != [] &&
    var (x, y) := (Field(a, terms[0].column), Field(b, terms[0].column));
    (if terms[0].Asc? then Less(o, x, y) else Less(o, y, x)) || (x == y && Lexicographic(o, terms[1..], a, b))
  }

  // Row a is listed before row b.
  predicate Precedes(o: Order, a: Row, b: Row) {
    Lexicographic(o, OrderBy(o.sort), a, b)
  }

  // What a cursor keeps of the last row of a page.
  datatype Key =
    | FeaturedKey(rank: int, createdAt: int, id: string)
    | DateKey(createdAt: int, id: string)
    | NameKey(name: string, id: string)

  function KeyOf(sort: Sort, row: Row): Key {
    match sort
    case Featured => FeaturedKey(row.featuredRank, row.createdAt, row.id)
    case Newest => DateKey(row.createdAt, row.id)
    case _ => NameKey(row.name, row.id)
  }

  predicate Fits(sort: Sort, key: Key) {
    match sort
    case Featured => key.FeaturedKey?
    case Newest => key.DateKey?
    case _ => key.NameKey?
  }

  // The condition under which a page that follows a cursor includes a row.
  predicate After(o: Order, key: Key, row: Row)
    requires Fits(o.sort, key)
  {
    match o.sort
    case NameAsc => o.textLess(key.name, row.name) || (row.name == key.name && o.textLess(key.id, row.id))
    case NameDesc => o.textLess(row.name, key.name) || (row.name == key.name && o.textLess(row.id, key.id))
    case Newest => row.createdAt < key.createdAt || (row.createdAt == key.createdAt && o.textLess(row.id, key.id))
    case Featured =>
      || row.featuredRank > key.rank
      || (row.featuredRank == key.rank && row.createdAt < key.createdAt)
      || (row.featuredRank == key.rank && row.createdAt == key.createdAt && o.textLess(row.id, key.id))
  }

  // The cursor condition and the order-by agree.
  lemma CursorCutsOrder(o: Order, last: Row, row: Row)
    ensures Fits(o.sort, KeyOf(o.sort, last))
    ensures After(o, KeyOf(o.sort, last), row) <==> Precedes(o, last, row)
  {
    var terms := OrderBy(o.sort);
    assert Lexicographic(o, terms[1..], last, row) ==
      var (x, y) := (Field(last, terms[1].column), Field(row, terms[1].column));
      (if terms[1].Asc? then Less(o, x, y) else Less(o, y, x)) ||
        (x == y && Lexicographic(o, terms[1..][1..], last, row));
    if |terms| == 3 {
      assert terms[1..][1..] == [terms[2]] && [terms[2]][1..] == [];
      assert Lexicographic(o, [terms[2]], last, row) == Less(o, Field(row, Id), Field(last, Id));
    } else {
      assert terms[1..][1..] == [];
    }
  }

  lemma Irreflexive(o: Order, a: Row)
    requires Collates(o)
    ensures !Precedes(o, a, a)
  {
    CursorCutsOrder(o, a, a);
  }

  lemma Transitive(o: Order, a: Row, b: Row, c: Row)
    requires Collates(o) && Precedes(o, a, b) && Precedes(o, b, c)
    ensures Precedes(o, a, c)
  {
    CursorCutsOrder(o, a, b);
    CursorCutsOrder(o, b, c);
    CursorCutsOrder(o, a, c);
  }

  lemma Comparable(o: Order, a: Row, b: Row)
    requires Collates(o) && a.id != b.id
    ensures Precedes(o, a, b) <==> !Precedes(o, b, a)
  {
    CursorCutsOrder(o, a, b);
    CursorCutsOrder(o, b, a);
  }

  // ---------------------------------------------------------------- listings

  // Ids are primary keys.
  ghost predicate UniqueIds(table: seq<Row>) {
    forall i, j :: 0 <= i < j < |table| ==> table[i].id != table[j].id
  }

  ghost predicate Ascending(o: Order, rows: seq<Row>) {
    forall i, j :: 0 <= i < j < |rows| ==> Precedes(o, rows[i], rows[j])
  }

  function Insert(o: Order, row: Row, rows: seq<Row>): seq<Row> {
    if rows == [] || Precedes(o, row, rows[0]) then [row] + rows else [rows[0]] + Insert(o, row, rows[1..])
  }

  // All rows in the order of the listing.
  function Listing(o: Order, table: seq<Row>): seq<Row> {
    if table == [] then [] else Insert(o, table[0], Listing(o, table[1..]))
  }

  function Where(o: Order, cursor: Option<Key>, table: seq<Row>): seq<Row>
    requires cursor.Some? ==> Fits(o.sort, cursor.value)
  {
    if table == [] then []
    else
      (if cursor.None? || After(o, cursor.value, table[0]) then [table[0]] else []) + Where(o, cursor, table[1..])
  }

  lemma {:induction false} InsertIsOrdered(o: Order, row: Row, rows: seq<Row>)
    requires Collates(o) && Ascending(o, rows) && forall r :: r in rows ==> r.id != row.id
    ensures Ascending(o, Insert(o, row, rows))
    ensures multiset(Insert(o, row, rows)) == multiset(rows) + multiset{row}
  {
    if rows == [] {
    } else if Precedes(o, row, rows[0]) {
      forall j | 0 < j < |rows| ensures Precedes(o, row, rows[j]) {
        Transitive(o, row, rows[0], rows[j]);
      }
    } else {
      assert rows == [rows[0]] + rows[1..];
      Comparable(o, row, rows[0]);
      InsertIsOrdered(o, row, rows[1..]);
      var rest := Insert(o, row, rows[1..]);
      forall r | r in rest ensures Precedes(o, rows[0], r) {
        assert r in multiset(rest);
        if r != row {
          assert r in multiset(rows[1..]);
        }
      }
    }
  }

  lemma {:induction false} ListingIsOrdered(o: Order, table: seq<Row>)
    requires Collates(o) && UniqueIds(table)
    ensures Ascending(o, Listing(o, table))
    ensures multiset(Listing(o, table)) == multiset(table)
  {
    if table != [] {
      ListingIsOrdered(o, table[1..]);
      var rest := Listing(o, table[1..]);
      forall r | r in rest ensures r.id != table[0].id {
        assert r in multiset(rest);
        assert r in table[1..];
      }
      InsertIsOrdered(o, table[0], rest);
      assert table == [table[0]] + table[1..];
    }
  }

  lemma {:induction false} WhereFilters(o: Order, cursor: Option<Key>, table: seq<Row>)
    requires UniqueIds(table) && (cursor.Some? ==> Fits(o.sort, cursor.value))
    ensures UniqueIds(Where(o, cursor, table))
    ensures forall r :: r in Where(o, cursor, table) <==> r in table && (cursor.None? || After(o, cursor.value, r))
  {
    if table != [] {
      WhereFilters(o, cursor, table[1..]);
      var rest := Where(o, cursor, table[1..]);
      forall r | r in rest ensures r.id != table[0].id {
        assert r in table[1..];
      }
      assert table == [table[0]] + table[1..];
    }
  }

  // Two ordered lists of the same rows are equal.
  lemma {:induction false} OrderedIsUnique(o: Order, a: seq<Row>, b: seq<Row>)
    requires Collates(o) && Ascending(o, a) && Ascending(o, b) && forall r :: r in a <==> r in b
    ensures a == b
  {
    assert |b| > 0 ==> b[0] in b;
    if a != [] {
      assert a[0] in b;
      assert b[0] in a;
      var i :| 0 <= i < |b| && b[i] == a[0];
      var j :| 0 <= j < |a| && a[j] == b[0];
      if i > 0 && j > 0 {
        Transitive(o, a[0], b[0], a[0]);
        Irreflexive(o, a[0]);
      }
      assert a[0] == b[0];
      Irreflexive(o, a[0]);
      assert a[0] !in a[1..] && b[0] !in b[1..];
      forall r ensures r in a[1..] <==> r in b[1..] {
        assert r in a <==> r == a[0] || r in a[1..];
        assert r in b <==> r == b[0] || r in b[1..];
      }
      OrderedIsUnique(o, a[1..], b[1..]);
    }
  }
}
