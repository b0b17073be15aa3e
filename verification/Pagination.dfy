// Cursor pagination: one page, and pages one after the other over a table that may change in between.
module Pagination {
  import opened Results
  import opened Keyset

  datatype Page = Page(items: seq<Row>, next: Option<Key>)

  // ---------------------------------------------------------------- one page

  // The query for a page asks for one row more than the limit.
  function Query(o: Order, table: seq<Row>, cursor: Option<Key>, limit: nat): seq<Row>
    requires cursor.Some? ==> Fits(o.sort, cursor.value)
  {
    var rows := Listing(o, Where(o, cursor, table));
    if |rows| <= limit + 1 then rows else rows[..limit + 1]
  }

  function PageBy(sort: Sort, rows: seq<Row>, limit: nat): Page {
    var hasMore := |rows| > limit;
    var items := if hasMore then rows[..limit] else rows;
    Page(items, if hasMore && items != [] then Some(KeyOf(sort, items[|items| - 1])) else None)
  }

  function PageAt(o: Order, table: seq<Row>, cursor: Option<Key>, limit: nat): Page
    requires cursor.Some? ==> Fits(o.sort, cursor.value)
  {
    PageBy(o.sort, Query(o, table, cursor, limit), limit)
  }

  predicate Wanted(o: Order, cursor: Option<Key>, row: Row)
    requires cursor.Some? ==> Fits(o.sort, cursor.value)
  {
    cursor.None? || After(o, cursor.value, row)
  }

  // A page holds rows of the table beyond its cursor, in order, and the next cursor separates them
  // from every other such row.
  lemma PageCuts(o: Order, table: seq<Row>, cursor: Option<Key>, limit: nat)
    requires Collates(o) && UniqueIds(table) && limit > 0 && (cursor.Some? ==> Fits(o.sort, cursor.value))
    ensures var page := PageAt(o, table, cursor, limit);
      && Ascending(o, page.items) && |page.items| <= limit
      && (forall r :: r in page.items ==> r in table && Wanted(o, cursor, r))
      && (page.next.None? ==> forall r :: r in table && Wanted(o, cursor, r) ==> r in page.items)
      && (page.next.Some? ==>
            && |page.items| == limit && page.next == Some(KeyOf(o.sort, page.items[limit - 1]))
            && Fits(o.sort, page.next.value)
            && (forall r :: r in table && Wanted(o, cursor, r) ==> r in page.items || After(o, page.next.value, r))
            && (forall r :: r in page.items ==> !After(o, page.next.value, r)))
  {
    var rows := Listing(o, Where(o, cursor, table));
    MatchingRows(o, table, cursor);
    if |rows| > limit {
      assert Query(o, table, cursor, limit)[..limit] == rows[..limit];
      CutAt(o, rows, limit);
    }
  }

  lemma MatchingRows(o: Order, table: seq<Row>, cursor: Option<Key>)
    requires Collates(o) && UniqueIds(table) && (cursor.Some? ==> Fits(o.sort, cursor.value))
    ensures var rows := Listing(o, Where(o, cursor, table));
      Ascending(o, rows) && forall r :: r in rows <==> r in table && Wanted(o, cursor, r)
  {
    var matching := Where(o, cursor, table);
    var rows := Listing(o, matching);
    WhereFilters(o, cursor, table);
    ListingIsOrdered(o, matching);
    forall r ensures r in rows <==> r in matching {
      assert r in multiset(rows) <==> r in multiset(matching);
    }
  }

  lemma CutAt(o: Order, rows: seq<Row>, limit: nat)
    requires Collates(o) && Ascending(o, rows) && 0 < limit < |rows|
    ensures Fits(o.sort, KeyOf(o.sort, rows[limit - 1]))
    ensures forall r :: r in rows ==> r in rows[..limit] || After(o, KeyOf(o.sort, rows[limit - 1]), r)
    ensures forall r :: r in rows[..limit] ==> !After(o, KeyOf(o.sort, rows[limit - 1]), r)
  {
    var last := rows[limit - 1];
    forall i | 0 <= i < |rows| ensures After(o, KeyOf(o.sort, last), rows[i]) <==> limit <= i {
      CursorCutsOrder(o, last, rows[i]);
      Irreflexive(o, rows[i]);
      if i < limit - 1 && Precedes(o, last, rows[i]) { Transitive(o, rows[i], last, rows[i]); }
    }
    forall r | r in rows ensures r in rows[..limit] || After(o, KeyOf(o.sort, last), r) {
      var i :| 0 <= i < |rows| && rows[i] == r;
      assert i < limit ==> rows[..limit][i] == r;
    }
  }

  // ---------------------------------------------------------------- following cursors

  // Pages read one after the other, each from the table as it is at that moment; None when the tables
  // run out before the cursor does.
  function Drained(o: Order, tables: seq<seq<Row>>, cursor: Option<Key>, limit: nat): Option<seq<Row>>
    requires cursor.Some? ==> Fits(o.sort, cursor.value)
    decreases |tables|
  {
    if tables == [] then None
    else
      var page := PageAt(o, tables[0], cursor, limit);
      if page.next.None? then Some(page.items)
      else
        match Drained(o, tables[1..], page.next, limit)
        case None => None
        case Some(more) => Some(page.items + more)
  }

  // How many tables are read.
  function PagesRead(o: Order, tables: seq<seq<Row>>, cursor: Option<Key>, limit: nat): (n: nat)
    requires cursor.Some? ==> Fits(o.sort, cursor.value)
    ensures n <= |tables|
    decreases |tables|
  {
    if tables == [] then 0
    else
      var page := PageAt(o, tables[0], cursor, limit);
      if page.next.None? then 1 else 1 + PagesRead(o, tables[1..], page.next, limit)
  }

  ghost predicate InSome(tables: seq<seq<Row>>, r: Row) {
    exists t :: t in tables && r in t
  }

  predicate HasKey(sort: Sort, rows: seq<Row>, key: Key) {
    exists k :: 0 <= k < |rows| && KeyOf(sort, rows[k]) == key
  }

  // A row of this key is in every one of the tables, whatever its other columns are in each.
  ghost predicate InAll(sort: Sort, tables: seq<seq<Row>>, key: Key) {
    forall t :: t in tables ==> HasKey(sort, t, key)
  }

  ghost predicate DistinctKeys(sort: Sort, rows: seq<Row>) {
    forall i, j :: 0 <= i < j < |rows| ==> KeyOf(sort, rows[i]) != KeyOf(sort, rows[j])
  }

  // Every key beyond the cursor that stays in the tables, here the key of some row like, is in the list.
  ghost predicate CompleteByKey(o: Order, tables: seq<seq<Row>>, cursor: Option<Key>, rows: seq<Row>)
    requires cursor.Some? ==> Fits(o.sort, cursor.value)
  {
    forall like {:trigger Wanted(o, cursor, like)} ::
      Wanted(o, cursor, like) && InAll(o.sort, tables, KeyOf(o.sort, like)) ==>
        HasKey(o.sort, rows, KeyOf(o.sort, like))
  }

  // Whatever is inserted, deleted, renamed or ranked anew between pages, even the cursor's own row: the
  // result is strictly ordered, no key occurs twice, nothing in it is made up, and every key that a
  // row has in all the tables that are read is there.
  lemma {:induction false} ExactlyOnce(o: Order, tables: seq<seq<Row>>, cursor: Option<Key>, limit: nat)
    requires Collates(o) && limit > 0 && (cursor.Some? ==> Fits(o.sort, cursor.value))
    requires forall t :: t in tables ==> UniqueIds(t)
    ensures var all := Drained(o, tables, cursor, limit);
      all.Some? ==>
        && Ascending(o, all.value) && DistinctKeys(o.sort, all.value)
        && (forall r :: r in all.value ==>
          InSome(tables[..PagesRead(o, tables, cursor, limit)], r) && Wanted(o, cursor, r))
        && CompleteByKey(o, tables[..PagesRead(o, tables, cursor, limit)], cursor, all.value)
    decreases |tables|
  {
    if tables != [] {
      var page := PageAt(o, tables[0], cursor, limit);
      PageCuts(o, tables[0], cursor, limit);
      if page.next.Some? {
        ExactlyOnce(o, tables[1..], page.next, limit);
        var rest := Drained(o, tables[1..], page.next, limit);
        if rest.Some? {
          Joined(o, page.items, rest.value);
          var read := tables[1..][..PagesRead(o, tables[1..], page.next, limit)];
          ReadsStep(o, tables, cursor, limit);
          JoinedWanted(o, tables[0], read, cursor, limit, rest.value);
          JoinedComplete(o, tables[0], read, cursor, limit, rest.value);
          AscendingDistinct(o, page.items + rest.value);
        }
      } else {
        OnePage(tables, page.items);
        OnePageComplete(o, tables[0], cursor, page.items);
        AscendingDistinct(o, page.items);
      }
    }
  }

  lemma AscendingDistinct(o: Order, rows: seq<Row>)
    requires Collates(o) && Ascending(o, rows)
    ensures DistinctKeys(o.sort, rows)
  {
    forall i, j | 0 <= i < j < |rows| ensures KeyOf(o.sort, rows[i]) != KeyOf(o.sort, rows[j]) {
      CursorCutsOrder(o, rows[i], rows[j]);
      CursorCutsOrder(o, rows[j], rows[j]);
      Irreflexive(o, rows[j]);
    }
  }

  // The cursor condition looks at nothing but the key.
  lemma WantedByKey(o: Order, cursor: Option<Key>, a: Row, b: Row)
    requires (cursor.Some? ==> Fits(o.sort, cursor.value)) && KeyOf(o.sort, a) == KeyOf(o.sort, b)
    ensures Wanted(o, cursor, a) == Wanted(o, cursor, b)
  {
  }

  lemma OnePageComplete(o: Order, table: seq<Row>, cursor: Option<Key>, items: seq<Row>)
    requires cursor.Some? ==> Fits(o.sort, cursor.value)
    requires forall r :: r in table && Wanted(o, cursor, r) ==> r in items
    ensures CompleteByKey(o, [table], cursor, items)
  {
    forall like | Wanted(o, cursor, like) && InAll(o.sort, [table], KeyOf(o.sort, like))
      ensures HasKey(o.sort, items, KeyOf(o.sort, like)) {
      assert table in [table];
      var k :| 0 <= k < |table| && KeyOf(o.sort, table[k]) == KeyOf(o.sort, like);
      WantedByKey(o, cursor, table[k], like);
      assert table[k] in items;
    }
  }

  // For the rows themselves: one that stays as it is in every table that is read is in the list.
  lemma StableRowsOnce(o: Order, tables: seq<seq<Row>>, cursor: Option<Key>, limit: nat, r: Row)
    requires Collates(o) && limit > 0 && (cursor.Some? ==> Fits(o.sort, cursor.value)) && Wanted(o, cursor, r)
    requires forall t :: t in tables ==> UniqueIds(t)
    requires forall t :: t in tables[..PagesRead(o, tables, cursor, limit)] ==> r in t
    ensures Drained(o, tables, cursor, limit).Some? ==> r in Drained(o, tables, cursor, limit).value
  {
    var all := Drained(o, tables, cursor, limit);
    var read := tables[..PagesRead(o, tables, cursor, limit)];
    ExactlyOnce(o, tables, cursor, limit);
    if all.Some? {
      forall t | t in read ensures HasKey(o.sort, t, KeyOf(o.sort, r)) {
        var k :| 0 <= k < |t| && t[k] == r;
      }
      assert Wanted(o, cursor, r) && HasKey(o.sort, all.value, KeyOf(o.sort, r));
      var k :| 0 <= k < |all.value| && KeyOf(o.sort, all.value[k]) == KeyOf(o.sort, r);
      assert all.value[k] in all.value && InSome(read, all.value[k]);
      var t :| t in read && all.value[k] in t;
      assert UniqueIds(t) && r in t && all.value[k].id == r.id;
    }
  }

  lemma OnePage(tables: seq<seq<Row>>, items: seq<Row>)
    requires tables != [] && forall r :: r in items ==> r in tables[0]
    ensures forall r :: r in items ==> InSome(tables[..1], r)
    ensures tables[..1] == [tables[0]]
  {
    assert tables[0] in tables[..1];
  }

  lemma Joined(o: Order, items: seq<Row>, rest: seq<Row>)
    requires Collates(o) && Ascending(o, items) && Ascending(o, rest) && items != []
    requires forall r :: r in rest ==> After(o, KeyOf(o.sort, items[|items| - 1]), r)
    ensures Ascending(o, items + rest)
  {
    var k := |items| - 1;
    var last := items[k];
    forall i, j | 0 <= i < |items| && 0 <= j < |rest| ensures Precedes(o, items[i], rest[j]) {
      assert rest[j] in rest;
      CursorCutsOrder(o, last, rest[j]);
      if i < k {
        assert Precedes(o, items[i], items[k]);
        Transitive(o, items[i], last, rest[j]);
      }
    }
  }

  lemma ReadsStep(o: Order, tables: seq<seq<Row>>, cursor: Option<Key>, limit: nat)
    requires (cursor.Some? ==> Fits(o.sort, cursor.value)) && tables != []
    requires var next := PageAt(o, tables[0], cursor, limit).next; next.Some? && Fits(o.sort, next.value)
    ensures tables[..PagesRead(o, tables, cursor, limit)] ==
      [tables[0]] + tables[1..][..PagesRead(o, tables[1..], PageAt(o, tables[0], cursor, limit).next, limit)]
  {
  }

  lemma JoinedWanted(
      o: Order, table: seq<Row>, read: seq<seq<Row>>, cursor: Option<Key>, limit: nat, rest: seq<Row>)
    requires Collates(o) && limit > 0 && (cursor.Some? ==> Fits(o.sort, cursor.value)) && UniqueIds(table)
    requires var page := PageAt(o, table, cursor, limit);
      && page.next.Some? && Fits(o.sort, page.next.value)
      && forall r :: r in rest ==> InSome(read, r) && Wanted(o, page.next, r)
    ensures forall r :: r in PageAt(o, table, cursor, limit).items + rest ==>
      InSome([table] + read, r) && Wanted(o, cursor, r)
  {
    var items := PageAt(o, table, cursor, limit).items;
    forall r | r in items + rest ensures InSome([table] + read, r) && Wanted(o, cursor, r) {
      if r in items {
        ItemIsWanted(o, table, cursor, limit, r);
      } else {
        LaterIsWanted(o, table, cursor, limit, r);
      }
      InSomeMore(table, read, r);
    }
  }

  lemma InSomeMore(table: seq<Row>, read: seq<seq<Row>>, r: Row)
    requires r in table || InSome(read, r)
    ensures InSome([table] + read, r)
  {
    if r in table {
      assert ([table] + read)[0] == table;
    } else {
      var t :| t in read && r in t;
      assert t in [table] + read;
    }
  }

  lemma ItemIsWanted(o: Order, table: seq<Row>, cursor: Option<Key>, limit: nat, r: Row)
    requires Collates(o) && limit > 0 && (cursor.Some? ==> Fits(o.sort, cursor.value)) && UniqueIds(table)
    requires r in PageAt(o, table, cursor, limit).items
    ensures r in table && Wanted(o, cursor, r)
  {
    PageCuts(o, table, cursor, limit);
  }

  // What is wanted beyond a page is wanted beyond the cursor of that page.
  lemma LaterIsWanted(o: Order, table: seq<Row>, cursor: Option<Key>, limit: nat, r: Row)
    requires Collates(o) && limit > 0 && (cursor.Some? ==> Fits(o.sort, cursor.value)) && UniqueIds(table)
    requires var page := PageAt(o, table, cursor, limit);
      page.next.Some? && Fits(o.sort, page.next.value) && Wanted(o, page.next, r)
    ensures Wanted(o, cursor, r)
  {
    var page := PageAt(o, table, cursor, limit);
    PageCuts(o, table, cursor, limit);
    if cursor.Some? {
      var last := page.items[limit - 1];
      assert Wanted(o, cursor, last);
      AfterTransitive(o, cursor.value, last, r);
    }
  }

  lemma AfterTransitive(o: Order, key: Key, last: Row, r: Row)
    requires Collates(o) && Fits(o.sort, key) && After(o, key, last) && After(o, KeyOf(o.sort, last), r)
    ensures After(o, key, r)
  {
  }

  lemma JoinedComplete(
      o: Order, table: seq<Row>, read: seq<seq<Row>>, cursor: Option<Key>, limit: nat, rest: seq<Row>)
    requires Collates(o) && limit > 0 && (cursor.Some? ==> Fits(o.sort, cursor.value)) && UniqueIds(table)
    requires var page := PageAt(o, table, cursor, limit);
      && page.next.Some? && Fits(o.sort, page.next.value) && CompleteByKey(o, read, page.next, rest)
    ensures CompleteByKey(o, [table] + read, cursor, PageAt(o, table, cursor, limit).items + rest)
  {
    var page := PageAt(o, table, cursor, limit);
    PageCuts(o, table, cursor, limit);
    var all := [table] + read;
    forall like | Wanted(o, cursor, like) && InAll(o.sort, all, KeyOf(o.sort, like))
      ensures HasKey(o.sort, page.items + rest, KeyOf(o.sort, like)) {
      var key := KeyOf(o.sort, like);
      assert all[0] == table && table in all && HasKey(o.sort, table, key);
      assert forall t :: t in read ==> t in all;
      var k :| 0 <= k < |table| && KeyOf(o.sort, table[k]) == key;
      var r := table[k];
      WantedByKey(o, cursor, r, like);
      if r in page.items {
        KeyInJoin(o.sort, page.items, rest, r);
      } else {
        WantedByKey(o, page.next, r, like);
        assert Wanted(o, page.next, like) && InAll(o.sort, read, key);
        var m :| 0 <= m < |rest| && KeyOf(o.sort, rest[m]) == key;
        KeyInJoin(o.sort, page.items, rest, rest[m]);
      }
    }
  }

  lemma KeyInJoin(sort: Sort, a: seq<Row>, b: seq<Row>, r: Row)
    requires r in a || r in b
    ensures HasKey(sort, a + b, KeyOf(sort, r))
  {
    assert r in a + b;
    var k :| 0 <= k < |a + b| && (a + b)[k] == r;
  }

  // ---------------------------------------------------------------- a table at rest

  function Pages(rows: nat, limit: nat): nat
    requires limit > 0
  {
    if rows <= limit then 1 else 1 + Pages(rows - limit, limit)
  }

  // The least number of pages that has room for all rows, and at least one.
  lemma {:induction false} PagesIsCeiling(rows: nat, limit: nat)
    requires limit > 0
    ensures Pages(rows, limit) >= 1 && rows <= Pages(rows, limit) * limit
    ensures rows > 0 ==> (Pages(rows, limit) - 1) * limit < rows
    ensures rows == 0 ==> Pages(rows, limit) == 1
  {
    if rows > limit {
      PagesIsCeiling(rows - limit, limit);
      var p := Pages(rows - limit, limit);
      assert (p + 1) * limit == p * limit + limit && (p + 1 - 1) * limit == (p - 1) * limit + limit;
    }
  }

  function Still(table: seq<Row>, tries: nat): seq<seq<Row>> {
    if tries == 0 then [] else [table] + Still(table, tries - 1)
  }

  ghost predicate DrainsTo(o: Order, table: seq<Row>, tries: nat, cursor: Option<Key>, limit: nat, rest: seq<Row>)
    requires limit > 0 && (cursor.Some? ==> Fits(o.sort, cursor.value))
  {
    Drained(o, Still(table, tries), cursor, limit) == if Pages(|rest|, limit) <= tries then Some(rest) else None
  }

  // Over a table at rest the pages together are the whole listing, and the client needs one page for
  // every limit rows, or one if there are none: with fewer tries it does not get to the end.
  lemma {:induction false} StaticTable(o: Order, table: seq<Row>, tries: nat, cursor: Option<Key>, limit: nat)
    requires Collates(o) && UniqueIds(table) && limit > 0 && (cursor.Some? ==> Fits(o.sort, cursor.value))
    ensures DrainsTo(o, table, tries, cursor, limit, Listing(o, Where(o, cursor, table)))
    decreases tries
  {
    var rest := Listing(o, Where(o, cursor, table));
    if tries > 0 && |rest| > limit {
      NextRest(o, table, cursor, limit);
      StaticTable(o, table, tries - 1, PageAt(o, table, cursor, limit).next, limit);
      MorePages(o, table, tries, cursor, limit, rest);
    } else if tries > 0 {
      FirstPage(o, table, Still(table, tries - 1), cursor, limit);
    }
  }

  lemma MorePages(o: Order, table: seq<Row>, tries: nat, cursor: Option<Key>, limit: nat, rest: seq<Row>)
    requires 0 < limit < |rest| && tries > 0 && (cursor.Some? ==> Fits(o.sort, cursor.value))
    requires PageAt(o, table, cursor, limit).items == rest[..limit]
    requires PageAt(o, table, cursor, limit).next.Some? && Fits(o.sort, PageAt(o, table, cursor, limit).next.value)
    requires DrainsTo(o, table, tries - 1, PageAt(o, table, cursor, limit).next, limit, rest[limit..])
    ensures DrainsTo(o, table, tries, cursor, limit, rest)
  {
    FirstPage(o, table, Still(table, tries - 1), cursor, limit);
    Halves(rest, limit);
  }

  lemma Halves(rows: seq<Row>, n: nat)
    requires n <= |rows|
    ensures rows[..n] + rows[n..] == rows
  {
  }

  lemma FirstPage(o: Order, first: seq<Row>, others: seq<seq<Row>>, cursor: Option<Key>, limit: nat)
    requires cursor.Some? ==> Fits(o.sort, cursor.value)
    ensures var page := PageAt(o, first, cursor, limit);
      Drained(o, [first] + others, cursor, limit) ==
        if page.next.None? then Some(page.items)
        else match Drained(o, others, page.next, limit) { case None => None case Some(more) => Some(page.items + more) }
  {
    assert ([first] + others)[1..] == others;
  }

  lemma NextRest(o: Order, table: seq<Row>, cursor: Option<Key>, limit: nat)
    requires Collates(o) && UniqueIds(table) && limit > 0 && (cursor.Some? ==> Fits(o.sort, cursor.value))
    requires |Listing(o, Where(o, cursor, table))| > limit
    ensures var page, rest := PageAt(o, table, cursor, limit), Listing(o, Where(o, cursor, table));
      && page.items == rest[..limit]
      && page.next.Some? && Fits(o.sort, page.next.value)
      && Listing(o, Where(o, page.next, table)) == rest[limit..]
  {
    var page, rest := PageAt(o, table, cursor, limit), Listing(o, Where(o, cursor, table));
    assert Query(o, table, cursor, limit)[..limit] == rest[..limit];
    PageCuts(o, table, cursor, limit);
    MatchingRows(o, table, cursor);
    MatchingRows(o, table, page.next);
    CutAt(o, rest, limit);
    var next := Listing(o, Where(o, page.next, table));
    forall r ensures r in next <==> r in rest[limit..] {
      if r in next { BeyondCursor(o, cursor, page.items[limit - 1], r); }
      if r in rest[limit..] { TailIsAfter(o, rest, limit, r); }
    }
    OrderedIsUnique(o, next, rest[limit..]);
  }

  lemma BeyondCursor(o: Order, cursor: Option<Key>, last: Row, r: Row)
    requires Collates(o) && (cursor.Some? ==> Fits(o.sort, cursor.value)) && Wanted(o, cursor, last)
    requires Fits(o.sort, KeyOf(o.sort, last)) && After(o, KeyOf(o.sort, last), r)
    ensures Wanted(o, cursor, r)
  {
    if cursor.Some? { AfterTransitive(o, cursor.value, last, r); }
  }

  lemma TailIsAfter(o: Order, rows: seq<Row>, limit: nat, r: Row)
    requires Collates(o) && Ascending(o, rows) && 0 < limit < |rows| && r in rows[limit..]
    ensures Fits(o.sort, KeyOf(o.sort, rows[limit - 1])) && After(o, KeyOf(o.sort, rows[limit - 1]), r)
  {
    var i :| 0 <= i < |rows| - limit && rows[limit..][i] == r;
    assert rows[limit + i] == r;
    CursorCutsOrder(o, rows[limit - 1], rows[limit + i]);
  }

  // From the start: the listing of the whole table, in one page for every limit rows.
  lemma StaticListing(o: Order, table: seq<Row>, tries: nat, limit: nat)
    requires Collates(o) && UniqueIds(table) && limit > 0
    ensures Drained(o, Still(table, tries), None, limit) ==
      if Pages(|table|, limit) <= tries then Some(Listing(o, table)) else None
  {
    Everything(o, table);
    ListingIsOrdered(o, table);
    StaticTable(o, table, tries, None, limit);
    assert |multiset(Listing(o, table))| == |multiset(table)|;
  }

  lemma {:induction false} Everything(o: Order, table: seq<Row>)
    ensures Where(o, None, table) == table
  {
    if table != [] { Everything(o, table[1..]); }
  }

  // ---------------------------------------------------------------- what is queried and read

  // A page is cut from a query of one row more than its limit, the first of the matching rows in order.
  lemma QueryLaw(o: Order, table: seq<Row>, cursor: Option<Key>, limit: nat)
    requires cursor.Some? ==> Fits(o.sort, cursor.value)
    ensures var (rows, all) := (Query(o, table, cursor, limit), Listing(o, Where(o, cursor, table)));
      && rows <= all && |rows| == if |all| > limit then limit + 1 else |all|
  {
  }

  // Following cursors reads exactly the pages it needs: the tables after those make no difference, and
  // one table fewer would not have been enough.
  lemma {:induction false} PagesReadLaw(o: Order, tables: seq<seq<Row>>, cursor: Option<Key>, limit: nat)
    requires cursor.Some? ==> Fits(o.sort, cursor.value)
    requires Drained(o, tables, cursor, limit).Some?
    ensures var n := PagesRead(o, tables, cursor, limit);
      && n >= 1 && Drained(o, tables[..n], cursor, limit) == Drained(o, tables, cursor, limit)
      && Drained(o, tables[..n - 1], cursor, limit) == None
    decreases |tables|
  {
    var page := PageAt(o, tables[0], cursor, limit);
    var n := PagesRead(o, tables, cursor, limit);
    if page.next.None? {
      assert tables[..0] == [];
    } else {
      PagesReadLaw(o, tables[1..], page.next, limit);
      assert tables[..n][1..] == tables[1..][..n - 1] && tables[..n][0] == tables[0];
      assert tables[..n - 1][1..] == tables[1..][..n - 2] && tables[..n - 1][0] == tables[0];
    }
  }
}
