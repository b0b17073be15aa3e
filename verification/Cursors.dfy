// Opaque cursors, and the client that drains a list by following them.
module Cursors {
  import opened Results
  import opened Keyset
  import opened Pagination
  import Base64Url

  // What the JSON text of a cursor may hold.
  datatype Fields = Fields(
    sort: Option<string>, id: Option<string>, featuredRank: Option<int>, createdAt: Option<int>, name: Option<string>)

  // JSON as UTF-8 bytes: parsing undoes printing.
  datatype Json = Json(print_: Fields -> seq<Base64Url.Byte>, parse: seq<Base64Url.Byte> -> Option<Fields>)

  ghost predicate Faithful(j: Json) {
    forall f {:trigger j.print_(f)} :: j.parse(j.print_(f)) == Some(f) && j.print_(f) != []
  }

  datatype Invalid = InvalidCursor

  const MAX_CURSOR: nat := 2000

  function DateIdFields(key: Key): Fields
    requires key.DateKey?
  {
    Fields(None, Some(key.id), None, Some(key.createdAt), None)
  }

  function EncodeDateId(j: Json, key: Key): string
    requires key.DateKey?
  {
    Base64Url.Encode(j.print_(DateIdFields(key)))
  }

  // No cursor at all asks for the first page.
  function DecodeDateId(j: Json, text: string): Result<Option<Key>, Invalid> {
    if text == "" then Ok(None)
    else if |text| > MAX_CURSOR then Err(InvalidCursor)
    else
      match j.parse(Base64Url.Decode(text))
      case None => Err(InvalidCursor)
      case Some(f) =>
        if f.id in {None, Some("")} || f.createdAt.None? then Err(InvalidCursor)
        else Ok(Some(DateKey(f.createdAt.value, f.id.value)))
  }

  function SortName(sort: Sort): string {
    match sort
    case Featured => "FEATURED"
    case Newest => "NEWEST"
    case NameAsc => "NAME_ASC"
    case NameDesc => "NAME_DESC"
  }

  function CatalogFields(sort: Sort, key: Key): Fields
    requires Fits(sort, key)
  {
    match sort
    case Featured => Fields(Some(SortName(sort)), Some(key.id), Some(key.rank), Some(key.createdAt), None)
    case Newest => Fields(Some(SortName(sort)), Some(key.id), None, Some(key.createdAt), None)
    case _ => Fields(Some(SortName(sort)), Some(key.id), None, None, Some(key.name))
  }

  function EncodeCatalog(j: Json, sort: Sort, key: Key): string
    requires Fits(sort, key)
  {
    Base64Url.Encode(j.print_(CatalogFields(sort, key)))
  }

  function DecodeCatalog(j: Json, text: string, sort: Sort): (r: Result<Option<Key>, Invalid>)
    ensures r.Ok? && r.value.Some? ==> Fits(sort, r.value.value)
  {
    if text == "" then Ok(None)
    else
      match j.parse(Base64Url.Decode(text))
      case None => Err(InvalidCursor)
      case Some(f) =>
        if f.sort != Some(SortName(sort)) || f.id.None? then Err(InvalidCursor)
        else if sort in {Featured, Newest} && f.createdAt.None? then Err(InvalidCursor)
        else if sort in {NameAsc, NameDesc} && f.name.None? then Err(InvalidCursor)
        else if sort == Featured && f.featuredRank.None? then Err(InvalidCursor)
        else
          Ok(Some(match sort
                  case Featured => FeaturedKey(f.featuredRank.value, f.createdAt.value, f.id.value)
                  case Newest => DateKey(f.createdAt.value, f.id.value)
                  case _ => NameKey(f.name.value, f.id.value)))
  }

  // ---------------------------------------------------------------- round trips

  // A cursor comes back as it was exactly when its row has an id and its text is not too long: 1500
  // bytes of JSON are the 2000 characters that are accepted.
  lemma DateIdRoundTrip(j: Json, key: Key)
    requires Faithful(j) && key.DateKey?
    ensures DecodeDateId(j, EncodeDateId(j, key)) ==
      if key.id != "" && |j.print_(DateIdFields(key))| <= 1500 then Ok(Some(key)) else Err(InvalidCursor)
  {
    Base64Url.RoundTrip(j.print_(DateIdFields(key)));
  }

  // Catalogue cursors come back as they were, under the sort they were made for and no other.
  lemma CatalogRoundTrip(j: Json, sort: Sort, key: Key, other: Sort)
    requires Faithful(j) && Fits(sort, key)
    ensures DecodeCatalog(j, EncodeCatalog(j, sort, key), other) ==
      if other == sort then Ok(Some(key)) else Err(InvalidCursor)
  {
    Base64Url.RoundTrip(j.print_(CatalogFields(sort, key)));
    SortNamesDiffer(sort, other);
  }

  lemma SortNamesDiffer(a: Sort, b: Sort)
    ensures SortName(a) == SortName(b) <==> a == b
  {
  }

  // ---------------------------------------------------------------- server and client

  datatype Endpoint = DateIdList | Catalog(sort: Sort)

  function SortOf(e: Endpoint): Sort {
    if e.DateIdList? then Newest else e.sort
  }

  datatype WirePage = WirePage(items: seq<Row>, nextCursor: string)

  function DecodeCursor(j: Json, e: Endpoint, text: string): (r: Result<Option<Key>, Invalid>)
    ensures r.Ok? && r.value.Some? ==> Fits(SortOf(e), r.value.value)
  {
    if e.DateIdList? then DecodeDateId(j, text) else DecodeCatalog(j, text, e.sort)
  }

  function EncodeCursor(j: Json, e: Endpoint, next: Option<Key>): string
    requires next.Some? ==> Fits(SortOf(e), next.value)
  {
    if next.None? then "" else if e.DateIdList? then EncodeDateId(j, next.value)
      else EncodeCatalog(j, e.sort, next.value)
  }

  function Serve(j: Json, e: Endpoint, o: Order, table: seq<Row>, text: string, limit: nat): Result<WirePage, Invalid>
    requires o.sort == SortOf(e)
  {
    match DecodeCursor(j, e, text)
    case Err(x) => Err(x)
    case Ok(cursor) =>
      var page := PageAt(o, table, cursor, limit);
      Ok(WirePage(page.items, EncodeCursor(j, e, page.next)))
  }

  datatype ClientError = RequestFailed | SafetyLimitExceeded

  // What a client gets that sends each cursor back with its next request.
  function Fetched(
      j: Json, e: Endpoint, o: Order, tables: seq<seq<Row>>, text: string, limit: nat): Result<seq<Row>, ClientError>
    requires o.sort == SortOf(e)
    decreases |tables|
  {
    if tables == [] then Err(SafetyLimitExceeded)
    else
      match Serve(j, e, o, tables[0], text, limit)
      case Err(_) => Err(RequestFailed)
      case Ok(body) =>
        if body.nextCursor == "" then Ok(body.items)
        else
          Following(body.items, Fetched(j, e, o, tables[1..], body.nextCursor, limit))
  }

  function Following(items: seq<Row>, rest: Result<seq<Row>, ClientError>): Result<seq<Row>, ClientError> {
    match rest
    case Err(x) => Err(x)
    case Ok(more) => Ok(items + more)
  }

  lemma FollowingBoth(a: seq<Row>, b: seq<Row>, rest: Result<seq<Row>, ClientError>)
    ensures Following(a, Following(b, rest)) == Following(a + b, rest) && Following([], rest) == rest
  {
    if rest.Ok? {
      assert a + (b + rest.value) == a + b + rest.value && [] + rest.value == rest.value;
    }
  }

  const CLIENT_LIMIT: nat := 100

  // The tables are those that the requests find, one for each page the client is ready to ask for.
  method ApiCursorItems(j: Json, e: Endpoint, o: Order, tables: seq<seq<Row>>, maxPages: nat)
    returns (r: Result<seq<Row>, ClientError>)
    requires o.sort == SortOf(e) && maxPages <= |tables|
    ensures r == Fetched(j, e, o, tables[..maxPages], "", CLIENT_LIMIT)
  {
    var items: seq<Row>, cursor, page := [], "", 0;
    assert tables[0..maxPages] == tables[..maxPages];
    ghost var all := Fetched(j, e, o, tables[..maxPages], "", CLIENT_LIMIT);
    FollowingBoth([], [], all);
    while page < maxPages
      invariant page <= maxPages
      invariant all == Following(items, Fetched(j, e, o, tables[page..maxPages], cursor, CLIENT_LIMIT))
    {
      ghost var rest := tables[page..maxPages];
      assert rest[0] == tables[page] && rest[1..] == tables[page + 1..maxPages];
      var response := Serve(j, e, o, tables[page], cursor, CLIENT_LIMIT);
      if response.Err? {
        return Err(RequestFailed);
      }
      FollowingBoth(items, response.value.items, Fetched(j, e, o, rest[1..], response.value.nextCursor, CLIENT_LIMIT));
      items := items + response.value.items;
      cursor := response.value.nextCursor;
      if cursor == "" {
        return Ok(items);
      }
      page := page + 1;
    }
    assert tables[page..maxPages] == [];
    return Err(SafetyLimitExceeded);
  }

  // Whether a row can be the last of a page.
  predicate Carried(j: Json, e: Endpoint, row: Row) {
    e.DateIdList? ==> row.id != "" && |j.print_(DateIdFields(KeyOf(Newest, row)))| <= 1500
  }

  ghost predicate Usable(j: Json, e: Endpoint, table: seq<Row>) {
    UniqueIds(table) && forall row :: row in table ==> Carried(j, e, row)
  }

  lemma CursorRoundTrip(j: Json, e: Endpoint, row: Row)
    requires Faithful(j)
    ensures Fits(SortOf(e), KeyOf(SortOf(e), row))
    ensures var text := EncodeCursor(j, e, Some(KeyOf(SortOf(e), row)));
      text != "" && (DecodeCursor(j, e, text) == Ok(Some(KeyOf(SortOf(e), row))) <==> Carried(j, e, row))
  {
    var key := KeyOf(SortOf(e), row);
    if e.DateIdList? {
      DateIdRoundTrip(j, key);
      Base64Url.RoundTrip(j.print_(DateIdFields(key)));
    } else {
      CatalogRoundTrip(j, e.sort, key, e.sort);
      Base64Url.RoundTrip(j.print_(CatalogFields(e.sort, key)));
    }
  }

  // Sending cursors as text loses nothing: the client gets what following the keys themselves gives.
  lemma {:induction false} ClientFollowsKeys(
      j: Json, e: Endpoint, o: Order, tables: seq<seq<Row>>, cursor: Option<Key>, text: string, limit: nat)
    requires Faithful(j) && Collates(o) && o.sort == SortOf(e) && limit > 0
    requires forall t :: t in tables ==> Usable(j, e, t)
    requires DecodeCursor(j, e, text) == Ok(cursor)
    ensures Fetched(j, e, o, tables, text, limit) ==
      match Drained(o, tables, cursor, limit)
      case None => Err(SafetyLimitExceeded)
      case Some(items) => Ok(items)
    decreases |tables|
  {
    if tables != [] {
      var page := PageAt(o, tables[0], cursor, limit);
      assert Usable(j, e, tables[0]);
      PageCuts(o, tables[0], cursor, limit);
      if page.next.Some? {
        CursorRoundTrip(j, e, page.items[limit - 1]);
        ClientFollowsKeys(j, e, o, tables[1..], page.next, EncodeCursor(j, e, page.next), limit);
      }
    }
  }

  // The whole of it: what the client returns is in order, has no key twice and nothing made up, and has
  // every key that a row keeps in all the tables, whatever becomes of the row's other columns; a row
  // that keeps those too is there as it is.
  lemma ClientGetsEachRowOnce(j: Json, e: Endpoint, o: Order, tables: seq<seq<Row>>)
    requires Faithful(j) && Collates(o) && o.sort == SortOf(e)
    requires forall t :: t in tables ==> Usable(j, e, t)
    ensures var r := Fetched(j, e, o, tables, "", CLIENT_LIMIT);
      r.Ok? ==>
        && Ascending(o, r.value) && DistinctKeys(o.sort, r.value)
        && (forall row :: row in r.value ==> InSome(tables, row))
        && (forall like: Row :: InAll(o.sort, tables, KeyOf(o.sort, like)) ==>
          HasKey(o.sort, r.value, KeyOf(o.sort, like)))
        && (forall row :: (forall t :: t in tables ==> row in t) ==> row in r.value)
  {
    ClientFollowsKeys(j, e, o, tables, None, "", CLIENT_LIMIT);
    assert forall t :: t in tables && Usable(j, e, t) ==> UniqueIds(t);
    ExactlyOnce(o, tables, None, CLIENT_LIMIT);
    var read := tables[..PagesRead(o, tables, None, CLIENT_LIMIT)];
    assert forall t :: t in read ==> t in tables;
    var r := Fetched(j, e, o, tables, "", CLIENT_LIMIT);
    if r.Ok? {
      forall row | row in r.value ensures InSome(tables, row) {
        assert InSome(read, row);
      }
      forall like: Row | InAll(o.sort, tables, KeyOf(o.sort, like))
        ensures HasKey(o.sort, r.value, KeyOf(o.sort, like)) {
        assert Wanted(o, None, like) && InAll(o.sort, read, KeyOf(o.sort, like));
      }
      forall row | forall t :: t in tables ==> row in t ensures row in r.value {
        StableRowsOnce(o, tables, None, CLIENT_LIMIT, row);
      }
    }
  }

  // Over a table at rest the client returns the whole listing, as long as it is no longer than its
  // hundred pages of a hundred rows.
  lemma ClientReach(j: Json, e: Endpoint, o: Order, table: seq<Row>)
    requires Faithful(j) && Collates(o) && o.sort == SortOf(e) && Usable(j, e, table)
    ensures Fetched(j, e, o, Still(table, 100), "", CLIENT_LIMIT) ==
      if |table| <= 10_000 then Ok(Listing(o, table)) else Err(SafetyLimitExceeded)
  {
    AllStill(table, 100);
    ClientFollowsKeys(j, e, o, Still(table, 100), None, "", CLIENT_LIMIT);
    StaticListing(o, table, 100, CLIENT_LIMIT);
    PagesIsCeiling(|table|, CLIENT_LIMIT);
  }

  lemma {:induction false} AllStill(table: seq<Row>, tries: nat)
    ensures forall t :: t in Still(table, tries) ==> t == table
  {
    if tries > 0 { AllStill(table, tries - 1); }
  }

  // ---------------------------------------------------------------- what cursors hold

  // The fields of a cursor: those that its sort compares, the id, and for catalogues the name of the sort.
  lemma FieldsLaw(rank: int, createdAt: int, name: string, id: string)
    ensures DateIdFields(DateKey(createdAt, id)) == Fields(None, Some(id), None, Some(createdAt), None)
    ensures CatalogFields(Featured, FeaturedKey(rank, createdAt, id)) ==
      Fields(Some("FEATURED"), Some(id), Some(rank), Some(createdAt), None)
    ensures CatalogFields(Newest, DateKey(createdAt, id)) ==
      Fields(Some("NEWEST"), Some(id), None, Some(createdAt), None)
    ensures CatalogFields(NameAsc, NameKey(name, id)) == Fields(Some("NAME_ASC"), Some(id), None, None, Some(name))
    ensures CatalogFields(NameDesc, NameKey(name, id)) == Fields(Some("NAME_DESC"), Some(id), None, None, Some(name))
  {
  }

  // A text is refused as a cursor when it is too long, is no JSON, or lacks its id or its date; no text
  // at all is the first page.
  lemma DateIdLaw(j: Json, text: string)
    ensures DecodeDateId(j, text) ==
      if text == "" then Ok(None)
      else if |text| > 2000 || j.parse(Base64Url.Decode(text)) == None then Err(InvalidCursor)
      else
        var f := j.parse(Base64Url.Decode(text)).value;
        if f.id == None || f.id.value == "" || f.createdAt == None then Err(InvalidCursor)
        else Ok(Some(DateKey(f.createdAt.value, f.id.value)))
  {
    if text != "" && j.parse(Base64Url.Decode(text)).Some? {
      var f := j.parse(Base64Url.Decode(text)).value;
      assert f.id.Some? && f.id.value == "" <==> f.id == Some("");
    }
  }

  // A catalogue cursor is refused under another sort than its own, and without a field that its sort
  // compares.
  lemma CatalogLaw(j: Json, text: string, sort: Sort, f: Fields)
    requires text != "" && j.parse(Base64Url.Decode(text)) == Some(f)
    ensures DecodeCatalog(j, text, sort) ==
      match sort
      case Featured =>
        if f.sort == Some("FEATURED") && f.id.Some? && f.createdAt.Some? && f.featuredRank.Some?
        then Ok(Some(FeaturedKey(f.featuredRank.value, f.createdAt.value, f.id.value))) else Err(InvalidCursor)
      case Newest =>
        if f.sort == Some("NEWEST") && f.id.Some? && f.createdAt.Some?
        then Ok(Some(DateKey(f.createdAt.value, f.id.value))) else Err(InvalidCursor)
      case NameAsc =>
        if f.sort == Some("NAME_ASC") && f.id.Some? && f.name.Some?
        then Ok(Some(NameKey(f.name.value, f.id.value))) else Err(InvalidCursor)
      case NameDesc =>
        if f.sort == Some("NAME_DESC") && f.id.Some? && f.name.Some?
        then Ok(Some(NameKey(f.name.value, f.id.value))) else Err(InvalidCursor)
    ensures DecodeCatalog(j, "", sort) == Ok(None)
  {
  }
}
