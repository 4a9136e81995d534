/** Listing users for the admin dashboard: the query the repository builds, and walks through its pages. */
module UserListing {
  import opened Common
  import opened Sql
  import opened Paging
  import opened UserModel
  import opened UserRepository

  /** The primary key, the columns that the listing's clauses mention, and the one that may be unreadable. */
  datatype Column = Id | Email | Name | CreatedAt | DeletedAt | LastPasswordHash

  type Row = Record<Column>

  datatype Filter = Filter(search: string, limit: int, offset: int, sort: string)

  function RowOf(u: User): Row {
    map[Id := Key(u.id), Email := Text(u.email), Name := Text(u.name), CreatedAt := Stamp(u.createdAt),
        DeletedAt := if u.deletedAt.Some? then Stamp(u.deletedAt.value) else Null,
        LastPasswordHash := if u.lastPasswordHash.Some? then Text(u.lastPasswordHash.value) else Null]
  }

  function RowsOf(table: Users): Table<Column> {
    map k | k in table :: RowOf(table[k])
  }

  // ---------------------------------------------------------------------------------------------
  // The query
  // ---------------------------------------------------------------------------------------------

  predicate OccursAt(s: string, part: string, i: int) {
    0 <= i <= |s| - |part| && s[i..i + |part|] == part
  }

  predicate Contains(s: string, part: string) {
    exists i | 0 <= i <= |s| :: OccursAt(s, part, i)
  }

  /** What the listing is about: undeleted users whose email or name matches the search. */
  predicate Wanted(filter: Filter, u: User, like: Like) {
    && u.deletedAt.None?
    && (filter.search != "" ==>
          like(Text(u.email), Pattern(filter.search)) || like(Text(u.name), Pattern(filter.search)))
  }

  function WantedRows(filter: Filter, table: Users, like: Like): set<Row> {
    set k | k in table && Wanted(filter, table[k], like) :: RowOf(table[k])
  }

  /** By name as the database collates it, or else newest first. */
  function Ahead(sort: string, collation: Collation): (Row, Row) -> bool {
    (a, b) =>
      if Contains(sort, "name") then collation(Cell(a, Name), Cell(b, Name))
      else Cell(a, CreatedAt).Stamp? && Cell(b, CreatedAt).Stamp? && Cell(a, CreatedAt).time >= Cell(b, CreatedAt).time
  }

  function ListWhere(filter: Filter): seq<Condition<Column>> {
    [IsNull(DeletedAt)] + if filter.search != "" then [LikeEither(Email, Name)] else []
  }

  function ListParams(filter: Filter): seq<Value> {
    if filter.search != "" then [Pattern(filter.search), Pattern(filter.search)] else []
  }

  function ListQuery(filter: Filter): Query<Column> {
    if Contains(filter.sort, "name") then Query(ListWhere(filter), Name, Ascending)
    else Query(ListWhere(filter), CreatedAt, Descending)
  }

  function PageArgs(filter: Filter): seq<Value> {
    ListParams(filter) + [Num(filter.limit), Num(filter.offset)]
  }

  /**
   Builds the query and the arguments of the count query and of the page query. On every table the
   page query answers the asked-for slice of the wanted users in the asked-for order, and the count
   query their number.
   */
  method BuildList(filter: Filter, ghost like: Like, ghost collation: Collation)
    returns (query: Query<Column>, params: seq<Value>, queryArgs: seq<Value>)
    ensures query == ListQuery(filter) && params == ListParams(filter) && queryArgs == PageArgs(filter)
    ensures |params| == WhereHoles(query.where) && |queryArgs| == QueryHoles(query)
    ensures forall u: User :: Matches(query.where, params, RowOf(u), like) <==> Wanted(filter, u, like)
    ensures forall table: Users, page: seq<Row> ::
              Answers(query, queryArgs, RowsOf(table), like, collation, page)
              <==> filter.limit >= 0 && filter.offset >= 0
                   && IsPage(WantedRows(filter, table, like), Ahead(filter.sort, collation),
                         filter.limit, filter.offset, page)
    ensures forall table: Users | Keyed(table) ::
              Count(query, params, RowsOf(table), like) == |WantedRows(filter, table, like)|
  {
    var where: seq<Condition<Column>> := [IsNull(DeletedAt)];
    params := [];
    if filter.search != "" {
      where := where + [LikeEither(Email, Name)];
      params := params + [Pattern(filter.search), Pattern(filter.search)];
    }
    var orderBy, direction := CreatedAt, Descending;
    if Contains(filter.sort, "name") {
      orderBy, direction := Name, Ascending;
    }
    query := Query(where, orderBy, direction);
    queryArgs := params + [Num(filter.limit), Num(filter.offset)];
    assert where == ListWhere(filter) && params == ListParams(filter);
    WhereHolesAgree(filter);
    forall u: User {
      WhereMeans(filter, u, like);
    }
    forall table: Users, page: seq<Row>
      ensures Answers(query, queryArgs, RowsOf(table), like, collation, page)
              <==> filter.limit >= 0 && filter.offset >= 0
                   && IsPage(WantedRows(filter, table, like), Ahead(filter.sort, collation),
                         filter.limit, filter.offset, page)
    {
      ListAnswers(filter, table, like, collation, page);
    }
    forall table: Users | Keyed(table)
      ensures Count(query, params, RowsOf(table), like) == |WantedRows(filter, table, like)|
    {
      ListCounts(filter, table, like);
    }
  }

  predicate Keyed(table: Users) {
    forall k | k in table :: table[k].id == k
  }

  lemma WhereHolesAgree(filter: Filter)
    ensures |ListParams(filter)| == WhereHoles(ListWhere(filter))
  {
    WhereHolesOne<Column>(IsNull(DeletedAt));
    if filter.search != "" {
      WhereHolesOne<Column>(LikeEither(Email, Name));
      WhereHolesAppend<Column>([IsNull(DeletedAt)], [LikeEither(Email, Name)]);
    }
  }

  lemma WhereMeans(filter: Filter, u: User, like: Like)
    ensures |ListParams(filter)| == WhereHoles(ListWhere(filter))
    ensures Matches(ListWhere(filter), ListParams(filter), RowOf(u), like) <==> Wanted(filter, u, like)
  {
    MatchesOne(IsNull(DeletedAt), [], RowOf(u), like);
    if filter.search != "" {
      MatchesSnoc([IsNull(DeletedAt)], [], LikeEither(Email, Name), ListParams(filter), RowOf(u), like);
      assert [] + ListParams(filter) == ListParams(filter);
    }
  }

  lemma SelectedIsWanted(filter: Filter, table: Users, like: Like)
    ensures |ListParams(filter)| == WhereHoles(ListWhere(filter))
    ensures Selected(ListQuery(filter), ListParams(filter), RowsOf(table), like) == WantedRows(filter, table, like)
  {
    WhereHolesAgree(filter);
    forall k | k in table
      ensures Matches(ListWhere(filter), ListParams(filter), RowsOf(table)[k], like) <==> Wanted(filter, table[k], like)
    {
      WhereMeans(filter, table[k], like);
    }
  }

  /** The page query answers the slice of the wanted users that LIMIT and OFFSET ask for, in the order asked for. */
  lemma ListAnswers(filter: Filter, table: Users, like: Like, collation: Collation, page: seq<Row>)
    ensures Answers(ListQuery(filter), PageArgs(filter), RowsOf(table), like, collation, page)
            <==> filter.limit >= 0 && filter.offset >= 0
                 && IsPage(WantedRows(filter, table, like), Ahead(filter.sort, collation),
                       filter.limit, filter.offset, page)
  {
    SelectedIsWanted(filter, table, like);
    var q, rows, ahead := ListQuery(filter), WantedRows(filter, table, like), Ahead(filter.sort, collation);
    forall a, b | a in rows && b in rows
      ensures ahead(a, b) <==> OrderOf(q, collation)(a, b)
    {
      assert Cell(a, CreatedAt).Stamp? && Cell(b, CreatedAt).Stamp? && Cell(a, Name).Text? && Cell(b, Name).Text?;
    }
    AnswersIsPage(q, ListParams(filter), filter.limit, filter.offset, RowsOf(table), like, collation,
                  rows, ahead, page);
  }

  /** The count query counts all wanted users, whatever the slice. */
  lemma ListCounts(filter: Filter, table: Users, like: Like)
    requires Keyed(table)
    ensures |ListParams(filter)| == WhereHoles(ListWhere(filter))
    ensures Count(ListQuery(filter), ListParams(filter), RowsOf(table), like) == |WantedRows(filter, table, like)|
  {
    SelectedIsWanted(filter, table, like);
    CountsSelected(ListQuery(filter), ListParams(filter), RowsOf(table), like, Id);
  }

  // ---------------------------------------------------------------------------------------------
  // Walking by offset
  // ---------------------------------------------------------------------------------------------

  /** What the dashboard asks for; a numeric parameter that is missing or no number is None. */
  datatype Request = Request(search: string, limit: Option<int>, offset: Option<int>, sort: string) {
    function Limit(): nat { GetLimit(limit, 50, 200) }
  }

  function FilterOf(req: Request): Filter {
    Filter(req.search, req.Limit(), GetOffset(req.offset), req.sort)
  }

  /** What a request is about: the active users, those whose email or name contains the search if there is one. */
  predicate Concerns(req: Request, u: User, like: Like) {
    && u.deletedAt == None
    && (req.search == ""
        || like(Text(u.email), Text("%" + req.search + "%")) || like(Text(u.name), Text("%" + req.search + "%")))
  }

  /** A page is read as a whole: one row that cannot be read is an error for all of it. */
  function Scan(page: seq<Row>): Result<seq<Row>, UserError> {
    if forall i | 0 <= i < |page| :: Cell(page[i], LastPasswordHash) != Null then Ok(page) else Err(Database)
  }

  datatype Site = Site(table: Users, like: Like, collation: Collation) {
    function Wanted(req: Request): set<Row> {
      set k | k in table && Concerns(req, table[k], like) :: RowOf(table[k])
    }

    /** The built query can answer `page`. */
    ghost predicate Selects(req: Request, page: seq<Row>) {
      Answers(ListQuery(FilterOf(req)), PageArgs(FilterOf(req)), RowsOf(table), like, collation, page)
    }

    /** The answers at other offsets, before they are read. */
    ghost function Selections(req: Request): Answering<Row> {
      (offset, page) => Selects(req.(offset := Some(offset)), page)
    }
  }

  lemma SelectionIsPage(site: Site, req: Request, page: seq<Row>)
    ensures site.Selects(req, page)
            <==> IsPage(site.Wanted(req), Ahead(req.sort, site.collation), req.Limit(), GetOffset(req.offset), page)
  {
    ListAnswers(FilterOf(req), site.table, site.like, site.collation, page);
    ConcernsIsWanted(site, req);
  }

  /** The handler's filter asks for what the client asks for. */
  lemma ConcernsIsWanted(site: Site, req: Request)
    ensures WantedRows(FilterOf(req), site.table, site.like) == site.Wanted(req)
  {
    assert forall k | k in site.table ::
        Wanted(FilterOf(req), site.table[k], site.like) <==> Concerns(req, site.table[k], site.like);
  }

  /** A text contains the parts that it can be taken apart around. */
  lemma ContainsIff(s: string, part: string)
    ensures Contains(s, part) <==> exists a, b :: s == a + part + b
  {
    if Contains(s, part) {
      var i :| 0 <= i <= |s| && OccursAt(s, part, i);
      assert s == s[..i] + part + s[i + |part|..];
    }
    if a, b :| s == a + part + b {
      assert s[|a|..|a| + |part|] == part;
      assert OccursAt(s, part, |a|);
    }
  }

  /**
   What the database answers: users the request is about, none twice, as many as fit the page (50 if
   nothing is asked for, and 200 at most), and the number of all of them.
   */
  lemma SelectionMeans(site: Site, req: Request, page: seq<Row>)
    requires Keyed(site.table) && site.Selects(req, page)
    ensures forall r | r in page :: r in site.Wanted(req)
    ensures forall i, j | 0 <= i < j < |page| :: page[i] != page[j]
    ensures |page| == PageSize(req.limit, req.offset, 50, 200, |site.Wanted(req)|)
    ensures |ListParams(FilterOf(req))| == WhereHoles(ListWhere(FilterOf(req)))
    ensures Count(ListQuery(FilterOf(req)), ListParams(FilterOf(req)), RowsOf(site.table), site.like)
         == |site.Wanted(req)|
  {
    var rows, ahead := site.Wanted(req), Ahead(req.sort, site.collation);
    SelectionIsPage(site, req, page);
    ConcernsIsWanted(site, req);
    ListCounts(FilterOf(req), site.table, site.like);
    PageLength(rows, ahead, req.Limit(), GetOffset(req.offset), page);
    PageOrder(rows, ahead, req.Limit(), GetOffset(req.offset), page);
    forall r | r in page
      ensures r in rows
    {
      PageHolds(rows, ahead, req.Limit(), GetOffset(req.offset), page, r);
    }
  }

  /** By name if the sort parameter says "name" anywhere, and newest first if not. */
  lemma SelectionOrder(site: Site, req: Request, page: seq<Row>, i: nat, j: nat)
    requires site.Selects(req, page) && i < j < |page|
    ensures if exists a, b :: req.sort == a + "name" + b then
              site.collation(Cell(page[i], Name), Cell(page[j], Name))
            else
              && Cell(page[i], CreatedAt).Stamp? && Cell(page[j], CreatedAt).Stamp?
              && Cell(page[i], CreatedAt).time >= Cell(page[j], CreatedAt).time
  {
    SelectionIsPage(site, req, page);
    ContainsIff(req.sort, "name");
    PageOrder(site.Wanted(req), Ahead(req.sort, site.collation), req.Limit(), GetOffset(req.offset), page);
  }

  /** There is a selection for every request, as long as the database can rank the users. */
  lemma SomeSelection(site: Site, req: Request) returns (page: seq<Row>)
    requires Ranks(site.Wanted(req), Ahead(req.sort, site.collation))
    ensures site.Selects(req, page)
  {
    page := SomePage(site.Wanted(req), Ahead(req.sort, site.collation), req.Limit(), GetOffset(req.offset));
    SelectionIsPage(site, req, page);
  }

  lemma SelectionsArePages(site: Site, req: Request)
    ensures AnswersPages(site.Selections(req), site.Wanted(req), Ahead(req.sort, site.collation), req.Limit())
  {
    forall offset: nat, page: seq<Row> | site.Selections(req)(offset, page)
      ensures IsPage(site.Wanted(req), Ahead(req.sort, site.collation), req.Limit(), offset, page)
    {
      SelectionIsPage(site, req.(offset := Some(offset)), page);
      OffsetAsksForTheSame(site, req, Some(offset));
    }
  }

  lemma OffsetAsksForTheSame(site: Site, req: Request, offset: Option<int>)
    ensures site.Wanted(req.(offset := offset)) == site.Wanted(req)
  {
    var next := req.(offset := offset);
    assert forall k | k in site.table ::
        Concerns(next, site.table[k], site.like) <==> Concerns(req, site.table[k], site.like);
  }

  /** The pages that the database answers to successive requests, up to the last user. */
  ghost predicate IsOffsetWalk(site: Site, req: Request, pages: seq<seq<Row>>) {
    OffsetWalk(site.Selections(req), req.Limit(), 0, pages) && |pages| * req.Limit() >= |site.Wanted(req)|
  }

  /**
   Offset pages of users that the order keeps apart show each one the request is about once, in that
   order; and all of them are read exactly when all those users can be.
   */
  lemma OffsetPagesShowAll(site: Site, req: Request, pages: seq<seq<Row>>, full: seq<Row>)
    requires IsOffsetWalk(site, req, pages) && NoTies(site.Wanted(req), Ahead(req.sort, site.collation))
    requires Lists(full, site.Wanted(req)) && Ordered(full, Ahead(req.sort, site.collation))
    ensures Flatten(pages) == full
    ensures (forall i | 0 <= i < |pages| :: Scan(pages[i]) == Ok(pages[i]))
            <==> (forall k | k in site.table && Concerns(req, site.table[k], site.like) ::
                    site.table[k].lastPasswordHash != None)
  {
    SelectionsArePages(site, req);
    OffsetPagesAll(site.Selections(req), site.Wanted(req), Ahead(req.sort, site.collation), req.Limit(), pages, full);
    AllReadIff(pages);
    WantedReadableIff(site, req);
  }

  /** Every page is read exactly when every row on them can be. */
  lemma {:induction false} AllReadIff(pages: seq<seq<Row>>)
    ensures (forall i | 0 <= i < |pages| :: Scan(pages[i]) == Ok(pages[i]))
            <==> (forall r | r in Flatten(pages) :: Cell(r, LastPasswordHash) != Null)
  {
    if pages != [] {
      AllReadIff(pages[1..]);
      assert forall i | 0 < i < |pages| :: pages[i] == pages[1..][i - 1];
      assert (forall i | 0 <= i < |pages| :: Scan(pages[i]) == Ok(pages[i]))
          <==> Scan(pages[0]) == Ok(pages[0])
               && forall i | 0 <= i < |pages[1..]| :: Scan(pages[1..][i]) == Ok(pages[1..][i]);
      assert forall r | r in Flatten(pages) :: r in pages[0] || r in Flatten(pages[1..]);
    }
  }

  predicate Shows(page: seq<Row>, id: Uuid) {
    exists r :: r in page && Cell(r, Id) == Key(id)
  }

  /** A page that shows a user who cannot be read is an error. */
  lemma UnreadablePageFails(site: Site, req: Request, page: seq<Row>, id: Uuid)
    requires Keyed(site.table) && site.Selects(req, page)
    requires id in site.table && !Readable(site.table[id])
    requires Shows(page, id)
    ensures Scan(page) == Err(Database)
  {
    SelectionIsPage(site, req, page);
    var r :| r in page && Cell(r, Id) == Key(id);
    PageHolds(site.Wanted(req), Ahead(req.sort, site.collation), req.Limit(), GetOffset(req.offset), page, r);
    WantedIsUser(site, req, r, id);
  }

  lemma WantedIsUser(site: Site, req: Request, r: Row, id: Uuid)
    requires Keyed(site.table) && r in site.Wanted(req) && Cell(r, Id) == Key(id)
    ensures id in site.table && r == RowOf(site.table[id])
  {
    var k :| k in site.table && r == RowOf(site.table[k]);
    assert RowOf(site.table[k])[Id] == Key(k);
  }

  lemma WantedReadableIff(site: Site, req: Request)
    ensures (forall r | r in site.Wanted(req) :: Cell(r, LastPasswordHash) != Null)
            <==> (forall k | k in site.table && Concerns(req, site.table[k], site.like) ::
                    site.table[k].lastPasswordHash != None)
  {
    assert forall k | k in site.table ::
        Cell(RowOf(site.table[k]), LastPasswordHash) != Null <==> site.table[k].lastPasswordHash != None;
    assert forall k | k in site.table && Concerns(req, site.table[k], site.like) ::
        RowOf(site.table[k]) in site.Wanted(req);
  }
}
