/** Listing profiles: the query, the handler's cursor, and walks through the pages by cursor. */
module ProfileListing {
  import opened Common
  import opened Sql
  import opened ProfileModel
  import opened Paging

  datatype Filter = Filter(search: string, limit: nat, offset: nat, cursorTime: Option<Time>, userId: Uuid)

  // ---------------------------------------------------------------------------------------------
  // The query
  // ---------------------------------------------------------------------------------------------

  /** What the listing is about: the user's undeleted rows that match the search and precede the cursor. */
  predicate Wanted(filter: Filter, r: Row, like: Like) {
    && OwnedBy(r, filter.userId) && !Deleted(r)
    && (filter.search != "" ==>
          like(Cell(r, FirstName), Pattern(filter.search)) || like(Cell(r, LastName), Pattern(filter.search)))
    && (filter.cursorTime.Some? ==> Cell(r, CreatedAt).Stamp? && Cell(r, CreatedAt).time < filter.cursorTime.value)
  }

  function ListWhere(filter: Filter): seq<Condition<Column>> {
    [Equals(UserId), IsNull(DeletedAt)]
    + (if filter.search != "" then [LikeEither(FirstName, LastName)] else [])
    + (if filter.cursorTime.Some? then [Before(CreatedAt)] else [])
  }

  function ListArgs(filter: Filter): seq<Value> {
    [Key(filter.userId)]
    + (if filter.search != "" then [Pattern(filter.search), Pattern(filter.search)] else [])
    + (if filter.cursorTime.Some? then [Stamp(filter.cursorTime.value)] else [])
  }

  function ListQuery(filter: Filter): Query<Column> {
    Query(ListWhere(filter), CreatedAt, Descending)
  }

  function PageArgs(filter: Filter): seq<Value> {
    ListArgs(filter) + [Num(filter.limit), Num(filter.offset)]
  }

  /**
   Builds the query and the arguments of the count query and of the page query. On every table the
   page query answers the asked-for slice of the wanted rows, newest first, and the count query
   their number.
   */
  method BuildList(filter: Filter, ghost like: Like, ghost collation: Collation)
    returns (query: Query<Column>, countArgs: seq<Value>, queryArgs: seq<Value>)
    ensures query == ListQuery(filter) && countArgs == ListArgs(filter) && queryArgs == PageArgs(filter)
    ensures |countArgs| == WhereHoles(query.where) && |queryArgs| == QueryHoles(query)
    ensures forall r: Row :: Matches(query.where, countArgs, r, like) <==> Wanted(filter, r, like)
    ensures forall table: Rows, page: seq<Row> | WellFormed(table) ::
              Answers(query, queryArgs, table, like, collation, page)
              <==> IsPage(WantedRows(filter, table, like), Newer, filter.limit, filter.offset, page)
    ensures forall table: Rows | WellFormed(table) ::
              Count(query, countArgs, table, like) == |WantedRows(filter, table, like)|
  {
    var where: seq<Condition<Column>> := [Equals(UserId), IsNull(DeletedAt)];
    var args := [Key(filter.userId)];
    if filter.search != "" {
      args := args + [Pattern(filter.search), Pattern(filter.search)];
      where := where + [LikeEither(FirstName, LastName)];
    }
    if filter.cursorTime.Some? {
      args := args + [Stamp(filter.cursorTime.value)];
      where := where + [Before(CreatedAt)];
    }
    countArgs := args;
    query := Query(where, CreatedAt, Descending);
    queryArgs := countArgs + [Num(filter.limit), Num(filter.offset)];
    assert where == ListWhere(filter) && args == ListArgs(filter);
    forall r: Row {
      WhereMeans(filter, r, like);
    }
    WhereMeans(filter, map[], like);
    forall table: Rows, page: seq<Row> | WellFormed(table)
      ensures Answers(query, queryArgs, table, like, collation, page)
              <==> IsPage(WantedRows(filter, table, like), Newer, filter.limit, filter.offset, page)
    {
      ListAnswers(filter, table, like, collation, page);
    }
    forall table: Rows | WellFormed(table)
      ensures Count(query, countArgs, table, like) == |WantedRows(filter, table, like)|
    {
      ListCounts(filter, table, like);
    }
  }

  lemma WhereMeans(filter: Filter, r: Row, like: Like)
    ensures |ListArgs(filter)| == WhereHoles(ListWhere(filter))
    ensures Matches(ListWhere(filter), ListArgs(filter), r, like) <==> Wanted(filter, r, like)
  {
    var where, args := [Equals(UserId), IsNull(DeletedAt)], [Key(filter.userId)];
    BaseMeans(filter.userId, like);
    if filter.search != "" {
      var patterns := [Pattern(filter.search), Pattern(filter.search)];
      MatchesSnoc(where, args, LikeEither(FirstName, LastName), patterns, r, like);
      where, args := where + [LikeEither(FirstName, LastName)], args + patterns;
    }
    if filter.cursorTime.Some? {
      MatchesSnoc(where, args, Before(CreatedAt), [Stamp(filter.cursorTime.value)], r, like);
      where, args := where + [Before(CreatedAt)], args + [Stamp(filter.cursorTime.value)];
    }
    assert ListWhere(filter) == where && ListArgs(filter) == args;
  }

  lemma BaseMeans(user: Uuid, like: Like)
    ensures var where := [Equals(UserId), IsNull(DeletedAt)];
            && WhereHoles(where) == 1
            && forall r: Row :: Matches(where, [Key(user)], r, like) <==> OwnedBy(r, user) && !Deleted(r)
  {
    var where := [Equals(UserId), IsNull(DeletedAt)];
    assert where == [Equals(UserId)] + [IsNull(DeletedAt)] && [Key(user)] == [Key(user)] + [];
    forall r: Row
      ensures WhereHoles(where) == 1
      ensures Matches(where, [Key(user)], r, like) <==> OwnedBy(r, user) && !Deleted(r)
    {
      MatchesOne(Equals(UserId), [Key(user)], r, like);
      MatchesSnoc([Equals(UserId)], [Key(user)], IsNull(DeletedAt), [], r, like);
    }
    MatchesOne(Equals(UserId), [Key(user)], map[], like);
    MatchesSnoc([Equals(UserId)], [Key(user)], IsNull(DeletedAt), [], map[], like);
  }

  /** The rows that a listing is about. */
  function WantedRows(filter: Filter, table: Rows, like: Like): set<Row> {
    set k | k in table && Wanted(filter, table[k], like) :: table[k]
  }

  lemma SelectedIsWanted(filter: Filter, table: Rows, like: Like)
    ensures |ListArgs(filter)| == WhereHoles(ListWhere(filter))
    ensures Selected(ListQuery(filter), ListArgs(filter), table, like) == WantedRows(filter, table, like)
  {
    WhereMeans(filter, map[], like);
    forall k | k in table
      ensures Matches(ListWhere(filter), ListArgs(filter), table[k], like) <==> Wanted(filter, table[k], like)
    {
      WhereMeans(filter, table[k], like);
    }
  }

  /** The page query answers the slice of the wanted rows, newest first, that LIMIT and OFFSET ask for. */
  lemma ListAnswers(filter: Filter, table: Rows, like: Like, collation: Collation, page: seq<Row>)
    requires WellFormed(table)
    ensures Answers(ListQuery(filter), PageArgs(filter), table, like, collation, page)
            <==> IsPage(WantedRows(filter, table, like), Newer, filter.limit, filter.offset, page)
  {
    SelectedIsWanted(filter, table, like);
    var q, rows := ListQuery(filter), WantedRows(filter, table, like);
    forall a, b | a in rows && b in rows
      ensures Newer(a, b) <==> OrderOf(q, collation)(a, b)
    {
      assert IsProfile(a) && IsProfile(b);
    }
    AnswersIsPage(q, ListArgs(filter), filter.limit, filter.offset, table, like, collation, rows, Newer, page);
  }

  /** The count query counts all wanted rows, whatever the slice. */
  lemma ListCounts(filter: Filter, table: Rows, like: Like)
    requires WellFormed(table)
    ensures |ListArgs(filter)| == WhereHoles(ListWhere(filter))
    ensures Count(ListQuery(filter), ListArgs(filter), table, like) == |WantedRows(filter, table, like)|
  {
    SelectedIsWanted(filter, table, like);
    CountsSelected(ListQuery(filter), ListArgs(filter), table, like, Id);
  }

  /** No deleted profile and no other user's profile is ever listed. */
  lemma ListedAreVisible(filter: Filter, table: Rows, like: Like, r: Row)
    requires WellFormed(table) && r in WantedRows(filter, table, like)
    ensures Visible(table, IdOf(r), filter.userId) && table[IdOf(r)] == r
  {
  }

  // ---------------------------------------------------------------------------------------------
  // The handler
  // ---------------------------------------------------------------------------------------------

  /** The cursor parameter: absent, a date-time (section 5.6 of RFC 3339), or unreadable and then ignored. */
  datatype Cursor = NoCursor | Instant(at: Time) | Unreadable

  /** What a client asks the handler for; a numeric parameter that is missing or no number is None. */
  datatype Request = Request(user: Uuid, search: string, cursor: Cursor, limit: Option<int>, offset: Option<int>) {
    function Limit(): nat { GetLimit(limit, 20, 100) }
  }

  function FilterOf(req: Request): Filter {
    Filter(req.search, req.Limit(), GetOffset(req.offset),
           if req.cursor.Instant? then Some(req.cursor.at) else None, req.user)
  }

  /**
   What a request is about: the client's own undeleted profiles, those whose first or last name
   contains the search if there is one, and from before the cursor if there is one.
   */
  predicate Concerns(req: Request, r: Row, like: Like) {
    && Cell(r, UserId) == Key(req.user) && Cell(r, DeletedAt) == Null
    && (req.search == ""
        || like(Cell(r, FirstName), Text("%" + req.search + "%"))
        || like(Cell(r, LastName), Text("%" + req.search + "%")))
    && match req.cursor
       case Instant(at) => Cell(r, CreatedAt).Stamp? && Cell(r, CreatedAt).time < at
       case _ => true
  }

  /** An unchanging database: the profiles, and what its comparisons are. */
  datatype Database = Database(table: Rows, like: Like, collation: Collation) {
    predicate Valid() { WellFormed(table) }

    /** The rows that the request is about. */
    function Wanted(req: Request): set<Row> {
      set k | k in table && Concerns(req, table[k], like) :: table[k]
    }

    /** The built query can answer `page` to the request. */
    ghost predicate Responds(req: Request, page: seq<Row>) {
      Answers(ListQuery(FilterOf(req)), PageArgs(FilterOf(req)), table, like, collation, page)
    }

    /** The responses to the request at other offsets. */
    ghost function Responses(req: Request): Answering<Row> {
      (offset, page) => Responds(req.(offset := Some(offset)), page)
    }
  }

  function CreatedOf(r: Row): Time {
    var v := Cell(r, CreatedAt);
    if v.Stamp? then v.time else 0
  }

  function LastOf(page: seq<Row>): Row
    requires page != []
  {
    page[|page| - 1]
  }

  /** The cursor to the next page: the last row's creation time, printed to the whole second. */
  function NextCursor(page: seq<Row>): Cursor {
    if page == [] then NoCursor else Instant(WholeSecond(CreatedOf(LastOf(page))))
  }

  // ---------------------------------------------------------------------------------------------
  // Walking by cursor
  // ---------------------------------------------------------------------------------------------

  predicate Newer(a: Row, b: Row) {
    CreatedOf(a) >= CreatedOf(b)
  }

  lemma ResponseIsPage(db: Database, req: Request, page: seq<Row>)
    requires db.Valid()
    ensures db.Responds(req, page) <==> IsPage(db.Wanted(req), Newer, req.Limit(), GetOffset(req.offset), page)
  {
    ListAnswers(FilterOf(req), db.table, db.like, db.collation, page);
    ConcernsIsWanted(db, req);
  }

  /** The handler's filter asks for what the client asks for. */
  lemma ConcernsIsWanted(db: Database, req: Request)
    ensures WantedRows(FilterOf(req), db.table, db.like) == db.Wanted(req)
  {
    assert forall k | k in db.table ::
        Wanted(FilterOf(req), db.table[k], db.like) <==> Concerns(req, db.table[k], db.like);
  }

  /**
   What a client gets: rows the request is about, none twice, newest first, as many as fit the page
   (20 if nothing is asked for, and 100 at most), and the number of all of them.
   */
  lemma ResponseMeans(db: Database, req: Request, page: seq<Row>)
    requires db.Valid() && db.Responds(req, page)
    ensures forall r | r in page :: r in db.Wanted(req)
    ensures forall i, j | 0 <= i < j < |page| ::
              page[i] != page[j] && Cell(page[i], CreatedAt).Stamp? && Cell(page[j], CreatedAt).Stamp?
              && Cell(page[i], CreatedAt).time >= Cell(page[j], CreatedAt).time
    ensures |page| == PageSize(req.limit, req.offset, 20, 100, |db.Wanted(req)|)
    ensures |ListArgs(FilterOf(req))| == WhereHoles(ListWhere(FilterOf(req)))
    ensures Count(ListQuery(FilterOf(req)), ListArgs(FilterOf(req)), db.table, db.like) == |db.Wanted(req)|
  {
    ResponseIsPage(db, req, page);
    ConcernsIsWanted(db, req);
    ListCounts(FilterOf(req), db.table, db.like);
    PageLength(db.Wanted(req), Newer, req.Limit(), GetOffset(req.offset), page);
    PageOrder(db.Wanted(req), Newer, req.Limit(), GetOffset(req.offset), page);
    forall r | r in page
      ensures r in db.Wanted(req) && Cell(r, CreatedAt).Stamp?
    {
      PageHolds(db.Wanted(req), Newer, req.Limit(), GetOffset(req.offset), page, r);
      assert forall k | k in db.table :: IsProfile(db.table[k]);
    }
  }

  /** And there is a response to every request. */
  lemma SomeResponse(db: Database, req: Request) returns (page: seq<Row>)
    requires db.Valid()
    ensures db.Responds(req, page)
  {
    page := SomePage(db.Wanted(req), Newer, req.Limit(), GetOffset(req.offset));
    ResponseIsPage(db, req, page);
  }

  lemma ResponsesArePages(db: Database, req: Request)
    requires db.Valid()
    ensures AnswersPages(db.Responses(req), db.Wanted(req), Newer, req.Limit())
  {
    forall offset: nat, page: seq<Row> | db.Responses(req)(offset, page)
      ensures IsPage(db.Wanted(req), Newer, req.Limit(), offset, page)
    {
      ResponseIsPage(db, req.(offset := Some(offset)), page);
      OffsetAsksForTheSame(db, req, Some(offset));
    }
  }

  lemma OffsetAsksForTheSame(db: Database, req: Request, offset: Option<int>)
    ensures db.Wanted(req.(offset := offset)) == db.Wanted(req)
  {
    var next := req.(offset := offset);
    assert forall k | k in db.table :: Concerns(next, db.table[k], db.like) <==> Concerns(req, db.table[k], db.like);
  }

  /** Offset pages of profiles created at different times show each wanted one once, newest first. */
  lemma OffsetPagesShowAll(db: Database, req: Request, pages: seq<seq<Row>>, full: seq<Row>)
    requires db.Valid() && OffsetWalk(db.Responses(req), req.Limit(), 0, pages)
    requires forall a, b | a in db.Wanted(req) && b in db.Wanted(req) && CreatedOf(a) == CreatedOf(b) :: a == b
    requires Lists(full, db.Wanted(req)) && Ordered(full, Newer)
    requires |pages| * req.Limit() >= |db.Wanted(req)|
    ensures Flatten(pages) == full
  {
    ResponsesArePages(db, req);
    OffsetPagesAll(db.Responses(req), db.Wanted(req), Newer, req.Limit(), pages, full);
  }

  /** The wanted rows that a request with this cursor selects from; `rows` are those of the first request. */
  function Remaining(rows: set<Row>, cursor: Cursor): set<Row> {
    set r | r in rows && (cursor.Instant? ==> CreatedOf(r) < cursor.at)
  }

  /** That is what the filter says. */
  lemma RemainingIsWanted(db: Database, req: Request)
    requires db.Valid()
    ensures Remaining(db.Wanted(req.(cursor := NoCursor)), req.cursor) == db.Wanted(req)
  {
    assert forall k | k in db.table :: IsProfile(db.table[k]);
  }

  /** Successive non-empty pages, each asked for with the cursor the one before returned, at offset 0. */
  ghost predicate IsWalk(rows: set<Row>, limit: nat, cursor: Cursor, pages: seq<seq<Row>>)
    decreases |pages|
  {
    pages == []
    || (pages[0] != [] && IsPage(Remaining(rows, cursor), Newer, limit, 0, pages[0])
        && IsWalk(rows, limit, NextCursor(pages[0]), pages[1..]))
  }

  function CursorAfter(cursor: Cursor, pages: seq<seq<Row>>): Cursor {
    if pages == [] then cursor else NextCursor(pages[|pages| - 1])
  }

  /** The next request after the walk answers with an empty page. */
  ghost predicate Finished(rows: set<Row>, limit: nat, cursor: Cursor, pages: seq<seq<Row>>) {
    IsPage(Remaining(rows, CursorAfter(cursor, pages)), Newer, limit, 0, [])
  }

  predicate SameSecond(a: Row, b: Row) {
    WholeSecond(CreatedOf(a)) == WholeSecond(CreatedOf(b))
  }

  /** A row skipped by some page: it shares the second of the page's last row without being on the page. */
  predicate Skipped(pages: seq<seq<Row>>, r: Row) {
    exists k | 0 <= k < |pages| :: pages[k] != [] && SameSecond(r, LastOf(pages[k])) && r !in pages[k]
  }

  /** A page holds the newest of the remaining rows. */
  lemma PageIsTop(rows: set<Row>, limit: nat, page: seq<Row>)
    requires IsPage(rows, Newer, limit, 0, page)
    ensures forall r | r in page :: r in rows
    ensures forall i, j | 0 <= i < j < |page| :: page[i] != page[j] && Newer(page[i], page[j])
    ensures page != [] ==> forall r | r in rows && r !in page :: Newer(LastOf(page), r)
    ensures page == [] && limit > 0 ==> rows == {}
  {
    var full :| Lists(full, rows) && Ordered(full, Newer) && page == Slice(full, 0, limit);
    assert page == full[..Min(limit, |full|)];
    assert forall n | 0 <= n < |page| :: full[n] == page[n];
    forall r | r in rows && r !in page
      ensures page != [] ==> Newer(LastOf(page), r)
      ensures limit > 0 ==> page != []
    {
      assert r in full;
      var i :| 0 <= i < |full| && full[i] == r;
      assert i >= |page|;
    }
  }

  /** Rows of later pages are older than the cursor, hence older than every row of this page. */
  lemma {:induction false} WalkStaysBefore(rows: set<Row>, limit: nat, cursor: Cursor, pages: seq<seq<Row>>, r: Row)
    requires IsWalk(rows, limit, cursor, pages) && r in Flatten(pages)
    ensures r in Remaining(rows, cursor)
    decreases |pages|
  {
    PageIsTop(Remaining(rows, cursor), limit, pages[0]);
    if r !in pages[0] {
      assert r in Flatten(pages[1..]);
      WalkStaysBefore(rows, limit, NextCursor(pages[0]), pages[1..], r);
      assert LastOf(pages[0]) in Remaining(rows, cursor);
    }
  }

  /** A walk never repeats a row, and goes from newer to older throughout. */
  lemma {:induction false} WalkDescends(rows: set<Row>, limit: nat, cursor: Cursor, pages: seq<seq<Row>>)
    requires IsWalk(rows, limit, cursor, pages)
    ensures var all := Flatten(pages);
            forall i, j | 0 <= i < j < |all| :: all[i] != all[j] && Newer(all[i], all[j])
    decreases |pages|
  {
    if pages != [] {
      var page, rest := pages[0], Flatten(pages[1..]);
      PageIsTop(Remaining(rows, cursor), limit, page);
      WalkDescends(rows, limit, NextCursor(page), pages[1..]);
      forall i, j | 0 <= i < |page| && 0 <= j < |rest|
        ensures page[i] != rest[j] && Newer(page[i], rest[j])
      {
        WalkStaysBefore(rows, limit, NextCursor(page), pages[1..], rest[j]);
        assert i == |page| - 1 || Newer(page[i], LastOf(page));
      }
    }
  }

  /** Every walk ends: it has no more pages than there are rows. */
  lemma {:induction false} WalkTerminates(rows: set<Row>, limit: nat, cursor: Cursor, pages: seq<seq<Row>>)
    requires IsWalk(rows, limit, cursor, pages)
    ensures |pages| <= |Remaining(rows, cursor)|
    decreases |pages|
  {
    if pages != [] {
      var now, later, last := Remaining(rows, cursor), Remaining(rows, NextCursor(pages[0])), LastOf(pages[0]);
      PageIsTop(now, limit, pages[0]);
      WalkTerminates(rows, limit, NextCursor(pages[0]), pages[1..]);
      assert last in pages[0] && last in now && last !in later;
      assert later <= now - {last};
      Smaller(later, now - {last});
      assert |now - {last}| == |now| - 1;
    }
  }

  lemma {:induction false} Smaller<T>(a: set<T>, b: set<T>)
    requires a <= b
    ensures |a| <= |b|
  {
    if a != {} {
      var x :| x in a;
      Smaller(a - {x}, b - {x});
    }
  }

  /**
   Exactly the skipped rows are missed: a finished walk shows every row that was there, except those
   that share the second of some page's last row and did not make it onto that page.
   */
  lemma {:induction false} WalkMissesExactlySkipped(
    rows: set<Row>, limit: nat, cursor: Cursor, pages: seq<seq<Row>>, r: Row)
    requires limit > 0 && IsWalk(rows, limit, cursor, pages) && Finished(rows, limit, cursor, pages)
    requires r in Remaining(rows, cursor)
    ensures r in Flatten(pages) <==> !Skipped(pages, r)
    decreases |pages|
  {
    if pages == [] {
      PageIsTop(Remaining(rows, cursor), limit, []);
    } else {
      var page, next := pages[0], NextCursor(pages[0]);
      PageIsTop(Remaining(rows, cursor), limit, page);
      SkippedSplit(pages, r);
      if r in page {
        LaterPagesAreOtherSeconds(rows, limit, next, pages[1..], r);
      } else if SameSecond(r, LastOf(page)) {
        if r in Flatten(pages[1..]) {
          WalkStaysBefore(rows, limit, next, pages[1..], r);
        }
      } else {
        SecondsOrder(CreatedOf(r), CreatedOf(LastOf(page)));
        assert CursorAfter(next, pages[1..]) == CursorAfter(cursor, pages);
        WalkMissesExactlySkipped(rows, limit, next, pages[1..], r);
      }
    }
  }

  lemma SecondsOrder(a: Time, b: Time)
    requires a <= b && WholeSecond(a) != WholeSecond(b)
    ensures a < WholeSecond(b)
  {
  }

  lemma SkippedSplit(pages: seq<seq<Row>>, r: Row)
    requires pages != [] && pages[0] != []
    ensures Skipped(pages, r) <==> (SameSecond(r, LastOf(pages[0])) && r !in pages[0]) || Skipped(pages[1..], r)
  {
    if Skipped(pages[1..], r) {
      var k :| 0 <= k < |pages| - 1 && pages[1..][k] != [] && SameSecond(r, LastOf(pages[1..][k]))
          && r !in pages[1..][k];
      assert pages[k + 1] == pages[1..][k];
    }
    if Skipped(pages, r) {
      var k :| 0 <= k < |pages| && pages[k] != [] && SameSecond(r, LastOf(pages[k])) && r !in pages[k];
      assert k > 0 ==> pages[1..][k - 1] == pages[k];
    }
  }

  /** A row at or after the cursor shares its second with no row of the pages that follow. */
  lemma LaterPagesAreOtherSeconds(rows: set<Row>, limit: nat, cursor: Cursor, pages: seq<seq<Row>>, r: Row)
    requires IsWalk(rows, limit, cursor, pages)
    requires cursor.Instant? && cursor.at == WholeSecond(cursor.at) <= CreatedOf(r)
    ensures !Skipped(pages, r)
  {
    forall k | 0 <= k < |pages| && pages[k] != []
      ensures !SameSecond(r, LastOf(pages[k]))
    {
      InFlatten(pages, k, LastOf(pages[k]));
      WalkStaysBefore(rows, limit, cursor, pages, LastOf(pages[k]));
      SecondsApart(CreatedOf(LastOf(pages[k])), cursor.at, CreatedOf(r));
    }
  }

  lemma SecondsApart(a: Time, c: Time, b: Time)
    requires a < c == WholeSecond(c) <= b
    ensures WholeSecond(a) < WholeSecond(b)
  {
  }

  lemma {:induction false} InFlatten<R>(pages: seq<seq<R>>, k: nat, r: R)
    requires k < |pages| && r in pages[k]
    ensures r in Flatten(pages)
  {
    if k > 0 {
      InFlatten(pages[1..], k - 1, r);
    }
  }

  // ---------------------------------------------------------------------------------------------
  // Which tables a walk shows completely
  // ---------------------------------------------------------------------------------------------

  function AtLeastAsNew(rows: set<Row>, t: Time): set<Row> {
    set r | r in rows && CreatedOf(r) >= t
  }

  function Older(rows: set<Row>, t: Time): set<Row> {
    set r | r in rows && CreatedOf(r) < t
  }

  /** With `limit` rows to a page, a first page can end with `r`: it is as old as any on it. */
  predicate EndsPage(rows: set<Row>, limit: nat, r: Row) {
    && r in rows
    && |AtLeastAsNew(rows, CreatedOf(r) + 1)| < limit
    && Min(limit, |rows|) <= |AtLeastAsNew(rows, CreatedOf(r))|
  }

  /**
   No page boundary splits a second: no more rows than fit the page are in or after the second in
   which the page's oldest row was created, and the same holds for the rows before that second.
   */
  ghost predicate Unsplit(rows: set<Row>, limit: nat)
    decreases |rows|
  {
    rows == {}
    || exists r :: EndsPage(rows, limit, r)
                   && var from := WholeSecond(CreatedOf(r));
                   |AtLeastAsNew(rows, from)| <= limit
                   && (OlderIsLess(rows, from, r); Unsplit(Older(rows, from), limit))
  }

  lemma OlderIsLess(rows: set<Row>, t: Time, r: Row)
    requires r in rows && t <= CreatedOf(r)
    ensures |Older(rows, t)| < |rows|
  {
    Smaller(Older(rows, t), rows - {r});
  }

  /** All pages there can be end equally old. */
  lemma OneEnd(rows: set<Row>, limit: nat, r: Row, r': Row)
    requires EndsPage(rows, limit, r) && EndsPage(rows, limit, r')
    ensures CreatedOf(r) <= CreatedOf(r')
  {
    if CreatedOf(r) > CreatedOf(r') {
      NewerAreFewer(rows, CreatedOf(r), r');
    }
  }

  lemma NewerAreFewer(rows: set<Row>, t: Time, r: Row)
    requires r in rows && CreatedOf(r) < t
    ensures |AtLeastAsNew(rows, t)| <= |AtLeastAsNew(rows, CreatedOf(r) + 1)| < |rows|
  {
    var newer := AtLeastAsNew(rows, CreatedOf(r) + 1);
    Smaller(AtLeastAsNew(rows, t), newer);
    Smaller(newer, rows - {r});
    assert |rows - {r}| == |rows| - 1;
  }

  lemma UnsplitAt(rows: set<Row>, limit: nat, r: Row)
    requires EndsPage(rows, limit, r)
    ensures var from := WholeSecond(CreatedOf(r));
            Unsplit(rows, limit) <==> |AtLeastAsNew(rows, from)| <= limit && Unsplit(Older(rows, from), limit)
  {
    OlderIsLess(rows, WholeSecond(CreatedOf(r)), r);
    if Unsplit(rows, limit) {
      var r' :| EndsPage(rows, limit, r')
                && |AtLeastAsNew(rows, WholeSecond(CreatedOf(r')))| <= limit
                && (OlderIsLess(rows, WholeSecond(CreatedOf(r')), r');
                    Unsplit(Older(rows, WholeSecond(CreatedOf(r'))), limit));
      OneEnd(rows, limit, r, r');
      OneEnd(rows, limit, r', r);
    }
  }

  function Shown(page: seq<Row>): set<Row> {
    set r | r in page
  }

  lemma PageEnds(rows: set<Row>, limit: nat, page: seq<Row>)
    requires page != [] && IsPage(rows, Newer, limit, 0, page)
    ensures EndsPage(rows, limit, LastOf(page))
    ensures |Shown(page)| == Min(limit, |rows|)
  {
    PageFills(rows, limit, page);
    PageBounds(rows, limit, page);
    EndsShown(rows, limit, LastOf(page), Shown(page));
  }

  lemma EndsShown(rows: set<Row>, limit: nat, last: Row, shown: set<Row>)
    requires last in shown && last in rows && |shown| == Min(limit, |rows|)
    requires AtLeastAsNew(rows, CreatedOf(last) + 1) <= shown - {last} && shown <= AtLeastAsNew(rows, CreatedOf(last))
    ensures EndsPage(rows, limit, last)
  {
    Smaller(AtLeastAsNew(rows, CreatedOf(last) + 1), shown - {last});
    Smaller(shown, AtLeastAsNew(rows, CreatedOf(last)));
  }

  /** Everything newer than a page's last row is on it, and everything on it is at least as new. */
  lemma PageBounds(rows: set<Row>, limit: nat, page: seq<Row>)
    requires page != [] && IsPage(rows, Newer, limit, 0, page)
    ensures var last := LastOf(page);
            && last in Shown(page) && last in rows
            && AtLeastAsNew(rows, CreatedOf(last) + 1) <= Shown(page) - {last}
            && Shown(page) <= AtLeastAsNew(rows, CreatedOf(last))
  {
    PageIsTop(rows, limit, page);
    forall r | r in page
      ensures Newer(r, LastOf(page))
    {
      var i :| 0 <= i < |page| && page[i] == r;
    }
  }

  lemma PageFills(rows: set<Row>, limit: nat, page: seq<Row>)
    requires IsPage(rows, Newer, limit, 0, page)
    ensures |Shown(page)| == |page| == Min(limit, |rows|)
  {
    var full :| Lists(full, rows) && Ordered(full, Newer) && page == Slice(full, 0, limit);
    ListsCount(full, rows);
    ListsCount(page, Shown(page));
  }

  /** A page holds all rows in or after its last row's second exactly when there are no more than fit it. */
  lemma PageSplitsNothingIff(rows: set<Row>, limit: nat, page: seq<Row>)
    requires page != [] && IsPage(rows, Newer, limit, 0, page)
    ensures var now := AtLeastAsNew(rows, WholeSecond(CreatedOf(LastOf(page))));
            Shown(page) <= now && (now <= Shown(page) <==> |now| <= limit)
  {
    var now := AtLeastAsNew(rows, WholeSecond(CreatedOf(LastOf(page))));
    PageEnds(rows, limit, page);
    PageBounds(rows, limit, page);
    Smaller(now, rows);
    if now <= Shown(page) {
      Smaller(now, Shown(page));
    }
    if |now| <= limit {
      SameSize(Shown(page), now);
    }
  }

  lemma SameSize<T>(a: set<T>, b: set<T>)
    requires a <= b && |b| <= |a|
    ensures a == b
  {
    assert |b - a| == |b| - |a|;
  }

  /**
   Whether a finished walk shows every row is settled by the creation times before it starts: it
   does exactly when no page boundary splits a second, however ties are ordered.
   */
  lemma {:induction false} WalkShowsAllIff(rows: set<Row>, limit: nat, cursor: Cursor, pages: seq<seq<Row>>)
    requires limit > 0 && IsWalk(rows, limit, cursor, pages) && Finished(rows, limit, cursor, pages)
    ensures Remaining(rows, cursor) <= Shown(Flatten(pages)) <==> Unsplit(Remaining(rows, cursor), limit)
    decreases |pages|
  {
    var left := Remaining(rows, cursor);
    if pages == [] {
      PageIsTop(left, limit, []);
    } else {
      var next, later := NextCursor(pages[0]), Flatten(pages[1..]);
      RestIsOlder(rows, limit, cursor, pages[0]);
      assert CursorAfter(next, pages[1..]) == CursorAfter(cursor, pages);
      WalkShowsAllIff(rows, limit, next, pages[1..]);
      LaterIsOlder(rows, limit, next, pages[1..]);
      FirstPageShowsAllIff(left, limit, pages[0], later);
    }
  }

  /** What remains after a page is what is older than the second its last row was created in. */
  lemma RestIsOlder(rows: set<Row>, limit: nat, cursor: Cursor, page: seq<Row>)
    requires page != [] && IsPage(Remaining(rows, cursor), Newer, limit, 0, page)
    ensures Remaining(rows, NextCursor(page)) == Older(Remaining(rows, cursor), WholeSecond(CreatedOf(LastOf(page))))
  {
    PageBounds(Remaining(rows, cursor), limit, page);
  }

  lemma FirstPageShowsAllIff(left: set<Row>, limit: nat, page: seq<Row>, later: seq<Row>)
    requires page != [] && IsPage(left, Newer, limit, 0, page)
    requires var before := Older(left, WholeSecond(CreatedOf(LastOf(page))));
             Shown(later) <= before && (before <= Shown(later) <==> Unsplit(before, limit))
    ensures left <= Shown(page + later) <==> Unsplit(left, limit)
  {
    PageEnds(left, limit, page);
    UnsplitAt(left, limit, LastOf(page));
    PageSplitsNothingIff(left, limit, page);
    ShownInParts(left, WholeSecond(CreatedOf(LastOf(page))), page, later);
  }

  lemma LaterIsOlder(rows: set<Row>, limit: nat, cursor: Cursor, pages: seq<seq<Row>>)
    requires IsWalk(rows, limit, cursor, pages)
    ensures Shown(Flatten(pages)) <= Remaining(rows, cursor)
  {
    forall r | r in Flatten(pages)
      ensures r in Remaining(rows, cursor)
    {
      WalkStaysBefore(rows, limit, cursor, pages, r);
    }
  }

  lemma ShownInParts(left: set<Row>, from: Time, page: seq<Row>, later: seq<Row>)
    requires Shown(page) <= AtLeastAsNew(left, from) && Shown(later) <= Older(left, from)
    ensures left <= Shown(page + later)
            <==> AtLeastAsNew(left, from) <= Shown(page) && Older(left, from) <= Shown(later)
  {
    var now, before := AtLeastAsNew(left, from), Older(left, from);
    assert left == now + before && now !! before;
    assert Shown(page + later) == Shown(page) + Shown(later);
  }

  predicate DistinctSeconds(rows: set<Row>) {
    forall a, b | a in rows && b in rows && SameSecond(a, b) :: a == b
  }

  lemma Oldest(rows: set<Row>) returns (r: Row)
    requires rows != {}
    ensures r in rows && forall q | q in rows :: Newer(q, r)
  {
    r :| r in rows;
    if rows - {r} != {} {
      var rest := Oldest(rows - {r});
      if CreatedOf(rest) < CreatedOf(r) {
        r := rest;
      }
      assert forall q | q in rows :: q == r || q in rows - {r} || Newer(q, r);
    } else {
      assert rows == {r};
    }
  }

  /** There is always a row that can end the first page: the search for it starts from the oldest rows. */
  lemma SomeRowEndsPage(rows: set<Row>, limit: nat) returns (r: Row)
    requires rows != {} && limit > 0
    ensures EndsPage(rows, limit, r)
  {
    r := Oldest(rows);
    assert AtLeastAsNew(rows, CreatedOf(r)) == rows;
    r := LaterEnd(rows, limit, r);
  }

  lemma {:induction false} LaterEnd(rows: set<Row>, limit: nat, r: Row) returns (end: Row)
    requires r in rows && limit > 0 && Min(limit, |rows|) <= |AtLeastAsNew(rows, CreatedOf(r))|
    ensures EndsPage(rows, limit, end)
    decreases |AtLeastAsNew(rows, CreatedOf(r))|
  {
    var newer := AtLeastAsNew(rows, CreatedOf(r) + 1);
    if |newer| < limit {
      end := r;
    } else {
      var next := Oldest(newer);
      assert newer == AtLeastAsNew(rows, CreatedOf(next));
      Smaller(newer, AtLeastAsNew(rows, CreatedOf(r)) - {r});
      end := LaterEnd(rows, limit, next);
    }
  }

  /** Where all seconds are distinct, no page boundary splits one. */
  lemma {:induction false} DistinctIsUnsplit(rows: set<Row>, limit: nat)
    requires DistinctSeconds(rows) && limit > 0
    ensures Unsplit(rows, limit)
    decreases |rows|
  {
    if rows != {} {
      var r := SomeRowEndsPage(rows, limit);
      var from, newer := WholeSecond(CreatedOf(r)), AtLeastAsNew(rows, CreatedOf(r) + 1);
      AloneInItsSecond(rows, r);
      Smaller(AtLeastAsNew(rows, from), newer + {r});
      OlderIsLess(rows, from, r);
      DistinctIsUnsplit(Older(rows, from), limit);
      UnsplitAt(rows, limit, r);
    }
  }

  lemma AloneInItsSecond(rows: set<Row>, r: Row)
    requires DistinctSeconds(rows) && r in rows
    ensures AtLeastAsNew(rows, WholeSecond(CreatedOf(r))) <= AtLeastAsNew(rows, CreatedOf(r) + 1) + {r}
  {
    forall q | q in rows && WholeSecond(CreatedOf(r)) <= CreatedOf(q) <= CreatedOf(r)
      ensures q == r
    {
      WithinSecond(CreatedOf(q), CreatedOf(r));
      assert SameSecond(q, r);
    }
  }

  lemma WithinSecond(a: Time, b: Time)
    requires WholeSecond(b) <= a <= b
    ensures WholeSecond(a) == WholeSecond(b)
  {
  }

  /** With one row to a page, a second that no boundary splits has one row. */
  lemma {:induction false} UnsplitSinglesAreDistinct(rows: set<Row>)
    requires Unsplit(rows, 1)
    ensures DistinctSeconds(rows)
    decreases |rows|
  {
    if rows != {} {
      var r := SomeRowEndsPage(rows, 1);
      var from := WholeSecond(CreatedOf(r));
      UnsplitAt(rows, 1, r);
      OlderIsLess(rows, from, r);
      UnsplitSinglesAreDistinct(Older(rows, from));
      OnlyOne(AtLeastAsNew(rows, from), r);
      DistinctOnBothSides(rows, r);
    }
  }

  lemma DistinctOnBothSides(rows: set<Row>, r: Row)
    requires var from := WholeSecond(CreatedOf(r));
             AtLeastAsNew(rows, from) == {r} && DistinctSeconds(Older(rows, from))
    ensures DistinctSeconds(rows)
  {
    forall a, b | a in rows && b in rows && SameSecond(a, b)
      ensures a == b
    {
      SameSide(CreatedOf(a), CreatedOf(b), CreatedOf(r));
      assert a in AtLeastAsNew(rows, WholeSecond(CreatedOf(r))) || a in Older(rows, WholeSecond(CreatedOf(r)));
      assert b in AtLeastAsNew(rows, WholeSecond(CreatedOf(r))) || b in Older(rows, WholeSecond(CreatedOf(r)));
    }
  }

  lemma OnlyOne<T>(s: set<T>, x: T)
    requires x in s && |s| <= 1
    ensures s == {x}
  {
    SameSize({x}, s);
  }

  /** Instants of one second lie on the same side of every whole second. */
  lemma SameSide(a: Time, b: Time, c: Time)
    requires WholeSecond(a) == WholeSecond(b)
    ensures a < WholeSecond(c) <==> b < WholeSecond(c)
  {
  }

  /** When no two rows were created in the same second, a finished walk from the start shows them all. */
  lemma WalkIsComplete(rows: set<Row>, limit: nat, pages: seq<seq<Row>>, r: Row)
    requires limit > 0 && IsWalk(rows, limit, NoCursor, pages) && Finished(rows, limit, NoCursor, pages)
    requires DistinctSeconds(rows) && r in rows
    ensures r in Flatten(pages)
  {
    assert Remaining(rows, NoCursor) == rows;
    DistinctIsUnsplit(rows, limit);
    WalkShowsAllIff(rows, limit, NoCursor, pages);
  }

  /** With one row to a page that condition is also needed. */
  lemma SingleStepWalkIff(rows: set<Row>, pages: seq<seq<Row>>)
    requires IsWalk(rows, 1, NoCursor, pages) && Finished(rows, 1, NoCursor, pages)
    ensures (forall r | r in rows :: r in Flatten(pages)) <==> DistinctSeconds(rows)
  {
    assert Remaining(rows, NoCursor) == rows;
    WalkShowsAllIff(rows, 1, NoCursor, pages);
    if Unsplit(rows, 1) {
      UnsplitSinglesAreDistinct(rows);
    }
    if DistinctSeconds(rows) {
      DistinctIsUnsplit(rows, 1);
    }
  }

  // ---------------------------------------------------------------------------------------------
  // Walks over requests
  // ---------------------------------------------------------------------------------------------

  /** Non-empty responses, each to the request with the cursor that the one before returned. */
  ghost predicate IsCursorWalk(db: Database, req: Request, pages: seq<seq<Row>>)
    decreases |pages|
  {
    pages == []
    || (pages[0] != [] && db.Responds(req, pages[0])
        && IsCursorWalk(db, req.(cursor := NextCursor(pages[0])), pages[1..]))
  }

  /** The next response may be empty. */
  ghost predicate WalkEnds(db: Database, req: Request, pages: seq<seq<Row>>) {
    db.Responds(req.(cursor := CursorAfter(req.cursor, pages)), [])
  }

  function AllRows(db: Database, req: Request): set<Row> {
    db.Wanted(req.(cursor := NoCursor))
  }

  lemma {:induction false} CursorWalkIsWalk(db: Database, req: Request, pages: seq<seq<Row>>)
    requires db.Valid() && GetOffset(req.offset) == 0 && IsCursorWalk(db, req, pages)
    ensures IsWalk(AllRows(db, req), req.Limit(), req.cursor, pages)
    decreases |pages|
  {
    if pages != [] {
      ResponseIsPage(db, req, pages[0]);
      RemainingIsWanted(db, req);
      CursorWalkIsWalk(db, req.(cursor := NextCursor(pages[0])), pages[1..]);
    }
  }

  lemma WalkEndsIsFinished(db: Database, req: Request, pages: seq<seq<Row>>)
    requires db.Valid() && GetOffset(req.offset) == 0 && WalkEnds(db, req, pages)
    ensures Finished(AllRows(db, req), req.Limit(), req.cursor, pages)
  {
    var last := req.(cursor := CursorAfter(req.cursor, pages));
    ResponseIsPage(db, last, []);
    RemainingIsWanted(db, last);
  }

  /**
   Walking a listing by `next_cursor`: the responses show only wanted rows, none twice, from newer
   to older; there are no more of them than wanted rows; and once they end they have shown all wanted
   rows exactly when no page boundary splits a second.
   */
  lemma CursorWalk(db: Database, req: Request, pages: seq<seq<Row>>)
    requires db.Valid() && GetOffset(req.offset) == 0 && IsCursorWalk(db, req, pages)
    ensures Shown(Flatten(pages)) <= db.Wanted(req)
    ensures var all := Flatten(pages);
            forall i, j | 0 <= i < j < |all| :: all[i] != all[j] && Newer(all[i], all[j])
    ensures |pages| <= |db.Wanted(req)|
    ensures WalkEnds(db, req, pages) ==>
              (Shown(Flatten(pages)) == db.Wanted(req) <==> Unsplit(db.Wanted(req), req.Limit()))
  {
    var rows, limit := AllRows(db, req), req.Limit();
    RemainingIsWanted(db, req);
    CursorWalkIsWalk(db, req, pages);
    LaterIsOlder(rows, limit, req.cursor, pages);
    WalkDescends(rows, limit, req.cursor, pages);
    WalkTerminates(rows, limit, req.cursor, pages);
    if WalkEnds(db, req, pages) {
      WalkEndsIsFinished(db, req, pages);
      WalkShowsAllIff(rows, limit, req.cursor, pages);
    }
  }

  /** Nothing deleted and nothing of another user's is ever in a response. */
  lemma ResponsesAreVisible(db: Database, req: Request, page: seq<Row>, r: Row)
    requires db.Valid() && db.Responds(req, page) && r in page
    ensures Visible(db.table, IdOf(r), req.user) && db.table[IdOf(r)] == r
  {
    ResponseIsPage(db, req, page);
    PageHolds(db.Wanted(req), Newer, req.Limit(), GetOffset(req.offset), page, r);
    ConcernsIsWanted(db, req);
    ListedAreVisible(FilterOf(req), db.table, db.like, r);
  }
}
