/** What LIMIT and OFFSET answer, whatever order the database gives to rows that tie, and walks through the pages. */
module Paging {
  import opened Common

  /** `full` lists the rows of `rows`, each once. */
  ghost predicate Lists<R(!new)>(full: seq<R>, rows: set<R>) {
    && (forall r :: r in full <==> r in rows)
    && forall i, j | 0 <= i < j < |full| :: full[i] != full[j]
  }

  ghost predicate Ordered<R>(full: seq<R>, le: (R, R) -> bool) {
    forall i, j | 0 <= i < j < |full| :: le(full[i], full[j])
  }

  function Slice<R>(full: seq<R>, offset: nat, limit: nat): seq<R> {
    full[Min(offset, |full|)..Min(offset + limit, |full|)]
  }

  /** An answer to `ORDER BY ... LIMIT limit OFFSET offset` over `rows`. */
  ghost predicate IsPage<R(!new)>(rows: set<R>, le: (R, R) -> bool, limit: nat, offset: nat, page: seq<R>) {
    exists full: seq<R> :: Lists(full, rows) && Ordered(full, le) && page == Slice(full, offset, limit)
  }

  /** No two different rows of `rows` tie. */
  ghost predicate NoTies<R(!new)>(rows: set<R>, le: (R, R) -> bool) {
    forall a, b | a in rows && b in rows && le(a, b) && le(b, a) :: a == b
  }

  /** Without ties there is one order only. */
  lemma {:induction false} OneOrder<R(!new)>(full: seq<R>, other: seq<R>, rows: set<R>, le: (R, R) -> bool)
    requires Lists(full, rows) && Lists(other, rows) && Ordered(full, le) && Ordered(other, le) && NoTies(rows, le)
    ensures full == other
    decreases |full|
  {
    if full == [] {
      assert forall i | 0 <= i < |other| :: other[i] in rows;
    } else {
      assert full[0] in other;
      FirstIsFirst(full, other, rows, le);
      ListsRest(full, rows);
      ListsRest(other, rows);
      OneOrder(full[1..], other[1..], rows - {full[0]}, le);
      assert full == [full[0]] + full[1..] && other == [other[0]] + other[1..];
    }
  }

  lemma FirstIsFirst<R(!new)>(full: seq<R>, other: seq<R>, rows: set<R>, le: (R, R) -> bool)
    requires Lists(full, rows) && Lists(other, rows) && Ordered(full, le) && Ordered(other, le) && NoTies(rows, le)
    requires full != []
    ensures other != [] && full[0] == other[0]
  {
    assert full[0] in rows && full[0] in other;
    var i :| 0 <= i < |other| && other[i] == full[0];
    assert other[0] in rows && other[0] in full;
    var j :| 0 <= j < |full| && full[j] == other[0];
  }

  lemma ListsRest<R(!new)>(full: seq<R>, rows: set<R>)
    requires full != [] && Lists(full, rows)
    ensures Lists(full[1..], rows - {full[0]})
  {
    forall r
      ensures r in full[1..] <==> r in rows - {full[0]}
    {
      if r in rows && r != full[0] {
        var i :| 0 <= i < |full| && full[i] == r;
        assert full[1..][i - 1] == r;
      }
      if r in full[1..] {
        var i :| 0 <= i < |full| - 1 && full[1..][i] == r;
        assert full[i + 1] == r;
      }
    }
  }

  function Flatten<R>(pages: seq<seq<R>>): seq<R> {
    if pages == [] then [] else pages[0] + Flatten(pages[1..])
  }

  /** What is asked for an offset, and the pages that may be the answer. */
  type Answering<!R> = (nat, seq<R>) -> bool

  /** The pages answer this offset and those that follow it in steps of `limit`. */
  ghost predicate OffsetWalk<R>(answers: Answering<R>, limit: nat, offset: nat, pages: seq<seq<R>>)
    decreases |pages|
  {
    pages == [] || (answers(offset, pages[0]) && OffsetWalk(answers, limit, offset + limit, pages[1..]))
  }

  /** Every answer is the page of `rows` at its offset. */
  ghost predicate AnswersPages<R(!new)>(answers: Answering<R>, rows: set<R>, le: (R, R) -> bool, limit: nat) {
    forall offset: nat, page: seq<R> :: answers(offset, page) ==> IsPage(rows, le, limit, offset, page)
  }

  /**
   Offset pages: asking for offsets o, o+L, o+2L, ... of rows that do not tie gives, page after page,
   the ordered list from `o` on, each row once.
   */
  lemma {:induction false} OffsetPages<R(!new)>(
    answers: Answering<R>, rows: set<R>, le: (R, R) -> bool, limit: nat, offset: nat, pages: seq<seq<R>>, full: seq<R>)
    requires AnswersPages(answers, rows, le, limit) && OffsetWalk(answers, limit, offset, pages)
    requires NoTies(rows, le) && Lists(full, rows) && Ordered(full, le)
    ensures Flatten(pages) == Slice(full, offset, Steps(|pages|, limit))
    decreases |pages|
  {
    if pages != [] {
      OffsetPages(answers, rows, le, limit, offset + limit, pages[1..], full);
      assert answers(offset, pages[0]);
      PageIsSlice(rows, le, limit, offset, pages[0], full);
      SlicesJoin(full, offset, limit, Steps(|pages| - 1, limit));
    }
  }

  /** How far `n` steps of `limit` go: n * limit. */
  function Steps(n: nat, limit: nat): nat {
    if n == 0 then 0 else limit + Steps(n - 1, limit)
  }

  lemma PageIsSlice<R(!new)>(rows: set<R>, le: (R, R) -> bool, limit: nat, offset: nat, page: seq<R>, full: seq<R>)
    requires NoTies(rows, le) && Lists(full, rows) && Ordered(full, le) && IsPage(rows, le, limit, offset, page)
    ensures page == Slice(full, offset, limit)
  {
    var other :| Lists(other, rows) && Ordered(other, le) && page == Slice(other, offset, limit);
    OneOrder(full, other, rows, le);
  }

  lemma SlicesJoin<R>(full: seq<R>, offset: nat, limit: nat, rest: nat)
    ensures Slice(full, offset, limit) + Slice(full, offset + limit, rest) == Slice(full, offset, limit + rest)
  {
  }

  /** Any two of `rows` compare, and comparisons chain. */
  ghost predicate Ranks<R(!new)>(rows: set<R>, le: (R, R) -> bool) {
    && (forall a, b | a in rows && b in rows :: le(a, b) || le(b, a))
    && forall a, b, c | a in rows && b in rows && c in rows && le(a, b) && le(b, c) :: le(a, c)
  }

  lemma {:induction false} SomeFirst<R(!new)>(rows: set<R>, le: (R, R) -> bool) returns (first: R)
    requires rows != {} && Ranks(rows, le)
    ensures first in rows && forall r | r in rows :: le(first, r)
    decreases |rows|
  {
    first :| first in rows;
    if rows - {first} != {} {
      var other := SomeFirst(rows - {first}, le);
      if !le(first, other) {
        first := other;
      }
      assert forall r | r in rows :: le(first, r);
    } else {
      assert rows == {first};
    }
  }

  /** Then they can be listed in order. */
  lemma {:induction false} SomeOrder<R(!new)>(rows: set<R>, le: (R, R) -> bool) returns (full: seq<R>)
    requires Ranks(rows, le)
    ensures Lists(full, rows) && Ordered(full, le)
    decreases |rows|
  {
    if rows == {} {
      full := [];
    } else {
      var first := SomeFirst(rows, le);
      var rest := SomeOrder(rows - {first}, le);
      full := [first] + rest;
      assert forall i | 0 < i < |full| :: full[i] == rest[i - 1] && full[i] in rows - {first};
    }
  }

  /** There is a page at every offset; and every page has as many rows as there are left, up to its size. */
  lemma SomePage<R(!new)>(rows: set<R>, le: (R, R) -> bool, limit: nat, offset: nat) returns (page: seq<R>)
    requires Ranks(rows, le)
    ensures IsPage(rows, le, limit, offset, page)
  {
    var full := SomeOrder(rows, le);
    page := Slice(full, offset, limit);
  }

  lemma PageLength<R(!new)>(rows: set<R>, le: (R, R) -> bool, limit: nat, offset: nat, page: seq<R>)
    requires IsPage(rows, le, limit, offset, page)
    ensures |page| == if offset >= |rows| then 0 else Min(limit, |rows| - offset)
  {
    var full :| Lists(full, rows) && Ordered(full, le) && page == Slice(full, offset, limit);
    ListsCount(full, rows);
  }

  /** A page is in order, and shows no row twice. */
  lemma PageOrder<R(!new)>(rows: set<R>, le: (R, R) -> bool, limit: nat, offset: nat, page: seq<R>)
    requires IsPage(rows, le, limit, offset, page)
    ensures forall i, j | 0 <= i < j < |page| :: page[i] != page[j] && le(page[i], page[j])
  {
    var full :| Lists(full, rows) && Ordered(full, le) && page == Slice(full, offset, limit);
    assert forall i | 0 <= i < |page| :: page[i] == full[i + Min(offset, |full|)];
  }

  /** A page holds nothing but rows that were asked about. */
  lemma PageHolds<R(!new)>(rows: set<R>, le: (R, R) -> bool, limit: nat, offset: nat, page: seq<R>, r: R)
    requires IsPage(rows, le, limit, offset, page) && r in page
    ensures r in rows
  {
    var full :| Lists(full, rows) && Ordered(full, le) && page == Slice(full, offset, limit);
    assert r in full;
  }

  /** Only how the rows compare matters. */
  lemma SameOrder<R(!new)>(
    rows: set<R>, le: (R, R) -> bool, other: (R, R) -> bool, limit: nat, offset: nat, page: seq<R>)
    requires forall a, b | a in rows && b in rows :: le(a, b) <==> other(a, b)
    requires IsPage(rows, le, limit, offset, page)
    ensures IsPage(rows, other, limit, offset, page)
  {
    var full :| Lists(full, rows) && Ordered(full, le) && page == Slice(full, offset, limit);
    assert forall i | 0 <= i < |full| :: full[i] in rows;
    assert Ordered(full, other);
  }

  lemma {:induction false} ListsCount<R(!new)>(full: seq<R>, rows: set<R>)
    requires Lists(full, rows)
    ensures |full| == |rows|
    decreases |full|
  {
    if full == [] {
      assert rows == {};
    } else {
      ListsRest(full, rows);
      ListsCount(full[1..], rows - {full[0]});
      assert full[0] in rows;
    }
  }

  /** Once the pages from offset 0 on reach the number of rows, they show them all. */
  lemma OffsetPagesAll<R(!new)>(
    answers: Answering<R>, rows: set<R>, le: (R, R) -> bool, limit: nat, pages: seq<seq<R>>, full: seq<R>)
    requires AnswersPages(answers, rows, le, limit) && OffsetWalk(answers, limit, 0, pages)
    requires NoTies(rows, le) && Lists(full, rows) && Ordered(full, le) && |pages| * limit >= |rows|
    ensures Flatten(pages) == full
  {
    OffsetPages(answers, rows, le, limit, 0, pages, full);
    ListsCount(full, rows);
    StepsMultiply(|pages|, limit);
  }

  lemma {:induction false} StepsMultiply(n: nat, limit: nat)
    ensures Steps(n, limit) == n * limit
  {
    if n > 0 {
      StepsMultiply(n - 1, limit);
      assert n * limit == limit + (n - 1) * limit;
    }
  }

  /** The limit parameter: missing, no number (None) or not positive, and it falls back; too large, and it is capped. */
  function GetLimit(param: Option<int>, fallback: nat, max: nat): nat {
    if param.None? || param.value <= 0 then fallback else if max > 0 && param.value > max then max else param.value
  }

  function GetOffset(param: Option<int>): nat {
    if param.None? || param.value < 0 then 0 else param.value
  }

  /** How many rows a page shows to a client who asked for `limit` and `offset`, when there are `total`. */
  function PageSize(limit: Option<int>, offset: Option<int>, usual: nat, most: nat, total: nat): int {
    var left := match offset case None => total as int case Some(n) => if n <= 0 then total else total - n;
    match limit
    case None => Max(0, Min(usual, left))
    case Some(n) => if n >= 1 then Max(0, Min(Min(n, most), left)) else Max(0, Min(usual, left))
  }

  function Max(a: int, b: int): int {
    if a > b then a else b
  }
}
