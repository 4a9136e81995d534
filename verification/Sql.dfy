/**
 The part of SQL that the repositories write: UPDATE and DELETE statements and SELECTs over one
 table, with positional placeholders, and what they mean.
 */
module Sql {
  import opened Common
  import opened Paging

  datatype Value = Null | Text(text: string) | Num(num: int) | Stamp(time: Time) | Key(id: Uuid) | Json(raw: string)

  type Record<!C(==)> = map<C, Value>

  /** The rows of a table, under their primary keys. */
  type Table<!C(==)> = map<Uuid, Record<C>>

  /** `column = ?` and `column = column + 1` in a SET list. */
  datatype Assignment<C> = Bind(column: C) | Increment(column: C)

  /** `= ?`, `< ?`, `IS NULL`, `IN (?, ..., ?)`, and `(LOWER(a) LIKE LOWER(?) OR LOWER(b) LIKE LOWER(?))`. */
  datatype Condition<C> =
    | Equals(column: C)
    | Before(column: C)
    | IsNull(column: C)
    | OneOf(column: C, count: nat)
    | LikeEither(column: C, other: C)

  datatype Statement<C> =
    | Update(sets: seq<Assignment<C>>, where: seq<Condition<C>>)
    | Delete(where: seq<Condition<C>>)

  datatype SqlError = WrongArity | DuplicateColumn

  /** LIKE's matching is left open: any relation of a stored value and a pattern. */
  type Like = (Value, Value) -> bool

  function Cell<C(==)>(r: Record<C>, c: C): Value {
    if c in r then r[c] else Null
  }

  // ---------------------------------------------------------------------------------------------
  // Placeholders
  // ---------------------------------------------------------------------------------------------

  function ConditionHoles<C>(c: Condition<C>): nat {
    match c
    case Equals(_) => 1
    case Before(_) => 1
    case IsNull(_) => 0
    case OneOf(_, count) => count
    case LikeEither(_, _) => 2
  }

  function WhereHoles<C>(where: seq<Condition<C>>): nat {
    if where == [] then 0 else ConditionHoles(where[0]) + WhereHoles(where[1..])
  }

  function SetHoles<C>(sets: seq<Assignment<C>>): nat {
    if sets == [] then 0 else (if sets[0].Bind? then 1 else 0) + SetHoles(sets[1..])
  }

  function Holes<C>(stmt: Statement<C>): nat {
    match stmt
    case Update(sets, where) => SetHoles(sets) + WhereHoles(where)
    case Delete(where) => WhereHoles(where)
  }

  // ---------------------------------------------------------------------------------------------
  // Meaning
  // ---------------------------------------------------------------------------------------------

  /** A comparison with NULL does not hold. */
  predicate Holds<C(==)>(c: Condition<C>, args: seq<Value>, r: Record<C>, like: Like)
    requires |args| == ConditionHoles(c)
  {
    match c
    case Equals(col) => Cell(r, col) != Null && Cell(r, col) == args[0]
    case Before(col) => Cell(r, col).Stamp? && args[0].Stamp? && Cell(r, col).time < args[0].time
    case IsNull(col) => Cell(r, col) == Null
    case OneOf(col, _) => Cell(r, col) != Null && Cell(r, col) in args
    case LikeEither(a, b) => like(Cell(r, a), args[0]) || like(Cell(r, b), args[1])
  }

  /** The conjunction, each condition taking its own placeholders' arguments in turn. */
  predicate Matches<C(==)>(where: seq<Condition<C>>, args: seq<Value>, r: Record<C>, like: Like)
    requires |args| == WhereHoles(where)
  {
    where == []
    || (var n := ConditionHoles(where[0]);
        Holds(where[0], args[..n], r, like) && Matches(where[1..], args[n..], r, like))
  }

  /** The SET list's effect: right-hand sides read the row as it was. */
  function Assigned<C(==)>(sets: seq<Assignment<C>>, args: seq<Value>, was: Record<C>, r: Record<C>): Record<C>
    requires |args| == SetHoles(sets)
    decreases |sets|
  {
    if sets == [] then r
    else
      match sets[0]
      case Bind(c) => Assigned(sets[1..], args[1..], was, r[c := args[0]])
      case Increment(c) =>
        var v := Cell(was, c);
        Assigned(sets[1..], args, was, if v.Num? then r[c := Num(v.num + 1)] else r)
  }

  predicate Distinct<T(==)>(s: seq<T>) {
    forall i, j | 0 <= i < j < |s| :: s[i] != s[j]
  }

  function Columns<C>(sets: seq<Assignment<C>>): (cs: seq<C>)
    ensures |cs| == |sets|
  {
    seq(|sets|, i requires 0 <= i < |sets| => sets[i].column)
  }

  /** Executes a statement: the table it leaves and the rows it affected. */
  function Exec<C(==)>(stmt: Statement<C>, args: seq<Value>, table: Table<C>, like: Like)
    : Result<(Table<C>, set<Uuid>), SqlError>
  {
    if |args| != Holes(stmt) then Err(WrongArity)
    else
      match stmt
      case Update(sets, where) =>
        if !Distinct(Columns(sets)) then Err(DuplicateColumn)
        else
          var n := SetHoles(sets);
          var hit := Hits(where, args[n..], table, like);
          Ok((map k | k in table :: if k in hit then Assigned(sets, args[..n], table[k], table[k]) else table[k], hit))
      case Delete(where) =>
        var hit := Hits(where, args, table, like);
        Ok((table - hit, hit))
  }

  /** The keys of the rows that a WHERE hits. */
  function Hits<C(==)>(where: seq<Condition<C>>, args: seq<Value>, table: Table<C>, like: Like): set<Uuid>
    requires |args| == WhereHoles(where)
  {
    set k | k in table && Matches(where, args, table[k], like)
  }

  lemma UpdateHitsAtMostOne<C>(
    sets: seq<Assignment<C>>, xs: seq<Value>, where: seq<Condition<C>>, ys: seq<Value>,
    table: Table<C>, like: Like, id: Uuid)
    requires |xs| == SetHoles(sets) && |ys| == WhereHoles(where) && Distinct(Columns(sets))
    requires Hits(where, ys, table, like) <= {id}
    ensures var hit := Hits(where, ys, table, like);
            Exec(Update(sets, where), xs + ys, table, like)
            == Ok((if id in hit then table[id := Assigned(sets, xs, table[id], table[id])] else table, hit))
  {
    var args, n := xs + ys, |xs|;
    assert args[..n] == xs && args[n..] == ys;
    var result := Exec(Update(sets, where), args, table, like).value.0;
    assert id in Hits(where, ys, table, like) ==> result == table[id := Assigned(sets, xs, table[id], table[id])];
    assert id !in Hits(where, ys, table, like) ==> result == table;
  }

  // ---------------------------------------------------------------------------------------------
  // Queries
  // ---------------------------------------------------------------------------------------------

  datatype Direction = Ascending | Descending

  /** `SELECT * ... ORDER BY column direction LIMIT ? OFFSET ?`; its count query has the same WHERE. */
  datatype Query<C> = Query(where: seq<Condition<C>>, orderBy: C, direction: Direction)

  function QueryHoles<C>(q: Query<C>): nat {
    WhereHoles(q.where) + 2
  }

  /** The rows the WHERE selects. */
  function Selected<C(==)>(q: Query<C>, args: seq<Value>, table: Table<C>, like: Like): set<Record<C>>
    requires |args| == WhereHoles(q.where)
  {
    set k | k in Hits(q.where, args, table, like) :: table[k]
  }

  /** How the database compares what is not a time: its collation, and where NULL goes. */
  type Collation = (Value, Value) -> bool

  predicate AtMost(collation: Collation, a: Value, b: Value) {
    if a.Stamp? && b.Stamp? then a.time <= b.time else collation(a, b)
  }

  /** The order that ORDER BY asks for. */
  function OrderOf<C(==)>(q: Query<C>, collation: Collation): (Record<C>, Record<C>) -> bool {
    (a, b) =>
      match q.direction
      case Ascending => AtMost(collation, Cell(a, q.orderBy), Cell(b, q.orderBy))
      case Descending => AtMost(collation, Cell(b, q.orderBy), Cell(a, q.orderBy))
  }

  /** The page query can answer `page`: its last two arguments are LIMIT and OFFSET, and a negative one is refused. */
  ghost predicate Answers<C(!new)>(
    q: Query<C>, args: seq<Value>, table: Table<C>, like: Like, collation: Collation, page: seq<Record<C>>)
  {
    var n := WhereHoles(q.where);
    && |args| == QueryHoles(q)
    && args[n].Num? && args[n].num >= 0 && args[n + 1].Num? && args[n + 1].num >= 0
    && IsPage(Selected(q, args[..n], table, like), OrderOf(q, collation), args[n].num, args[n + 1].num, page)
  }

  /** What the count query answers. */
  function Count<C(==)>(q: Query<C>, args: seq<Value>, table: Table<C>, like: Like): nat
    requires |args| == WhereHoles(q.where)
  {
    |Hits(q.where, args, table, like)|
  }

  /** A page query whose WHERE selects `rows` and whose ORDER BY agrees with `le` on them. */
  lemma AnswersIsPage<C(!new)>(
    q: Query<C>, args: seq<Value>, limit: int, offset: int, table: Table<C>, like: Like, collation: Collation,
    rows: set<Record<C>>, le: (Record<C>, Record<C>) -> bool, page: seq<Record<C>>)
    requires |args| == WhereHoles(q.where) && Selected(q, args, table, like) == rows
    requires forall a, b | a in rows && b in rows :: le(a, b) <==> OrderOf(q, collation)(a, b)
    ensures Answers(q, args + [Num(limit), Num(offset)], table, like, collation, page)
            <==> limit >= 0 && offset >= 0 && IsPage(rows, le, limit, offset, page)
  {
    var all := args + [Num(limit), Num(offset)];
    assert all[..|args|] == args && all[|args|] == Num(limit) && all[|args| + 1] == Num(offset);
    if limit >= 0 && offset >= 0 {
      if IsPage(rows, le, limit, offset, page) {
        SameOrder(rows, le, OrderOf(q, collation), limit, offset, page);
      }
      if IsPage(rows, OrderOf(q, collation), limit, offset, page) {
        SameOrder(rows, OrderOf(q, collation), le, limit, offset, page);
      }
    }
  }

  /** Every row holds its primary key in column `c`. */
  predicate KeyedBy<C(==)>(table: Table<C>, c: C) {
    forall k | k in table :: Cell(table[k], c) == Key(k)
  }

  /** Then the count query counts the rows that the page query selects. */
  lemma CountsSelected<C>(q: Query<C>, args: seq<Value>, table: Table<C>, like: Like, c: C)
    requires |args| == WhereHoles(q.where) && KeyedBy(table, c)
    ensures Count(q, args, table, like) == |Selected(q, args, table, like)|
  {
    RowsCount(Hits(q.where, args, table, like), table, c);
  }

  lemma {:induction false} RowsCount<C>(keys: set<Uuid>, table: Table<C>, c: C)
    requires KeyedBy(table, c) && keys <= table.Keys
    ensures |set k | k in keys :: table[k]| == |keys|
    decreases |keys|
  {
    var rows := set k | k in keys :: table[k];
    if keys != {} {
      var k :| k in keys;
      RowsCount(keys - {k}, table, c);
      assert rows == (set j | j in keys - {k} :: table[j]) + {table[k]};
      assert forall j | j in keys - {k} :: Cell(table[j], c) != Cell(table[k], c);
      assert table[k] !in (set j | j in keys - {k} :: table[j]);
    }
  }

  /** The pattern that finds `search` anywhere in a text. */
  function Pattern(search: string): Value {
    Text("%" + search + "%")
  }

  // ---------------------------------------------------------------------------------------------
  // Putting WHERE clauses and SET lists together
  // ---------------------------------------------------------------------------------------------

  lemma {:induction false} WhereHolesAppend<C>(a: seq<Condition<C>>, b: seq<Condition<C>>)
    ensures WhereHoles(a + b) == WhereHoles(a) + WhereHoles(b)
  {
    if a == [] {
      assert a + b == b;
    } else {
      WhereHolesAppend(a[1..], b);
      assert (a + b)[1..] == a[1..] + b;
    }
  }

  lemma WhereHolesOne<C>(c: Condition<C>)
    ensures WhereHoles([c]) == ConditionHoles(c)
  {
    assert [c][1..] == [];
  }

  /** Conditions appended together with their arguments mean both. */
  lemma {:induction false} MatchesAppend<C>(
    a: seq<Condition<C>>, xs: seq<Value>, b: seq<Condition<C>>, ys: seq<Value>, r: Record<C>, like: Like)
    requires |xs| == WhereHoles(a) && |ys| == WhereHoles(b)
    ensures WhereHoles(a + b) == |xs + ys|
    ensures Matches(a + b, xs + ys, r, like) <==> Matches(a, xs, r, like) && Matches(b, ys, r, like)
  {
    WhereHolesAppend(a, b);
    if a == [] {
      assert a + b == b && xs + ys == ys;
    } else {
      var n := ConditionHoles(a[0]);
      MatchesAppend(a[1..], xs[n..], b, ys, r, like);
      assert (a + b)[0] == a[0] && (a + b)[1..] == a[1..] + b;
      assert (xs + ys)[..n] == xs[..n] && (xs + ys)[n..] == xs[n..] + ys;
    }
  }

  lemma MatchesOne<C>(c: Condition<C>, args: seq<Value>, r: Record<C>, like: Like)
    requires |args| == ConditionHoles(c)
    ensures WhereHoles([c]) == |args|
    ensures Matches([c], args, r, like) <==> Holds(c, args, r, like)
  {
    WhereHolesOne(c);
    assert [c][1..] == [] && args[..|args|] == args && args[|args|..] == [];
  }

  /** One more condition at the end of a WHERE. */
  lemma MatchesSnoc<C>(
    where: seq<Condition<C>>, xs: seq<Value>, c: Condition<C>, ys: seq<Value>, r: Record<C>, like: Like)
    requires |xs| == WhereHoles(where) && |ys| == ConditionHoles(c)
    ensures WhereHoles(where + [c]) == |xs + ys|
    ensures Matches(where + [c], xs + ys, r, like) <==> Matches(where, xs, r, like) && Holds(c, ys, r, like)
  {
    MatchesOne(c, ys, r, like);
    MatchesAppend(where, xs, [c], ys, r, like);
  }

  function Binds<C>(order: seq<C>): (sets: seq<Assignment<C>>)
    ensures |sets| == |order|
  {
    seq(|order|, i requires 0 <= i < |order| => Bind(order[i]))
  }

  function Values<C(==)>(order: seq<C>, fields: Record<C>): (vs: seq<Value>)
    ensures |vs| == |order|
  {
    seq(|order|, i requires 0 <= i < |order| => Cell(fields, order[i]))
  }

  /** `fields` cut down to the columns listed. */
  function Restricted<C(==)>(fields: Record<C>, order: seq<C>): Record<C> {
    map c | c in order :: Cell(fields, c)
  }

  lemma {:induction false} SetHolesAppend<C>(a: seq<Assignment<C>>, b: seq<Assignment<C>>)
    ensures SetHoles(a + b) == SetHoles(a) + SetHoles(b)
  {
    if a == [] {
      assert a + b == b;
    } else {
      SetHolesAppend(a[1..], b);
      assert (a + b)[1..] == a[1..] + b;
    }
  }

  lemma {:induction false} SetHolesBinds<C>(order: seq<C>)
    ensures SetHoles(Binds(order)) == |order|
  {
    if order != [] {
      SetHolesBinds(order[1..]);
      assert Binds(order)[1..] == Binds(order[1..]);
    }
  }

  /** Binding the listed columns, in whatever order, and then `rest`. */
  lemma {:induction false} AssignedBinds<C>(
    order: seq<C>, fields: Record<C>, rest: seq<Assignment<C>>, more: seq<Value>, was: Record<C>, r: Record<C>)
    requires |more| == SetHoles(rest)
    ensures SetHoles(Binds(order) + rest) == |Values(order, fields) + more|
    ensures Assigned(Binds(order) + rest, Values(order, fields) + more, was, r)
         == Assigned(rest, more, was, r + Restricted(fields, order))
    decreases |order|
  {
    SetHolesBinds(order);
    SetHolesAppend(Binds(order), rest);
    var sets, args := Binds(order) + rest, Values(order, fields) + more;
    if order == [] {
      assert sets == rest && args == more;
      assert r + Restricted(fields, order) == r;
    } else {
      var c, v := order[0], Cell(fields, order[0]);
      AssignedBinds(order[1..], fields, rest, more, was, r[c := v]);
      RestrictedCons(r, fields, order);
      assert sets[0] == Bind(c) && sets[1..] == Binds(order[1..]) + rest;
      assert args[0] == v && args[1..] == Values(order[1..], fields) + more;
    }
  }

  lemma AssignedBindsOnly<C>(order: seq<C>, fields: Record<C>, r: Record<C>)
    ensures SetHoles(Binds(order)) == |order|
    ensures Assigned(Binds(order), Values(order, fields), r, r) == r + Restricted(fields, order)
  {
    SetHolesBinds(order);
    AssignedBinds(order, fields, [], [], r, r);
    assert Binds(order) + [] == Binds(order) && Values(order, fields) + [] == Values(order, fields);
  }

  lemma RestrictedCons<C>(r: Record<C>, fields: Record<C>, order: seq<C>)
    requires order != []
    ensures r[order[0] := Cell(fields, order[0])] + Restricted(fields, order[1..]) == r + Restricted(fields, order)
  {
    assert order == [order[0]] + order[1..];
  }
}
