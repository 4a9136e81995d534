/** The statements the profile repository builds, and proofs that they mean what they are meant to. */
module ProfileStatements {
  import opened Common
  import opened Sql
  import opened ProfileModel

  const GUARD: seq<Condition<Column>> := [Equals(Id), Equals(UserId), Equals(Version)]

  const MINE: seq<Condition<Column>> := [Equals(Id), Equals(UserId)]

  const MINE_UNDELETED: seq<Condition<Column>> := [Equals(Id), Equals(UserId), IsNull(DeletedAt)]

  lemma MineMeans(id: Uuid, user: Uuid, r: Row, like: Like)
    ensures WhereHoles(MINE) == 2
    ensures Matches(MINE, [Key(id), Key(user)], r, like) <==> Cell(r, Id) == Key(id) && OwnedBy(r, user)
  {
    MatchesOne(Equals(Id), [Key(id)], r, like);
    MatchesSnoc([Equals(Id)], [Key(id)], Equals(UserId), [Key(user)], r, like);
    assert MINE == [Equals(Id)] + [Equals(UserId)] && [Key(id), Key(user)] == [Key(id)] + [Key(user)];
  }

  lemma GuardMeans(id: Uuid, user: Uuid, version: int, r: Row, like: Like)
    ensures WhereHoles(GUARD) == 3
    ensures Matches(GUARD, [Key(id), Key(user), Num(version)], r, like)
            <==> Cell(r, Id) == Key(id) && OwnedBy(r, user) && Cell(r, Version) == Num(version)
  {
    MineMeans(id, user, r, like);
    MatchesSnoc(MINE, [Key(id), Key(user)], Equals(Version), [Num(version)], r, like);
    assert GUARD == MINE + [Equals(Version)];
    assert [Key(id), Key(user), Num(version)] == [Key(id), Key(user)] + [Num(version)];
  }

  lemma UndeletedMeans(id: Uuid, user: Uuid, r: Row, like: Like)
    ensures WhereHoles(MINE_UNDELETED) == 2
    ensures Matches(MINE_UNDELETED, [Key(id), Key(user)], r, like)
            <==> Cell(r, Id) == Key(id) && OwnedBy(r, user) && !Deleted(r)
  {
    MineMeans(id, user, r, like);
    MatchesSnoc(MINE, [Key(id), Key(user)], IsNull(DeletedAt), [], r, like);
    assert MINE_UNDELETED == MINE + [IsNull(DeletedAt)];
    assert [Key(id), Key(user)] == [Key(id), Key(user)] + [];
  }

  /** The one row a version-guarded statement hits. */
  lemma GuardHits(table: Rows, id: Uuid, user: Uuid, version: int, like: Like)
    requires WellFormed(table)
    ensures WhereHoles(GUARD) == 3
    ensures Hits(GUARD, [Key(id), Key(user), Num(version)], table, like)
         == if Guarded(table, id, user, version) then {id} else {}
  {
    forall k | k in table
      ensures Matches(GUARD, [Key(id), Key(user), Num(version)], table[k], like)
              <==> k == id && Guarded(table, id, user, version)
    {
      GuardMeans(id, user, version, table[k], like);
    }
    GuardMeans(id, user, version, map[], like);
  }

  // ---------------------------------------------------------------------------------------------
  // PATCH
  // ---------------------------------------------------------------------------------------------

  /** `order` is some order in which a map iteration may visit the fields. */
  predicate Enumerates(order: seq<Column>, fields: Row) {
    Distinct(order) && forall c :: c in order <==> c in fields
  }

  function PatchSets(order: seq<Column>): seq<Assignment<Column>> {
    Binds(order) + [Bind(UpdatedAt), Increment(Version)]
  }

  function PatchValues(order: seq<Column>, fields: Row, now: Time): seq<Value> {
    Values(order, fields) + [Stamp(now)]
  }

  function PatchStatement(order: seq<Column>): Statement<Column> {
    Update(PatchSets(order), GUARD)
  }

  function PatchArgs(order: seq<Column>, fields: Row, id: Uuid, user: Uuid, version: int, now: Time): seq<Value> {
    PatchValues(order, fields, now) + [Key(id), Key(user), Num(version)]
  }

  lemma PatchColumns(order: seq<Column>, fields: Row)
    requires Enumerates(order, fields)
    ensures Distinct(Columns(PatchSets(order))) <==> UpdatedAt !in fields && Version !in fields
  {
    var cs := Columns(PatchSets(order));
    assert cs == order + [UpdatedAt, Version];
    if UpdatedAt in fields {
      var i :| 0 <= i < |order| && order[i] == UpdatedAt;
      assert cs[i] == cs[|order|];
    }
    if Version in fields {
      var i :| 0 <= i < |order| && order[i] == Version;
      assert cs[i] == cs[|order| + 1];
    }
  }

  lemma PatchAssigns(order: seq<Column>, fields: Row, now: Time, r: Row)
    requires Enumerates(order, fields)
    ensures |PatchValues(order, fields, now)| == SetHoles(PatchSets(order))
    ensures IsProfile(r) ==> Assigned(PatchSets(order), PatchValues(order, fields, now), r, r)
                             == r + fields + map[UpdatedAt := Stamp(now), Version := Num(VersionOf(r) + 1)]
  {
    var rest := [Bind(UpdatedAt), Increment(Version)];
    assert rest[1..] == [Increment(Version)] && rest[1..][1..] == [];
    AssignedBinds(order, fields, rest, [Stamp(now)], r, r);
    assert Restricted(fields, order) == fields;
  }

  /**
   For every set of editable fields and every order of visiting them, the statement built together
   with its arguments means exactly: set these fields, the time and version + 1 on the row with
   this id, owner and version.
   */
  lemma PatchMeans(
    order: seq<Column>, fields: Row, id: Uuid, user: Uuid, version: int, now: Time, table: Rows, like: Like)
    requires WellFormed(table) && Enumerates(order, fields) && UpdatedAt !in fields && Version !in fields
    ensures Exec(PatchStatement(order), PatchArgs(order, fields, id, user, version, now), table, like)
         == Ok((PatchRow(table, id, user, fields, version, now),
                if Guarded(table, id, user, version) then {id} else {}))
  {
    PatchColumns(order, fields);
    GuardHits(table, id, user, version, like);
    PatchAssigns(order, fields, now, if id in table then table[id] else map[]);
    UpdateHitsAtMostOne(PatchSets(order), PatchValues(order, fields, now), GUARD, [Key(id), Key(user), Num(version)],
                        table, like, id);
  }

  /** Fields that name the time or the version would assign a column twice: the whitelist is what rules that out. */
  lemma PatchNeedsWhitelist(
    order: seq<Column>, fields: Row, id: Uuid, user: Uuid, version: int, now: Time, table: Rows, like: Like)
    requires WellFormed(table) && Enumerates(order, fields)
    ensures Exec(PatchStatement(order), PatchArgs(order, fields, id, user, version, now), table, like).Ok?
            <==> UpdatedAt !in fields && Version !in fields
  {
    PatchColumns(order, fields);
    if UpdatedAt !in fields && Version !in fields {
      PatchMeans(order, fields, id, user, version, now, table, like);
    }
  }

  // ---------------------------------------------------------------------------------------------
  // PUT
  // ---------------------------------------------------------------------------------------------

  const PUT_COLUMNS: seq<Column> := EDITABLE + [UpdatedAt, Version]

  const PUT_STATEMENT: Statement<Column> := Update(Binds(PUT_COLUMNS), MINE)

  /** Named parameters, bound from the fields of `p`. */
  function PutArgs(p: Row): seq<Value>
    requires IsProfile(p)
  {
    Values(PUT_COLUMNS, p) + [p[Id], p[UserId]]
  }

  lemma PutColumnsDistinct()
    ensures Distinct(PUT_COLUMNS) && Columns(Binds(PUT_COLUMNS)) == PUT_COLUMNS
    ensures forall c :: c in PUT_COLUMNS <==> Editable(c) || c == UpdatedAt || c == Version
  {
    EditableListed();
    assert PUT_COLUMNS[|EDITABLE|] == UpdatedAt && PUT_COLUMNS[|EDITABLE| + 1] == Version;
    assert forall i | 0 <= i < |EDITABLE| :: PUT_COLUMNS[i] == EDITABLE[i];
  }

  /** PUT's statement writes the edited columns, the time and the version onto the caller's row, at any version. */
  lemma PutMeans(p: Row, table: Rows, like: Like)
    requires WellFormed(table) && IsProfile(p)
    ensures var id, user := p[Id].id, p[UserId].id;
            Exec(PUT_STATEMENT, PutArgs(p), table, like)
            == Ok((PutRow(table, p), if id in table && OwnedBy(table[id], user) then {id} else {}))
  {
    PutColumnsDistinct();
    BindingMineMeans(PUT_COLUMNS, p, table, like);
  }

  lemma BindingMineMeans(order: seq<Column>, p: Row, table: Rows, like: Like)
    requires WellFormed(table) && IsProfile(p) && Distinct(order) && Columns(Binds(order)) == order
    requires forall c :: c in order <==> Editable(c) || c == UpdatedAt || c == Version
    ensures var id, user := p[Id].id, p[UserId].id;
            Exec(Update(Binds(order), MINE), Values(order, p) + [p[Id], p[UserId]], table, like)
            == Ok((PutRow(table, p), if id in table && OwnedBy(table[id], user) then {id} else {}))
  {
    var id, user := p[Id].id, p[UserId].id;
    MineHits(id, user, table, like);
    BindingEdits(order, p, p);
    UpdateHitsAtMostOne(Binds(order), Values(order, p), MINE, [Key(id), Key(user)], table, like, id);
    assert [p[Id], p[UserId]] == [Key(id), Key(user)];
    if id in table {
      BindingEdits(order, p, table[id]);
    }
  }

  lemma BindingEdits(order: seq<Column>, p: Row, r: Row)
    requires forall c: Column :: c in p
    requires forall c :: c in order <==> Editable(c) || c == UpdatedAt || c == Version
    ensures SetHoles(Binds(order)) == |order|
    ensures Assigned(Binds(order), Values(order, p), r, r) == r + Edits(p)
  {
    AssignedBindsOnly(order, p, r);
    assert Restricted(p, order) == Edits(p);
  }

  lemma MineHits(id: Uuid, user: Uuid, table: Rows, like: Like)
    requires WellFormed(table)
    ensures WhereHoles(MINE) == 2
    ensures Hits(MINE, [Key(id), Key(user)], table, like)
         == if id in table && OwnedBy(table[id], user) then {id} else {}
  {
    MineMeans(id, user, map[], like);
    forall k | k in table
      ensures Matches(MINE, [Key(id), Key(user)], table[k], like) <==> k == id && OwnedBy(table[k], user)
    {
      MineMeans(id, user, table[k], like);
    }
  }

  // ---------------------------------------------------------------------------------------------
  // DELETE
  // ---------------------------------------------------------------------------------------------

  const SOFT_DELETE: Statement<Column> := Update([Bind(DeletedAt), Increment(Version)], GUARD)

  const HARD_DELETE: Statement<Column> := Delete(GUARD)

  function DeleteStatement(hard: bool): Statement<Column> {
    if hard then HARD_DELETE else SOFT_DELETE
  }

  function DeleteArgs(id: Uuid, user: Uuid, hard: bool, version: int, now: Time): seq<Value> {
    (if hard then [] else [Stamp(now)]) + [Key(id), Key(user), Num(version)]
  }

  lemma DeleteMeans(id: Uuid, user: Uuid, hard: bool, version: int, now: Time, table: Rows, like: Like)
    requires WellFormed(table)
    ensures Exec(DeleteStatement(hard), DeleteArgs(id, user, hard, version, now), table, like)
         == Ok((DeleteRow(table, id, user, hard, version, now), if Guarded(table, id, user, version) then {id} else {}))
  {
    var guard := [Key(id), Key(user), Num(version)];
    GuardHits(table, id, user, version, like);
    if hard {
      assert DeleteArgs(id, user, hard, version, now) == guard;
      assert id !in table ==> table - {} == table;
      assert table - {} == table;
    } else {
      var sets, xs := [Bind(DeletedAt), Increment(Version)], [Stamp(now)];
      assert sets[1..] == [Increment(Version)] && sets[1..][1..] == [] && xs[1..] == [];
      assert SetHoles(sets) == 1;
      assert Columns(sets) == [DeletedAt, Version];
      UpdateHitsAtMostOne(sets, xs, GUARD, guard, table, like, id);
      if Guarded(table, id, user, version) {
        assert Assigned(sets, xs, table[id], table[id])
            == table[id][DeletedAt := Stamp(now)][Version := Num(version + 1)];
      }
    }
  }

  function BulkWhere(n: nat): seq<Condition<Column>> {
    [Equals(UserId), OneOf(Id, n)]
  }

  function BulkDeleteStatement(n: nat, hard: bool): Statement<Column> {
    if hard then Delete(BulkWhere(n)) else Update([Bind(DeletedAt)], BulkWhere(n))
  }

  function Keys(ids: seq<Uuid>): (keys: seq<Value>)
    ensures |keys| == |ids|
  {
    seq(|ids|, i requires 0 <= i < |ids| => Key(ids[i]))
  }

  /** The list of ids is expanded in place, one placeholder for each. */
  function BulkDeleteArgs(user: Uuid, ids: seq<Uuid>, hard: bool, now: Time): seq<Value> {
    (if hard then [] else [Stamp(now)]) + ([Key(user)] + Keys(ids))
  }

  lemma BulkHits(user: Uuid, ids: seq<Uuid>, table: Rows, like: Like)
    requires WellFormed(table)
    ensures WhereHoles(BulkWhere(|ids|)) == |[Key(user)] + Keys(ids)|
    ensures Hits(BulkWhere(|ids|), [Key(user)] + Keys(ids), table, like) == Named(table, user, ids)
  {
    assert BulkWhere(|ids|) == [Equals(UserId)] + [OneOf(Id, |ids|)];
    MatchesOne(Equals(UserId), [Key(user)], map[], like);
    MatchesSnoc([Equals(UserId)], [Key(user)], OneOf(Id, |ids|), Keys(ids), map[], like);
    forall k | k in table
      ensures Matches(BulkWhere(|ids|), [Key(user)] + Keys(ids), table[k], like)
          <==> OwnedBy(table[k], user) && k in ids
    {
      MatchesOne(Equals(UserId), [Key(user)], table[k], like);
      MatchesSnoc([Equals(UserId)], [Key(user)], OneOf(Id, |ids|), Keys(ids), table[k], like);
      assert Key(k) in Keys(ids) <==> k in ids by {
        if k in ids {
          var i :| 0 <= i < |ids| && ids[i] == k;
          assert Keys(ids)[i] == Key(k);
        }
      }
    }
  }

  /** Bulk DELETE hits exactly the caller's rows among the ids, and soft deletion leaves their versions alone. */
  lemma BulkDeleteMeans(user: Uuid, ids: seq<Uuid>, hard: bool, now: Time, table: Rows, like: Like)
    requires WellFormed(table)
    ensures Exec(BulkDeleteStatement(|ids|, hard), BulkDeleteArgs(user, ids, hard, now), table, like)
         == Ok((BulkDeleteRows(table, user, ids, hard, now), Named(table, user, ids)))
  {
    var where, ys := BulkWhere(|ids|), [Key(user)] + Keys(ids);
    var args := BulkDeleteArgs(user, ids, hard, now);
    BulkHits(user, ids, table, like);
    if hard {
      assert args == ys;
    } else {
      var sets, xs := [Bind(DeletedAt)], [Stamp(now)];
      assert sets[1..] == [] && xs[1..] == [];
      assert SetHoles(sets) == 1 && Columns(sets) == [DeletedAt];
      assert args[..1] == xs && args[1..] == ys;
      assert forall r: Row :: Assigned(sets, xs, r, r) == r[DeletedAt := Stamp(now)];
      assert Exec(BulkDeleteStatement(|ids|, hard), args, table, like).value.0
          == BulkDeleteRows(table, user, ids, hard, now);
    }
  }
}
