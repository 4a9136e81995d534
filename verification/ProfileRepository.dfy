/** The profile repository: it builds the statements and runs them, one atomic step each, on the table. */
module ProfileRepository {
  import opened Common
  import opened Sql
  import opened ProfileModel
  import opened ProfileStatements

  datatype ProfileError =
    | NotFound | VersionConflict | Database | InvalidRequest | InvalidDateOfBirth | NoValidFields | IdsRequired

  predicate AllProfiles(profiles: seq<Row>) {
    forall i | 0 <= i < |profiles| :: IsProfile(profiles[i])
  }

  function InsertAll(table: Rows, profiles: seq<Row>): Rows {
    if profiles == [] then table
    else Insert(InsertAll(table, profiles[..|profiles| - 1]), profiles[|profiles| - 1])
  }

  /** No id is in the table yet or used twice. */
  predicate NewIds(table: Rows, profiles: seq<Row>) {
    && (forall i | 0 <= i < |profiles| :: IdOf(profiles[i]) !in table)
    && (forall i, j | 0 <= i < j < |profiles| :: IdOf(profiles[i]) != IdOf(profiles[j]))
  }

  /** Inserting profiles with new ids adds exactly them, and leaves what was there alone. */
  lemma {:induction false} InsertAllAdds(table: Rows, profiles: seq<Row>)
    requires NewIds(table, profiles)
    ensures forall k | k in table :: k in InsertAll(table, profiles) && InsertAll(table, profiles)[k] == table[k]
    ensures forall i | 0 <= i < |profiles| ::
              IdOf(profiles[i]) in InsertAll(table, profiles)
              && InsertAll(table, profiles)[IdOf(profiles[i])] == profiles[i]
    ensures forall k | k in InsertAll(table, profiles) ::
              k in table || exists i | 0 <= i < |profiles| :: IdOf(profiles[i]) == k
  {
    if profiles != [] {
      var n := |profiles| - 1;
      var before, after := InsertAll(table, profiles[..n]), InsertAll(table, profiles);
      InsertAllAdds(table, profiles[..n]);
      forall i | 0 <= i < n
        ensures IdOf(profiles[i]) in after && after[IdOf(profiles[i])] == profiles[i]
      {
        assert profiles[..n][i] == profiles[i];
      }
      forall k | k in after && k !in table
        ensures exists i | 0 <= i < |profiles| :: IdOf(profiles[i]) == k
      {
        if k in before {
          var i :| 0 <= i < n && IdOf(profiles[..n][i]) == k;
          assert IdOf(profiles[i]) == k;
        }
      }
    }
  }

  lemma InsertAllStaysWellFormed(table: Rows, profiles: seq<Row>)
    requires WellFormed(table) && AllProfiles(profiles) && NewIds(table, profiles)
    ensures WellFormed(InsertAll(table, profiles))
  {
    InsertAllAdds(table, profiles);
  }

  /** The next insert of a batch collides exactly when its id is not new. */
  lemma NextInsert(table: Rows, profiles: seq<Row>, i: nat)
    requires i < |profiles| && NewIds(table, profiles[..i])
    ensures InsertAll(table, profiles[..i + 1]) == Insert(InsertAll(table, profiles[..i]), profiles[i])
    ensures IdOf(profiles[i]) !in InsertAll(table, profiles[..i]) <==> NewIds(table, profiles[..i + 1])
    ensures NewIds(table, profiles) ==> NewIds(table, profiles[..i + 1])
  {
    var before, longer := profiles[..i], profiles[..i + 1];
    assert longer[..i] == before && longer[i] == profiles[i];
    InsertAllAdds(table, before);
    assert forall j | 0 <= j < i :: longer[j] == before[j];
  }

  /**
   The repository. `fault` parameters say that the database fails the statement for reasons of its
   own (a rejected value, a lost connection); such a statement changes nothing.
   */
  class Repository {
    var table: Rows
    const like: Like

    ghost predicate Valid()
      reads this
    {
      WellFormed(table)
    }

    constructor (like: Like)
      ensures Valid() && table == map[]
    {
      this.like := like;
      table := map[];
    }

    method Create(p: Row, fault: bool) returns (err: Option<ProfileError>)
      requires Valid() && IsProfile(p)
      modifies this
      ensures Valid()
      ensures err.None? <==> !fault && IdOf(p) !in old(table)
      ensures table == if err.None? then Insert(old(table), p) else old(table)
    {
      if fault || IdOf(p) in table {
        return Some(Database);
      }
      table := Insert(table, p);
      return None;
    }

    /** All of the batch or none of it, whichever insert fails. */
    method BulkCreate(profiles: seq<Row>, faults: set<nat>, commitFault: bool) returns (err: Option<ProfileError>)
      requires Valid() && AllProfiles(profiles)
      modifies this
      ensures Valid()
      ensures err.None? <==> profiles == [] || (!commitFault && NewIds(old(table), profiles)
                                                && forall i | 0 <= i < |profiles| :: i !in faults)
      ensures table == if err.None? then InsertAll(old(table), profiles) else old(table)
    {
      if |profiles| == 0 {
        return None;
      }
      var tx := table;
      for i := 0 to |profiles|
        invariant table == old(table)
        invariant tx == InsertAll(table, profiles[..i]) && NewIds(table, profiles[..i])
        invariant forall j | 0 <= j < i :: j !in faults
      {
        NextInsert(table, profiles, i);
        if i in faults || IdOf(profiles[i]) in tx {
          return Some(Database);
        }
        tx := Insert(tx, profiles[i]);
      }
      assert profiles[..|profiles|] == profiles;
      if commitFault {
        return Some(Database);
      }
      InsertAllStaysWellFormed(table, profiles);
      table := tx;
      return None;
    }

    method Update(p: Row, fault: bool) returns (err: Option<ProfileError>)
      requires Valid() && IsProfile(p)
      modifies this
      ensures Valid()
      ensures table == if fault then old(table) else PutRow(old(table), p)
      ensures var id := IdOf(p);
              err == if fault then Some(Database)
                     else if id in old(table) && OwnedBy(old(table)[id], p[UserId].id) then None
                     else Some(NotFound)
    {
      if fault {
        return Some(Database);
      }
      PutMeans(p, table, like);
      var result := Exec(PUT_STATEMENT, PutArgs(p), table, like);
      forall k | k in table
        ensures k in PutRow(table, p) && Kept(table[k], PutRow(table, p)[k])
      {
        PutKeepsRow(table, p, k);
      }
      table := result.value.0;
      if result.value.1 == {} {
        return Some(NotFound);
      }
      return None;
    }

    /** Builds PATCH's statement and arguments by visiting the fields in any order. */
    method BuildPatch(id: Uuid, user: Uuid, fields: Row, version: int, now: Time)
      returns (stmt: Statement<Column>, args: seq<Value>)
      ensures exists order :: Enumerates(order, fields) && stmt == PatchStatement(order)
                              && args == PatchArgs(order, fields, id, user, version, now)
    {
      var setParts: seq<Assignment<Column>> := [];
      args := [];
      var left := fields.Keys;
      ghost var order := [];
      while left != {}
        invariant left <= fields.Keys && Distinct(order)
        invariant forall c :: c in order <==> c in fields && c !in left
        invariant setParts == Binds(order) && args == Values(order, fields)
        decreases |left|
      {
        var key :| key in left;
        setParts := setParts + [Bind(key)];
        args := args + [fields[key]];
        left := left - {key};
        order := order + [key];
      }
      setParts := setParts + [Bind(UpdatedAt), Increment(Version)];
      args := args + [Stamp(now)];
      stmt := Statement.Update(setParts, GUARD);
      args := args + [Key(id), Key(user), Num(version)];
      assert Enumerates(order, fields);
    }

    /** `faults` are those of the write and of the read that follows it. */
    method Patch(id: Uuid, user: Uuid, fields: Row, version: int, now: Time, faults: (bool, bool))
      returns (r: Result<Row, ProfileError>)
      requires Valid() && forall c | c in fields :: Editable(c)
      modifies this
      ensures Valid()
      ensures table == if faults.0 || NullsName(fields) then old(table)
                       else PatchRow(old(table), id, user, fields, version, now)
      ensures r == if faults.0 then Err(Database)
                   else if !Guarded(old(table), id, user, version) then Err(VersionConflict)
                   else if NullsName(fields) || faults.1 then Err(Database)
                   else Ok(PatchRow(old(table), id, user, fields, version, now)[id])
    {
      var stmt, args := BuildPatch(id, user, fields, version, now);
      if faults.0 || (Guarded(table, id, user, version) && NullsName(fields)) {
        return Err(Database);
      }
      ghost var order :| Enumerates(order, fields) && stmt == PatchStatement(order)
                         && args == PatchArgs(order, fields, id, user, version, now);
      PatchMeans(order, fields, id, user, version, now, table, like);
      forall k | k in table
        ensures k in PatchRow(table, id, user, fields, version, now)
        ensures Kept(table[k], PatchRow(table, id, user, fields, version, now)[k])
      {
        PatchKeepsRow(table, id, user, fields, version, now, k);
      }
      var result := Exec(stmt, args, table, like);
      table := result.value.0;
      if result.value.1 == {} {
        return Err(VersionConflict);
      }
      if faults.1 {
        return Err(Database);
      }
      return Ok(table[id]);
    }

    method Delete(id: Uuid, user: Uuid, hard: bool, version: int, now: Time, fault: bool)
      returns (err: Option<ProfileError>)
      requires Valid()
      modifies this
      ensures Valid()
      ensures table == if fault then old(table) else DeleteRow(old(table), id, user, hard, version, now)
      ensures err == if fault then Some(Database)
                     else if Guarded(old(table), id, user, version) then None
                     else if hard then Some(NotFound) else Some(VersionConflict)
    {
      if fault {
        return Some(Database);
      }
      DeleteMeans(id, user, hard, version, now, table, like);
      forall k | k in table
        ensures k in DeleteRow(table, id, user, hard, version, now)
                ==> Kept(table[k], DeleteRow(table, id, user, hard, version, now)[k])
      {
        DeleteKeepsRow(table, id, user, hard, version, now, k);
      }
      var result := Exec(DeleteStatement(hard), DeleteArgs(id, user, hard, version, now), table, like);
      table := result.value.0;
      if result.value.1 == {} {
        return if hard then Some(NotFound) else Some(VersionConflict);
      }
      return None;
    }

    /** The count includes rows that were deleted softly before. */
    method BulkDelete(user: Uuid, ids: seq<Uuid>, hard: bool, now: Time, fault: bool)
      returns (r: Result<nat, ProfileError>)
      requires Valid()
      modifies this
      ensures Valid()
      ensures table == if fault then old(table) else BulkDeleteRows(old(table), user, ids, hard, now)
      ensures r == if |ids| == 0 then Ok(0) else if fault then Err(Database) else Ok(|Named(old(table), user, ids)|)
    {
      if |ids| == 0 {
        assert Named(table, user, ids) == {};
        assert BulkDeleteRows(table, user, ids, hard, now) == table;
        return Ok(0);
      }
      if fault {
        return Err(Database);
      }
      BulkDeleteMeans(user, ids, hard, now, table, like);
      forall k | k in table
        ensures k in BulkDeleteRows(table, user, ids, hard, now)
                ==> Kept(table[k], BulkDeleteRows(table, user, ids, hard, now)[k])
      {
        BulkDeleteKeepsRow(table, user, ids, hard, now, k);
      }
      var result := Exec(BulkDeleteStatement(|ids|, hard), BulkDeleteArgs(user, ids, hard, now), table, like);
      table := result.value.0;
      return Ok(|result.value.1|);
    }

    /** Finds the caller's row, unless it has been deleted. */
    method GetByID(id: Uuid, user: Uuid, fault: bool) returns (r: Result<Row, ProfileError>)
      requires Valid()
      ensures r == if fault then Err(Database)
                   else if Visible(table, id, user) then Ok(table[id]) else Err(NotFound)
    {
      if fault {
        return Err(Database);
      }
      forall k | k in table
        ensures WhereHoles(MINE_UNDELETED) == 2
        ensures Matches(MINE_UNDELETED, [Key(id), Key(user)], table[k], like)
                <==> k == id && Visible(table, id, user)
      {
        UndeletedMeans(id, user, table[k], like);
      }
      UndeletedMeans(id, user, map[], like);
      var rows := Selected(Query(MINE_UNDELETED, Id, Ascending), [Key(id), Key(user)], table, like);
      assert Visible(table, id, user) ==> table[id] in rows;
      if rows == {} {
        return Err(NotFound);
      }
      var p :| p in rows;
      return Ok(p);
    }
  }
}
