/** The profile entity, its table, and what each statement of the store is meant to do to the table. */
module ProfileModel {
  import opened Common
  import opened Sql

  datatype Column =
    | Id | UserId | FirstName | LastName | Bio | ProfileImage | CoverImage | DateOfBirth
    | Phone | Website | Location | CreatedAt | UpdatedAt | DeletedAt | Version

  type Row = Record<Column>

  type Rows = Table<Column>

  /** The columns that PUT replaces and PATCH may name, in the order the statements list them. */
  const EDITABLE: seq<Column> :=
    [FirstName, LastName, Bio, ProfileImage, CoverImage, DateOfBirth, Phone, Website, Location]

  predicate Editable(c: Column) {
    !(c.Id? || c.UserId? || c.CreatedAt? || c.UpdatedAt? || c.DeletedAt? || c.Version?)
  }

  lemma EditableListed()
    ensures forall c: Column :: Editable(c) <==> c in EDITABLE
    ensures Distinct(EDITABLE)
  {
    forall c: Column
      ensures Editable(c) <==> c in EDITABLE
    {
      assert EDITABLE[0] == FirstName && EDITABLE[1] == LastName && EDITABLE[2] == Bio && EDITABLE[3] == ProfileImage
          && EDITABLE[4] == CoverImage && EDITABLE[5] == DateOfBirth && EDITABLE[6] == Phone && EDITABLE[7] == Website
          && EDITABLE[8] == Location;
    }
  }

  /** A stored profile: every column present, those the store itself maintains with their types. */
  predicate IsProfile(r: Row) {
    && (forall c: Column :: c in r)
    && r[Id].Key? && r[UserId].Key? && r[CreatedAt].Stamp? && r[UpdatedAt].Stamp? && r[Version].Num?
    && (r[DeletedAt].Null? || r[DeletedAt].Stamp?)
  }

  predicate WellFormed(table: Rows) {
    forall k | k in table :: IsProfile(table[k]) && table[k][Id] == Key(k)
  }

  predicate OwnedBy(r: Row, user: Uuid) {
    Cell(r, UserId) == Key(user)
  }

  function IdOf(r: Row): Uuid {
    var v := Cell(r, Id);
    if v.Key? then v.id else Uuid(0)
  }

  function VersionOf(r: Row): int {
    var v := Cell(r, Version);
    if v.Num? then v.num else 0
  }

  predicate Deleted(r: Row) {
    Cell(r, DeletedAt) != Null
  }

  /** The row that a version-guarded statement names, if it is there. */
  predicate Guarded(table: Rows, id: Uuid, user: Uuid, version: int) {
    id in table && OwnedBy(table[id], user) && VersionOf(table[id]) == version
  }

  /** The row a client may see. */
  predicate Visible(table: Rows, id: Uuid, user: Uuid) {
    id in table && OwnedBy(table[id], user) && !Deleted(table[id])
  }

  function Insert(table: Rows, p: Row): Rows {
    table[IdOf(p) := p]
  }

  /** The columns of `p` that PUT writes: the editable ones, the time and the version. */
  function Edits(p: Row): Row {
    map c | c in p && (Editable(c) || c == UpdatedAt || c == Version) :: p[c]
  }

  /** PUT's write, onto whatever row is there. */
  function PutRow(table: Rows, p: Row): Rows
    requires IsProfile(p)
  {
    var id := p[Id].id;
    if id in table && OwnedBy(table[id], p[UserId].id) then
      table[id := table[id] + Edits(p)]
    else table
  }

  /** PATCH's write. */
  function PatchRow(table: Rows, id: Uuid, user: Uuid, fields: Row, version: int, now: Time): Rows {
    if Guarded(table, id, user, version) then
      table[id := table[id] + fields + map[UpdatedAt := Stamp(now), Version := Num(version + 1)]]
    else table
  }

  /** The names are the editable columns that cannot be NULL: the database refuses to set one so. */
  predicate NullsName(fields: Row) {
    || (FirstName in fields && fields[FirstName] == Null)
    || (LastName in fields && fields[LastName] == Null)
  }

  /** DELETE's write, soft or hard. */
  function DeleteRow(table: Rows, id: Uuid, user: Uuid, hard: bool, version: int, now: Time): Rows {
    if !Guarded(table, id, user, version) then table
    else if hard then table - {id}
    else table[id := table[id][DeletedAt := Stamp(now)][Version := Num(version + 1)]]
  }

  /** Bulk DELETE's write: the caller's rows among `ids`, at whatever version, deleted already or not. */
  function BulkDeleteRows(table: Rows, user: Uuid, ids: seq<Uuid>, hard: bool, now: Time): Rows {
    var hit := Named(table, user, ids);
    if hard then table - hit
    else map k | k in table :: if k in hit then table[k][DeletedAt := Stamp(now)] else table[k]
  }

  function Named(table: Rows, user: Uuid, ids: seq<Uuid>): set<Uuid> {
    set k | k in table && OwnedBy(table[k], user) && k in ids
  }

  /** What no write changes about a row: that it is a profile, its id, owner and creation time; and deletion sticks. */
  predicate Kept(r: Row, r': Row) {
    && IsProfile(r')
    && r'[Id] == Cell(r, Id) && r'[UserId] == Cell(r, UserId) && r'[CreatedAt] == Cell(r, CreatedAt)
    && (Deleted(r) ==> Deleted(r'))
  }

  lemma PutKeepsRow(table: Rows, p: Row, k: Uuid)
    requires IsProfile(p) && k in table && IsProfile(table[k])
    ensures k in PutRow(table, p) && Kept(table[k], PutRow(table, p)[k])
  {
  }

  lemma PatchKeepsRow(table: Rows, id: Uuid, user: Uuid, fields: Row, version: int, now: Time, k: Uuid)
    requires k in table && IsProfile(table[k]) && forall c | c in fields :: Editable(c)
    ensures k in PatchRow(table, id, user, fields, version, now)
    ensures Kept(table[k], PatchRow(table, id, user, fields, version, now)[k])
  {
  }

  lemma DeleteKeepsRow(table: Rows, id: Uuid, user: Uuid, hard: bool, version: int, now: Time, k: Uuid)
    requires k in table && IsProfile(table[k])
    ensures var table' := DeleteRow(table, id, user, hard, version, now);
            k in table' ==> Kept(table[k], table'[k])
  {
  }

  lemma BulkDeleteKeepsRow(table: Rows, user: Uuid, ids: seq<Uuid>, hard: bool, now: Time, k: Uuid)
    requires k in table && IsProfile(table[k])
    ensures var table' := BulkDeleteRows(table, user, ids, hard, now);
            k in table' ==> Kept(table[k], table'[k])
  {
  }
}
