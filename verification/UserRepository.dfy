/** The users table: the writes made to it, and the repository over it. */
module UserRepository {
  import opened Common
  import opened Strings
  import opened UserModel

  type Users = map<Uuid, User>

  datatype UserError =
    | DuplicateEmail | InvalidCreds | UserNotFound | InvalidToken | RegistrationDisabled | InvalidRequest
    | Database | Unhashable

  /** Letter case: `lower` is the database's and the service's way of lowering one character. */
  type Lowering = char -> char

  function Lower(s: string, lower: Lowering): (r: string)
    ensures |r| == |s| && forall i | 0 <= i < |s| :: r[i] == lower(s[i])
  {
    seq(|s|, i requires 0 <= i < |s| => lower(s[i]))
  }

  /** Lowering twice is lowering once, and neither makes nor removes white space. */
  ghost predicate Folds(lower: Lowering) {
    forall c: char :: lower(lower(c)) == lower(c) && (IsSpace(lower(c)) <==> IsSpace(c))
  }

  /** How an email is stored and looked up: without surrounding blanks, in lower case. */
  function Canon(email: string, lower: Lowering): string {
    Lower(Trim(email), lower)
  }

  predicate IsCanon(email: string, lower: Lowering) {
    Trimmed(email) && Lower(email, lower) == email
  }

  lemma LowerTwice(s: string, lower: Lowering)
    requires Folds(lower)
    ensures Lower(Lower(s, lower), lower) == Lower(s, lower)
    ensures Trimmed(s) ==> Trimmed(Lower(s, lower))
  {
    assert forall i | 0 <= i < |s| :: Lower(s, lower)[i] == lower(s[i]);
  }

  lemma CanonIsCanon(email: string, lower: Lowering)
    requires Folds(lower)
    ensures IsCanon(Canon(email, lower), lower)
  {
    LowerTwice(Trim(email), lower);
  }

  /** The undeleted users that a lookup by email selects. */
  function ByEmail(table: Users, email: string, lower: Lowering): set<Uuid> {
    set k | k in table && Lower(table[k].email, lower) == Lower(email, lower) && table[k].deletedAt.None?
  }

  /** The unique index ignores letter case and counts deleted users too. */
  predicate Taken(table: Users, email: string, lower: Lowering) {
    exists k | k in table :: Lower(table[k].email, lower) == Lower(email, lower)
  }

  /** The row that an insert makes: the columns it does not list are NULL. */
  function Inserted(u: User): User {
    u.(lastLoginAt := None, lastPasswordHash := None, deletedAt := None)
  }

  /** The columns that an update writes. */
  function Updated(row: User, u: User): User {
    row.(name := u.name, profileImage := u.profileImage, passwordHash := u.passwordHash,
         refreshVersion := u.refreshVersion, updatedAt := u.updatedAt, lastLoginAt := u.lastLoginAt)
  }

  function UpdateRow(table: Users, u: User): Users {
    if u.id in table then table[u.id := Updated(table[u.id], u)] else table
  }

  predicate Active(table: Users, id: Uuid) {
    id in table && table[id].deletedAt.None?
  }

  /** Rows under their ids, with canonical emails, no two the same. */
  predicate Sound(table: Users, lower: Lowering) {
    && (forall k | k in table :: table[k].id == k && IsCanon(table[k].email, lower))
    && (forall j, k | j in table && k in table && table[j].email == table[k].email :: j == k)
  }

  /** A lookup finds the one user with that email. */
  lemma ByEmailIsOne(table: Users, email: string, lower: Lowering, id: Uuid)
    requires Folds(lower) && Sound(table, lower) && Active(table, id) && table[id].email == Canon(email, lower)
    ensures ByEmail(table, Canon(email, lower), lower) == {id}
  {
    CanonIsCanon(email, lower);
  }

  class Repository {
    var table: Users
    const lower: Lowering

    constructor (lower: Lowering)
      ensures this.lower == lower && table == map[]
    {
      this.lower := lower;
      table := map[];
    }

    method Create(u: User, fault: bool) returns (err: Option<UserError>)
      modifies this
      ensures err == if fault then Some(Database)
                     else if Taken(old(table), u.email, lower) then Some(DuplicateEmail)
                     else if u.id in old(table) then Some(DuplicateEmail) else None
      ensures table == if err.None? then old(table)[u.id := Inserted(u)] else old(table)
    {
      if fault {
        return Some(Database);
      }
      if Taken(table, u.email, lower) || u.id in table {
        return Some(DuplicateEmail);
      }
      table := table[u.id := Inserted(u)];
      return None;
    }

    method Update(u: User, fault: bool) returns (err: Option<UserError>)
      modifies this
      ensures err == if fault then Some(Database) else None
      ensures table == if fault then old(table) else UpdateRow(old(table), u)
    {
      if fault {
        return Some(Database);
      }
      table := UpdateRow(table, u);
      return None;
    }

    /** None when there is no such user: that is not an error here. A row that cannot be read is one. */
    method GetByEmail(email: string, fault: bool) returns (r: Result<Option<User>, UserError>)
      ensures fault ==> r.Err?
      ensures r.Err? && !fault ==> exists k :: k in ByEmail(table, email, lower) && !Readable(table[k])
      ensures r.Ok? && r.value.None? ==> ByEmail(table, email, lower) == {}
      ensures r.Ok? && r.value.Some? ==>
                exists k :: k in ByEmail(table, email, lower) && Readable(table[k]) && r.value.value == table[k]
    {
      if fault {
        return Err(Database);
      }
      var hits := ByEmail(table, email, lower);
      if hits == {} {
        return Ok(None);
      }
      var k :| k in hits;
      if !Readable(table[k]) {
        return Err(Database);
      }
      return Ok(Some(table[k]));
    }

    method GetByID(id: Uuid, fault: bool) returns (r: Result<User, UserError>)
      ensures r == if fault then Err(Database)
                   else if !Active(table, id) then Err(UserNotFound)
                   else if !Readable(table[id]) then Err(Database) else Ok(table[id])
    {
      if fault {
        return Err(Database);
      }
      if id in table && table[id].deletedAt.None? {
        if !Readable(table[id]) {
          return Err(Database);
        }
        return Ok(table[id]);
      }
      return Err(UserNotFound);
    }
  }
}
