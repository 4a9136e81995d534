/** The profile service: validation, sanitising, the field whitelist, and version checks, over the repository. */
module ProfileService {
  import opened Common
  import opened Sql
  import opened ProfileModel
  import opened ProfileRepository
  import Strings

  datatype CreateRequest = CreateRequest(
    firstName: string,
    lastName: string,
    bio: Option<string>,
    profileImage: Option<string>,
    coverImage: Option<string>,
    dateOfBirth: Option<string>,
    phone: Option<string>,
    website: Option<string>,
    location: Option<string>)

  /** A key of PATCH's JSON object: the name of a column of the table, or any other text. */
  datatype FieldName = Known(column: Column) | Unknown(text: string)

  /** The library calls the service makes: the validator, the HTML sanitiser and the date parser. */
  datatype Libraries = Libraries(
    valid: CreateRequest -> bool,
    policy: string -> string,
    parseDate: string -> Option<Time>)
  {
    function Sanitize(val: string): string {
      Strings.Trim(policy(val))
    }

    /** A date that is given, not blank, and not a date. */
    predicate BadDate(req: CreateRequest) {
      req.dateOfBirth.Some? && req.dateOfBirth.value != "" && parseDate(req.dateOfBirth.value).None?
    }

    /** What a request has to say about an optional column. */
    function Chosen(req: CreateRequest, c: Column): Option<Value>
      requires !BadDate(req)
    {
      match c
      case Bio => Cleanly(req.bio)
      case ProfileImage => Plainly(req.profileImage)
      case CoverImage => Plainly(req.coverImage)
      case Phone => Cleanly(req.phone)
      case Website => Plainly(req.website)
      case Location => Cleanly(req.location)
      case DateOfBirth =>
        if req.dateOfBirth.Some? && req.dateOfBirth.value != "" then
          Some(Stamp(parseDate(req.dateOfBirth.value).value)) else None
      case _ => None
    }

    function Cleanly(v: Option<string>): Option<Value> {
      if v.Some? then Some(Text(Strings.Trim(policy(v.value)))) else None
    }

    function Plainly(v: Option<string>): Option<Value> {
      if v.Some? then Some(Text(v.value)) else None
    }

    /** The columns that a request sets: those it leaves out keep what they have. */
    function Optional(req: CreateRequest): Row
      requires !BadDate(req)
    {
      map c: Column | Chosen(req, c).Some? :: Chosen(req, c).value
    }

    /** The optional fields, written one after the other. */
    function Filled(profile: Row, req: CreateRequest): Row
      requires !BadDate(req)
    {
      FilledRest(FilledFirst(profile, req), req)
    }

    function FilledFirst(profile: Row, req: CreateRequest): Row {
      SetIf(SetIf(SetIf(profile, Bio, Cleanly(req.bio)), ProfileImage, Plainly(req.profileImage)),
        CoverImage, Plainly(req.coverImage))
    }

    function FilledRest(profile: Row, req: CreateRequest): Row
      requires !BadDate(req)
    {
      SetIf(SetIf(SetIf(SetIf(profile, Phone, Cleanly(req.phone)), Website, Plainly(req.website)),
        Location, Cleanly(req.location)), DateOfBirth, Chosen(req, DateOfBirth))
    }

    function Names(req: CreateRequest): Row {
      map[FirstName := Text(Strings.Trim(policy(req.firstName))), LastName := Text(Strings.Trim(policy(req.lastName)))]
    }

    /** The profile that a creation request makes. */
    function Made(id: Uuid, user: Uuid, req: CreateRequest, now: Time): Row
      requires !BadDate(req)
    {
      Blank(id, user, now) + Names(req) + Optional(req)
    }

    /** PUT's new row: names and optional columns from the request, the next version, the time. */
    function Edited(r: Row, req: CreateRequest, version: int, now: Time): Row
      requires !BadDate(req)
    {
      (r + Names(req) + Optional(req))[Version := Num(version + 1)][UpdatedAt := Stamp(now)]
    }

    /** What becomes of one payload of a bulk creation. */
    function Verdict(req: CreateRequest): Option<ProfileError> {
      if !valid(req) then Some(InvalidRequest) else if BadDate(req) then Some(InvalidDateOfBirth) else None
    }

    /** PATCH's fields: the whitelisted ones, with strings sanitised. */
    function Whitelisted(fields: map<FieldName, Value>): Row {
      map c: Column | Editable(c) && Known(c) in fields :: Cleaned(fields[Known(c)])
    }

    function Cleaned(v: Value): Value {
      if v.Text? then Text(Strings.Trim(policy(v.text))) else v
    }
  }

  // ---------------------------------------------------------------------------------------------
  // What a client's request leaves in a row, column by column
  // ---------------------------------------------------------------------------------------------

  /** The date that a request gives is a date, if it gives one. */
  predicate DateReads(libs: Libraries, req: CreateRequest) {
    req.dateOfBirth == None || req.dateOfBirth.value == "" || libs.parseDate(req.dateOfBirth.value) != None
  }

  /**
   Names, biography, phone and location are what the sanitiser makes of them, trimmed; images and
   website are stored as given; and what is left out is `otherwise`.
   */
  function RequestedCell(libs: Libraries, req: CreateRequest, c: Column, otherwise: Value): Value {
    match c
    case FirstName => Text(Strings.Trim(libs.policy(req.firstName)))
    case LastName => Text(Strings.Trim(libs.policy(req.lastName)))
    case Bio => if req.bio == None then otherwise else Text(Strings.Trim(libs.policy(req.bio.value)))
    case Phone => if req.phone == None then otherwise else Text(Strings.Trim(libs.policy(req.phone.value)))
    case Location => if req.location == None then otherwise else Text(Strings.Trim(libs.policy(req.location.value)))
    case ProfileImage => if req.profileImage == None then otherwise else Text(req.profileImage.value)
    case CoverImage => if req.coverImage == None then otherwise else Text(req.coverImage.value)
    case Website => if req.website == None then otherwise else Text(req.website.value)
    case DateOfBirth =>
      if req.dateOfBirth == None || req.dateOfBirth.value == "" || libs.parseDate(req.dateOfBirth.value) == None then
        otherwise
      else Stamp(libs.parseDate(req.dateOfBirth.value).value)
    case _ => otherwise
  }

  function CreatedCell(libs: Libraries, id: Uuid, user: Uuid, req: CreateRequest, now: Time, c: Column): Value {
    match c
    case Id => Key(id)
    case UserId => Key(user)
    case CreatedAt => Stamp(now)
    case UpdatedAt => Stamp(now)
    case Version => Num(1)
    case _ => RequestedCell(libs, req, c, Null)
  }

  function EditedCell(libs: Libraries, r: Row, req: CreateRequest, version: int, now: Time, c: Column): Value {
    match c
    case Version => Num(version + 1)
    case UpdatedAt => Stamp(now)
    case _ => RequestedCell(libs, req, c, Cell(r, c))
  }

  /** PATCH takes any of the nine columns, and sanitises and trims every text, those of images and website too. */
  function PatchedCell(
    libs: Libraries, r: Row, fields: map<FieldName, Value>, version: int, now: Time, c: Column): Value
  {
    match c
    case Version => Num(version + 1)
    case UpdatedAt => Stamp(now)
    case _ =>
      if c !in EDITABLE || Known(c) !in fields then Cell(r, c)
      else
        match fields[Known(c)]
        case Text(text) => Text(Strings.Trim(libs.policy(text)))
        case value => value
  }

  predicate CreatedAs(libs: Libraries, id: Uuid, user: Uuid, req: CreateRequest, now: Time, p: Row) {
    forall c: Column :: c in p && p[c] == CreatedCell(libs, id, user, req, now, c)
  }

  /** Of the columns that `r` has, all but the names are as requested in `p`. */
  predicate FilledAs(libs: Libraries, req: CreateRequest, r: Row, p: Row) {
    forall c: Column | c in r && c != FirstName && c != LastName ::
      c in p && p[c] == RequestedCell(libs, req, c, r[c])
  }

  predicate EditedAs(libs: Libraries, r: Row, req: CreateRequest, version: int, now: Time, p: Row) {
    forall c: Column :: c in p && p[c] == EditedCell(libs, r, req, version, now, c)
  }

  predicate PatchedAs(libs: Libraries, r: Row, fields: map<FieldName, Value>, version: int, now: Time, p: Row) {
    forall c: Column :: c in p && p[c] == PatchedCell(libs, r, fields, version, now, c)
  }

  lemma RequestSetsCell(libs: Libraries, r: Row, req: CreateRequest, c: Column)
    requires c in r && !libs.BadDate(req)
    ensures var p := r + libs.Names(req) + libs.Optional(req);
            c in p && p[c] == RequestedCell(libs, req, c, r[c])
  {
    NamesCell(libs, r, req, c);
    OptionalCell(libs, r + libs.Names(req), req, c);
  }

  lemma MadeIsCreated(libs: Libraries, id: Uuid, user: Uuid, req: CreateRequest, now: Time)
    requires !libs.BadDate(req)
    ensures CreatedAs(libs, id, user, req, now, libs.Made(id, user, req, now))
  {
    forall c: Column
      ensures c in libs.Made(id, user, req, now)
      ensures libs.Made(id, user, req, now)[c] == CreatedCell(libs, id, user, req, now, c)
    {
      RequestSetsCell(libs, Blank(id, user, now), req, c);
    }
  }

  lemma EditedIsEdited(libs: Libraries, r: Row, req: CreateRequest, version: int, now: Time)
    requires IsProfile(r) && !libs.BadDate(req)
    ensures EditedAs(libs, r, req, version, now, libs.Edited(r, req, version, now))
  {
    forall c: Column
      ensures c in libs.Edited(r, req, version, now)
      ensures libs.Edited(r, req, version, now)[c] == EditedCell(libs, r, req, version, now, c)
    {
      EditedCells(libs, r, req, version, now, c);
    }
  }

  /**
   PUT, column by column: names, version and time are new; an optional column that the request
   leaves out keeps its stored value; and nothing else changes.
   */
  lemma EditedCells(libs: Libraries, r: Row, req: CreateRequest, version: int, now: Time, c: Column)
    requires c in r && !libs.BadDate(req)
    ensures c in libs.Edited(r, req, version, now)
    ensures libs.Edited(r, req, version, now)[c] == EditedCell(libs, r, req, version, now, c)
  {
    RequestSetsCell(libs, r, req, c);
  }

  lemma WhitelistedCell(libs: Libraries, fields: map<FieldName, Value>, c: Column)
    ensures c in libs.Whitelisted(fields) <==> c in EDITABLE && Known(c) in fields
    ensures c in libs.Whitelisted(fields) ==>
              libs.Whitelisted(fields)[c] == match fields[Known(c)]
                                             case Text(text) => Text(Strings.Trim(libs.policy(text)))
                                             case value => value
  {
    EditableListed();
  }

  lemma PatchedIsPatched(
    libs: Libraries, table: Rows, id: Uuid, user: Uuid, fields: map<FieldName, Value>, version: int, now: Time)
    requires WellFormed(table) && Guarded(table, id, user, version)
    ensures PatchedAs(libs, table[id], fields, version, now,
                      PatchRow(table, id, user, libs.Whitelisted(fields), version, now)[id])
  {
    var r, update := table[id], libs.Whitelisted(fields);
    var p := PatchRow(table, id, user, update, version, now)[id];
    forall c: Column
      ensures c in p && p[c] == PatchedCell(libs, r, fields, version, now, c)
    {
      WhitelistedCell(libs, fields, c);
      UpdateCell(r, update, version, now, c);
    }
  }

  lemma UpdateCell(r: Row, update: Row, version: int, now: Time, c: Column)
    requires c in r
    ensures var p := r + update + map[UpdatedAt := Stamp(now), Version := Num(version + 1)];
            && c in p
            && p[c] == match c
                       case Version => Num(version + 1)
                       case UpdatedAt => Stamp(now)
                       case _ => if c in update then update[c] else r[c]
  {
  }

  /** PATCH has something to do exactly if one of the nine columns is among the fields. */
  lemma PatchableIff(libs: Libraries, fields: map<FieldName, Value>)
    ensures libs.Whitelisted(fields) != map[] <==> exists c :: c in EDITABLE && Known(c) in fields
    ensures NullsName(libs.Whitelisted(fields))
            <==> (Known(FirstName) in fields && fields[Known(FirstName)] == Null)
                 || (Known(LastName) in fields && fields[Known(LastName)] == Null)
  {
    EditableListed();
    forall c: Column
      ensures c in libs.Whitelisted(fields) <==> c in EDITABLE && Known(c) in fields
    {
      WhitelistedCell(libs, fields, c);
    }
    if libs.Whitelisted(fields) != map[] {
      var c :| c in libs.Whitelisted(fields);
      assert c in EDITABLE && Known(c) in fields;
    }
    WhitelistedCell(libs, fields, FirstName);
    WhitelistedCell(libs, fields, LastName);
  }

  /** A new row before anything from the request is in it. */
  function Blank(id: Uuid, user: Uuid, now: Time): Row {
    map c: Column | true :: Initially(c, id, user, now)
  }

  function Initially(c: Column, id: Uuid, user: Uuid, now: Time): Value {
    match c
    case Id => Key(id)
    case UserId => Key(user)
    case CreatedAt => Stamp(now)
    case UpdatedAt => Stamp(now)
    case Version => Num(1)
    case _ => Null
  }

  lemma RequestsAreEditable(libs: Libraries, req: CreateRequest)
    requires !libs.BadDate(req)
    ensures forall c | c in libs.Names(req) || c in libs.Optional(req) :: Editable(c)
  {
  }

  function SetIf(r: Row, c: Column, v: Option<Value>): Row {
    if v.Some? then r[c := v.value] else r
  }

  /** What a row holds in a column after some of a request's columns have been written to it. */
  predicate CellIs(r: Row, c: Column, before: Row, v: Option<Value>) {
    (c in r <==> c in before || v.Some?) && (c in r ==> r[c] == if v.Some? then v.value else before[c])
  }

  lemma FilledFirstCell(libs: Libraries, profile: Row, req: CreateRequest, c: Column)
    requires !libs.BadDate(req)
    ensures CellIs(libs.FilledFirst(profile, req), c, profile,
                   if c.Bio? || c.ProfileImage? || c.CoverImage? then libs.Chosen(req, c) else None)
  {
  }

  lemma FilledRestCell(libs: Libraries, profile: Row, req: CreateRequest, c: Column)
    requires !libs.BadDate(req)
    ensures CellIs(libs.FilledRest(profile, req), c, profile,
                   if c.Phone? || c.Website? || c.Location? || c.DateOfBirth? then libs.Chosen(req, c) else None)
  {
  }

  /** Writing the optional fields one after the other adds up to the columns the request sets. */
  lemma FilledMeans(libs: Libraries, profile: Row, req: CreateRequest)
    requires !libs.BadDate(req)
    ensures libs.Filled(profile, req) == profile + libs.Optional(req)
  {
    forall c: Column
      ensures CellIs(libs.Filled(profile, req), c, profile, libs.Chosen(req, c))
    {
      FilledFirstCell(libs, profile, req, c);
      FilledRestCell(libs, libs.FilledFirst(profile, req), req, c);
    }
  }

  lemma MadeIsNewProfile(libs: Libraries, id: Uuid, user: Uuid, req: CreateRequest, now: Time)
    requires !libs.BadDate(req)
    ensures var p := libs.Made(id, user, req, now);
            && CreatedAs(libs, id, user, req, now, p)
            && IsProfile(p) && p[Id] == Key(id) && p[UserId] == Key(user) && p[CreatedAt] == Stamp(now)
            && p[Version] == Num(1) && p[DeletedAt] == Null
  {
    MadeIsCreated(libs, id, user, req, now);
    CreatedIsProfile(libs, id, user, req, now, libs.Made(id, user, req, now));
  }

  lemma CreatedIsProfile(libs: Libraries, id: Uuid, user: Uuid, req: CreateRequest, now: Time, p: Row)
    requires CreatedAs(libs, id, user, req, now, p)
    ensures IsProfile(p) && p[Id] == Key(id) && p[UserId] == Key(user) && p[CreatedAt] == Stamp(now)
    ensures p[Version] == Num(1) && p[DeletedAt] == Null
  {
    assert forall c: Column | p[c] == CreatedCell(libs, id, user, req, now, c) :: c in p;
  }

  lemma EditedIsProfile(libs: Libraries, r: Row, req: CreateRequest, version: int, now: Time, p: Row)
    requires IsProfile(r) && EditedAs(libs, r, req, version, now, p)
    ensures IsProfile(p) && p[Id] == r[Id] && p[UserId] == r[UserId] && p[CreatedAt] == r[CreatedAt]
  {
    assert forall c: Column | p[c] == EditedCell(libs, r, req, version, now, c) :: c in p;
  }

  lemma NamesCell(libs: Libraries, r: Row, req: CreateRequest, c: Column)
    ensures CellIs(r + libs.Names(req), c, r,
                   match c
                   case FirstName => Some(Text(Strings.Trim(libs.policy(req.firstName))))
                   case LastName => Some(Text(Strings.Trim(libs.policy(req.lastName))))
                   case _ => None)
  {
  }

  lemma OptionalCell(libs: Libraries, r: Row, req: CreateRequest, c: Column)
    requires !libs.BadDate(req)
    ensures CellIs(r + libs.Optional(req), c, r, libs.Chosen(req, c))
  {
  }

  lemma OptionalSets(libs: Libraries, r: Row, req: CreateRequest)
    requires !libs.BadDate(req)
    ensures FilledAs(libs, req, r, r + libs.Optional(req))
  {
    forall c: Column | c in r && c != FirstName && c != LastName
      ensures c in r + libs.Optional(req) && (r + libs.Optional(req))[c] == RequestedCell(libs, req, c, r[c])
    {
      OptionalCell(libs, r, req, c);
    }
  }

  class Service {
    const repo: Repository
    const libs: Libraries

    constructor (repo: Repository, libs: Libraries)
      ensures this.repo == repo && this.libs == libs
    {
      this.repo := repo;
      this.libs := libs;
    }

    /** Writes the optional fields that the request carries onto the profile, unless its date is no date. */
    method AssignOptionalFields(profile: Row, req: CreateRequest) returns (r: Result<Row, ProfileError>)
      ensures r == if libs.BadDate(req) then Err(InvalidDateOfBirth) else Ok(profile + libs.Optional(req))
      ensures r.Ok? <==> DateReads(libs, req)
    {
      var p := profile;
      ghost var q := profile;
      if req.bio.Some? {
        p := p[Bio := Text(libs.Sanitize(req.bio.value))];
      }
      q := SetIf(q, Bio, libs.Cleanly(req.bio));
      assert p == q;
      if req.profileImage.Some? {
        p := p[ProfileImage := Text(req.profileImage.value)];
      }
      q := SetIf(q, ProfileImage, libs.Plainly(req.profileImage));
      assert p == q;
      if req.coverImage.Some? {
        p := p[CoverImage := Text(req.coverImage.value)];
      }
      q := SetIf(q, CoverImage, libs.Plainly(req.coverImage));
      assert p == q;
      if req.phone.Some? {
        p := p[Phone := Text(libs.Sanitize(req.phone.value))];
      }
      q := SetIf(q, Phone, libs.Cleanly(req.phone));
      assert p == q;
      if req.website.Some? {
        p := p[Website := Text(req.website.value)];
      }
      q := SetIf(q, Website, libs.Plainly(req.website));
      assert p == q;
      if req.location.Some? {
        p := p[Location := Text(libs.Sanitize(req.location.value))];
      }
      q := SetIf(q, Location, libs.Cleanly(req.location));
      assert p == q;
      if req.dateOfBirth.Some? && req.dateOfBirth.value != "" {
        var t := libs.parseDate(req.dateOfBirth.value);
        if t.None? {
          return Err(InvalidDateOfBirth);
        }
        p := p[DateOfBirth := Stamp(t.value)];
      }
      FilledMeans(libs, profile, req);
      return Ok(p);
    }

    method Create(user: Uuid, req: CreateRequest, id: Uuid, now: Time, fault: bool)
      returns (r: Result<Row, ProfileError>)
      requires repo.Valid()
      modifies repo
      ensures repo.Valid()
      ensures r.Ok? <==> libs.valid(req) && DateReads(libs, req) && !fault && id !in old(repo.table)
      ensures r.Ok? ==> r.value == libs.Made(id, user, req, now) && CreatedAs(libs, id, user, req, now, r.value)
                        && repo.table == old(repo.table)[id := r.value]
      ensures r.Err? ==> repo.table == old(repo.table)
      ensures !libs.valid(req) ==> r == Err(InvalidRequest)
      ensures libs.valid(req) && !DateReads(libs, req) ==> r == Err(InvalidDateOfBirth)
    {
      if !libs.valid(req) {
        return Err(InvalidRequest);
      }
      var names := map[FirstName := Text(libs.Sanitize(req.firstName)), LastName := Text(libs.Sanitize(req.lastName))];
      var filled := AssignOptionalFields(Blank(id, user, now) + names, req);
      if filled.Err? {
        return Err(filled.error);
      }
      MadeIsNewProfile(libs, id, user, req, now);
      var err := repo.Create(filled.value, fault);
      if err.Some? {
        return Err(err.value);
      }
      return filled;
    }

    /**
     One error slot for each payload; the profiles returned are those of the accepted payloads, in
     order. The answer does not depend on what became of the batch insert, which is all or nothing:
     all exactly when ids are new and distinct, no insert fails, and the commit succeeds.
     */
    method BulkCreate(
      user: Uuid, reqs: seq<CreateRequest>, ids: seq<Uuid>, times: seq<Time>, faults: set<nat>, commitFault: bool)
      returns (profiles: seq<Row>, errs: seq<Option<ProfileError>>)
      requires repo.Valid() && |ids| == |times| == |reqs|
      modifies repo
      ensures repo.Valid()
      ensures |errs| == |reqs|
      ensures forall i | 0 <= i < |reqs| ::
                errs[i] == if !libs.valid(reqs[i]) then Some(InvalidRequest)
                           else if !DateReads(libs, reqs[i]) then Some(InvalidDateOfBirth) else None
      ensures profiles == Accepted(libs, user, reqs, ids, times)
      ensures exists picks :: InOrder(libs, user, reqs, ids, times, profiles, picks)
      ensures repo.table
           == if profiles != [] && !commitFault && NewIds(old(repo.table), profiles)
                 && (forall i | 0 <= i < |profiles| :: i !in faults)
              then InsertAll(old(repo.table), profiles) else old(repo.table)
    {
      profiles := [];
      errs := seq(|reqs|, _ => None);
      for i := 0 to |reqs|
        invariant repo.table == old(repo.table)
        invariant |errs| == |reqs|
        invariant forall j | 0 <= j < i :: errs[j] == libs.Verdict(reqs[j])
        invariant forall j | i <= j < |errs| :: errs[j] == None
        invariant profiles == Accepted(libs, user, reqs[..i], ids[..i], times[..i])
      {
        AcceptedNext(libs, user, reqs, ids, times, i);
        if !libs.valid(reqs[i]) {
          errs := errs[i := Some(InvalidRequest)];
          continue;
        }
        var names :=
          map[FirstName := Text(libs.Sanitize(reqs[i].firstName)), LastName := Text(libs.Sanitize(reqs[i].lastName))];
        var filled := AssignOptionalFields(Blank(ids[i], user, times[i]) + names, reqs[i]);
        if filled.Err? {
          errs := errs[i := Some(filled.error)];
          continue;
        }
        profiles := profiles + [filled.value];
      }
      assert reqs[..|reqs|] == reqs && ids[..|reqs|] == ids && times[..|reqs|] == times;
      AcceptedAreProfiles(libs, user, reqs, ids, times);
      ghost var picks := AcceptedInOrder(libs, user, reqs, ids, times);
      if |profiles| > 0 {
        var err := repo.BulkCreate(profiles, faults, commitFault);
      }
    }

    /** PUT. Optional fields that the request leaves out keep their stored values. */
    method Update(id: Uuid, user: Uuid, req: CreateRequest, version: int, now: Time, faults: (bool, bool))
      returns (r: Result<Row, ProfileError>)
      requires repo.Valid()
      modifies repo
      ensures repo.Valid()
      ensures r.Ok? <==> version >= 0 && libs.valid(req) && !faults.0 && Visible(old(repo.table), id, user)
                         && VersionOf(old(repo.table)[id]) == version && DateReads(libs, req) && !faults.1
      ensures r.Ok? ==>
                && r.value == libs.Edited(old(repo.table)[id], req, version, now)
                && EditedAs(libs, old(repo.table)[id], req, version, now, r.value)
                && repo.table == old(repo.table)[id := r.value]
      ensures r.Err? ==> repo.table == old(repo.table)
      ensures (version >= 0 && libs.valid(req) && !faults.0 && Visible(old(repo.table), id, user)
               && VersionOf(old(repo.table)[id]) != version) ==> r == Err(VersionConflict)
    {
      if !(version >= 0 && libs.valid(req)) {
        return Err(InvalidRequest);
      }
      var found := repo.GetByID(id, user, faults.0);
      if found.Err? {
        return found;
      }
      var profile := found.value;
      if VersionOf(profile) != version {
        return Err(VersionConflict);
      }
      profile := profile
        + map[FirstName := Text(libs.Sanitize(req.firstName)), LastName := Text(libs.Sanitize(req.lastName))];
      var filled := AssignOptionalFields(profile, req);
      if filled.Err? {
        return Err(filled.error);
      }
      profile := filled.value[Version := Num(VersionOf(filled.value) + 1)][UpdatedAt := Stamp(now)];
      EditedPut(libs, repo.table, id, user, req, version, now);
      EditedIsEdited(libs, repo.table[id], req, version, now);
      assert profile == libs.Edited(repo.table[id], req, version, now);
      var err := repo.Update(profile, faults.1);
      if err.Some? {
        return Err(err.value);
      }
      return Ok(profile);
    }

    /** PATCH's whitelist, applied by visiting the fields in any order. */
    method FilterFields(fields: map<FieldName, Value>) returns (update: Row)
      ensures update == libs.Whitelisted(fields)
    {
      update := map[];
      var left := fields.Keys;
      ghost var seen := {};
      while left != {}
        invariant left == fields.Keys - seen
        invariant update == WhitelistedAmong(libs, fields, seen)
        decreases |left|
      {
        var k :| k in left;
        WhitelistedNext(libs, fields, seen, k);
        left := left - {k};
        seen := seen + {k};
        if !(k.Known? && Editable(k.column)) {
          continue;
        }
        var v := fields[k];
        if v.Text? {
          update := update[k.column := Text(libs.Sanitize(v.text))];
        } else {
          update := update[k.column := v];
        }
      }
      assert WhitelistedAmong(libs, fields, seen) == libs.Whitelisted(fields);
    }

    /** PATCH: only whitelisted fields reach the statement. It checks the version but not whether the row is deleted. */
    method Patch(id: Uuid, user: Uuid, fields: map<FieldName, Value>, version: int, now: Time, faults: (bool, bool))
      returns (r: Result<Row, ProfileError>)
      requires repo.Valid()
      modifies repo
      ensures repo.Valid()
      ensures r.Ok? <==>
                && version >= 0 && !faults.0 && !faults.1 && Guarded(old(repo.table), id, user, version)
                && (exists c :: c in EDITABLE && Known(c) in fields)
                && (Known(FirstName) in fields ==> fields[Known(FirstName)] != Null)
                && (Known(LastName) in fields ==> fields[Known(LastName)] != Null)
      ensures repo.table == if version >= 0 && libs.Whitelisted(fields) != map[]
                               && !NullsName(libs.Whitelisted(fields)) && !faults.0
                            then PatchRow(old(repo.table), id, user, libs.Whitelisted(fields), version, now)
                            else old(repo.table)
      ensures r.Ok? ==> r.value == PatchRow(old(repo.table), id, user, libs.Whitelisted(fields), version, now)[id]
                        && PatchedAs(libs, old(repo.table)[id], fields, version, now, r.value)
                        && repo.table == old(repo.table)[id := r.value]
    {
      PatchableIff(libs, fields);
      if Guarded(repo.table, id, user, version) {
        PatchedIsPatched(libs, repo.table, id, user, fields, version, now);
      }
      if version < 0 {
        return Err(InvalidRequest);
      }
      var update := FilterFields(fields);
      if update == map[] {
        return Err(NoValidFields);
      }
      r := repo.Patch(id, user, update, version, now, faults);
    }

    method Delete(id: Uuid, user: Uuid, hard: bool, version: int, now: Time, faults: (bool, bool))
      returns (err: Option<ProfileError>)
      requires repo.Valid()
      modifies repo
      ensures repo.Valid()
      ensures err.None? <==> !faults.0 && !faults.1 && Visible(old(repo.table), id, user)
                             && VersionOf(old(repo.table)[id]) == version
      ensures repo.table
           == if err.None? then DeleteRow(old(repo.table), id, user, hard, version, now) else old(repo.table)
      ensures err.None? ==> forall u :: !Visible(repo.table, id, u)
    {
      var found := repo.GetByID(id, user, faults.0);
      if found.Err? {
        return Some(found.error);
      }
      if VersionOf(found.value) != version {
        return Some(VersionConflict);
      }
      err := repo.Delete(id, user, hard, version, now, faults.1);
    }

    method BulkDelete(user: Uuid, ids: seq<Uuid>, hard: bool, now: Time, fault: bool)
      returns (r: Result<nat, ProfileError>)
      requires repo.Valid()
      modifies repo
      ensures repo.Valid()
      ensures r.Ok? <==> ids != [] && !fault
      ensures r.Ok? ==> r.value == |Named(old(repo.table), user, ids)|
                        && repo.table == BulkDeleteRows(old(repo.table), user, ids, hard, now)
                        && forall k | k in ids :: !Visible(repo.table, k, user)
      ensures r.Err? ==> repo.table == old(repo.table)
    {
      if |ids| == 0 {
        return Err(IdsRequired);
      }
      r := repo.BulkDelete(user, ids, hard, now, fault);
    }
  }

  /** The profiles of the accepted payloads, in order. */
  function Accepted(libs: Libraries, user: Uuid, reqs: seq<CreateRequest>, ids: seq<Uuid>, times: seq<Time>): seq<Row>
    requires |ids| == |times| == |reqs|
  {
    if reqs == [] then []
    else
      var n := |reqs| - 1;
      Accepted(libs, user, reqs[..n], ids[..n], times[..n])
      + if libs.Verdict(reqs[n]).None? then [libs.Made(ids[n], user, reqs[n], times[n])] else []
  }

  lemma AcceptedNext(libs: Libraries, user: Uuid, reqs: seq<CreateRequest>, ids: seq<Uuid>, times: seq<Time>, i: nat)
    requires |ids| == |times| == |reqs| && i < |reqs|
    ensures Accepted(libs, user, reqs[..i + 1], ids[..i + 1], times[..i + 1])
         == Accepted(libs, user, reqs[..i], ids[..i], times[..i])
            + if libs.Verdict(reqs[i]).None? then [libs.Made(ids[i], user, reqs[i], times[i])] else []
  {
    assert reqs[..i + 1][..i] == reqs[..i] && ids[..i + 1][..i] == ids[..i] && times[..i + 1][..i] == times[..i];
  }

  /**
   `picks` are the positions of the payloads that can be accepted, in order, and `profiles` what is
   created from them, one for each.
   */
  predicate InOrder(
    libs: Libraries, user: Uuid, reqs: seq<CreateRequest>, ids: seq<Uuid>, times: seq<Time>,
    profiles: seq<Row>, picks: seq<nat>)
    requires |ids| == |times| == |reqs|
  {
    && |picks| == |profiles|
    && (forall i, j | 0 <= i < j < |picks| :: picks[i] < picks[j])
    && (forall i | 0 <= i < |reqs| :: i in picks <==> libs.valid(reqs[i]) && DateReads(libs, reqs[i]))
    && forall j | 0 <= j < |picks| ::
         var i := picks[j];
         i < |reqs| && CreatedAs(libs, ids[i], user, reqs[i], times[i], profiles[j])
  }

  lemma {:induction false} AcceptedInOrder(
    libs: Libraries, user: Uuid, reqs: seq<CreateRequest>, ids: seq<Uuid>, times: seq<Time>) returns (picks: seq<nat>)
    requires |ids| == |times| == |reqs|
    ensures InOrder(libs, user, reqs, ids, times, Accepted(libs, user, reqs, ids, times), picks)
  {
    if reqs == [] {
      picks := [];
    } else {
      var n := |reqs| - 1;
      picks := AcceptedInOrder(libs, user, reqs[..n], ids[..n], times[..n]);
      var earlier := Accepted(libs, user, reqs[..n], ids[..n], times[..n]);
      if libs.Verdict(reqs[n]).None? {
        MadeIsCreated(libs, ids[n], user, reqs[n], times[n]);
        OneMoreAccepted(libs, user, reqs, ids, times, earlier, picks, libs.Made(ids[n], user, reqs[n], times[n]));
        picks := picks + [n];
      } else {
        OneMoreRefused(libs, user, reqs, ids, times, earlier, picks);
        assert earlier + [] == earlier;
      }
    }
  }

  lemma OneMoreAccepted(
    libs: Libraries, user: Uuid, reqs: seq<CreateRequest>, ids: seq<Uuid>, times: seq<Time>,
    profiles: seq<Row>, picks: seq<nat>, p: Row)
    requires |ids| == |times| == |reqs| && reqs != []
    requires var n := |reqs| - 1;
             && InOrder(libs, user, reqs[..n], ids[..n], times[..n], profiles, picks)
             && libs.valid(reqs[n]) && DateReads(libs, reqs[n]) && CreatedAs(libs, ids[n], user, reqs[n], times[n], p)
    ensures InOrder(libs, user, reqs, ids, times, profiles + [p], picks + [|reqs| - 1])
  {
    var n, more := |reqs| - 1, picks + [|reqs| - 1];
    assert forall j | 0 <= j < |picks| :: more[j] == picks[j] && picks[j] < n;
    assert more[|picks|] == n;
    forall i | 0 <= i < |reqs|
      ensures i in more <==> libs.valid(reqs[i]) && DateReads(libs, reqs[i])
    {
      assert i < n ==> reqs[..n][i] == reqs[i];
    }
  }

  lemma OneMoreRefused(
    libs: Libraries, user: Uuid, reqs: seq<CreateRequest>, ids: seq<Uuid>, times: seq<Time>,
    profiles: seq<Row>, picks: seq<nat>)
    requires |ids| == |times| == |reqs| && reqs != []
    requires var n := |reqs| - 1;
             && InOrder(libs, user, reqs[..n], ids[..n], times[..n], profiles, picks)
             && !(libs.valid(reqs[n]) && DateReads(libs, reqs[n]))
    ensures InOrder(libs, user, reqs, ids, times, profiles, picks)
  {
    var n := |reqs| - 1;
    assert forall j | 0 <= j < |picks| :: picks[j] < n;
    forall i | 0 <= i < |reqs|
      ensures i in picks <==> libs.valid(reqs[i]) && DateReads(libs, reqs[i])
    {
      assert i < n ==> reqs[..n][i] == reqs[i];
    }
  }

  lemma {:induction false} AcceptedAreProfiles(
    libs: Libraries, user: Uuid, reqs: seq<CreateRequest>, ids: seq<Uuid>, times: seq<Time>)
    requires |ids| == |times| == |reqs|
    ensures AllProfiles(Accepted(libs, user, reqs, ids, times))
  {
    if reqs != [] {
      var n := |reqs| - 1;
      AcceptedAreProfiles(libs, user, reqs[..n], ids[..n], times[..n]);
      if libs.Verdict(reqs[n]).None? {
        MadeIsNewProfile(libs, ids[n], user, reqs[n], times[n]);
      }
    }
  }

  /** What PUT's statement leaves, when it directly follows PUT's read, is exactly the edited row. */
  lemma EditedPut(libs: Libraries, table: Rows, id: Uuid, user: Uuid, req: CreateRequest, version: int, now: Time)
    requires WellFormed(table) && Visible(table, id, user) && VersionOf(table[id]) == version && !libs.BadDate(req)
    ensures var p := libs.Edited(table[id], req, version, now);
            IsProfile(p) && IdOf(p) == id && p[UserId] == Key(user) && PutRow(table, p) == table[id := p]
    ensures VersionOf(table[id] + libs.Names(req) + libs.Optional(req)) == version
  {
    RequestsAreEditable(libs, req);
    var p := libs.Edited(table[id], req, version, now);
    EditedIsEdited(libs, table[id], req, version, now);
    EditedIsProfile(libs, table[id], req, version, now, p);
    assert table[id] + Edits(p) == p;
  }

  /** The whitelisted fields among those seen so far. */
  function WhitelistedAmong(libs: Libraries, fields: map<FieldName, Value>, seen: set<FieldName>): Row {
    map c: Column | Editable(c) && Known(c) in fields && Known(c) in seen :: libs.Cleaned(fields[Known(c)])
  }

  lemma WhitelistedNext(libs: Libraries, fields: map<FieldName, Value>, seen: set<FieldName>, k: FieldName)
    requires k in fields
    ensures WhitelistedAmong(libs, fields, seen + {k})
         == if k.Known? && Editable(k.column) then
              WhitelistedAmong(libs, fields, seen)[k.column := libs.Cleaned(fields[k])]
            else WhitelistedAmong(libs, fields, seen)
  {
  }

  /**
   PATCH reaches deleted profiles: it answers with a deleted row exactly when the row it patched was
   deleted, and never undeletes it.
   */
  lemma PatchAnswersDeleted(table: Rows, id: Uuid, user: Uuid, fields: Row, version: int, now: Time)
    requires WellFormed(table) && Guarded(table, id, user, version) && forall c | c in fields :: Editable(c)
    ensures var r := PatchRow(table, id, user, fields, version, now)[id];
            IsProfile(r) && VersionOf(r) == version + 1 && (Deleted(r) <==> Deleted(table[id]))
            && forall c | Editable(c) :: r[c] == if c in fields then fields[c] else table[id][c]
  {
    PatchKeepsRow(table, id, user, fields, version, now, id);
  }
}
