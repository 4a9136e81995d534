/** The user service: registration, login, token refresh and self-service updates. */
module UserService {
  import opened Common
  import opened Strings
  import opened UserModel
  import opened UserRepository
  import TM = TokenManager

  datatype RegisterRequest = RegisterRequest(email: string, password: string, name: string, profileImage: string)

  /** The library calls: the validators (those of email and password are the same wherever they occur), the HTML
      sanitiser, and which passwords bcrypt takes. */
  datatype Libraries = Libraries(
    validEmail: string -> bool,
    validPassword: string -> bool,
    validProfile: (string, string) -> bool,
    validUpdate: (string, Option<string>) -> bool,
    policy: string -> string,
    hashable: string -> bool)

  /** A registration as it is validated and used: blanks trimmed, the name sanitised. */
  function Tidy(libs: Libraries, req: RegisterRequest): RegisterRequest {
    RegisterRequest(Trim(req.email), Trim(req.password), Trim(libs.policy(req.name)), req.profileImage)
  }

  predicate ValidRegistration(libs: Libraries, tidy: RegisterRequest) {
    && libs.validEmail(tidy.email) && libs.validPassword(tidy.password)
    && libs.validProfile(tidy.name, tidy.profileImage)
  }

  /** The user that a tidied registration creates. */
  function NewUser(tidy: RegisterRequest, lower: Lowering, id: Uuid, salt: nat, now: Time): User {
    User(id, Lower(tidy.email, lower), tidy.name, Hash(tidy.password, salt),
         if tidy.profileImage != "" then Some(tidy.profileImage) else None,
         "user", 1, None, None, now, now, None)
  }

  /** The account that a registration makes, column by column. */
  predicate Registered(
    libs: Libraries, lower: Lowering, req: RegisterRequest, id: Uuid, salt: nat, now: Time, u: User)
  {
    && u.id == id && u.role == "user" && u.email == Lower(Trim(req.email), lower)
    && u.name == Trim(libs.policy(req.name)) && u.passwordHash == Hash(Trim(req.password), salt)
    && u.profileImage == (if req.profileImage == "" then None else Some(req.profileImage))
    && u.refreshVersion == 1 && u.createdAt == now && u.updatedAt == now
    && u.lastLoginAt == None && u.lastPasswordHash == None && u.deletedAt == None
  }

  lemma NewUserIsRegistered(
    libs: Libraries, req: RegisterRequest, lower: Lowering, id: Uuid, salt: nat, now: Time)
    requires Folds(lower)
    ensures var u := NewUser(Tidy(libs, req), lower, id, salt, now);
            Registered(libs, lower, req, id, salt, now, u) && IsCanon(u.email, lower) && Inserted(u) == u
    ensures Lower(Lower(Trim(req.email), lower), lower) == Lower(Trim(req.email), lower)
  {
    LowerTwice(Trim(req.email), lower);
  }

  lemma NewUserStaysSound(table: Users, lower: Lowering, u: User)
    requires Sound(table, lower) && IsCanon(u.email, lower) && u.id !in table
    ensures !Taken(table, u.email, lower) ==> Sound(table[u.id := u], lower)
  {
    if !Taken(table, u.email, lower) {
      assert forall k | k in table :: table[k].email != u.email;
    }
  }

  /** bcrypt's comparison. */
  predicate Verifies(hash: PasswordHash, password: string) {
    hash.password == password
  }

  function LoggedIn(u: User, now: Time): User {
    u.(lastLoginAt := Some(now), updatedAt := now)
  }

  function Renamed(libs: Libraries, u: User, name: string, image: Option<string>, now: Time): User {
    u.(name := Trim(libs.policy(name)), profileImage := if image.Some? then image else u.profileImage, updatedAt := now)
  }

  class Service {
    const repo: Repository
    const tokens: TM.Manager
    const libs: Libraries
    const allowSignup: bool

    constructor (repo: Repository, tokens: TM.Manager, libs: Libraries, allowSignup: bool)
      ensures this.repo == repo && this.tokens == tokens && this.libs == libs && this.allowSignup == allowSignup
    {
      this.repo := repo;
      this.tokens := tokens;
      this.libs := libs;
      this.allowSignup := allowSignup;
    }

    /** `faults` are those of the lookup, which is ignored, and of the insert. */
    method Register(
      req: RegisterRequest, id: Uuid, salt: nat, now: Time, faults: (bool, bool), clock: TM.Clock, ids: TM.Ids)
      returns (r: Result<(User, TM.AuthTokens), UserError>)
      requires tokens.Valid() && TM.FreshId(tokens.log, ids.refresh)
      requires Folds(repo.lower) && Sound(repo.table, repo.lower) && id !in repo.table
      modifies repo, tokens
      ensures tokens.Valid() && Sound(repo.table, repo.lower)
      ensures r.Ok? <==>
                && allowSignup && !faults.1
                && libs.validEmail(Trim(req.email)) && libs.validPassword(Trim(req.password))
                && libs.validProfile(Trim(libs.policy(req.name)), req.profileImage) && libs.hashable(Trim(req.password))
                && forall k | k in old(repo.table) ::
                     Lower(old(repo.table)[k].email, repo.lower) != Lower(Trim(req.email), repo.lower)
      ensures r.Ok? ==>
                && r.value.0 == NewUser(Tidy(libs, req), repo.lower, id, salt, now)
                && Registered(libs, repo.lower, req, id, salt, now, r.value.0)
                && repo.table == old(repo.table)[id := r.value.0]
                && r.value.1 == TM.MintPair(tokens.cfg, r.value.0, clock, ids)
                && TM.GoodPair(tokens.cfg, r.value.0, clock, r.value.1)
                && tokens.log == old(tokens.log) + [TM.Issued(r.value.1.refreshToken)]
      ensures r.Err? ==> repo.table == old(repo.table) && tokens.log == old(tokens.log)
      ensures (allowSignup && ValidRegistration(libs, Tidy(libs, req)) && libs.hashable(Trim(req.password)) && !faults.1
               && r.Err?) ==> r.error == DuplicateEmail
      ensures !allowSignup ==> r == Err(RegistrationDisabled)
    {
      if !allowSignup {
        return Err(RegistrationDisabled);
      }
      var tidy := Tidy(libs, req);
      if !ValidRegistration(libs, tidy) {
        return Err(InvalidRequest);
      }
      NewUserIsRegistered(libs, req, repo.lower, id, salt, now);
      var existing := repo.GetByEmail(Lower(tidy.email, repo.lower), faults.0);
      if existing.Ok? && existing.value.Some? {
        return Err(DuplicateEmail);
      }
      if !libs.hashable(tidy.password) {
        return Err(Unhashable);
      }
      var user := NewUser(tidy, repo.lower, id, salt, now);
      NewUserStaysSound(repo.table, repo.lower, user);
      var err := repo.Create(user, faults.1);
      if err.Some? {
        return Err(err.value);
      }
      var pair := tokens.IssueTokens(user, clock, ids);
      return Ok((user, pair));
    }

    /** `faults` are those of the lookup and of the write-back, which is ignored. */
    method Login(email: string, password: string, now: Time, faults: (bool, bool), clock: TM.Clock, ids: TM.Ids)
      returns (r: Result<(User, TM.AuthTokens), UserError>)
      requires tokens.Valid() && TM.FreshId(tokens.log, ids.refresh)
      requires Folds(repo.lower) && Sound(repo.table, repo.lower)
      modifies repo, tokens
      ensures tokens.Valid() && Sound(repo.table, repo.lower)
      ensures r.Ok? <==> libs.validEmail(Trim(email)) && libs.validPassword(Trim(password)) && !faults.0
                         && exists k :: k in old(repo.table)
                                        && HasCredentials(old(repo.table)[k], repo.lower, email, password)
      ensures r.Ok? ==>
                && r.value.0.id in old(repo.table)
                && HasCredentials(old(repo.table)[r.value.0.id], repo.lower, email, password)
                && r.value.0 == old(repo.table)[r.value.0.id].(lastLoginAt := Some(now), updatedAt := now)
                && repo.table == (if faults.1 then old(repo.table) else old(repo.table)[r.value.0.id := r.value.0])
                && r.value.1 == TM.MintPair(tokens.cfg, r.value.0, clock, ids)
                && TM.GoodPair(tokens.cfg, r.value.0, clock, r.value.1)
                && tokens.log == old(tokens.log) + [TM.Issued(r.value.1.refreshToken)]
      ensures r.Err? ==> repo.table == old(repo.table) && tokens.log == old(tokens.log)
      ensures r.Err? ==>
                r.error == if libs.validEmail(Trim(email)) && libs.validPassword(Trim(password)) then InvalidCreds
                           else InvalidRequest
    {
      if !(libs.validEmail(Trim(email)) && libs.validPassword(Trim(password))) {
        return Err(InvalidRequest);
      }
      LookupDecides(repo.table, repo.lower, email, password);
      var found := repo.GetByEmail(Canon(email, repo.lower), faults.0);
      if found.Err? || found.value.None? {
        return Err(InvalidCreds);
      }
      var user := found.value.value;
      if !Verifies(user.passwordHash, Trim(password)) {
        return Err(InvalidCreds);
      }
      LoginStaysSound(repo.table, repo.lower, user.id, now);
      user := LoggedIn(user, now);
      var err := repo.Update(user, faults.1);
      var pair := tokens.IssueTokens(user, clock, ids);
      return Ok((user, pair));
    }

    /** Rotates a refresh token for its owner: the history decides, and the owner's being there and readable. */
    method Refresh(token: TM.Token, extractedAt: Time, fault: bool, clock: TM.Clock, ids: TM.Ids)
      returns (r: Result<(User, TM.AuthTokens), UserError>)
      requires tokens.Valid() && TM.FreshId(tokens.log, ids.refresh) && extractedAt <= clock.checked
      modifies tokens
      ensures tokens.Valid()
      ensures r.Ok? <==> !fault && token.Signed? && Active(repo.table, token.claims.userId)
                         && Readable(repo.table[token.claims.userId])
                         && repo.table[token.claims.userId].id == token.claims.userId
                         && TM.Redeemable(old(tokens.log), token.claims.userId, token, clock.checked)
      ensures r.Ok? ==> r.value.0 == repo.table[token.claims.userId]
                        && TM.GoodPair(tokens.cfg, r.value.0, clock, r.value.1)
                        && tokens.log == old(tokens.log) + [TM.Rotated(token, r.value.1.refreshToken)]
      ensures r.Err? ==> r.error == InvalidToken && tokens.log == old(tokens.log)
                         && tokens.memoryTokens == old(tokens.memoryTokens)
    {
      var owner := tokens.ExtractUserID(token, extractedAt);
      if owner.Err? {
        assert forall t | t in TM.Returned(tokens.log) :: TM.Genuine(tokens.cfg, t);
        return Err(InvalidToken);
      }
      var user := repo.GetByID(owner.value, fault);
      if user.Err? {
        return Err(InvalidToken);
      }
      var pair := tokens.RefreshTokens(user.value, token, clock, ids);
      if pair.Err? {
        return Err(InvalidToken);
      }
      return Ok((user.value, pair.value));
    }

    method UpdateMe(id: Uuid, name: string, image: Option<string>, now: Time, faults: (bool, bool))
      returns (r: Result<User, UserError>)
      requires Folds(repo.lower) && Sound(repo.table, repo.lower)
      modifies repo
      ensures Sound(repo.table, repo.lower)
      ensures r.Ok? <==> libs.validUpdate(name, image) && !faults.0
                         && Active(old(repo.table), id) && Readable(old(repo.table)[id]) && !faults.1
      ensures r.Ok? ==> r.value.name == Trim(libs.policy(name)) && r.value.updatedAt == now
                        && r.value == old(repo.table)[id].(name := r.value.name, updatedAt := now,
                                                           profileImage := r.value.profileImage)
                        && (image.Some? ==> r.value.profileImage == image)
                        && (image.None? ==> r.value.profileImage == old(repo.table)[id].profileImage)
                        && repo.table == old(repo.table)[id := r.value]
      ensures r.Err? ==> repo.table == old(repo.table)
    {
      if !libs.validUpdate(name, image) {
        return Err(InvalidRequest);
      }
      var found := repo.GetByID(id, faults.0);
      if found.Err? {
        return Err(UserNotFound);
      }
      var user := Renamed(libs, found.value, name, image, now);
      var err := repo.Update(user, faults.1);
      if err.Some? {
        return Err(err.value);
      }
      return Ok(user);
    }
  }

  /** The user is active, and has this email and this password, whatever the letter case and the blanks around them. */
  predicate Authenticates(u: User, lower: Lowering, email: string, password: string) {
    && u.deletedAt == None && u.email == Lower(Trim(email), lower)
    && u.passwordHash.password == Trim(password)
  }

  /** And the user's row can be read. */
  predicate HasCredentials(u: User, lower: Lowering, email: string, password: string) {
    Authenticates(u, lower, email, password) && u.lastPasswordHash != None
  }

  /** A lookup by email finds the one user, if any, who could have these credentials. */
  lemma LookupDecides(table: Users, lower: Lowering, email: string, password: string)
    requires Folds(lower) && Sound(table, lower)
    ensures var hits := ByEmail(table, Canon(email, lower), lower);
            && (forall j, k | j in hits && k in hits :: j == k)
            && (forall k | k in hits :: table[k].id == k)
            && forall k | k in table ::
                 HasCredentials(table[k], lower, email, password)
                 <==> k in hits && Readable(table[k]) && Verifies(table[k].passwordHash, Trim(password))
  {
    CanonIsCanon(email, lower);
  }

  lemma LoginStaysSound(table: Users, lower: Lowering, id: Uuid, now: Time)
    requires Sound(table, lower) && id in table
    ensures var u := LoggedIn(table[id], now);
            UpdateRow(table, u) == table[id := u] && Sound(table[id := u], lower)
  {
    assert Updated(table[id], LoggedIn(table[id], now)) == LoggedIn(table[id], now);
  }
}
