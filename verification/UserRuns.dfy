/** Every interleaving of registrations, logins and self-service updates, split at their statements. */
module UserRuns {
  import opened Common
  import opened Strings
  import opened UserModel
  import opened UserRepository
  import opened UserService
  import Listing = UserListing

  type CallId = nat

  /** What a user can change about an account. */
  datatype Field = NameField | ImageField

  function Shown(u: User, f: Field): Option<string> {
    if f.NameField? then Some(u.name) else u.profileImage
  }

  /**
   What a call holds between its read and its write: a user to insert, or a copy to write back,
   in which `sets` are the fields that the call was asked to set.
   */
  datatype Pending = Insertion(user: User) | WriteBack(user: User, sets: set<Field>)

  /** `given` records what each account's fields were last set to, on request; no step consults it. */
  datatype State = State(table: Users, pending: map<CallId, Pending>, given: map<(Uuid, Field), Option<string>>)

  function Noted(s: State, u: User, sets: set<Field>): map<(Uuid, Field), Option<string>> {
    s.given + map f | f in sets :: (u.id, f) := Shown(u, f)
  }

  datatype Step =
    | RegisterLookup(call: CallId, req: RegisterRequest, id: Uuid, salt: nat, now: Time)
    | RegisterInsert(call: CallId)
    | LoginLookup(call: CallId, email: string, password: string, id: Uuid, now: Time)
    | UpdateLookup(call: CallId, id: Uuid, name: string, image: Option<string>, now: Time)
    | Write(call: CallId)

  /** The site: its libraries and how it lowers letters. */
  datatype Site = Site(libs: Libraries, lower: Lowering)

  predicate LoginAccepted(site: Site, table: Users, email: string, password: string, id: Uuid) {
    && site.libs.validEmail(Trim(email)) && site.libs.validPassword(Trim(password))
    && id in ByEmail(table, Canon(email, site.lower), site.lower)
    && Readable(table[id]) && Verifies(table[id].passwordHash, Trim(password))
  }

  /** Ids drawn for new users are in no row and in no other pending insertion. */
  predicate FreshUser(s: State, id: Uuid) {
    id !in s.table && forall c | c in s.pending && s.pending[c].Insertion? :: s.pending[c].user.id != id
  }

  predicate Enabled(site: Site, s: State, step: Step) {
    match step
    case RegisterLookup(c, req, id, salt, now) =>
      && c !in s.pending && FreshUser(s, id)
      && ValidRegistration(site.libs, Tidy(site.libs, req)) && site.libs.hashable(Trim(req.password))
    case RegisterInsert(c) => c in s.pending && s.pending[c].Insertion?
    case LoginLookup(c, email, password, id, now) =>
      c !in s.pending && LoginAccepted(site, s.table, email, password, id)
    case UpdateLookup(c, id, name, image, now) => c !in s.pending && Active(s.table, id) && Readable(s.table[id])
    case Write(c) => c in s.pending && s.pending[c].WriteBack?
  }

  /** The unique index decides at the insert, whatever the lookup before it saw. */
  predicate Inserts(site: Site, s: State, step: Step)
    requires Enabled(site, s, step)
  {
    step.RegisterInsert? && !Taken(s.table, s.pending[step.call].user.email, site.lower)
    && s.pending[step.call].user.id !in s.table
  }

  function Exec(site: Site, s: State, step: Step): State
    requires Enabled(site, s, step)
  {
    match step
    case RegisterLookup(c, req, id, salt, now) =>
      s.(pending := s.pending[c := Insertion(NewUser(Tidy(site.libs, req), site.lower, id, salt, now))])
    case RegisterInsert(c) =>
      var u := s.pending[c].user;
      if Inserts(site, s, step) then
        State(s.table[u.id := Inserted(u)], s.pending - {c}, Noted(s, u, {NameField, ImageField}))
      else s.(pending := s.pending - {c})
    case LoginLookup(c, _, _, id, now) => s.(pending := s.pending[c := WriteBack(LoggedIn(s.table[id], now), {})])
    case UpdateLookup(c, id, name, image, now) =>
      var sets := {NameField} + if image.Some? then {ImageField} else {};
      s.(pending := s.pending[c := WriteBack(Renamed(site.libs, s.table[id], name, image, now), sets)])
    case Write(c) =>
      var p := s.pending[c];
      State(UpdateRow(s.table, p.user), s.pending - {c}, Noted(s, p.user, p.sets))
  }

  ghost predicate IsRun(site: Site, states: seq<State>, steps: seq<Step>) {
    && |states| == |steps| + 1 && Inv(site, states[0])
    && forall i | 0 <= i < |steps| ::
        Enabled(site, states[i], steps[i]) && states[i + 1] == Exec(site, states[i], steps[i])
  }

  // ---------------------------------------------------------------------------------------------
  // What every step keeps
  // ---------------------------------------------------------------------------------------------

  /** What identifies an account and lets its owner in. */
  predicate SameAccount(u: User, v: User) {
    && u.id == v.id && u.email == v.email && u.role == v.role && u.passwordHash == v.passwordHash
    && u.createdAt == v.createdAt && u.deletedAt == v.deletedAt && u.lastPasswordHash == v.lastPasswordHash
  }

  predicate PendingSound(site: Site, s: State, p: Pending) {
    match p
    case Insertion(u) => IsCanon(u.email, site.lower)
    case WriteBack(u, _) => u.id in s.table && SameAccount(u, s.table[u.id]) && Readable(u)
  }

  predicate Inv(site: Site, s: State) {
    && Sound(s.table, site.lower)
    && forall c | c in s.pending :: PendingSound(site, s, s.pending[c])
  }

  lemma StepKeepsAccount(site: Site, s: State, step: Step, id: Uuid)
    requires Inv(site, s) && Enabled(site, s, step) && id in s.table
    ensures id in Exec(site, s, step).table && SameAccount(s.table[id], Exec(site, s, step).table[id])
  {
    if step.Write? {
      assert PendingSound(site, s, s.pending[step.call]);
    }
  }

  lemma StepKeepsSound(site: Site, s: State, step: Step)
    requires Inv(site, s) && Enabled(site, s, step)
    ensures Sound(Exec(site, s, step).table, site.lower)
  {
    if step.Write? || step.RegisterInsert? {
      assert PendingSound(site, s, s.pending[step.call]);
    }
    if step.RegisterInsert? && Inserts(site, s, step) {
      var u := s.pending[step.call].user;
      assert forall k | k in s.table :: s.table[k].email != u.email;
    }
  }

  lemma StepKeepsInv(site: Site, s: State, step: Step)
    requires Folds(site.lower) && Inv(site, s) && Enabled(site, s, step)
    ensures Inv(site, Exec(site, s, step))
  {
    StepKeepsSound(site, s, step);
    var s' := Exec(site, s, step);
    forall id | id in s.table
      ensures id in s'.table && SameAccount(s.table[id], s'.table[id])
    {
      StepKeepsAccount(site, s, step, id);
    }
    if step.RegisterLookup? {
      CanonIsCanon(step.req.email, site.lower);
    }
    forall c | c in s'.pending
      ensures PendingSound(site, s', s'.pending[c])
    {
      if c in s.pending {
        assert PendingSound(site, s, s.pending[c]);
      }
    }
  }

  lemma {:induction false} RunKeepsInv(site: Site, states: seq<State>, steps: seq<Step>, i: nat)
    requires Folds(site.lower) && IsRun(site, states, steps) && i < |states|
    ensures Inv(site, states[i])
  {
    if i > 0 {
      RunKeepsInv(site, states, steps, i - 1);
      StepKeepsInv(site, states[i - 1], steps[i - 1]);
    }
  }

  // ---------------------------------------------------------------------------------------------
  // Theorems about every interleaving
  // ---------------------------------------------------------------------------------------------

  /** An account never disappears, and its id, email, role and password never change. */
  lemma AccountsNeverChange(site: Site, states: seq<State>, steps: seq<Step>, i: nat, j: nat, id: Uuid)
    requires Folds(site.lower) && IsRun(site, states, steps) && i <= j < |states| && id in states[i].table
    ensures id in states[j].table && SameAccount(states[i].table[id], states[j].table[id])
  {
    forall k | i <= k < j && id in states[k].table
      ensures SameAt(states[k], states[k + 1], id)
    {
      AccountStep(site, states, steps, k, id);
    }
    AccountChain(states, i, j, id);
  }

  predicate SameAt(s: State, s': State, id: Uuid) {
    id in s.table && id in s'.table && SameAccount(s.table[id], s'.table[id])
  }

  lemma {:induction false} AccountChain(states: seq<State>, i: nat, j: nat, id: Uuid)
    requires i <= j < |states| && id in states[i].table
    requires forall k | i <= k < j && id in states[k].table :: SameAt(states[k], states[k + 1], id)
    ensures SameAt(states[i], states[j], id)
    decreases j
  {
    if i < j {
      AccountChain(states, i, j - 1, id);
    }
  }

  lemma AccountStep(site: Site, states: seq<State>, steps: seq<Step>, i: nat, id: Uuid)
    requires Folds(site.lower) && IsRun(site, states, steps) && i < |steps| && id in states[i].table
    ensures SameAt(states[i], states[i + 1], id)
  {
    RunKeepsInv(site, states, steps, i);
    assert states[i + 1] == Exec(site, states[i], steps[i]);
    StepKeepsAccount(site, states[i], steps[i], id);
  }

  /** Stored emails are always canonical, and no two users share one, in whatever letter case. */
  lemma EmailsStayDistinct(site: Site, states: seq<State>, steps: seq<Step>, i: nat, j: Uuid, k: Uuid)
    requires Folds(site.lower) && IsRun(site, states, steps) && i < |states|
    requires j in states[i].table && k in states[i].table
    requires Canon(states[i].table[j].email, site.lower) == Canon(states[i].table[k].email, site.lower)
    ensures IsCanon(states[i].table[j].email, site.lower) && j == k
  {
    RunKeepsInv(site, states, steps, i);
    TrimTrimmed(states[i].table[j].email);
    TrimTrimmed(states[i].table[k].email);
  }

  lemma TrimTrimmed(s: string)
    requires Trimmed(s)
    ensures Trim(s) == s
  {
    TrimFindsCore("", s, "");
    assert "" + s + "" == s;
  }

  /**
   What a login needs is settled when the account is there: at every later state of every
   interleaving it is accepted exactly if the email, in any letter case and between any blanks, and
   the password are the account's, and the account's row can be read. No other account answers.
   */
  lemma LoginOutcomeIff(
    site: Site, states: seq<State>, steps: seq<Step>, i: nat, j: nat, id: Uuid, email: string, password: string)
    requires Folds(site.lower) && IsRun(site, states, steps) && i <= j < |states| && id in states[i].table
    ensures LoginAccepted(site, states[j].table, email, password, id)
            <==> var u := states[i].table[id];
                 && site.libs.validEmail(Trim(email)) && site.libs.validPassword(Trim(password))
                 && u.deletedAt == None && u.email == Lower(Trim(email), site.lower)
                 && u.passwordHash.password == Trim(password) && u.lastPasswordHash != None
    ensures states[i].table[id].deletedAt == None && states[i].table[id].email == Lower(Trim(email), site.lower) ==>
              forall k | LoginAccepted(site, states[j].table, email, password, k) :: k == id
  {
    AccountsNeverChange(site, states, steps, i, j, id);
    RunKeepsInv(site, states, steps, j);
    CanonIsCanon(email, site.lower);
    if states[i].table[id].deletedAt == None && states[i].table[id].email == Lower(Trim(email), site.lower) {
      ByEmailIsOne(states[j].table, email, site.lower, id);
    }
  }

  /** The pending insertion is that of a valid registration `req`. */
  predicate Registers(site: Site, p: Pending, req: RegisterRequest, id: Uuid, salt: nat, now: Time) {
    && ValidRegistration(site.libs, Tidy(site.libs, req))
    && p == Insertion(NewUser(Tidy(site.libs, req), site.lower, id, salt, now))
  }

  /** Every pending insertion is some valid registration's. */
  lemma {:induction false} InsertionsComeFromRegistrations(
    site: Site, states: seq<State>, steps: seq<Step>, i: nat, c: CallId)
    requires IsRun(site, states, steps) && i < |states| && c in states[i].pending && states[i].pending[c].Insertion?
    requires states[0].pending == map[]
    ensures exists req, id, salt, now :: Registers(site, states[i].pending[c], req, id, salt, now)
  {
    if i > 0 {
      var step := steps[i - 1];
      assert Enabled(site, states[i - 1], step) && states[i] == Exec(site, states[i - 1], step);
      if step.RegisterLookup? && step.call == c {
        assert Registers(site, states[i].pending[c], step.req, step.id, step.salt, step.now);
      } else {
        InsertionsComeFromRegistrations(site, states, steps, i - 1, c);
      }
    }
  }

  /** The credentials are right and well formed, and yet no login with them is accepted. */
  ghost predicate RightButRefused(site: Site, table: Users, email: string, password: string, id: Uuid) {
    && site.libs.validEmail(Trim(email)) && site.libs.validPassword(Trim(password))
    && id in table && Authenticates(table[id], site.lower, email, password)
    && forall k :: !LoginAccepted(site, table, email, password, k)
  }

  lemma RegisteredIsRefused(
    site: Site, states: seq<State>, steps: seq<Step>, i: nat, j: nat,
    req: RegisterRequest, id: Uuid, salt: nat, now: Time, email: string, password: string)
    requires Folds(site.lower) && IsRun(site, states, steps) && i < |steps| && i < j < |states|
    requires forall e :: site.libs.validEmail(e) <==> site.libs.validEmail(Lower(e, site.lower))
    requires steps[i].RegisterInsert? && Enabled(site, states[i], steps[i]) && Inserts(site, states[i], steps[i])
    requires Registers(site, states[i].pending[steps[i].call], req, id, salt, now)
    requires Canon(email, site.lower) == Canon(req.email, site.lower) && Trim(password) == Trim(req.password)
    ensures RightButRefused(site, states[j].table, email, password, id)
  {
    assert states[i + 1] == Exec(site, states[i], steps[i]);
    AccountsNeverChange(site, states, steps, i + 1, j, id);
    LoginOutcomeIff(site, states, steps, i + 1, j, id, email, password);
    assert site.libs.validEmail(Trim(req.email)) && site.libs.validEmail(Canon(req.email, site.lower));
    assert site.libs.validEmail(Trim(email)) <==> site.libs.validEmail(Canon(email, site.lower));
  }

  /**
   Registration locks its user out: every insert that goes through belongs to a valid registration,
   what was registered stays right at every later state of every interleaving, in any spelling, and
   every login with it is refused, because the insert leaves `last_password_hash` NULL.
   */
  lemma RegisteredAreLockedOut(site: Site, states: seq<State>, steps: seq<Step>, i: nat, j: nat)
    requires Folds(site.lower) && IsRun(site, states, steps) && states[0].pending == map[]
    requires i < |steps| && i < j < |states|
    requires forall e :: site.libs.validEmail(e) <==> site.libs.validEmail(Lower(e, site.lower))
    requires steps[i].RegisterInsert? && Enabled(site, states[i], steps[i]) && Inserts(site, states[i], steps[i])
    ensures exists req, id, salt, now :: Registers(site, states[i].pending[steps[i].call], req, id, salt, now)
              && forall email, password | Canon(email, site.lower) == Canon(req.email, site.lower)
                                          && Trim(password) == Trim(req.password) ::
                   RightButRefused(site, states[j].table, email, password, id)
  {
    var c := steps[i].call;
    InsertionsComeFromRegistrations(site, states, steps, i, c);
    var req, id, salt, now :| Registers(site, states[i].pending[c], req, id, salt, now);
    forall email, password | Canon(email, site.lower) == Canon(req.email, site.lower)
        && Trim(password) == Trim(req.password)
      ensures RightButRefused(site, states[j].table, email, password, id)
    {
      RegisteredIsRefused(site, states, steps, i, j, req, id, salt, now, email, password);
    }
  }

  /** No call ever changes the row of an account that cannot be read, and so of none that registered. */
  lemma UnreadableIsFrozen(site: Site, states: seq<State>, steps: seq<Step>, i: nat, j: nat, id: Uuid)
    requires Folds(site.lower) && IsRun(site, states, steps) && i <= j < |states| && UnreadableAt(states[i], id)
    ensures id in states[j].table && states[j].table[id] == states[i].table[id]
  {
    forall k | i <= k < j && UnreadableAt(states[k], id)
      ensures FrozenAt(states[k], states[k + 1], id)
    {
      UnreadableStep(site, states, steps, k, id);
    }
    FrozenChain(states, i, j, id);
  }

  predicate UnreadableAt(s: State, id: Uuid) {
    id in s.table && !Readable(s.table[id])
  }

  predicate FrozenAt(s: State, s': State, id: Uuid) {
    id in s.table && id in s'.table && s'.table[id] == s.table[id]
  }

  lemma {:induction false} FrozenChain(states: seq<State>, i: nat, j: nat, id: Uuid)
    requires i <= j < |states| && UnreadableAt(states[i], id)
    requires forall k | i <= k < j && UnreadableAt(states[k], id) :: FrozenAt(states[k], states[k + 1], id)
    ensures FrozenAt(states[i], states[j], id)
    decreases j
  {
    if i < j {
      FrozenChain(states, i, j - 1, id);
    }
  }

  /** And every page of the admin listing on which somebody who registered would appear is an error. */
  lemma RegisteredBreakListings(
    site: Site, states: seq<State>, steps: seq<Step>, i: nat, j: nat,
    db: Listing.Site, req: Listing.Request, page: seq<Listing.Row>)
    requires Folds(site.lower) && IsRun(site, states, steps) && i < |steps| && i < j < |states|
    requires steps[i].RegisterInsert? && Enabled(site, states[i], steps[i]) && Inserts(site, states[i], steps[i])
    requires db.table == states[j].table && db.Selects(req, page)
    requires Listing.Shows(page, states[i].pending[steps[i].call].user.id)
    ensures Listing.Scan(page) == Err(Database)
  {
    var id := states[i].pending[steps[i].call].user.id;
    assert states[i + 1] == Exec(site, states[i], steps[i]);
    AccountsNeverChange(site, states, steps, i + 1, j, id);
    RunKeepsInv(site, states, steps, j);
    Listing.UnreadablePageFails(db, req, page, id);
  }

  lemma UnreadableStep(site: Site, states: seq<State>, steps: seq<Step>, i: nat, id: Uuid)
    requires Folds(site.lower) && IsRun(site, states, steps) && i < |steps| && UnreadableAt(states[i], id)
    ensures FrozenAt(states[i], states[i + 1], id)
  {
    RunKeepsInv(site, states, steps, i);
    assert states[i + 1] == Exec(site, states[i], steps[i]);
    UnreadableStays(site, states[i], steps[i], id);
  }

  lemma UnreadableStays(site: Site, s: State, step: Step, id: Uuid)
    requires Inv(site, s) && Enabled(site, s, step) && UnreadableAt(s, id)
    ensures FrozenAt(s, Exec(site, s, step), id)
  {
    if step.Write? {
      assert PendingSound(site, s, s.pending[step.call]);
    }
  }

  /** With nothing in between, the steps of a login do what the service's call does. */
  lemma WholeLoginIsServiceLogin(site: Site, s: State, c: CallId, email: string, password: string, id: Uuid, now: Time)
    requires Inv(site, s) && Enabled(site, s, LoginLookup(c, email, password, id, now))
    ensures var read := Exec(site, s, LoginLookup(c, email, password, id, now));
            Exec(site, read, Write(c)).table == s.table[id := LoggedIn(s.table[id], now)]
  {
    assert s.table[id].id == id;
    assert Updated(s.table[id], LoggedIn(s.table[id], now)) == LoggedIn(s.table[id], now);
  }

  /** And those of a registration. */
  lemma WholeRegistrationIsServiceRegistration(
    site: Site, s: State, c: CallId, req: RegisterRequest, id: Uuid, salt: nat, now: Time)
    requires Inv(site, s) && Enabled(site, s, RegisterLookup(c, req, id, salt, now))
    ensures var looked := Exec(site, s, RegisterLookup(c, req, id, salt, now));
            Exec(site, looked, RegisterInsert(c)).table
            == if Taken(s.table, Canon(req.email, site.lower), site.lower) then s.table
               else s.table[id := NewUser(Tidy(site.libs, req), site.lower, id, salt, now)]
  {
  }

  /**
   Of concurrent registrations of one email only one inserts: once an account has it, in any
   spelling, no later insert of it goes through.
   */
  lemma EmailRegistersOnce(site: Site, states: seq<State>, steps: seq<Step>, i: nat, j: nat)
    requires Folds(site.lower) && IsRun(site, states, steps) && i < j < |steps|
    requires steps[i].RegisterInsert? && steps[j].RegisterInsert?
    requires Enabled(site, states[i], steps[i]) && Enabled(site, states[j], steps[j])
    requires Inserts(site, states[i], steps[i])
    requires Lower(states[i].pending[steps[i].call].user.email, site.lower)
          == Lower(states[j].pending[steps[j].call].user.email, site.lower)
    ensures !Inserts(site, states[j], steps[j])
  {
    var u := states[i].pending[steps[i].call].user;
    assert states[i + 1] == Exec(site, states[i], steps[i]);
    AccountsNeverChange(site, states, steps, i + 1, j, u.id);
    assert Lower(states[j].table[u.id].email, site.lower) == Lower(u.email, site.lower);
  }

  // ---------------------------------------------------------------------------------------------
  // Lost updates: a write-back carries the whole copy that was read
  // ---------------------------------------------------------------------------------------------

  /** Every account's field is what it was last set to. */
  predicate LastKept(s: State, f: Field) {
    forall id | id in s.table :: (id, f) in s.given && s.given[(id, f)] == Shown(s.table[id], f)
  }

  /** A write-back of a copy whose field its call was not asked to set finds in the table what the copy holds. */
  predicate UpToDate(site: Site, s: State, step: Step, f: Field)
    requires Enabled(site, s, step)
  {
    step.Write? ==>
      var p := s.pending[step.call];
      f in p.sets || (p.user.id in s.table && Shown(s.table[p.user.id], f) == Shown(p.user, f))
  }

  lemma NotedHas(s: State, u: User, sets: set<Field>, id: Uuid, f: Field)
    ensures var given := Noted(s, u, sets);
            if id == u.id && f in sets then (id, f) in given && given[(id, f)] == Shown(u, f)
            else ((id, f) in given <==> (id, f) in s.given) && ((id, f) in given ==> given[(id, f)] == s.given[(id, f)])
  {
  }

  lemma WriteKeepsLastIff(site: Site, s: State, step: Step, f: Field)
    requires Inv(site, s) && Enabled(site, s, step) && LastKept(s, f) && step.Write?
    ensures LastKept(Exec(site, s, step), f) <==> UpToDate(site, s, step, f)
  {
    var p, s' := s.pending[step.call], Exec(site, s, step);
    assert PendingSound(site, s, p);
    forall id | id in s'.table
      ensures id != p.user.id ==> (id, f) in s'.given && s'.given[(id, f)] == Shown(s'.table[id], f)
    {
      NotedHas(s, p.user, p.sets, id, f);
    }
    NotedHas(s, p.user, p.sets, p.user.id, f);
  }

  lemma OtherStepsKeepLast(site: Site, s: State, step: Step, f: Field)
    requires Enabled(site, s, step) && LastKept(s, f) && !step.Write?
    ensures LastKept(Exec(site, s, step), f)
  {
    var s' := Exec(site, s, step);
    if step.RegisterInsert? && Inserts(site, s, step) {
      forall id | id in s'.table
        ensures (id, f) in s'.given && s'.given[(id, f)] == Shown(s'.table[id], f)
      {
        NotedHas(s, s.pending[step.call].user, {NameField, ImageField}, id, f);
      }
    }
  }

  lemma StepKeepsLastIff(site: Site, s: State, step: Step, f: Field)
    requires Inv(site, s) && Enabled(site, s, step) && LastKept(s, f)
    ensures LastKept(Exec(site, s, step), f) <==> UpToDate(site, s, step, f)
  {
    if step.Write? {
      WriteKeepsLastIff(site, s, step, f);
    } else {
      OtherStepsKeepLast(site, s, step, f);
    }
  }

  lemma {:induction false} UpToDateRunKeepsLast(site: Site, states: seq<State>, steps: seq<Step>, f: Field, i: nat)
    requires Folds(site.lower) && IsRun(site, states, steps) && LastKept(states[0], f) && i < |states|
    requires forall k | 0 <= k < i :: Enabled(site, states[k], steps[k]) && UpToDate(site, states[k], steps[k], f)
    ensures LastKept(states[i], f)
  {
    if i > 0 {
      UpToDateRunKeepsLast(site, states, steps, f, i - 1);
      RunKeepsInv(site, states, steps, i - 1);
      assert states[i] == Exec(site, states[i - 1], steps[i - 1]);
      StepKeepsLastIff(site, states[i - 1], steps[i - 1], f);
    }
  }

  /**
   No update is ever lost in a run, that is, names (or images) are always what they were last set
   to, exactly when every write-back by a call that was not asked to set the name (or image) finds
   in the table what its copy holds.
   */
  lemma NoUpdateLostIff(site: Site, states: seq<State>, steps: seq<Step>, f: Field)
    requires Folds(site.lower) && IsRun(site, states, steps) && LastKept(states[0], f)
    ensures (forall i | 0 <= i < |states| :: LastKept(states[i], f))
            <==> (forall i | 0 <= i < |steps| ::
                    Enabled(site, states[i], steps[i]) && UpToDate(site, states[i], steps[i], f))
  {
    if forall i | 0 <= i < |states| :: LastKept(states[i], f) {
      forall i | 0 <= i < |steps|
        ensures Enabled(site, states[i], steps[i]) && UpToDate(site, states[i], steps[i], f)
      {
        RunKeepsInv(site, states, steps, i);
        assert states[i + 1] == Exec(site, states[i], steps[i]) && LastKept(states[i + 1], f);
        StepKeepsLastIff(site, states[i], steps[i], f);
      }
    }
    if forall i | 0 <= i < |steps| :: Enabled(site, states[i], steps[i]) && UpToDate(site, states[i], steps[i], f) {
      forall i | 0 <= i < |states|
        ensures LastKept(states[i], f)
      {
        UpToDateRunKeepsLast(site, states, steps, f, i);
      }
    }
  }

  /** A login undoes the rename made between its lookup and its write-back: the old name is back. */
  lemma LoginUndoesRename(
    site: Site, s: State, c: CallId, d: CallId, email: string, password: string, id: Uuid, name: string, now: Time)
    requires Inv(site, s) && c != d && d !in s.pending && Enabled(site, s, LoginLookup(c, email, password, id, now))
    ensures var s1 := Exec(site, s, LoginLookup(c, email, password, id, now));
            && Enabled(site, s1, UpdateLookup(d, id, name, None, now))
            && var s2 := Exec(site, s1, UpdateLookup(d, id, name, None, now));
            Enabled(site, s2, Write(d))
            && var s3 := Exec(site, s2, Write(d));
            Enabled(site, s3, Write(c))
            && var s4 := Exec(site, s3, Write(c));
            && id in s3.table && s3.table[id].name == Trim(site.libs.policy(name))
            && id in s4.table && s4.table[id].name == s.table[id].name
  {
    assert s.table[id].id == id;
  }

  /** And an update that sends no image undoes the image that another one set in between. */
  lemma UpdateUndoesImage(
    site: Site, s: State, c: CallId, d: CallId, id: Uuid, name: string, other: string, image: string, now: Time)
    requires Inv(site, s) && c != d && d !in s.pending && Enabled(site, s, UpdateLookup(c, id, name, None, now))
    ensures var s1 := Exec(site, s, UpdateLookup(c, id, name, None, now));
            && Enabled(site, s1, UpdateLookup(d, id, other, Some(image), now))
            && var s2 := Exec(site, s1, UpdateLookup(d, id, other, Some(image), now));
            Enabled(site, s2, Write(d))
            && var s3 := Exec(site, s2, Write(d));
            Enabled(site, s3, Write(c))
            && var s4 := Exec(site, s3, Write(c));
            && id in s3.table && s3.table[id].profileImage == Some(image)
            && id in s4.table && s4.table[id].profileImage == s.table[id].profileImage
  {
    assert s.table[id].id == id;
  }
}
