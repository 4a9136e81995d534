/**
 Logins and rotations of refresh tokens, interleaved at every access to the shared store.

 The store is a concurrent map: each load, store and delete is atomic, and no lock is held across
 the steps of a call. Any number of calls run at once, each under an identifier of its own; a call
 that stops for good is one that takes no further step.
 */
module TokenInterleaving {
  import opened Common
  import opened UserModel
  import opened TokenManager

  type CallId = nat

  /** How far a call has come. `at` is when the presented token was parsed. */
  datatype Progress =
    | LoginSigned(token: Token)
    | Presented(u: User, token: Token, at: Time)
    | Accepted(u: User, token: Token, at: Time)
    | SuccessorSigned(token: Token, successor: Token)
    | SuccessorStored(token: Token, successor: Token)
    | Finished

  /** Where a refresh token comes from: the login at the root of its lineage, and how many rotations ago. */
  datatype Birth = Birth(token: Token, root: string, depth: nat, at: Time, signer: CallId)

  /**
   `births`, `stored` (in order) and `revoked` record the past of each token, under its id. No
   step consults them, except to draw an id never used before and to note whose successor it is.
   */
  datatype State = State(
    store: Store,
    clock: Time,
    calls: map<CallId, Progress>,
    births: map<string, Birth>,
    stored: seq<string>,
    revoked: set<string>)

  datatype Step =
    | Tick(to: Time)
    | SignLogin(call: CallId, u: User, id: string)
    | StoreLogin(call: CallId)
    | Present(call: CallId, u: User, token: Token)
    | Load(call: CallId)
    | SignSuccessor(call: CallId, id: string)
    | StoreSuccessor(call: CallId)
    | Revoke(call: CallId)

  predicate Enabled(cfg: AuthConfig, s: State, step: Step) {
    match step
    case Tick(to) => s.clock <= to
    case SignLogin(c, u, id) => c !in s.calls && id !in s.births
    case StoreLogin(c) => c in s.calls && s.calls[c].LoginSigned? && s.calls[c].token.Signed?
    case Present(c, u, token) => c !in s.calls && CheckPresented(cfg, u.id, token, s.clock).Ok?
    case Load(c) => c in s.calls && s.calls[c].Presented? && s.calls[c].token.Signed?
    case SignSuccessor(c, id) =>
      && c in s.calls && s.calls[c].Accepted? && id !in s.births
      && s.calls[c].token.Signed? && s.calls[c].token.claims.id in s.births
    case StoreSuccessor(c) => c in s.calls && s.calls[c].SuccessorSigned? && s.calls[c].successor.Signed?
    case Revoke(c) => c in s.calls && s.calls[c].SuccessorStored? && s.calls[c].token.Signed?
  }

  /** The state after call `c` has signed the token of birth `b`. */
  function Signing(s: State, c: CallId, id: string, b: Birth, p: Progress): State {
    s.(calls := s.calls[c := p], births := s.births[id := b])
  }

  /** The state after `token` has been stored by call `c`. */
  function Storing(s: State, c: CallId, token: Token, p: Progress): State
    requires token.Signed?
  {
    s.(calls := s.calls[c := p], store := s.store[KeyOf(token) := token], stored := s.stored + [token.claims.id])
  }

  /** The state after call `c` has deleted `token` and ended. */
  function Revoking(s: State, c: CallId, token: Token): State
    requires token.Signed?
  {
    s.(calls := s.calls[c := Finished], store := s.store - {KeyOf(token)}, revoked := s.revoked + {token.claims.id})
  }

  /** The successor an accepted call signs: of its parent's lineage, one rotation later. */
  function Successor(cfg: AuthConfig, s: State, c: CallId, id: string): Birth
    requires Enabled(cfg, s, SignSuccessor(c, id))
  {
    var p := s.calls[c];
    var parent := s.births[p.token.claims.id];
    Birth(MintRefresh(cfg, p.u, s.clock, id), parent.root, parent.depth + 1, s.clock, c)
  }

  function Exec(cfg: AuthConfig, s: State, step: Step): State
    requires Enabled(cfg, s, step)
  {
    match step
    case Tick(to) => s.(clock := to)
    case SignLogin(c, u, id) =>
      var token := MintRefresh(cfg, u, s.clock, id);
      Signing(s, c, id, Birth(token, id, 0, s.clock, c), LoginSigned(token))
    case StoreLogin(c) => Storing(s, c, s.calls[c].token, Finished)
    case Present(c, u, token) => s.(calls := s.calls[c := Presented(u, token, s.clock)])
    case Load(c) =>
      var p := s.calls[c];
      s.(calls := s.calls[c := if CheckStored(s.store, p.token.claims.id, p.token).None?
                               then Accepted(p.u, p.token, p.at) else Finished])
    case SignSuccessor(c, id) =>
      var p := s.calls[c];
      Signing(s, c, id, Successor(cfg, s, c, id), SuccessorSigned(p.token, Successor(cfg, s, c, id).token))
    case StoreSuccessor(c) =>
      var p := s.calls[c];
      Storing(s, c, p.successor, SuccessorStored(p.token, p.successor))
    case Revoke(c) => Revoking(s, c, s.calls[c].token)
  }

  predicate Initial(s: State) {
    s.store == map[] && s.calls == map[] && s.births == map[] && s.stored == [] && s.revoked == {}
  }

  /** `states` are the states an interleaving of `steps` goes through, from an empty store on. */
  predicate IsRun(cfg: AuthConfig, states: seq<State>, steps: seq<Step>) {
    && |states| == |steps| + 1 && Initial(states[0])
    && forall i | 0 <= i < |steps| ::
        Enabled(cfg, states[i], steps[i]) && states[i + 1] == Exec(cfg, states[i], steps[i])
  }

  // ---------------------------------------------------------------------------------------------
  // What every step keeps
  // ---------------------------------------------------------------------------------------------

  predicate Born(s: State, token: Token) {
    token.Signed? && token.claims.id in s.births && s.births[token.claims.id].token == token
  }

  predicate BirthSound(cfg: AuthConfig, s: State, id: string)
    requires id in s.births
  {
    var b := s.births[id];
    && Genuine(cfg, b.token) && b.token.claims.id == id && b.signer in s.calls
    && b.at <= s.clock && Expiry(b.token) <= b.at + cfg.refreshTokenTTL
    && b.root in s.births && s.births[b.root].depth == 0 && s.births[b.root].root == b.root
    && s.births[b.root].token.Signed? && b.token.claims.userId == s.births[b.root].token.claims.userId
  }

  predicate BirthsSound(cfg: AuthConfig, s: State) {
    forall id | id in s.births :: BirthSound(cfg, s, id)
  }

  predicate PastSound(s: State) {
    && (forall id | id in s.stored :: id in s.births)
    && (forall id | id in s.revoked :: id in s.stored)
  }

  /** An entry of the store is a stored, unrevoked token under the key of its own id. */
  predicate EntrySound(s: State, k: string)
    requires k in s.store
  {
    var t := s.store[k];
    Born(s, t) && k == KeyOf(t) && t.claims.id in s.stored && t.claims.id !in s.revoked
  }

  predicate Live(s: State, id: string)
    requires id in s.births
  {
    RefreshKey(id) in s.store && s.store[RefreshKey(id)] == s.births[id].token
  }

  predicate StoreSound(s: State)
    requires PastSound(s)
  {
    && (forall k | k in s.store :: EntrySound(s, k))
    && (forall id | id in s.stored && id !in s.revoked :: Live(s, id))
  }

  /** Some token of the same lineage was stored after position `i`. */
  predicate Succeeded(s: State, i: nat)
    requires i < |s.stored| && PastSound(s)
  {
    exists j | i < j < |s.stored| :: s.births[s.stored[j]].root == s.births[s.stored[i]].root
  }

  /** The lineage invariant: a token is only revoked once a later one of its lineage has been stored. */
  predicate LineageSound(s: State)
    requires PastSound(s)
  {
    forall i | 0 <= i < |s.stored| && s.stored[i] in s.revoked :: Succeeded(s, i)
  }

  /** A freshly signed token is its call's own and not in the store yet. */
  predicate Pending(s: State, c: CallId, token: Token) {
    Born(s, token) && s.births[token.claims.id].signer == c && token.claims.id !in s.stored
  }

  predicate Known(s: State, token: Token) {
    Born(s, token) && token.claims.id in s.stored
  }

  /** Wherever `token` was stored, some token of its lineage was stored later. */
  predicate SucceededAll(s: State, token: Token)
    requires PastSound(s) && token.Signed?
  {
    forall i | 0 <= i < |s.stored| && s.stored[i] == token.claims.id :: Succeeded(s, i)
  }

  predicate CallSound(s: State, c: CallId)
    requires c in s.calls && PastSound(s)
  {
    match s.calls[c]
    case LoginSigned(token) => Pending(s, c, token)
    case Presented(u, token, at) =>
      && token.Signed? && token.claims.userId == u.id
      && (token.claims.expiresAt.Some? ==> at < token.claims.expiresAt.value)
    case Accepted(u, token, at) => Known(s, token) && token.claims.userId == u.id && at < Expiry(token)
    case SuccessorSigned(token, successor) =>
      && Known(s, token) && Pending(s, c, successor)
      && s.births[successor.claims.id].root == s.births[token.claims.id].root
    case SuccessorStored(token, successor) =>
      Known(s, token) && SucceededAll(s, token)
    case Finished => true
  }

  predicate CallsSound(s: State)
    requires PastSound(s)
  {
    forall c | c in s.calls :: CallSound(s, c)
  }

  predicate Inv(cfg: AuthConfig, s: State) {
    BirthsSound(cfg, s) && PastSound(s) && StoreSound(s) && LineageSound(s) && CallsSound(s)
  }

  /** Later states know all the births and all the stored tokens of earlier ones. */
  predicate Extends(s: State, s': State) {
    && s.stored <= s'.stored
    && forall id | id in s.births :: id in s'.births && s'.births[id] == s.births[id]
  }

  lemma SuccessionKept(s: State, s': State)
    requires PastSound(s) && PastSound(s') && Extends(s, s')
    ensures forall i | 0 <= i < |s.stored| && Succeeded(s, i) :: Succeeded(s', i)
  {
    forall i | 0 <= i < |s.stored| && Succeeded(s, i)
      ensures Succeeded(s', i)
    {
      var j :| i < j < |s.stored| && s.births[s.stored[j]].root == s.births[s.stored[i]].root;
      assert s'.births[s'.stored[j]].root == s'.births[s'.stored[i]].root;
    }
  }

  /**
   Another call's progress stays sound if the past only grows and what is new in it belongs to
   call `c`: every pending token is its own call's, so none of the others has been stored.
   */
  lemma OthersStaySound(s: State, s': State, c: CallId)
    requires PastSound(s) && PastSound(s') && CallsSound(s) && Extends(s, s')
    requires forall id | id in s'.stored && id !in s.stored :: id in s.births && s.births[id].signer == c
    requires forall i | |s.stored| <= i < |s'.stored| :: s'.stored[i] !in s.stored
    ensures forall d | d in s.calls && d in s'.calls && d != c && s'.calls[d] == s.calls[d] :: CallSound(s', d)
  {
    SuccessionKept(s, s');
    forall d | d in s.calls && d in s'.calls && d != c && s'.calls[d] == s.calls[d]
      ensures CallSound(s', d)
    {
      assert CallSound(s, d);
      assert forall id | id in s.stored :: id in s'.stored;
    }
  }

  lemma BirthsKept(cfg: AuthConfig, s: State, s': State)
    requires BirthsSound(cfg, s) && s'.births == s.births && s.clock <= s'.clock && s.calls.Keys <= s'.calls.Keys
    ensures BirthsSound(cfg, s')
  {
    forall id | id in s'.births
      ensures BirthSound(cfg, s', id)
    {
      assert BirthSound(cfg, s, id);
    }
  }

  lemma StoreKept(s: State, s': State)
    requires PastSound(s) && StoreSound(s) && PastSound(s') && Extends(s, s')
    requires s'.store == s.store && s'.stored == s.stored && s'.revoked == s.revoked
    ensures StoreSound(s')
  {
    forall k | k in s'.store
      ensures EntrySound(s', k)
    {
      assert EntrySound(s, k);
    }
    forall id | id in s'.stored && id !in s'.revoked
      ensures Live(s', id)
    {
      assert Live(s, id);
    }
  }

  lemma LineageKept(s: State, s': State)
    requires PastSound(s) && LineageSound(s) && PastSound(s') && Extends(s, s')
    requires forall i | |s.stored| <= i < |s'.stored| :: s'.stored[i] !in s'.revoked
    requires forall i | 0 <= i < |s.stored| && s.stored[i] in s'.revoked && s.stored[i] !in s.revoked :: Succeeded(s, i)
    ensures LineageSound(s')
  {
    SuccessionKept(s, s');
    forall i | 0 <= i < |s'.stored| && s'.stored[i] in s'.revoked
      ensures Succeeded(s', i)
    {
      assert Succeeded(s, i);
    }
  }

  lemma CallsKept(s: State, s': State, c: CallId)
    requires PastSound(s) && PastSound(s') && CallsSound(s) && Extends(s, s')
    requires forall id | id in s'.stored && id !in s.stored :: id in s.births && s.births[id].signer == c
    requires forall i | |s.stored| <= i < |s'.stored| :: s'.stored[i] !in s.stored
    requires c in s'.calls && CallSound(s', c) && s'.calls == s.calls[c := s'.calls[c]]
    ensures CallsSound(s')
  {
    OthersStaySound(s, s', c);
  }

  lemma TickKeepsInv(cfg: AuthConfig, s: State, to: Time)
    requires Inv(cfg, s) && Enabled(cfg, s, Tick(to))
    ensures Inv(cfg, Exec(cfg, s, Tick(to)))
  {
    var s' := Exec(cfg, s, Tick(to));
    BirthsKept(cfg, s, s');
    StoreKept(s, s');
    LineageKept(s, s');
    TickKeepsCalls(s, to);
  }

  lemma TickKeepsCalls(s: State, to: Time)
    requires PastSound(s) && CallsSound(s)
    ensures CallsSound(s.(clock := to))
  {
    var s' := s.(clock := to);
    forall c | c in s'.calls
      ensures CallSound(s', c)
    {
      OthersStaySound(s, s', c + 1);
    }
  }

  /** Steps that only move one call along. */
  lemma MovingKeepsInv(cfg: AuthConfig, s: State, c: CallId, p: Progress)
    requires Inv(cfg, s)
    requires CallSound(s.(calls := s.calls[c := p]), c)
    ensures Inv(cfg, s.(calls := s.calls[c := p]))
  {
    MovingKeepsPast(cfg, s, c, p);
    MovingKeepsCalls(s, c, p);
  }

  lemma MovingKeepsPast(cfg: AuthConfig, s: State, c: CallId, p: Progress)
    requires BirthsSound(cfg, s) && PastSound(s) && StoreSound(s) && LineageSound(s)
    ensures var s' := s.(calls := s.calls[c := p]);
            BirthsSound(cfg, s') && PastSound(s') && StoreSound(s') && LineageSound(s')
  {
    var s' := s.(calls := s.calls[c := p]);
    BirthsKept(cfg, s, s');
    StoreKept(s, s');
    LineageKept(s, s');
  }

  lemma MovingKeepsCalls(s: State, c: CallId, p: Progress)
    requires PastSound(s) && CallsSound(s) && CallSound(s.(calls := s.calls[c := p]), c)
    ensures CallsSound(s.(calls := s.calls[c := p]))
  {
    CallsKept(s, s.(calls := s.calls[c := p]), c);
  }

  /** Signing records a birth. */
  lemma SigningKeepsInv(cfg: AuthConfig, s: State, c: CallId, id: string, b: Birth, p: Progress)
    requires Inv(cfg, s) && id !in s.births && b.signer == c
    requires BirthSound(cfg, Signing(s, c, id, b, p), id) && PastSound(Signing(s, c, id, b, p))
    requires CallSound(Signing(s, c, id, b, p), c)
    ensures Inv(cfg, Signing(s, c, id, b, p))
  {
    SigningKeepsBirths(cfg, s, c, id, b, p);
    SigningKeepsStore(s, c, id, b, p);
    SigningKeepsCalls(s, c, id, b, p);
  }

  lemma SigningKeepsStore(s: State, c: CallId, id: string, b: Birth, p: Progress)
    requires PastSound(s) && StoreSound(s) && LineageSound(s) && id !in s.births && PastSound(Signing(s, c, id, b, p))
    ensures StoreSound(Signing(s, c, id, b, p)) && LineageSound(Signing(s, c, id, b, p))
  {
    StoreKept(s, Signing(s, c, id, b, p));
    LineageKept(s, Signing(s, c, id, b, p));
  }

  lemma SigningKeepsCalls(s: State, c: CallId, id: string, b: Birth, p: Progress)
    requires PastSound(s) && CallsSound(s) && id !in s.births
    requires PastSound(Signing(s, c, id, b, p)) && CallSound(Signing(s, c, id, b, p), c)
    ensures CallsSound(Signing(s, c, id, b, p))
  {
    CallsKept(s, Signing(s, c, id, b, p), c);
  }

  lemma SigningKeepsBirths(cfg: AuthConfig, s: State, c: CallId, id: string, b: Birth, p: Progress)
    requires BirthsSound(cfg, s) && id !in s.births && BirthSound(cfg, Signing(s, c, id, b, p), id)
    ensures BirthsSound(cfg, Signing(s, c, id, b, p))
  {
    var s' := Signing(s, c, id, b, p);
    forall i | i in s'.births
      ensures BirthSound(cfg, s', i)
    {
      if i != id {
        assert BirthSound(cfg, s, i);
      }
    }
  }

  /** Storing a pending token makes it the latest of its lineage. */
  lemma StoringKeepsInv(cfg: AuthConfig, s: State, c: CallId, token: Token, p: Progress)
    requires Inv(cfg, s) && c in s.calls && Pending(s, c, token)
    requires PastSound(Storing(s, c, token, p)) && CallSound(Storing(s, c, token, p), c)
    ensures Inv(cfg, Storing(s, c, token, p))
  {
    var s' := Storing(s, c, token, p);
    BirthsKept(cfg, s, s');
    StoringKeepsStore(cfg, s, c, token, p);
    StoringKeepsLineage(s, c, token, p);
    StoringKeepsCalls(s, c, token, p);
  }

  lemma StoringKeepsCalls(s: State, c: CallId, token: Token, p: Progress)
    requires PastSound(s) && CallsSound(s) && Pending(s, c, token)
    requires PastSound(Storing(s, c, token, p)) && CallSound(Storing(s, c, token, p), c)
    ensures CallsSound(Storing(s, c, token, p))
  {
    CallsKept(s, Storing(s, c, token, p), c);
  }

  lemma StoringKeepsLineage(s: State, c: CallId, token: Token, p: Progress)
    requires PastSound(s) && LineageSound(s) && Pending(s, c, token) && PastSound(Storing(s, c, token, p))
    ensures LineageSound(Storing(s, c, token, p))
  {
    LineageKept(s, Storing(s, c, token, p));
  }

  lemma StoringKeepsStore(cfg: AuthConfig, s: State, c: CallId, token: Token, p: Progress)
    requires PastSound(s) && StoreSound(s) && Pending(s, c, token) && PastSound(Storing(s, c, token, p))
    ensures StoreSound(Storing(s, c, token, p))
  {
    var s' := Storing(s, c, token, p);
    forall k | k in s'.store
      ensures EntrySound(s', k)
    {
      if k != KeyOf(token) {
        assert EntrySound(s, k);
      }
    }
    forall id | id in s'.stored && id !in s'.revoked
      ensures Live(s', id)
    {
      if id in s.stored {
        assert Live(s, id);
        if RefreshKey(id) == KeyOf(token) {
          RefreshKeyInjective(id, token.claims.id);
        }
      }
    }
  }

  /** Revoking removes exactly the token's own entry. */
  lemma RevokingKeepsStore(s: State, c: CallId, token: Token)
    requires PastSound(s) && StoreSound(s) && Known(s, token) && PastSound(Revoking(s, c, token))
    ensures StoreSound(Revoking(s, c, token))
  {
    var s' := Revoking(s, c, token);
    forall k | k in s'.store
      ensures EntrySound(s', k)
    {
      assert EntrySound(s, k);
    }
    forall id | id in s'.stored && id !in s'.revoked
      ensures Live(s', id)
    {
      assert Live(s, id);
      if RefreshKey(id) == KeyOf(token) {
        RefreshKeyInjective(id, token.claims.id);
      }
    }
  }

  lemma RevokingKeepsBirths(cfg: AuthConfig, s: State, c: CallId, token: Token)
    requires BirthsSound(cfg, s) && c in s.calls && token.Signed?
    ensures BirthsSound(cfg, Revoking(s, c, token))
  {
    BirthsKept(cfg, s, Revoking(s, c, token));
  }

  lemma RevokingKeepsCalls(s: State, c: CallId, token: Token)
    requires PastSound(s) && CallsSound(s) && token.Signed? && PastSound(Revoking(s, c, token))
    ensures CallsSound(Revoking(s, c, token))
  {
    CallsKept(s, Revoking(s, c, token), c);
  }

  lemma RevokingKeepsPast(s: State, c: CallId, token: Token)
    requires PastSound(s) && LineageSound(s) && Known(s, token)
    requires SucceededAll(s, token)
    ensures PastSound(Revoking(s, c, token)) && LineageSound(Revoking(s, c, token))
  {
    LineageKept(s, Revoking(s, c, token));
  }

  lemma RevokingKeepsInv(cfg: AuthConfig, s: State, c: CallId, token: Token)
    requires Inv(cfg, s) && c in s.calls && Known(s, token)
    requires SucceededAll(s, token)
    ensures Inv(cfg, Revoking(s, c, token))
  {
    RevokingKeepsPast(s, c, token);
    RevokingKeepsBirths(cfg, s, c, token);
    RevokingKeepsStore(s, c, token);
    RevokingKeepsCalls(s, c, token);
  }

  lemma RevokeKeepsInv(cfg: AuthConfig, s: State, c: CallId)
    requires Inv(cfg, s) && Enabled(cfg, s, Revoke(c))
    ensures Inv(cfg, Exec(cfg, s, Revoke(c)))
  {
    assert CallSound(s, c);
    SpentIsSucceeded(s, c, s.calls[c].token, s.calls[c].successor);
    RevokingKeepsInv(cfg, s, c, s.calls[c].token);
  }

  lemma SpentIsSucceeded(s: State, c: CallId, token: Token, successor: Token)
    requires PastSound(s) && c in s.calls && s.calls[c] == SuccessorStored(token, successor) && CallSound(s, c)
    ensures Known(s, token) && SucceededAll(s, token)
  {
  }

  lemma SignLoginKeepsInv(cfg: AuthConfig, s: State, c: CallId, u: User, id: string)
    requires Inv(cfg, s) && Enabled(cfg, s, SignLogin(c, u, id))
    ensures Inv(cfg, Exec(cfg, s, SignLogin(c, u, id)))
  {
    var token := MintRefresh(cfg, u, s.clock, id);
    SigningKeepsInv(cfg, s, c, id, Birth(token, id, 0, s.clock, c), LoginSigned(token));
  }

  /** A successor is of its parent's lineage, and of the same user. */
  lemma SuccessorIsSound(cfg: AuthConfig, s: State, c: CallId, id: string)
    requires PastSound(s) && BirthsSound(cfg, s) && Enabled(cfg, s, SignSuccessor(c, id)) && CallSound(s, c)
    ensures var s' := Exec(cfg, s, SignSuccessor(c, id));
            BirthSound(cfg, s', id) && PastSound(s') && CallSound(s', c)
  {
    var parent := s.calls[c].token.claims.id;
    assert BirthSound(cfg, s, parent) && BirthSound(cfg, s, s.births[parent].root);
  }

  lemma SignSuccessorKeepsInv(cfg: AuthConfig, s: State, c: CallId, id: string)
    requires Inv(cfg, s) && Enabled(cfg, s, SignSuccessor(c, id))
    ensures Inv(cfg, Exec(cfg, s, SignSuccessor(c, id)))
  {
    assert CallSound(s, c);
    SuccessorIsSound(cfg, s, c, id);
    var b := Successor(cfg, s, c, id);
    SigningKeepsInv(cfg, s, c, id, b, SuccessorSigned(s.calls[c].token, b.token));
  }

  /** The check lets a token pass exactly when it has been stored and not been revoked. */
  lemma CheckIsExact(cfg: AuthConfig, s: State, token: Token)
    requires BirthsSound(cfg, s) && PastSound(s) && StoreSound(s) && token.Signed?
    ensures CheckStored(s.store, token.claims.id, token).None? <==> Known(s, token) && token.claims.id !in s.revoked
  {
    if CheckStored(s.store, token.claims.id, token).None? {
      assert EntrySound(s, KeyOf(token));
    }
    if Known(s, token) && token.claims.id !in s.revoked {
      assert Live(s, token.claims.id);
    }
  }

  lemma LoadIsSound(cfg: AuthConfig, s: State, c: CallId)
    requires BirthsSound(cfg, s) && PastSound(s) && StoreSound(s) && Enabled(cfg, s, Load(c)) && CallSound(s, c)
    ensures CallSound(s.(calls := Exec(cfg, s, Load(c)).calls), c)
  {
    var token := s.calls[c].token;
    CheckIsExact(cfg, s, token);
    if Known(s, token) {
      assert BirthSound(cfg, s, token.claims.id);
    }
  }

  lemma LoadKeepsInv(cfg: AuthConfig, s: State, c: CallId)
    requires Inv(cfg, s) && Enabled(cfg, s, Load(c))
    ensures Inv(cfg, Exec(cfg, s, Load(c)))
  {
    assert CallSound(s, c);
    LoadIsSound(cfg, s, c);
    MovingKeepsInv(cfg, s, c, Exec(cfg, s, Load(c)).calls[c]);
  }

  lemma StoreLoginKeepsInv(cfg: AuthConfig, s: State, c: CallId)
    requires Inv(cfg, s) && Enabled(cfg, s, StoreLogin(c))
    ensures Inv(cfg, Exec(cfg, s, StoreLogin(c)))
  {
    assert CallSound(s, c);
    StoringKeepsInv(cfg, s, c, s.calls[c].token, Finished);
  }

  lemma StoreSuccessorKeepsInv(cfg: AuthConfig, s: State, c: CallId)
    requires Inv(cfg, s) && Enabled(cfg, s, StoreSuccessor(c))
    ensures Inv(cfg, Exec(cfg, s, StoreSuccessor(c)))
  {
    var p := s.calls[c];
    assert CallSound(s, c);
    SuccessorComesLater(s, c, p.token, p.successor);
    StoringKeepsInv(cfg, s, c, p.successor, SuccessorStored(p.token, p.successor));
  }

  lemma StepKeepsInv(cfg: AuthConfig, s: State, step: Step)
    requires Inv(cfg, s) && Enabled(cfg, s, step)
    ensures Inv(cfg, Exec(cfg, s, step))
  {
    match step
    case Tick(to) => TickKeepsInv(cfg, s, to);
    case SignLogin(c, u, id) => SignLoginKeepsInv(cfg, s, c, u, id);
    case StoreLogin(c) => StoreLoginKeepsInv(cfg, s, c);
    case Present(c, u, token) => MovingKeepsInv(cfg, s, c, Presented(u, token, s.clock));
    case Load(c) => LoadKeepsInv(cfg, s, c);
    case SignSuccessor(c, id) => SignSuccessorKeepsInv(cfg, s, c, id);
    case StoreSuccessor(c) => StoreSuccessorKeepsInv(cfg, s, c);
    case Revoke(c) => RevokeKeepsInv(cfg, s, c);
  }

  lemma SuccessorComesLater(s: State, c: CallId, token: Token, successor: Token)
    requires PastSound(s) && c in s.calls && s.calls[c] == SuccessorSigned(token, successor) && CallSound(s, c)
    ensures var s' := Storing(s, c, successor, SuccessorStored(token, successor));
            PastSound(s') && CallSound(s', c)
  {
    var s' := Storing(s, c, successor, SuccessorStored(token, successor));
    var last := |s.stored|;
    assert s'.stored[last] == successor.claims.id;
    forall i | 0 <= i < |s'.stored| && s'.stored[i] == token.claims.id
      ensures Succeeded(s', i)
    {
      assert s'.births[s'.stored[last]].root == s'.births[s'.stored[i]].root;
    }
  }

  lemma {:induction false} RunKeepsInv(cfg: AuthConfig, states: seq<State>, steps: seq<Step>, i: nat)
    requires IsRun(cfg, states, steps) && i < |states|
    ensures Inv(cfg, states[i])
  {
    if i > 0 {
      RunKeepsInv(cfg, states, steps, i - 1);
      StepKeepsInv(cfg, states[i - 1], steps[i - 1]);
    }
  }

  // ---------------------------------------------------------------------------------------------
  // Theorems about every interleaving
  // ---------------------------------------------------------------------------------------------

  /** The token of a lineage that was stored last is in the store. */
  lemma LatestOfLineageIsLive(cfg: AuthConfig, states: seq<State>, steps: seq<Step>, i: nat, k: nat)
    requires IsRun(cfg, states, steps) && i < |states| && k < |states[i].stored|
    ensures PastSound(states[i])
    ensures !Succeeded(states[i], k) ==> Live(states[i], states[i].stored[k])
  {
    RunKeepsInv(cfg, states, steps, i);
    var s := states[i];
    if s.stored[k] !in s.revoked {
      assert Live(s, s.stored[k]);
    }
  }

  /** The last position at or after `k` that holds a token of the same lineage. */
  lemma {:induction false} LastOfLineage(s: State, k: nat) returns (last: nat)
    requires PastSound(s) && k < |s.stored|
    ensures k <= last < |s.stored| && !Succeeded(s, last)
    ensures s.births[s.stored[last]].root == s.births[s.stored[k]].root
    decreases |s.stored| - k
  {
    if Succeeded(s, k) {
      var j :| k < j < |s.stored| && s.births[s.stored[j]].root == s.births[s.stored[k]].root;
      last := LastOfLineage(s, j);
    } else {
      last := k;
    }
  }

  /** No interleaving locks a session out: from its login's store step on, some token of it is in the store. */
  lemma SessionsStayAlive(cfg: AuthConfig, states: seq<State>, steps: seq<Step>, i: nat, login: string)
    requires IsRun(cfg, states, steps) && i < |states|
    requires login in states[i].stored && login in states[i].births && states[i].births[login].root == login
    ensures exists id | id in states[i].births :: states[i].births[id].root == login && Live(states[i], id)
  {
    RunKeepsInv(cfg, states, steps, i);
    var k :| 0 <= k < |states[i].stored| && states[i].stored[k] == login;
    var last := LastOfLineage(states[i], k);
    LatestOfLineageIsLive(cfg, states, steps, i, last);
    assert states[i].births[states[i].stored[last]].root == login;
  }

  lemma {:induction false} RevokedGrows(cfg: AuthConfig, states: seq<State>, steps: seq<Step>, i: nat, j: nat)
    requires IsRun(cfg, states, steps) && i <= j < |states|
    ensures states[i].revoked <= states[j].revoked
    decreases j
  {
    if i < j {
      RevokedGrows(cfg, states, steps, i, j - 1);
      assert states[j] == Exec(cfg, states[j - 1], steps[j - 1]);
    }
  }

  /** Revocation is permanent: once a rotation has deleted a token, no later check of it finds an entry. */
  lemma RevocationIsPermanent(cfg: AuthConfig, states: seq<State>, steps: seq<Step>, i: nat, j: nat, token: Token)
    requires IsRun(cfg, states, steps) && i < |steps| && i < j < |states|
    requires steps[i].Revoke? && states[i].calls[steps[i].call].token == token
    ensures token.Signed? && CheckStored(states[j].store, token.claims.id, token) == Some(Missing)
  {
    assert states[i + 1] == Exec(cfg, states[i], steps[i]);
    RevokedGrows(cfg, states, steps, i + 1, j);
    RunKeepsInv(cfg, states, steps, j);
    var s, id := states[j], token.claims.id;
    if RefreshKey(id) in s.store {
      assert EntrySound(s, RefreshKey(id));
      RefreshKeyInjective(id, s.store[RefreshKey(id)].claims.id);
    }
  }

  /** In every interleaving a rotation passes the store check exactly when its token was stored and not revoked yet. */
  lemma LoadPassesIff(cfg: AuthConfig, states: seq<State>, steps: seq<Step>, i: nat)
    requires IsRun(cfg, states, steps) && i < |steps| && steps[i].Load?
    ensures var token := states[i].calls[steps[i].call].token;
            states[i + 1].calls[steps[i].call].Accepted?
            <==> Known(states[i], token) && token.claims.id !in states[i].revoked
  {
    RunKeepsInv(cfg, states, steps, i);
    assert states[i + 1] == Exec(cfg, states[i], steps[i]);
    CheckIsExact(cfg, states[i], states[i].calls[steps[i].call].token);
  }

  // ---------------------------------------------------------------------------------------------
  // Single use
  // ---------------------------------------------------------------------------------------------

  predicate Loads(states: seq<State>, steps: seq<Step>, i: nat, token: Token)
    requires i < |steps| < |states|
  {
    && steps[i].Load? && steps[i].call in states[i].calls
    && states[i].calls[steps[i].call].Presented? && states[i].calls[steps[i].call].token == token
  }

  predicate Passes(states: seq<State>, steps: seq<Step>, i: nat, token: Token)
    requires i < |steps| < |states|
  {
    && Loads(states, steps, i, token)
    && steps[i].call in states[i + 1].calls && states[i + 1].calls[steps[i].call].Accepted?
  }

  predicate Revokes(states: seq<State>, steps: seq<Step>, k: nat, token: Token)
    requires k < |steps| < |states|
  {
    && steps[k].Revoke? && steps[k].call in states[k].calls
    && states[k].calls[steps[k].call].SuccessorStored? && states[k].calls[steps[k].call].token == token
  }

  predicate RevokedBetween(states: seq<State>, steps: seq<Step>, i: nat, j: nat, token: Token)
    requires i < j < |steps| < |states|
  {
    exists k | i < k < j :: Revokes(states, steps, k, token)
  }

  lemma StepExtends(cfg: AuthConfig, s: State, step: Step)
    requires Enabled(cfg, s, step)
    ensures Extends(s, Exec(cfg, s, step))
  {
  }

  lemma {:induction false} KnownStays(
    cfg: AuthConfig, states: seq<State>, steps: seq<Step>, i: nat, j: nat, token: Token)
    requires IsRun(cfg, states, steps) && i <= j < |states| && Known(states[i], token)
    ensures Known(states[j], token)
    decreases j
  {
    if i < j {
      KnownStays(cfg, states, steps, i, j - 1, token);
      assert states[j] == Exec(cfg, states[j - 1], steps[j - 1]);
      StepExtends(cfg, states[j - 1], steps[j - 1]);
    }
  }

  /** Two tokens that were stored under one id are one token. */
  lemma OneTokenForEachId(s: State, a: Token, b: Token)
    requires Known(s, a) && Known(s, b) && a.claims.id == b.claims.id
    ensures a == b
  {
  }

  /** A token gets revoked by a revoke step of its own. */
  lemma {:induction false} RevokedByStep(
    cfg: AuthConfig, states: seq<State>, steps: seq<Step>, i: nat, j: nat, token: Token) returns (k: nat)
    requires IsRun(cfg, states, steps) && i < j < |states| && Known(states[i], token)
    requires token.claims.id in states[j].revoked && token.claims.id !in states[i].revoked
    ensures i <= k < j && Revokes(states, steps, k, token)
    decreases j
  {
    k := j - 1;
    if token.claims.id in states[k].revoked {
      k := RevokedByStep(cfg, states, steps, i, j - 1, token);
    } else {
      KnownStays(cfg, states, steps, i, k, token);
      RevokedNow(cfg, states, steps, k, token);
    }
  }

  lemma RevokedNow(cfg: AuthConfig, states: seq<State>, steps: seq<Step>, k: nat, token: Token)
    requires IsRun(cfg, states, steps) && k < |steps| && Known(states[k], token)
    requires token.claims.id in states[k + 1].revoked && token.claims.id !in states[k].revoked
    ensures Revokes(states, steps, k, token)
  {
    RunKeepsInv(cfg, states, steps, k);
    RevokesItsOwn(cfg, states[k], steps[k], token);
  }

  lemma RevokesItsOwn(cfg: AuthConfig, s: State, step: Step, token: Token)
    requires PastSound(s) && CallsSound(s) && Enabled(cfg, s, step) && Known(s, token)
    requires token.claims.id in Exec(cfg, s, step).revoked && token.claims.id !in s.revoked
    ensures step.Revoke? && s.calls[step.call].token == token
  {
    assert step.Revoke?;
    assert CallSound(s, step.call);
    OneTokenForEachId(s, token, s.calls[step.call].token);
  }

  /** A token that has passed once passes again exactly when no revoke step of it has run in between. */
  lemma SecondLoadPassesIff(cfg: AuthConfig, states: seq<State>, steps: seq<Step>, i: nat, j: nat, token: Token)
    requires IsRun(cfg, states, steps) && i < j < |steps|
    requires Passes(states, steps, i, token) && Loads(states, steps, j, token)
    ensures Passes(states, steps, j, token) <==> !RevokedBetween(states, steps, i, j, token)
  {
    LoadPassesIff(cfg, states, steps, i);
    LoadPassesIff(cfg, states, steps, j);
    KnownStays(cfg, states, steps, i, j, token);
    if token.claims.id in states[j].revoked {
      var k := RevokedByStep(cfg, states, steps, i, j, token);
      assert k != i;
    }
    if RevokedBetween(states, steps, i, j, token) {
      var k :| i < k < j && Revokes(states, steps, k, token);
      assert states[k + 1] == Exec(cfg, states[k], steps[k]);
      RevokedGrows(cfg, states, steps, k + 1, j);
    }
  }

  /**
   Single use over whole runs: no token passes the store check twice, exactly when a token that has
   passed is never loaded again before its revoke step has run.
   */
  lemma SingleUseIff(cfg: AuthConfig, states: seq<State>, steps: seq<Step>)
    requires IsRun(cfg, states, steps)
    ensures (forall i, j, token | 0 <= i < j < |steps| && Passes(states, steps, i, token) ::
               !Passes(states, steps, j, token))
            <==> (forall i, j, token |
                    0 <= i < j < |steps| && Passes(states, steps, i, token) && Loads(states, steps, j, token) ::
                    RevokedBetween(states, steps, i, j, token))
  {
    forall i, j, token | 0 <= i < j < |steps| && Passes(states, steps, i, token) && Loads(states, steps, j, token)
      ensures Passes(states, steps, j, token) <==> !RevokedBetween(states, steps, i, j, token)
    {
      SecondLoadPassesIff(cfg, states, steps, i, j, token);
    }
  }

  /** A call never changes its token before it finishes. */
  predicate TokenKept(s: State, s': State, c: CallId) {
    c in s.calls ==>
      && c in s'.calls
      && (s'.calls[c].Finished? || (!s.calls[c].Finished? && s'.calls[c].token == s.calls[c].token))
  }

  lemma StepKeepsToken(cfg: AuthConfig, s: State, step: Step, c: CallId)
    requires Enabled(cfg, s, step)
    ensures TokenKept(s, Exec(cfg, s, step), c)
  {
  }

  lemma RunKeepsToken(cfg: AuthConfig, states: seq<State>, steps: seq<Step>, i: nat, j: nat, c: CallId)
    requires IsRun(cfg, states, steps) && i < j < |states|
    ensures TokenKept(states[i], states[j], c)
  {
    forall k | i <= k < j
      ensures TokenKept(states[k], states[k + 1], c)
    {
      assert states[k + 1] == Exec(cfg, states[k], steps[k]);
      StepKeepsToken(cfg, states[k], steps[k], c);
    }
    TokenChain(states, i, j, c);
  }

  lemma {:induction false} TokenChain(states: seq<State>, i: nat, j: nat, c: CallId)
    requires i < j < |states| && forall k | i <= k < j :: TokenKept(states[k], states[k + 1], c)
    ensures TokenKept(states[i], states[j], c)
    decreases j
  {
    if i + 1 < j {
      TokenChain(states, i, j - 1, c);
    }
  }

  /** A rotation that passes is followed through to its own revoke step before its token is loaded again. */
  ghost predicate FollowedThrough(states: seq<State>, steps: seq<Step>)
    requires |states| == |steps| + 1
  {
    forall i, j, token | 0 <= i < j < |steps| && Passes(states, steps, i, token) && Loads(states, steps, j, token) ::
      exists k | i < k < j :: steps[k] == Revoke(steps[i].call)
  }

  /** So calls that do not overlap on a token use it once: where all are followed through, none passes twice. */
  lemma FollowedThroughIsSingleUse(cfg: AuthConfig, states: seq<State>, steps: seq<Step>)
    requires IsRun(cfg, states, steps) && FollowedThrough(states, steps)
    ensures forall i, j, token | 0 <= i < j < |steps| && Passes(states, steps, i, token) ::
              !Passes(states, steps, j, token)
  {
    forall i, j, token | 0 <= i < j < |steps| && Passes(states, steps, i, token) && Loads(states, steps, j, token)
      ensures RevokedBetween(states, steps, i, j, token)
    {
      var k :| i < k < j && steps[k] == Revoke(steps[i].call);
      OwnRevoke(cfg, states, steps, i, k, token);
    }
    SingleUseIff(cfg, states, steps);
  }

  lemma OwnRevoke(cfg: AuthConfig, states: seq<State>, steps: seq<Step>, i: nat, k: nat, token: Token)
    requires IsRun(cfg, states, steps) && i < k < |steps| && Passes(states, steps, i, token)
    requires steps[k] == Revoke(steps[i].call)
    ensures Revokes(states, steps, k, token)
  {
    RunKeepsToken(cfg, states, steps, i, k, steps[i].call);
    assert Enabled(cfg, states[k], steps[k]);
  }

  // ---------------------------------------------------------------------------------------------
  // Store size
  // ---------------------------------------------------------------------------------------------

  predicate StoredOnce(s: State) {
    forall i, j | 0 <= i < j < |s.stored| :: s.stored[i] != s.stored[j]
  }

  /** The tokens put into the store so far. */
  function Stores(steps: seq<Step>): nat {
    if steps == [] then 0
    else
      var last := steps[|steps| - 1];
      Stores(steps[..|steps| - 1]) + if last.StoreLogin? || last.StoreSuccessor? then 1 else 0
  }

  lemma StepStoresOnce(cfg: AuthConfig, s: State, step: Step)
    requires PastSound(s) && CallsSound(s) && StoredOnce(s) && Enabled(cfg, s, step)
    ensures StoredOnce(Exec(cfg, s, step))
    ensures |Exec(cfg, s, step).stored|
         == |s.stored| + if step.StoreLogin? || step.StoreSuccessor? then 1 else 0
  {
    if step.StoreLogin? || step.StoreSuccessor? {
      assert CallSound(s, step.call);
    }
  }

  lemma {:induction false} RunStoresOnce(cfg: AuthConfig, states: seq<State>, steps: seq<Step>, i: nat)
    requires IsRun(cfg, states, steps) && i < |states|
    ensures StoredOnce(states[i]) && |states[i].stored| == Stores(steps[..i])
  {
    if i > 0 {
      RunStoresOnce(cfg, states, steps, i - 1);
      RunKeepsInv(cfg, states, steps, i - 1);
      assert Enabled(cfg, states[i - 1], steps[i - 1]) && states[i] == Exec(cfg, states[i - 1], steps[i - 1]);
      StepStoresOnce(cfg, states[i - 1], steps[i - 1]);
      assert steps[..i][..i - 1] == steps[..i - 1];
    }
  }

  /**
   In every interleaving the store holds as many tokens as were stored, less those revoked. Revoking a
   token that another rotation has revoked already removes nothing: each race leaves one more.
   */
  lemma StoreSizeIsStoredLessRevoked(cfg: AuthConfig, states: seq<State>, steps: seq<Step>, i: nat)
    requires IsRun(cfg, states, steps) && i < |states|
    ensures |states[i].store| + |states[i].revoked| == Stores(steps[..i])
  {
    RunKeepsInv(cfg, states, steps, i);
    RunStoresOnce(cfg, states, steps, i);
    SizeOfSound(states[i]);
  }

  lemma SizeOfSound(s: State)
    requires PastSound(s) && StoreSound(s) && StoredOnce(s)
    ensures |s.store| + |s.revoked| == |s.stored|
  {
    StoreKeys(s);
    KeysSize(LiveIds(s));
    LiveCount(s);
  }

  function LiveIds(s: State): set<string> {
    (set id | id in s.stored) - s.revoked
  }

  lemma StoreKeys(s: State)
    requires PastSound(s) && StoreSound(s)
    ensures s.store.Keys == set id | id in LiveIds(s) :: RefreshKey(id)
  {
    forall id | id in LiveIds(s)
      ensures RefreshKey(id) in s.store
    {
      assert Live(s, id);
    }
    forall k | k in s.store
      ensures k in set id | id in LiveIds(s) :: RefreshKey(id)
    {
      assert EntrySound(s, k);
      assert s.store[k].claims.id in LiveIds(s);
    }
  }

  lemma LiveCount(s: State)
    requires PastSound(s) && StoredOnce(s)
    ensures |LiveIds(s)| + |s.revoked| == |s.stored|
  {
    var all := set id | id in s.stored;
    DistinctSize(s.stored);
    assert all == LiveIds(s) + s.revoked && LiveIds(s) !! s.revoked;
  }

  lemma {:induction false} DistinctSize(ids: seq<string>)
    requires forall i, j | 0 <= i < j < |ids| :: ids[i] != ids[j]
    ensures |set id | id in ids| == |ids|
  {
    if ids != [] {
      var n := |ids| - 1;
      DistinctSize(ids[..n]);
      assert (set id | id in ids) == (set id | id in ids[..n]) + {ids[n]};
      assert ids[n] !in ids[..n];
    }
  }

  lemma {:induction false} KeysSize(ids: set<string>)
    ensures |set id | id in ids :: RefreshKey(id)| == |ids|
    decreases |ids|
  {
    if ids != {} {
      var x :| x in ids;
      var rest := set id | id in ids - {x} :: RefreshKey(id);
      KeysSize(ids - {x});
      assert (set id | id in ids :: RefreshKey(id)) == rest + {RefreshKey(x)};
      forall id | id in ids - {x}
        ensures RefreshKey(id) != RefreshKey(x)
      {
        if RefreshKey(id) == RefreshKey(x) {
          RefreshKeyInjective(id, x);
        }
      }
    }
  }

  /** The rest of a rotation that has passed the store check, with nothing in between. */
  function Complete(cfg: AuthConfig, s: State, c: CallId, id: string): State
    requires Enabled(cfg, s, SignSuccessor(c, id))
  {
    var signed := Exec(cfg, s, SignSuccessor(c, id));
    var stored := Exec(cfg, signed, StoreSuccessor(c));
    Exec(cfg, stored, Revoke(c))
  }

  /** A rotation that has passed the check runs to its end, whatever has happened to its token since. */
  lemma CompleteSwaps(cfg: AuthConfig, s: State, c: CallId, id: string)
    requires Enabled(cfg, s, SignSuccessor(c, id))
    ensures var end, p := Complete(cfg, s, c, id), s.calls[c];
            var successor := MintRefresh(cfg, p.u, s.clock, id);
            && end.store == s.store[RefreshKey(id) := successor] - {KeyOf(p.token)}
            && end.calls == s.calls[c := Finished]
            && end.births.Keys == s.births.Keys + {id}
            && end.revoked == s.revoked + {p.token.claims.id}
            && end.stored == s.stored + [id]
  {
    var p := s.calls[c];
    var successor := MintRefresh(cfg, p.u, s.clock, id);
    assert s.calls[c := SuccessorSigned(p.token, successor)][c := SuccessorStored(p.token, successor)][c := Finished]
        == s.calls[c := Finished];
  }

  /**
   Single use fails here: of two rotations of one live token that both load before either revokes,
   both run to the end, and both successors are in the store then.
   */
  lemma RaceSpendsTwice(cfg: AuthConfig, s: State, c: CallId, d: CallId, id: string, id': string)
    requires c != d && Enabled(cfg, s, Load(c)) && Enabled(cfg, s, Load(d)) && s.calls[c].token == s.calls[d].token
    requires var token := s.calls[c].token;
             Born(s, token) && CheckStored(s.store, token.claims.id, token).None?
    requires id !in s.births && id' !in s.births && id != id'
    ensures var loaded := Exec(cfg, Exec(cfg, s, Load(c)), Load(d));
            && Enabled(cfg, loaded, SignSuccessor(c, id))
            && var first := Complete(cfg, loaded, c, id);
            && Enabled(cfg, first, SignSuccessor(d, id'))
            && var second := Complete(cfg, first, d, id');
            && RefreshKey(id) in second.store && RefreshKey(id') in second.store
  {
    var token := s.calls[c].token;
    BothLoadsPass(cfg, s, c, d);
    var loaded := Exec(cfg, Exec(cfg, s, Load(c)), Load(d));
    CompleteSwaps(cfg, loaded, c, id);
    var first := Complete(cfg, loaded, c, id);
    CompleteSwaps(cfg, first, d, id');
    OtherKeyStays(token, id);
    OtherKeyStays(token, id');
  }

  /** Such a state is reached: one login, then two rotations that present its token before either loads. */
  lemma RaceIsReachable(cfg: AuthConfig, u: User, id: string, start: State)
    requires cfg.refreshTokenTTL >= SECOND && Initial(start)
    ensures var token := MintRefresh(cfg, u, start.clock, id);
            var steps := [SignLogin(0, u, id), StoreLogin(0), Present(1, u, token), Present(2, u, token)];
            exists states: seq<State> :: IsRun(cfg, states, steps) && |states| == 5
              && Enabled(cfg, states[4], Load(1)) && Enabled(cfg, states[4], Load(2))
              && states[4].calls[1].token == states[4].calls[2].token == token
              && Born(states[4], token) && CheckStored(states[4].store, id, token).None?
  {
    var token := MintRefresh(cfg, u, start.clock, id);
    var steps := [SignLogin(0, u, id), StoreLogin(0), Present(1, u, token), Present(2, u, token)];
    var s1 := Exec(cfg, start, steps[0]);
    var s2 := Exec(cfg, s1, steps[1]);
    LoginStores(cfg, u, id, start);
    BothPresent(cfg, u, token, s2);
    var s3 := Exec(cfg, s2, steps[2]);
    var s4 := Exec(cfg, s3, steps[3]);
    assert IsRun(cfg, [start, s1, s2, s3, s4], steps);
  }

  lemma BothPresent(cfg: AuthConfig, u: User, token: Token, s: State)
    requires s.calls == map[0 := Finished] && Born(s, token) && CheckPresented(cfg, u.id, token, s.clock).Ok?
    ensures Enabled(cfg, s, Present(1, u, token))
    ensures var s' := Exec(cfg, s, Present(1, u, token));
            && Enabled(cfg, s', Present(2, u, token))
            && var s'' := Exec(cfg, s', Present(2, u, token));
            && s'' == s.(calls := s''.calls) && Enabled(cfg, s'', Load(1)) && Enabled(cfg, s'', Load(2))
            && s''.calls[1].token == s''.calls[2].token == token
  {
  }

  lemma LoginStores(cfg: AuthConfig, u: User, id: string, start: State)
    requires cfg.refreshTokenTTL >= SECOND && Initial(start)
    ensures var token, s1 := MintRefresh(cfg, u, start.clock, id), Exec(cfg, start, SignLogin(0, u, id));
            && Enabled(cfg, s1, StoreLogin(0))
            && var s2 := Exec(cfg, s1, StoreLogin(0));
            && s2.calls == map[0 := Finished] && s2.clock == start.clock && Born(s2, token)
            && CheckStored(s2.store, id, token).None? && CheckPresented(cfg, u.id, token, s2.clock).Ok?
  {
  }

  lemma BothLoadsPass(cfg: AuthConfig, s: State, c: CallId, d: CallId)
    requires c != d && Enabled(cfg, s, Load(c)) && Enabled(cfg, s, Load(d)) && s.calls[c].token == s.calls[d].token
    requires CheckStored(s.store, s.calls[c].token.claims.id, s.calls[c].token).None?
    ensures var loaded := Exec(cfg, Exec(cfg, s, Load(c)), Load(d));
            && loaded == s.(calls := loaded.calls)
            && c in loaded.calls && loaded.calls[c] == Accepted(s.calls[c].u, s.calls[c].token, s.calls[c].at)
            && d in loaded.calls && loaded.calls[d] == Accepted(s.calls[d].u, s.calls[d].token, s.calls[d].at)
  {
  }

  lemma OtherKeyStays(token: Token, id: string)
    requires token.Signed? && token.claims.id != id
    ensures KeyOf(token) != RefreshKey(id)
  {
    if KeyOf(token) == RefreshKey(id) {
      RefreshKeyInjective(token.claims.id, id);
    }
  }

  /** With no other call in between, a rotation's steps do to the store what one atomic call does. */
  lemma SequentialCallIsAtomic(
    cfg: AuthConfig, s: State, c: CallId, u: User, token: Token, to: Time, ids: Ids, access: Time)
    requires c !in s.calls && Born(s, token) && ids.refresh !in s.births && s.clock <= to
    requires Rotate(cfg, s.store, u, token, Clock(s.clock, access, to), ids).1.Ok?
    ensures Enabled(cfg, s, Present(c, u, token))
    ensures var presented := Exec(cfg, s, Present(c, u, token));
            && Enabled(cfg, presented, Load(c))
            && var later := Exec(cfg, presented, Load(c)).(clock := to);
            && Enabled(cfg, later, SignSuccessor(c, ids.refresh))
            && Complete(cfg, later, c, ids.refresh).store
               == Rotate(cfg, s.store, u, token, Clock(s.clock, access, to), ids).0
  {
    var presented := Exec(cfg, s, Present(c, u, token));
    var later := Exec(cfg, presented, Load(c)).(clock := to);
    CompleteSwaps(cfg, later, c, ids.refresh);
  }

  // ---------------------------------------------------------------------------------------------
  // Session lifetime
  // ---------------------------------------------------------------------------------------------

  /** Every successor is signed within `delay` of its parent's being parsed. */
  predicate Prompt(states: seq<State>, steps: seq<Step>, delay: Time)
    requires |states| == |steps| + 1
  {
    forall i | 0 <= i < |steps| && steps[i].SignSuccessor? && steps[i].call in states[i].calls ::
      var p := states[i].calls[steps[i].call];
      p.Accepted? ==> states[i].clock <= p.at + delay
  }

  /** A descendant's birth is bounded by its depth. */
  predicate BornInTime(cfg: AuthConfig, s: State, delay: Time) {
    forall id | id in s.births :: BirthInTime(cfg, s, delay, id)
  }

  predicate BirthInTime(cfg: AuthConfig, s: State, delay: Time, id: string)
    requires id in s.births
  {
    var b := s.births[id];
    b.root in s.births && b.at <= s.births[b.root].at + b.depth * (cfg.refreshTokenTTL + delay)
  }

  lemma OneMore(n: nat, a: int, ttl: int, delay: int)
    ensures a + n * (ttl + delay) + ttl + delay == a + (n + 1) * (ttl + delay)
    ensures a + n * (ttl + delay) + ttl == a + (n + 1) * ttl + n * delay
  {
  }

  lemma SigningInTime(cfg: AuthConfig, s: State, c: CallId, id: string, delay: Time)
    requires BirthsSound(cfg, s) && PastSound(s) && BornInTime(cfg, s, delay)
    requires Enabled(cfg, s, SignSuccessor(c, id)) && CallSound(s, c) && s.clock <= s.calls[c].at + delay
    ensures BornInTime(cfg, Exec(cfg, s, SignSuccessor(c, id)), delay)
  {
    var s', parent := Exec(cfg, s, SignSuccessor(c, id)), s.calls[c].token.claims.id;
    var b := s.births[parent];
    assert BirthSound(cfg, s, parent) && BirthInTime(cfg, s, delay, parent);
    OneMore(b.depth, s.births[b.root].at, cfg.refreshTokenTTL, delay);
    forall i | i in s'.births
      ensures BirthInTime(cfg, s', delay, i)
    {
      if i != id {
        assert BirthInTime(cfg, s, delay, i);
      }
    }
  }

  lemma OtherStepsInTime(cfg: AuthConfig, s: State, step: Step, delay: Time)
    requires BornInTime(cfg, s, delay) && Enabled(cfg, s, step) && !step.SignSuccessor?
    ensures BornInTime(cfg, Exec(cfg, s, step), delay)
  {
    var s' := Exec(cfg, s, step);
    forall i | i in s'.births
      ensures BirthInTime(cfg, s', delay, i)
    {
      if i in s.births {
        assert BirthInTime(cfg, s, delay, i);
      }
    }
  }

  lemma {:induction false} RunInTime(cfg: AuthConfig, states: seq<State>, steps: seq<Step>, delay: Time, i: nat)
    requires IsRun(cfg, states, steps) && Prompt(states, steps, delay) && i < |states|
    ensures BornInTime(cfg, states[i], delay)
  {
    if i > 0 {
      RunInTime(cfg, states, steps, delay, i - 1);
      RunKeepsInv(cfg, states, steps, i - 1);
      var s, step := states[i - 1], steps[i - 1];
      assert Enabled(cfg, s, step);
      if step.SignSuccessor? {
        assert CallSound(s, step.call);
        SigningInTime(cfg, s, step.call, step.id, delay);
      } else {
        OtherStepsInTime(cfg, s, step, delay);
      }
    }
  }

  /** The accepted rotation `c` was presented in its session's time, by the user who logged in. */
  predicate WithinLifetime(cfg: AuthConfig, s: State, c: CallId, delay: Time)
    requires c in s.calls && s.calls[c].Accepted?
  {
    var p := s.calls[c];
    && Born(s, p.token) && s.births[p.token.claims.id].root in s.births
    && var b := s.births[p.token.claims.id];
    var login := s.births[b.root];
    && p.at < login.at + (b.depth + 1) * cfg.refreshTokenTTL + b.depth * delay
    && login.token.Signed? && login.token.claims.userId == p.u.id
  }

  /**
   A rotation that consumes a descendant `n` rotations deep was presented less than n+1 refresh
   lifetimes, and n signing delays, after its login; and the caller is the user who logged in.
   */
  lemma SessionLifetime(cfg: AuthConfig, states: seq<State>, steps: seq<Step>, delay: Time, i: nat, c: CallId)
    requires IsRun(cfg, states, steps) && Prompt(states, steps, delay) && i < |states|
    requires c in states[i].calls && states[i].calls[c].Accepted?
    ensures WithinLifetime(cfg, states[i], c, delay)
  {
    RunKeepsInv(cfg, states, steps, i);
    RunInTime(cfg, states, steps, delay, i);
    assert CallSound(states[i], c);
    AcceptedInTime(cfg, states[i], c, delay);
  }

  lemma AcceptedInTime(cfg: AuthConfig, s: State, c: CallId, delay: Time)
    requires PastSound(s) && BirthsSound(cfg, s) && BornInTime(cfg, s, delay)
    requires c in s.calls && s.calls[c].Accepted? && CallSound(s, c)
    ensures WithinLifetime(cfg, s, c, delay)
  {
    var id := s.calls[c].token.claims.id;
    assert BirthSound(cfg, s, id) && BirthInTime(cfg, s, delay, id);
    OneMore(s.births[id].depth, s.births[s.births[id].root].at, cfg.refreshTokenTTL, delay);
  }

  /** A rotation that stalls after its checks signs a successor that lives its full lifetime from then on. */
  lemma LateSuccessor(cfg: AuthConfig, s: State, c: CallId, to: Time, id: string)
    requires c in s.calls && s.calls[c].Accepted? && Born(s, s.calls[c].token) && s.clock <= to && id !in s.births
    ensures var later := Exec(cfg, s, Tick(to));
            && Enabled(cfg, later, SignSuccessor(c, id))
            && var signed := Exec(cfg, later, SignSuccessor(c, id));
            var b, parent := signed.births[id], s.births[s.calls[c].token.claims.id];
            && signed.calls[c] == SuccessorSigned(s.calls[c].token, b.token)
            && b.token == MintRefresh(cfg, s.calls[c].u, to, id)
            && b.depth == parent.depth + 1 && b.root == parent.root && b.at == to && signed.clock == to
            && Expiry(b.token) > to + cfg.refreshTokenTTL - SECOND
            && signed.calls.Keys == s.calls.Keys
            && signed.births == s.births[id := b]
  {
  }

  /** A signed successor is stored, presented by `d` and accepted. */
  function Redeemed(cfg: AuthConfig, s: State, c: CallId, d: CallId, u: User, token: Token): State
    requires token.Signed? && CheckPresented(cfg, u.id, token, s.clock).Ok?
    requires c in s.calls && s.calls[c].SuccessorSigned? && s.calls[c].successor == token && d !in s.calls
  {
    var stored := Exec(cfg, s, StoreSuccessor(c));
    var presented := Exec(cfg, stored, Present(d, u, token));
    Exec(cfg, presented, Load(d))
  }

  lemma RedeemedIsAccepted(cfg: AuthConfig, s: State, c: CallId, d: CallId, u: User, token: Token)
    requires token.Signed? && CheckPresented(cfg, u.id, token, s.clock).Ok?
    requires c in s.calls && s.calls[c].SuccessorSigned? && s.calls[c].successor == token && d !in s.calls
    ensures var end := Redeemed(cfg, s, c, d, u, token);
            d in end.calls && end.calls[d] == Accepted(u, token, s.clock) && end.births == s.births
  {
  }

  /**
   So only a bound on the delay bounds a session. Whatever delay is allowed for, a rotation that
   stalls until `to` can be followed at once by the rotation of its successor, and that one is
   outside the session's lifetime exactly from the end of that lifetime on.
   */
  lemma StallExtendsSession(cfg: AuthConfig, s: State, c: CallId, d: CallId, to: Time, id: string, delay: Time)
    requires Inv(cfg, s) && c in s.calls && s.calls[c].Accepted? && s.clock <= to && id !in s.births
    requires d !in s.calls && cfg.refreshTokenTTL >= SECOND
    ensures var later := Exec(cfg, s, Tick(to));
            && Enabled(cfg, later, SignSuccessor(c, id))
            && var signed := Exec(cfg, later, SignSuccessor(c, id));
            var u, parent, token := s.calls[c].u, s.births[s.calls[c].token.claims.id], signed.births[id].token;
            && token.Signed? && CheckPresented(cfg, u.id, token, signed.clock).Ok?
            && signed.calls[c] == SuccessorSigned(s.calls[c].token, token)
            && var end := Redeemed(cfg, signed, c, d, u, token);
            && d in end.calls && end.calls[d] == Accepted(u, token, to)
            && parent.root in s.births
            && (WithinLifetime(cfg, end, d, delay)
                <==> to < s.births[parent.root].at
                          + (parent.depth + 2) * cfg.refreshTokenTTL + (parent.depth + 1) * delay)
  {
    AcceptedIsRooted(cfg, s, c);
    LateSuccessor(cfg, s, c, to, id);
    var u, signed := s.calls[c].u, Exec(cfg, Exec(cfg, s, Tick(to)), SignSuccessor(c, id));
    var b := signed.births[id];
    SuccessorPasses(cfg, u, to, id);
    RedeemedIsAccepted(cfg, signed, c, d, u, b.token);
    LifetimeOf(cfg, s, Redeemed(cfg, signed, c, d, u, b.token), d, u, b, to, delay);
  }

  lemma AcceptedIsRooted(cfg: AuthConfig, s: State, c: CallId)
    requires Inv(cfg, s) && c in s.calls && s.calls[c].Accepted?
    ensures Born(s, s.calls[c].token) && Rooted(s, s.births[s.calls[c].token.claims.id].root, s.calls[c].u)
  {
    assert CallSound(s, c);
    assert BirthSound(cfg, s, s.calls[c].token.claims.id);
  }

  /** The login at `root` was this user's. */
  predicate Rooted(s: State, root: string, u: User) {
    root in s.births && s.births[root].token.Signed? && s.births[root].token.claims.userId == u.id
  }

  lemma SuccessorPasses(cfg: AuthConfig, u: User, now: Time, id: string)
    requires cfg.refreshTokenTTL >= SECOND
    ensures CheckPresented(cfg, u.id, MintRefresh(cfg, u, now, id), now).Ok?
  {
  }

  lemma LifetimeOf(cfg: AuthConfig, s: State, end: State, d: CallId, u: User, b: Birth, to: Time, delay: Time)
    requires b.token.Signed? && b.token.claims.id !in s.births && end.births == s.births[b.token.claims.id := b]
    requires d in end.calls && end.calls[d] == Accepted(u, b.token, to) && Rooted(s, b.root, u)
    ensures WithinLifetime(cfg, end, d, delay)
            <==> to < s.births[b.root].at + (b.depth + 1) * cfg.refreshTokenTTL + b.depth * delay
  {
  }
}
