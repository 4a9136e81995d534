/** Issuing, checking and rotating JWT pairs, with the refresh tokens kept in memory. */
module TokenManager {
  import opened Common
  import opened UserModel

  datatype AuthConfig = AuthConfig(
    accessSecret: string,
    refreshSecret: string,
    accessTokenTTL: Time,
    refreshTokenTTL: Time,
    tokenIssuer: string,
    secretVersion: string)

  datatype Claims = Claims(
    userId: Uuid,
    role: string,
    secretVer: string,
    tokenType: string,
    issuer: string,
    subject: Uuid,
    expiresAt: Option<Time>,
    issuedAt: Time,
    id: string)

  datatype Algorithm = Hmac | OtherAlgorithm

  /** An encoded token: signing is injective, and the secret is part of what was signed with. */
  datatype Token = Signed(alg: Algorithm, claims: Claims, secret: string) | Malformed(text: string)

  datatype AuthTokens = AuthTokens(accessToken: Token, refreshToken: Token, expiresIn: int, tokenType: string)

  datatype AuthError =
    | MalformedToken | UnexpectedMethod | BadSignature | Expired | VersionMismatch
    | InvalidRefreshToken | Revoked | Missing

  /** The clock readings of one call, and the UUIDs it draws. */
  datatype Clock = Clock(checked: Time, access: Time, refresh: Time)

  datatype Ids = Ids(access: string, refresh: string)

  function WholeSeconds(d: Time): int {
    if d >= 0 then d / SECOND else -(-d / SECOND)
  }

  /** The times in a token are NumericDates (section 2 of RFC 7519), kept to whole seconds by rounding down. */
  function MintAccess(cfg: AuthConfig, u: User, now: Time, id: string): Token {
    Signed(Hmac,
           Claims(u.id, u.role, cfg.secretVersion, "access", cfg.tokenIssuer, u.id,
                  Some(WholeSecond(now + cfg.accessTokenTTL)), WholeSecond(now), id),
           cfg.accessSecret)
  }

  function MintRefresh(cfg: AuthConfig, u: User, now: Time, id: string): Token {
    Signed(Hmac,
           Claims(u.id, u.role, cfg.secretVersion, "refresh", cfg.tokenIssuer, u.id,
                  Some(WholeSecond(now + cfg.refreshTokenTTL)), WholeSecond(now), id),
           cfg.refreshSecret)
  }

  function MintPair(cfg: AuthConfig, u: User, clock: Clock, ids: Ids): AuthTokens {
    AuthTokens(MintAccess(cfg, u, clock.access, ids.access), MintRefresh(cfg, u, clock.refresh, ids.refresh),
               WholeSeconds(cfg.accessTokenTTL), "Bearer")
  }

  /** Signature, then expiry ("exp", section 4.1.4 of RFC 7519), then the application's secret version. */
  function Parse(cfg: AuthConfig, token: Token, secret: string, now: Time): Result<Claims, AuthError> {
    match token
    case Malformed(_) => Err(MalformedToken)
    case Signed(alg, claims, signedWith) =>
      if alg != Hmac then Err(UnexpectedMethod)
      else if signedWith != secret then Err(BadSignature)
      else if claims.expiresAt.Some? && now >= claims.expiresAt.value then Err(Expired)
      else if claims.secretVer != cfg.secretVersion then Err(VersionMismatch)
      else Ok(claims)
  }

  function RefreshKey(id: string): string {
    "refresh:" + id
  }

  lemma RefreshKeyInjective(a: string, b: string)
    requires RefreshKey(a) == RefreshKey(b)
    ensures a == b
  {
    assert RefreshKey(a)[8..] == a && RefreshKey(b)[8..] == b;
  }

  type Store = map<string, Token>

  /** The presented token passes everything RefreshTokens checks before it consults the store. */
  function CheckPresented(cfg: AuthConfig, userId: Uuid, token: Token, now: Time): Result<Claims, AuthError> {
    match Parse(cfg, token, cfg.refreshSecret, now)
    case Err(e) => Err(e)
    case Ok(claims) =>
      if claims.userId != userId || claims.tokenType != "refresh" then Err(InvalidRefreshToken) else Ok(claims)
  }

  function CheckStored(store: Store, id: string, token: Token): Option<AuthError> {
    if RefreshKey(id) !in store then Some(Missing)
    else if store[RefreshKey(id)] != token then Some(Revoked)
    else None
  }

  // ---------------------------------------------------------------------------------------------
  // What tokens are good for
  // ---------------------------------------------------------------------------------------------

  /** Only what was signed with this very secret parses, while it is not expired and its secret version is current. */
  lemma ParsesIff(cfg: AuthConfig, token: Token, secret: string, now: Time)
    ensures Parse(cfg, token, secret, now).Ok?
            <==> token.Signed? && token.alg == Hmac && token.secret == secret
                 && (token.claims.expiresAt == None || now < token.claims.expiresAt.value)
                 && token.claims.secretVer == cfg.secretVersion
    ensures Parse(cfg, token, secret, now).Ok? ==> Parse(cfg, token, secret, now).value == token.claims
  {
  }

  predicate IssuedFor(cfg: AuthConfig, u: User, now: Time, claims: Claims) {
    && claims.userId == u.id && claims.subject == u.id && claims.role == u.role
    && claims.issuer == cfg.tokenIssuer && claims.issuedAt == WholeSecond(now)
  }

  /**
   A bearer token for `u`, signed at `now`: parsing it with the access secret gives the user and the
   user's role, until the access lifetime has passed; and no rotation ever takes it.
   */
  ghost predicate GrantsAccess(cfg: AuthConfig, u: User, now: Time, token: Token) {
    && (forall t :: Parse(cfg, token, cfg.accessSecret, t).Ok? <==> t < WholeSecond(now + cfg.accessTokenTTL))
    && (forall t | Parse(cfg, token, cfg.accessSecret, t).Ok? ::
          var claims := Parse(cfg, token, cfg.accessSecret, t).value;
          claims.tokenType == "access" && IssuedFor(cfg, u, now, claims))
    && forall t, userId :: CheckPresented(cfg, userId, token, t).Err?
  }

  /**
   A refresh token for `u`, signed at `now`: rotation takes it from this user until the refresh
   lifetime has passed; as a bearer token it is good exactly if the two secrets are the same.
   */
  ghost predicate GrantsRotation(cfg: AuthConfig, u: User, now: Time, token: Token) {
    && (forall t, userId ::
          CheckPresented(cfg, userId, token, t).Ok? <==> userId == u.id && t < WholeSecond(now + cfg.refreshTokenTTL))
    && (forall t, userId | CheckPresented(cfg, userId, token, t).Ok? ::
          IssuedFor(cfg, u, now, CheckPresented(cfg, userId, token, t).value))
    && (forall t ::
          Parse(cfg, token, cfg.accessSecret, t).Ok?
          <==> cfg.accessSecret == cfg.refreshSecret && t < WholeSecond(now + cfg.refreshTokenTTL))
  }

  /** The pair that a login or a rotation answers with. */
  ghost predicate GoodPair(cfg: AuthConfig, u: User, clock: Clock, pair: AuthTokens) {
    && GrantsAccess(cfg, u, clock.access, pair.accessToken)
    && GrantsRotation(cfg, u, clock.refresh, pair.refreshToken)
    && pair.tokenType == "Bearer"
    && (cfg.accessTokenTTL >= 0 ==> pair.expiresIn * SECOND <= cfg.accessTokenTTL < (pair.expiresIn + 1) * SECOND)
  }

  lemma PairIsGood(cfg: AuthConfig, u: User, clock: Clock, ids: Ids)
    ensures GoodPair(cfg, u, clock, MintPair(cfg, u, clock, ids))
  {
    var pair := MintPair(cfg, u, clock, ids);
    assert GrantsAccess(cfg, u, clock.access, pair.accessToken);
    assert GrantsRotation(cfg, u, clock.refresh, pair.refreshToken);
  }

  // ---------------------------------------------------------------------------------------------
  // One call
  // ---------------------------------------------------------------------------------------------

  /** One RefreshTokens call with nothing in between its steps. */
  function Rotate(cfg: AuthConfig, store: Store, u: User, token: Token, clock: Clock, ids: Ids)
    : (Store, Result<AuthTokens, AuthError>)
  {
    match CheckPresented(cfg, u.id, token, clock.checked)
    case Err(e) => (store, Err(e))
    case Ok(claims) =>
      match CheckStored(store, claims.id, token)
      case Some(e) => (store, Err(e))
      case None =>
        var pair := MintPair(cfg, u, clock, ids);
        (store[RefreshKey(ids.refresh) := pair.refreshToken] - {RefreshKey(claims.id)}, Ok(pair))
  }

  // ---------------------------------------------------------------------------------------------
  // The history specification
  // ---------------------------------------------------------------------------------------------

  datatype Event = Issued(token: Token) | Rotated(spent: Token, token: Token)

  type Log = seq<Event>

  function Returned(log: Log): set<Token> {
    set i | 0 <= i < |log| :: log[i].token
  }

  function Spent(log: Log): set<Token> {
    set i | 0 <= i < |log| && log[i].Rotated? :: log[i].spent
  }

  function Unspent(log: Log): set<Token> {
    Returned(log) - Spent(log)
  }

  function Expiry(token: Token): Time {
    if token.Signed? && token.claims.expiresAt.Some? then token.claims.expiresAt.value else 0
  }

  /** What the history alone says: handed out, never rotated, the caller's own, and not expired. */
  predicate Redeemable(log: Log, userId: Uuid, token: Token, now: Time) {
    && token in Returned(log)
    && token !in Spent(log)
    && token.Signed? && token.claims.userId == userId
    && now < Expiry(token)
  }

  predicate Genuine(cfg: AuthConfig, token: Token) {
    && token.Signed? && token.alg.Hmac? && token.secret == cfg.refreshSecret
    && token.claims.tokenType == "refresh" && token.claims.secretVer == cfg.secretVersion
    && token.claims.expiresAt.Some?
  }

  /** `jti` uniqueness (section 4.1.7 of RFC 7519): no refresh token handed out so far has this id. */
  predicate FreshId(log: Log, id: string) {
    forall t | t in Returned(log) :: t.Signed? ==> t.claims.id != id
  }

  function KeyOf(token: Token): string
    requires token.Signed?
  {
    RefreshKey(token.claims.id)
  }

  /** The store holds exactly the returned and unspent tokens, each under the key of its own id. */
  ghost predicate Refines(cfg: AuthConfig, store: Store, log: Log) {
    && (forall t | t in Returned(log) :: Genuine(cfg, t))
    && (forall t, t' | t in Returned(log) && t' in Returned(log) && t.claims.id == t'.claims.id :: t == t')
    && Spent(log) <= Returned(log)
    && (forall k | k in store :: store[k] in Returned(log) - Spent(log) && k == KeyOf(store[k]))
    && (forall t | t in Returned(log) - Spent(log) :: KeyOf(t) in store && store[KeyOf(t)] == t)
  }

  lemma LogGrows(log: Log, e: Event)
    ensures Returned(log + [e]) == Returned(log) + {e.token}
    ensures Spent(log + [e]) == if e.Rotated? then Spent(log) + {e.spent} else Spent(log)
  {
    var longer := log + [e];
    assert longer[|log|] == e;
    assert forall i | 0 <= i < |log| :: longer[i] == log[i];
  }

  lemma IssueRefines(cfg: AuthConfig, store: Store, log: Log, u: User, clock: Clock, ids: Ids)
    requires Refines(cfg, store, log) && FreshId(log, ids.refresh)
    ensures var token := MintPair(cfg, u, clock, ids).refreshToken;
            Refines(cfg, store[KeyOf(token) := token], log + [Issued(token)])
  {
    var token := MintPair(cfg, u, clock, ids).refreshToken;
    LogGrows(log, Issued(token));
    forall t | t in Returned(log)
      ensures KeyOf(t) != KeyOf(token)
    {
      if KeyOf(t) == KeyOf(token) {
        RefreshKeyInjective(t.claims.id, token.claims.id);
      }
    }
  }

  lemma ChecksMatchHistory(cfg: AuthConfig, store: Store, log: Log, userId: Uuid, token: Token, now: Time)
    requires Refines(cfg, store, log)
    ensures CheckPresented(cfg, userId, token, now).Ok?
            && CheckStored(store, CheckPresented(cfg, userId, token, now).value.id, token).None?
            <==> Redeemable(log, userId, token, now)
  {
    if token in Returned(log) {
      assert Genuine(cfg, token);
      if token !in Spent(log) {
        assert token in Returned(log) - Spent(log);
        assert store[KeyOf(token)] == token;
      }
    }
  }

  /** What a look into the store tells about the history. */
  lemma StoreAnswersHistory(cfg: AuthConfig, store: Store, log: Log, id: string, token: Token)
    requires Refines(cfg, store, log)
    ensures forall t | t in Unspent(log) :: t.Signed?
    ensures var failure := CheckStored(store, id, token);
            && (failure.None? <==> token in Unspent(log) && token.claims.id == id)
            && (failure == Some(Missing) <==> forall t | t in Unspent(log) :: t.claims.id != id)
            && (failure == Some(Revoked) <==> exists t | t in Unspent(log) :: t.claims.id == id && t != token)
  {
    var key := RefreshKey(id);
    if key in store {
      RefreshKeyInjective(id, store[key].claims.id);
      assert store[key] in Unspent(log);
    }
    forall t | t in Unspent(log)
      ensures t.Signed? && KeyOf(t) in store && store[KeyOf(t)] == t
    {
    }
  }

  /** Deleting a spent token's entry keeps the store the image of the history. */
  lemma SpendRefines(cfg: AuthConfig, store: Store, log: Log, spent: Token, token: Token)
    requires Refines(cfg, store, log + [Issued(token)]) && spent.Signed? && spent in Returned(log) && spent != token
    ensures Refines(cfg, store - {KeyOf(spent)}, log + [Rotated(spent, token)])
  {
    LogGrows(log, Issued(token));
    LogGrows(log, Rotated(spent, token));
    forall t | t in Returned(log) + {token} && t != spent
      ensures KeyOf(t) != KeyOf(spent)
    {
      if KeyOf(t) == KeyOf(spent) {
        RefreshKeyInjective(t.claims.id, spent.claims.id);
      }
    }
  }

  /** The store decides as the history does, and stays its image. */
  lemma RotateRefines(cfg: AuthConfig, store: Store, log: Log, u: User, token: Token, clock: Clock, ids: Ids)
    requires Refines(cfg, store, log) && FreshId(log, ids.refresh)
    ensures var (store', r) := Rotate(cfg, store, u, token, clock, ids);
            && (r.Ok? <==> Redeemable(log, u.id, token, clock.checked))
            && (r.Err? ==> store' == store)
            && (r.Ok? ==> Refines(cfg, store', log + [Rotated(token, r.value.refreshToken)]))
  {
    ChecksMatchHistory(cfg, store, log, u.id, token, clock.checked);
    if Redeemable(log, u.id, token, clock.checked) {
      var minted := MintPair(cfg, u, clock, ids).refreshToken;
      IssueRefines(cfg, store, log, u, clock, ids);
      SpendRefines(cfg, store[KeyOf(minted) := minted], log, token, minted);
    }
  }

  class Manager {
    const cfg: AuthConfig
    var memoryTokens: Store
    ghost var log: Log

    ghost predicate Valid()
      reads this
    {
      Refines(cfg, memoryTokens, log)
    }

    constructor (cfg: AuthConfig)
      ensures Valid() && this.cfg == cfg && memoryTokens == map[] && log == []
    {
      this.cfg := cfg;
      memoryTokens := map[];
      log := [];
    }

    method PersistRefresh(claims: Claims, token: Token)
      modifies this`memoryTokens
      ensures memoryTokens == old(memoryTokens)[RefreshKey(claims.id) := token]
    {
      memoryTokens := memoryTokens[RefreshKey(claims.id) := token];
    }

    /**
     In terms of the history: passes exactly the handed-out and unspent token that has this id;
     fails as missing when no such token has it, and as revoked when another one has it.
     */
    method EnsureRefreshValid(claims: Claims, token: Token) returns (failure: Option<AuthError>)
      ensures failure == CheckStored(memoryTokens, claims.id, token)
      ensures Valid() ==>
                && (failure.None? <==> token in Unspent(log) && token.claims.id == claims.id)
                && (failure == Some(Missing) <==> forall t | t in Unspent(log) :: t.claims.id != claims.id)
                && (failure == Some(Revoked)
                    <==> exists t | t in Unspent(log) :: t.claims.id == claims.id && t != token)
    {
      if Valid() {
        StoreAnswersHistory(cfg, memoryTokens, log, claims.id, token);
      }
      var key := RefreshKey(claims.id);
      if key in memoryTokens {
        if memoryTokens[key] != token {
          return Some(Revoked);
        }
        return None;
      }
      return Some(Missing);
    }

    method Revoke(claims: Claims)
      modifies this`memoryTokens
      ensures memoryTokens == old(memoryTokens) - {RefreshKey(claims.id)}
    {
      memoryTokens := memoryTokens - {RefreshKey(claims.id)};
    }

    method IssueTokens(u: User, clock: Clock, ids: Ids) returns (tokens: AuthTokens)
      requires Valid() && FreshId(log, ids.refresh)
      modifies this
      ensures Valid() && log == old(log) + [Issued(tokens.refreshToken)]
      ensures tokens == MintPair(cfg, u, clock, ids) && GoodPair(cfg, u, clock, tokens)
      ensures memoryTokens == old(memoryTokens)[RefreshKey(ids.refresh) := tokens.refreshToken]
    {
      IssueRefines(cfg, memoryTokens, log, u, clock, ids);
      PairIsGood(cfg, u, clock, ids);
      tokens := MintPair(cfg, u, clock, ids);
      PersistRefresh(tokens.refreshToken.claims, tokens.refreshToken);
      log := log + [Issued(tokens.refreshToken)];
    }

    /** Succeeds exactly when the history says the token is redeemable; fails without any change. */
    method RefreshTokens(u: User, token: Token, clock: Clock, ids: Ids) returns (r: Result<AuthTokens, AuthError>)
      requires Valid() && FreshId(log, ids.refresh)
      modifies this
      ensures Valid()
      ensures (memoryTokens, r) == Rotate(cfg, old(memoryTokens), u, token, clock, ids)
      ensures r.Ok? <==> Redeemable(old(log), u.id, token, clock.checked)
      ensures r.Ok? ==> r.value == MintPair(cfg, u, clock, ids) && GoodPair(cfg, u, clock, r.value)
      ensures log == if r.Ok? then old(log) + [Rotated(token, r.value.refreshToken)] else old(log)
    {
      RotateRefines(cfg, memoryTokens, log, u, token, clock, ids);
      var parsed := Parse(cfg, token, cfg.refreshSecret, clock.checked);
      if parsed.Err? {
        return Err(parsed.error);
      }
      var claims := parsed.value;
      if claims.userId != u.id || claims.tokenType != "refresh" {
        return Err(InvalidRefreshToken);
      }
      var failure := EnsureRefreshValid(claims, token);
      if failure.Some? {
        return Err(failure.value);
      }
      PairIsGood(cfg, u, clock, ids);
      var pair := MintPair(cfg, u, clock, ids);
      PersistRefresh(pair.refreshToken.claims, pair.refreshToken);
      Revoke(claims);
      log := log + [Rotated(token, pair.refreshToken)];
      return Ok(pair);
    }

    /** Reads the owner off a token; neither its type nor the store is consulted. */
    method ExtractUserID(token: Token, now: Time) returns (r: Result<Uuid, AuthError>)
      ensures r.Ok? <==> Parse(cfg, token, cfg.refreshSecret, now).Ok?
      ensures r.Ok? ==> token.Signed? && r.value == token.claims.userId
    {
      var parsed := Parse(cfg, token, cfg.refreshSecret, now);
      match parsed
      case Err(e) => return Err(e);
      case Ok(claims) => return Ok(claims.userId);
    }
  }

  // ---------------------------------------------------------------------------------------------
  // Runs of whole calls
  // ---------------------------------------------------------------------------------------------

  datatype Call =
    | Issue(u: User, clock: Clock, ids: Ids)
    | Refresh(u: User, token: Token, clock: Clock, ids: Ids)

  datatype Session = Session(store: Store, log: Log)

  function Perform(cfg: AuthConfig, s: Session, call: Call): (Session, Result<AuthTokens, AuthError>) {
    match call
    case Issue(u, clock, ids) =>
      var pair := MintPair(cfg, u, clock, ids);
      (Session(s.store[RefreshKey(ids.refresh) := pair.refreshToken], s.log + [Issued(pair.refreshToken)]), Ok(pair))
    case Refresh(u, token, clock, ids) =>
      var (store, r) := Rotate(cfg, s.store, u, token, clock, ids);
      (Session(store, if r.Ok? then s.log + [Rotated(token, r.value.refreshToken)] else s.log), r)
  }

  function After(cfg: AuthConfig, calls: seq<Call>): Session {
    if calls == [] then Session(map[], [])
    else Perform(cfg, After(cfg, calls[..|calls| - 1]), calls[|calls| - 1]).0
  }

  /** The answer to the i-th call. */
  function Answer(cfg: AuthConfig, calls: seq<Call>, i: nat): Result<AuthTokens, AuthError>
    requires i < |calls|
  {
    Perform(cfg, After(cfg, calls[..i]), calls[i]).1
  }

  predicate DistinctIds(calls: seq<Call>) {
    forall i, j | 0 <= i < j < |calls| :: calls[i].ids.refresh != calls[j].ids.refresh
  }

  /** Every returned token bears the id of the call that returned it. */
  lemma {:induction false} ReturnedIds(cfg: AuthConfig, calls: seq<Call>, t: Token)
    requires t in Returned(After(cfg, calls).log)
    ensures t.Signed? && exists i | 0 <= i < |calls| :: calls[i].ids.refresh == t.claims.id
  {
    if calls != [] {
      var n := |calls| - 1;
      var before := After(cfg, calls[..n]);
      if t in Returned(before.log) {
        ReturnedIds(cfg, calls[..n], t);
        var i :| 0 <= i < n && calls[..n][i].ids.refresh == t.claims.id;
        assert calls[i].ids.refresh == t.claims.id;
      } else {
        var log := After(cfg, calls).log;
        LogGrows(before.log, log[|log| - 1]);
        assert calls[n].ids.refresh == t.claims.id;
      }
    }
  }

  /** In every run the store is the image of the history. */
  lemma {:induction false} RunRefines(cfg: AuthConfig, calls: seq<Call>)
    requires DistinctIds(calls)
    ensures Refines(cfg, After(cfg, calls).store, After(cfg, calls).log)
  {
    if calls != [] {
      var n := |calls| - 1;
      var before, call := After(cfg, calls[..n]), calls[n];
      RunRefines(cfg, calls[..n]);
      NextIdIsFresh(cfg, calls, n);
      if call.Issue? {
        IssueRefines(cfg, before.store, before.log, call.u, call.clock, call.ids);
      } else {
        RotateRefines(cfg, before.store, before.log, call.u, call.token, call.clock, call.ids);
      }
    }
  }

  lemma NextIdIsFresh(cfg: AuthConfig, calls: seq<Call>, n: nat)
    requires DistinctIds(calls) && n < |calls|
    ensures FreshId(After(cfg, calls[..n]).log, calls[n].ids.refresh)
  {
    forall t | t in Returned(After(cfg, calls[..n]).log)
      ensures t.Signed? && t.claims.id != calls[n].ids.refresh
    {
      ReturnedIds(cfg, calls[..n], t);
    }
  }

  /** In every run, each rotation succeeds exactly when the history up to it says so. */
  lemma RunMatchesHistory(cfg: AuthConfig, calls: seq<Call>, i: nat)
    requires DistinctIds(calls) && i < |calls| && calls[i].Refresh?
    ensures Answer(cfg, calls, i).Ok?
            <==> Redeemable(After(cfg, calls[..i]).log, calls[i].u.id, calls[i].token, calls[i].clock.checked)
  {
    RunRefines(cfg, calls[..i]);
    NextIdIsFresh(cfg, calls, i);
    var before := After(cfg, calls[..i]);
    RotateRefines(cfg, before.store, before.log, calls[i].u, calls[i].token, calls[i].clock, calls[i].ids);
  }

  lemma PerformKeepsSpent(cfg: AuthConfig, s: Session, call: Call)
    ensures Spent(s.log) <= Spent(Perform(cfg, s, call).0.log)
  {
    var log := Perform(cfg, s, call).0.log;
    if log != s.log {
      LogGrows(s.log, log[|log| - 1]);
    }
  }

  /** What is spent stays spent. */
  lemma {:induction false} SpentGrows(cfg: AuthConfig, calls: seq<Call>, i: nat, j: nat)
    requires i <= j <= |calls|
    ensures Spent(After(cfg, calls[..i]).log) <= Spent(After(cfg, calls[..j]).log)
    decreases j
  {
    if i < j {
      SpentGrows(cfg, calls, i, j - 1);
      assert calls[..j][..j - 1] == calls[..j - 1];
      PerformKeepsSpent(cfg, After(cfg, calls[..j - 1]), calls[j - 1]);
    }
  }

  /** Single use: a token is rotated at most once in any run of whole calls. */
  lemma AtMostOnce(cfg: AuthConfig, calls: seq<Call>, i: nat, j: nat)
    requires DistinctIds(calls) && i < j < |calls|
    requires calls[i].Refresh? && calls[j].Refresh? && calls[i].token == calls[j].token
    requires Answer(cfg, calls, i).Ok?
    ensures Answer(cfg, calls, j).Err?
  {
    RunMatchesHistory(cfg, calls, j);
    RotationSpends(cfg, calls, i);
    SpentGrows(cfg, calls, i + 1, j);
  }

  lemma RotationSpends(cfg: AuthConfig, calls: seq<Call>, i: nat)
    requires i < |calls| && calls[i].Refresh? && Answer(cfg, calls, i).Ok?
    ensures calls[i].token in Spent(After(cfg, calls[..i + 1]).log)
  {
    assert calls[..i + 1][..i] == calls[..i];
    var before := After(cfg, calls[..i]).log;
    LogGrows(before, Rotated(calls[i].token, Answer(cfg, calls, i).value.refreshToken));
  }

  function Issues(calls: seq<Call>): nat {
    if calls == [] then 0 else Issues(calls[..|calls| - 1]) + if calls[|calls| - 1].Issue? then 1 else 0
  }

  /** A rotation swaps one entry for another. */
  lemma RotateKeepsSize(cfg: AuthConfig, store: Store, log: Log, u: User, token: Token, clock: Clock, ids: Ids)
    requires Refines(cfg, store, log) && FreshId(log, ids.refresh)
    ensures |Rotate(cfg, store, u, token, clock, ids).0| == |store|
  {
    if Rotate(cfg, store, u, token, clock, ids).1.Ok? {
      NewKey(cfg, store, log, ids.refresh);
      var successor := MintPair(cfg, u, clock, ids).refreshToken;
      SwapKeepsSize(store, KeyOf(token), RefreshKey(ids.refresh), successor);
    }
  }

  lemma SwapKeepsSize(store: Store, gone: string, added: string, token: Token)
    requires gone in store && added !in store
    ensures |store[added := token] - {gone}| == |store|
  {
    var swapped := store[added := token] - {gone};
    assert swapped.Keys == store.Keys + {added} - {gone};
    assert |swapped.Keys| == |store.Keys|;
  }

  /** The store never grows by rotation: it holds one token for each login. */
  lemma {:induction false} StoreSizeIsLogins(cfg: AuthConfig, calls: seq<Call>)
    requires DistinctIds(calls)
    ensures |After(cfg, calls).store| == Issues(calls)
  {
    if calls != [] {
      var n := |calls| - 1;
      var before, call := After(cfg, calls[..n]), calls[n];
      StoreSizeIsLogins(cfg, calls[..n]);
      RunRefines(cfg, calls[..n]);
      NextIdIsFresh(cfg, calls, n);
      if call.Refresh? {
        RotateKeepsSize(cfg, before.store, before.log, call.u, call.token, call.clock, call.ids);
      } else {
        NewKey(cfg, before.store, before.log, call.ids.refresh);
        assert After(cfg, calls).store.Keys == before.store.Keys + {RefreshKey(call.ids.refresh)};
      }
    }
  }

  lemma NewKey(cfg: AuthConfig, store: Store, log: Log, id: string)
    requires Refines(cfg, store, log) && FreshId(log, id)
    ensures RefreshKey(id) !in store
  {
    if RefreshKey(id) in store {
      RefreshKeyInjective(id, store[RefreshKey(id)].claims.id);
    }
  }
}
