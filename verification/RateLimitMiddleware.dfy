/** The request filter that puts the per-address limiter in front of the per-user limiter. */
module RateLimitMiddleware {
  import opened Common
  import opened Limiter

  /** An empty `userID` is a request without a user; the clock is read once for each limiter. */
  datatype Request = Request(clientIP: string, userID: string, now: Time, later: Time)

  datatype Verdict = Next | TooManyRequests(reset: Time)

  /** Which limiters are installed, and the buckets of both. */
  datatype Limits = Limits(ip: Option<Rate>, user: Option<Rate>)

  datatype Gate = Gate(ip: map<string, Level>, user: map<string, Level>)

  function IpKey(clientIP: string): string { "ip:" + clientIP }

  function UserKey(userID: string): string { "user:" + userID }

  /** One request: the buckets it leaves, the verdict, and the limiter answer shown in the headers. */
  function Filter(limits: Limits, gate: Gate, r: Request): (Gate, Verdict, Option<Info>) {
    var (ipLevels, ipInfo) := Consult(limits.ip, gate.ip, IpKey(r.clientIP), r.now);
    if Denies(ipInfo) then
      (Gate(ipLevels, gate.user), TooManyRequests(ipInfo.value.reset), ipInfo)
    else
      var (userLevels, verdict, headers) := UserStage(limits.user, gate.user, r, ipInfo);
      (Gate(ipLevels, userLevels), verdict, headers)
  }

  /** The same when one limiter stands in both places: its buckets serve addresses and users. */
  function SharedFilter(rate: Rate, levels: map<string, Level>, r: Request)
    : (map<string, Level>, Verdict, Option<Info>)
  {
    var (ipLevels, ipInfo) := Consult(Some(rate), levels, IpKey(r.clientIP), r.now);
    if Denies(ipInfo) then (ipLevels, TooManyRequests(ipInfo.value.reset), ipInfo)
    else UserStage(Some(rate), ipLevels, r, ipInfo)
  }

  predicate Denies(info: Option<Info>) {
    info.Some? && !info.value.allowed
  }

  /** What follows once the address limiter, with this answer, let the request through. */
  function UserStage(user: Option<Rate>, levels: map<string, Level>, r: Request, ipInfo: Option<Info>)
    : (map<string, Level>, Verdict, Option<Info>)
  {
    var (userLevels, userInfo) :=
      if r.userID == "" then (levels, None) else Consult(user, levels, UserKey(r.userID), r.later);
    (userLevels,
     if Denies(userInfo) then TooManyRequests(userInfo.value.reset) else Next,
     if userInfo.Some? then userInfo else ipInfo)
  }

  function Consult(rate: Option<Rate>, levels: map<string, Level>, key: string, now: Time)
    : (map<string, Level>, Option<Info>)
  {
    if rate.None? then (levels, None)
    else
      var (level, info) := Charge(rate.value, Lookup(levels, key), now);
      (levels[key := level], Some(info))
  }

  ghost function ReprOf(limiter: MemoryLimiter?): set<object>
    reads limiter
  {
    if limiter == null then {} else limiter.Repr()
  }

  ghost function RateOf(limiter: MemoryLimiter?): Option<Rate> {
    if limiter == null then None else Some(limiter.rate)
  }

  ghost function LevelsOf(limiter: MemoryLimiter?): map<string, Level>
    reads limiter, ReprOf(limiter)
  {
    if limiter == null then map[] else limiter.Levels()
  }

  ghost predicate Ready(limiter: MemoryLimiter?)
    reads limiter
  {
    limiter != null ==> limiter.Valid()
  }

  /** Asks a limiter if there is one. */
  method Ask(limiter: MemoryLimiter?, key: string, now: Time) returns (info: Option<Info>)
    requires Ready(limiter)
    modifies ReprOf(limiter)
    ensures Ready(limiter) && fresh(ReprOf(limiter) - old(ReprOf(limiter)))
    ensures (LevelsOf(limiter), info) == Consult(RateOf(limiter), old(LevelsOf(limiter)), key, now)
  {
    if limiter == null {
      return None;
    }
    var answer := limiter.Allow(key, now);
    return Some(answer);
  }

  /**
   The address limiter comes first; if it denies, the user limiter is not asked. One limiter may
   stand in both places.
   */
  method RateLimit(ipLimiter: MemoryLimiter?, userLimiter: MemoryLimiter?, r: Request)
    returns (verdict: Verdict, headers: Option<Info>)
    requires Ready(ipLimiter) && Ready(userLimiter)
    requires ipLimiter == userLimiter || ReprOf(ipLimiter) !! ReprOf(userLimiter)
    modifies ReprOf(ipLimiter), ReprOf(userLimiter)
    ensures Ready(ipLimiter) && Ready(userLimiter)
    ensures ipLimiter == userLimiter || ReprOf(ipLimiter) !! ReprOf(userLimiter)
    ensures ipLimiter == null || ipLimiter != userLimiter ==>
              (Gate(LevelsOf(ipLimiter), LevelsOf(userLimiter)), verdict, headers)
              == Filter(Limits(RateOf(ipLimiter), RateOf(userLimiter)),
                        old(Gate(LevelsOf(ipLimiter), LevelsOf(userLimiter))), r)
    ensures ipLimiter != null && ipLimiter == userLimiter ==>
              (LevelsOf(ipLimiter), verdict, headers) == SharedFilter(ipLimiter.rate, old(LevelsOf(ipLimiter)), r)
  {
    headers := Ask(ipLimiter, IpKey(r.clientIP), r.now);
    assert ipLimiter != userLimiter ==> LevelsOf(userLimiter) == old(LevelsOf(userLimiter));
    if headers.Some? && !headers.value.allowed {
      return TooManyRequests(headers.value.reset), headers;
    }
    ghost var ipLevels := LevelsOf(ipLimiter);
    verdict, headers := LimitUser(userLimiter, r, headers);
    assert ipLimiter != userLimiter ==> LevelsOf(ipLimiter) == ipLevels;
  }

  method LimitUser(userLimiter: MemoryLimiter?, r: Request, shown: Option<Info>)
    returns (verdict: Verdict, headers: Option<Info>)
    requires Ready(userLimiter)
    modifies ReprOf(userLimiter)
    ensures Ready(userLimiter) && fresh(ReprOf(userLimiter) - old(ReprOf(userLimiter)))
    ensures (LevelsOf(userLimiter), verdict, headers)
         == UserStage(RateOf(userLimiter), old(LevelsOf(userLimiter)), r, shown)
  {
    headers := shown;
    if r.userID != "" {
      var info := Ask(userLimiter, UserKey(r.userID), r.later);
      if info.Some? {
        headers := info;
        if !info.value.allowed {
          return TooManyRequests(info.value.reset), headers;
        }
      }
    }
    verdict := Next;
  }

  /** What the limiters answer to a request; the user limiter is asked only about a known user let through. */
  function IpAnswer(limits: Limits, gate: Gate, r: Request): Option<Info> {
    Consult(limits.ip, gate.ip, IpKey(r.clientIP), r.now).1
  }

  function UserAnswer(limits: Limits, gate: Gate, r: Request): Option<Info> {
    Consult(limits.user, gate.user, UserKey(r.userID), r.later).1
  }

  /**
   What the client sees: the answer of the last limiter asked, with its own limit and a reset one
   minute after it was asked; and if that limiter denied, that reset is in the refusal.
   */
  lemma ClientSees(limits: Limits, gate: Gate, r: Request)
    ensures var (_, verdict, headers) := Filter(limits, gate, r);
            var ip, user := IpAnswer(limits, gate, r), UserAnswer(limits, gate, r);
            && headers == (if (ip != None && !ip.value.allowed) || r.userID == "" || limits.user == None then ip
                           else user)
            && (verdict != Next ==> headers != None && !headers.value.allowed
                                    && verdict == TooManyRequests(headers.value.reset))
            && (headers != None && !headers.value.allowed ==> verdict != Next)
    ensures limits.ip != None ==>
              var ip := IpAnswer(limits, gate, r);
              ip != None && ip.value.limit == limits.ip.value.limit && ip.value.reset == r.now + 60 * SECOND
    ensures limits.user != None ==>
              var user := UserAnswer(limits, gate, r);
              user != None && user.value.limit == limits.user.value.limit && user.value.reset == r.later + 60 * SECOND
  {
  }

  // ---------------------------------------------------------------------------------------------
  // Runs of requests
  // ---------------------------------------------------------------------------------------------

  function GateAfter(limits: Limits, requests: seq<Request>): Gate {
    if requests == [] then Gate(map[], map[])
    else Filter(limits, GateAfter(limits, Front(requests)), Last(requests)).0
  }

  /** Whether the last request passes, after all those before it. */
  predicate Passes(limits: Limits, requests: seq<Request>)
    requires requests != []
  {
    Filter(limits, GateAfter(limits, Front(requests)), Last(requests)).1.Next?
  }

  /** The times of the requests from one address. */
  function IpTimes(requests: seq<Request>, clientIP: string): seq<Time> {
    if requests == [] then []
    else IpTimes(Front(requests), clientIP) + if Last(requests).clientIP == clientIP then [Last(requests).now] else []
  }

  /** Whether a limiter of its own, fed only with this address's requests, admits the last one. */
  predicate IpAdmits(rate: Option<Rate>, requests: seq<Request>)
    requires requests != []
  {
    rate.None? || Allowed(rate.value, IpTimes(Front(requests), Last(requests).clientIP) + [Last(requests).now])
  }

  /** The times of the user's requests that the address limiter let through: only those are charged. */
  function UserTimes(ip: Option<Rate>, requests: seq<Request>, userID: string): seq<Time> {
    if requests == [] then []
    else
      UserTimes(ip, Front(requests), userID)
      + if Last(requests).userID == userID && IpAdmits(ip, requests) then [Last(requests).later] else []
  }

  predicate UserAdmits(limits: Limits, requests: seq<Request>)
    requires requests != []
  {
    var r := Last(requests);
    limits.user.None? || r.userID == ""
    || Allowed(limits.user.value, UserTimes(limits.ip, Front(requests), r.userID) + [r.later])
  }

  lemma KeysDiffer(a: string, b: string)
    ensures IpKey(a) == IpKey(b) <==> a == b
    ensures UserKey(a) == UserKey(b) <==> a == b
  {
    assert IpKey(a)[3..] == a && IpKey(b)[3..] == b;
    assert UserKey(a)[5..] == a && UserKey(b)[5..] == b;
  }

  lemma {:induction false} IpProjection(limits: Limits, requests: seq<Request>, clientIP: string)
    requires limits.ip.Some?
    ensures Lookup(GateAfter(limits, requests).ip, IpKey(clientIP))
        == After(limits.ip.value, IpTimes(requests, clientIP))
  {
    if requests != [] {
      var before, r := Front(requests), Last(requests);
      IpProjection(limits, before, clientIP);
      KeysDiffer(r.clientIP, clientIP);
      assert r.clientIP == clientIP ==> Front(IpTimes(requests, clientIP)) == IpTimes(before, clientIP);
      assert r.clientIP != clientIP ==> IpTimes(requests, clientIP) == IpTimes(before, clientIP);
    }
  }

  /** The address limiter's answer inside the filter is that of a limiter of the address's own. */
  lemma IpDecision(limits: Limits, requests: seq<Request>)
    requires requests != []
    ensures var r := Last(requests);
            var info := Consult(limits.ip, GateAfter(limits, Front(requests)).ip, IpKey(r.clientIP), r.now).1;
            IpAdmits(limits.ip, requests) == (info.None? || info.value.allowed)
  {
    var r := Last(requests);
    if limits.ip.Some? {
      IpProjection(limits, Front(requests), r.clientIP);
      var times := IpTimes(Front(requests), r.clientIP) + [r.now];
      assert Front(times) == IpTimes(Front(requests), r.clientIP);
    }
  }

  lemma {:induction false} UserProjection(limits: Limits, requests: seq<Request>, userID: string)
    requires limits.user.Some? && userID != ""
    ensures Lookup(GateAfter(limits, requests).user, UserKey(userID))
         == After(limits.user.value, UserTimes(limits.ip, requests, userID))
  {
    if requests != [] {
      var before, r := Front(requests), Last(requests);
      UserProjection(limits, before, userID);
      IpDecision(limits, requests);
      UserBucketStep(limits, GateAfter(limits, before), r, userID);
      var earlier := UserTimes(limits.ip, before, userID);
      if r.userID == userID && IpAdmits(limits.ip, requests) {
        assert Front(earlier + [r.later]) == earlier;
      } else {
        assert earlier + [] == earlier;
      }
    }
  }

  /** One request charges the bucket of its user, once the address limiter let it through, and no other's. */
  lemma UserBucketStep(limits: Limits, gate: Gate, r: Request, userID: string)
    requires limits.user.Some? && userID != ""
    ensures var info := Consult(limits.ip, gate.ip, IpKey(r.clientIP), r.now).1;
            var before := Lookup(gate.user, UserKey(userID));
            Lookup(Filter(limits, gate, r).0.user, UserKey(userID))
            == if r.userID == userID && (info.None? || info.value.allowed)
               then Some(Charge(limits.user.value, before, r.later).0) else before
  {
    KeysDiffer(r.userID, userID);
  }

  /**
   A request passes exactly when its address's own bucket admits it and, if it names a user, that
   user's own bucket does; and the user's bucket has only been charged for requests that got past
   the address limiter.
   */
  lemma PassesIff(limits: Limits, requests: seq<Request>)
    requires requests != []
    ensures Passes(limits, requests) <==> IpAdmits(limits.ip, requests) && UserAdmits(limits, requests)
  {
    var r := Last(requests);
    IpDecision(limits, requests);
    if limits.user.Some? && r.userID != "" {
      UserProjection(limits, Front(requests), r.userID);
      var times := UserTimes(limits.ip, Front(requests), r.userID) + [r.later];
      assert Front(times) == UserTimes(limits.ip, Front(requests), r.userID);
    }
  }

  // ---------------------------------------------------------------------------------------------
  // One limiter in both places
  // ---------------------------------------------------------------------------------------------

  /** The shared buckets hold under the two kinds of keys what two separate limiters would. */
  ghost predicate Agrees(gate: Gate, levels: map<string, Level>) {
    && (forall clientIP :: Lookup(gate.ip, IpKey(clientIP)) == Lookup(levels, IpKey(clientIP)))
    && (forall userID :: Lookup(gate.user, UserKey(userID)) == Lookup(levels, UserKey(userID)))
  }

  lemma KindsDiffer(clientIP: string, userID: string)
    ensures IpKey(clientIP) != UserKey(userID)
  {
    assert IpKey(clientIP)[0] == 'i' && UserKey(userID)[0] == 'u';
  }

  lemma IpChargeAgrees(rate: Rate, gate: Gate, levels: map<string, Level>, r: Request)
    requires Agrees(gate, levels)
    ensures var (ipLevels, info) := Consult(Some(rate), gate.ip, IpKey(r.clientIP), r.now);
            var (shared, info') := Consult(Some(rate), levels, IpKey(r.clientIP), r.now);
            info == info' && Agrees(Gate(ipLevels, gate.user), shared)
  {
    forall clientIP {
      KeysDiffer(r.clientIP, clientIP);
    }
    forall userID {
      KindsDiffer(r.clientIP, userID);
    }
  }

  lemma UserStageAgrees(rate: Rate, gate: Gate, levels: map<string, Level>, r: Request, ipInfo: Option<Info>)
    requires Agrees(gate, levels)
    ensures var (userLevels, verdict, headers) := UserStage(Some(rate), gate.user, r, ipInfo);
            var (shared, verdict', headers') := UserStage(Some(rate), levels, r, ipInfo);
            verdict == verdict' && headers == headers' && Agrees(Gate(gate.ip, userLevels), shared)
  {
    forall userID {
      KeysDiffer(r.userID, userID);
    }
    forall clientIP {
      KindsDiffer(clientIP, r.userID);
    }
  }

  function SharedAfter(rate: Rate, requests: seq<Request>): map<string, Level> {
    if requests == [] then map[] else SharedFilter(rate, SharedAfter(rate, Front(requests)), Last(requests)).0
  }

  lemma {:induction false} SharedRunAgrees(rate: Rate, requests: seq<Request>)
    ensures Agrees(GateAfter(Limits(Some(rate), Some(rate)), requests), SharedAfter(rate, requests))
  {
    if requests != [] {
      SharedRunAgrees(rate, Front(requests));
      SharedStepAgrees(rate, GateAfter(Limits(Some(rate), Some(rate)), Front(requests)),
                       SharedAfter(rate, Front(requests)), Last(requests));
    }
  }

  lemma SharedStepAgrees(rate: Rate, gate: Gate, levels: map<string, Level>, r: Request)
    requires Agrees(gate, levels)
    ensures var (gate', verdict, headers) := Filter(Limits(Some(rate), Some(rate)), gate, r);
            var (shared, verdict', headers') := SharedFilter(rate, levels, r);
            verdict == verdict' && headers == headers' && Agrees(gate', shared)
  {
    IpChargeAgrees(rate, gate, levels, r);
    var (ipLevels, info) := Consult(Some(rate), gate.ip, IpKey(r.clientIP), r.now);
    var shared := Consult(Some(rate), levels, IpKey(r.clientIP), r.now).0;
    UserStageAgrees(rate, Gate(ipLevels, gate.user), shared, r, info);
  }

  /** One limiter in both places decides every request, and answers it, as two limiters of its rate would. */
  lemma SharedDecidesAsTwo(rate: Rate, requests: seq<Request>)
    requires requests != []
    ensures var (_, verdict, headers) := SharedFilter(rate, SharedAfter(rate, Front(requests)), Last(requests));
            var limits := Limits(Some(rate), Some(rate));
            var two := Filter(limits, GateAfter(limits, Front(requests)), Last(requests));
            verdict == two.1 && headers == two.2 && (verdict.Next? <==> Passes(limits, requests))
  {
    var limits := Limits(Some(rate), Some(rate));
    SharedRunAgrees(rate, Front(requests));
    SharedStepAgrees(rate, GateAfter(limits, Front(requests)), SharedAfter(rate, Front(requests)), Last(requests));
  }
}
