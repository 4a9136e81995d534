/**
 The in-memory token bucket limiter.

 Tokens are kept exactly, in units of one MINUTE-th of a token: a limit of `limit` tokens a minute
 then adds `limit` units each nanosecond, and a call costs MINUTE units.
 */
module Limiter {
  import opened Common

  datatype Rate = Rate(limit: int, burst: int) {
    function Capacity(): int { limit + burst }
  }

  /** What a caller of the limiter is told. */
  datatype Info = Info(allowed: bool, limit: int, remaining: int, reset: Time)

  /** The value of one bucket. */
  datatype Level = Level(tokens: int, last: Time)

  /** The level that a call at `now` finds. */
  function Refilled(rate: Rate, level: Level, now: Time): int {
    Min(rate.Capacity() * MINUTE, level.tokens + (now - level.last) * rate.limit)
  }

  /** One call: the bucket it leaves and what it answers. A denied call keeps the refill but not the time. */
  function Charge(rate: Rate, level: Option<Level>, now: Time): (Level, Info) {
    var reset := now + MINUTE;
    match level
    case None =>
      (Level((rate.Capacity() - 1) * MINUTE, now), Info(true, rate.limit, rate.limit - 1, reset))
    case Some(was) =>
      var tokens := Refilled(rate, was, now);
      if tokens >= MINUTE then
        (Level(tokens - MINUTE, now), Info(true, rate.limit, (tokens - MINUTE) / MINUTE, reset))
      else
        (Level(tokens, was.last), Info(false, rate.limit, 0, reset))
  }

  function Lookup(levels: map<string, Level>, key: string): Option<Level> {
    if key in levels then Some(levels[key]) else None
  }

  class Bucket {
    var tokens: int
    var last: Time

    constructor (tokens: int, last: Time)
      ensures this.tokens == tokens && this.last == last
    {
      this.tokens := tokens;
      this.last := last;
    }
  }

  /** The limiter: one bucket object for each key, updated in place. */
  class MemoryLimiter {
    const rate: Rate
    var store: map<string, Bucket>

    /** No two keys share a bucket. */
    ghost predicate Valid()
      reads this
    {
      forall j, k | j in store && k in store && j != k :: store[j] != store[k]
    }

    ghost function Repr(): set<object>
      reads this
    {
      {this} + set k | k in store :: store[k]
    }

    ghost function Levels(): map<string, Level>
      reads this, store.Values
    {
      map k | k in store :: Level(store[k].tokens, store[k].last)
    }

    constructor (limit: int, burst: int)
      ensures Valid() && fresh(Repr())
      ensures rate == Rate(limit, burst) && Levels() == map[]
    {
      rate := Rate(limit, burst);
      store := map[];
    }

    method Allow(key: string, now: Time) returns (info: Info)
      requires Valid()
      modifies this, store.Values
      ensures Valid() && fresh(Repr() - old(Repr()))
      ensures info == Charge(rate, old(Lookup(Levels(), key)), now).1
      ensures Levels() == old(Levels())[key := Charge(rate, old(Lookup(Levels(), key)), now).0]
      ensures info.limit == rate.limit && info.reset == now + 60 * SECOND && (!info.allowed ==> info.remaining == 0)
    {
      var reset := now + MINUTE;
      if key !in store {
        var b := new Bucket((rate.limit + rate.burst - 1) * MINUTE, now);
        store := store[key := b];
        return Info(true, rate.limit, rate.limit - 1, reset);
      }
      var b := store[key];
      var delta := now - b.last;
      b.tokens := Min((rate.limit + rate.burst) * MINUTE, b.tokens + delta * rate.limit);
      if b.tokens >= MINUTE {
        b.tokens := b.tokens - MINUTE;
        b.last := now;
        return Info(true, rate.limit, b.tokens / MINUTE, reset);
      }
      return Info(false, rate.limit, 0, reset);
    }
  }

  /**
   The reported remainder is the whole tokens left, except on a key's first call, which leaves the
   burst out: there it is right exactly when there is no burst.
   */
  lemma RemainderIsHonestIff(rate: Rate, level: Option<Level>, now: Time)
    requires rate.limit >= 0 && rate.Capacity() >= 0
    requires level.Some? ==> 0 <= level.value.tokens && level.value.last <= now
    ensures var (after, info) := Charge(rate, level, now);
            info.remaining * MINUTE <= after.tokens < (info.remaining + 1) * MINUTE
            <==> (level.None? ==> rate.burst == 0)
  {
    if level.Some? {
      NonNegative(now - level.value.last, rate.limit);
    }
  }

  // ---------------------------------------------------------------------------------------------
  // Runs of calls on one key
  // ---------------------------------------------------------------------------------------------

  predicate Nondecreasing(times: seq<Time>) {
    forall i, j | 0 <= i < j < |times| :: times[i] <= times[j]
  }

  function Last<T>(s: seq<T>): T
    requires s != []
  {
    s[|s| - 1]
  }

  function Front<T>(s: seq<T>): seq<T>
    requires s != []
  {
    s[..|s| - 1]
  }

  /** The bucket after calls at `times`. */
  function After(rate: Rate, times: seq<Time>): Option<Level> {
    if times == [] then None else Some(Charge(rate, After(rate, Front(times)), Last(times)).0)
  }

  /** Whether the last of the calls at `times` is admitted. */
  predicate Allowed(rate: Rate, times: seq<Time>)
    requires times != []
  {
    Charge(rate, After(rate, Front(times)), Last(times)).1.allowed
  }

  function Admitted(rate: Rate, times: seq<Time>): (n: nat)
    ensures n <= |times|
  {
    if times == [] then 0
    else Admitted(rate, Front(times)) + if Allowed(rate, times) then 1 else 0
  }

  /**
   The textbook bucket: what it holds grows by the limit for the time elapsed, up to its size; a
   call takes a token if there is one; the clock advances on every call, denied or not.
   */
  function TextbookCharge(rate: Rate, level: Option<Level>, now: Time): (Level, bool) {
    match level
    case None => (Level((rate.limit + rate.burst) * MINUTE - MINUTE, now), true)
    case Some(was) =>
      var earned, size := was.tokens + rate.limit * (now - was.last), (rate.limit + rate.burst) * MINUTE;
      var tokens := if earned > size then size else earned;
      if tokens < MINUTE then (Level(tokens, now), false) else (Level(tokens - MINUTE, now), true)
  }

  function TextbookAfter(rate: Rate, times: seq<Time>): Option<Level> {
    if times == [] then None
    else Some(TextbookCharge(rate, TextbookAfter(rate, Front(times)), Last(times)).0)
  }

  predicate TextbookAllowed(rate: Rate, times: seq<Time>)
    requires times != []
  {
    TextbookCharge(rate, TextbookAfter(rate, Front(times)), Last(times)).1
  }

  function TextbookAdmitted(rate: Rate, times: seq<Time>): nat {
    if times == [] then 0
    else TextbookAdmitted(rate, Front(times)) + if TextbookAllowed(rate, times) then 1 else 0
  }

  predicate InRange(rate: Rate, first: Time, level: Level, now: Time) {
    0 <= level.tokens <= rate.Capacity() * MINUTE && first <= level.last <= now
  }

  lemma CallStaysInRange(rate: Rate, first: Time, level: Level, previous: Time, now: Time)
    requires rate.limit >= 0 && rate.Capacity() >= 1 && previous <= now && InRange(rate, first, level, previous)
    ensures InRange(rate, first, Charge(rate, Some(level), now).0, now)
  {
    NonNegative(now - level.last, rate.limit);
  }

  /** Tokens stay between empty and full, and the stored time never runs ahead of the clock. */
  lemma {:induction false} TokensStayInRange(rate: Rate, times: seq<Time>)
    requires rate.limit >= 0 && rate.Capacity() >= 1 && Nondecreasing(times) && times != []
    ensures InRange(rate, times[0], After(rate, times).value, Last(times))
  {
    if |times| == 1 {
      assert Front(times) == [];
    } else {
      var before := Front(times);
      TokensStayInRange(rate, before);
      CallStaysInRange(rate, times[0], After(rate, before).value, Last(before), Last(times));
    }
  }

  lemma NonNegative(a: int, b: int)
    requires a >= 0 && b >= 0
    ensures a * b >= 0
  {
  }

  // ---------------------------------------------------------------------------------------------
  // Against the textbook bucket
  // ---------------------------------------------------------------------------------------------

  /**
   The simulation: `a` admissions and the bucket `mine` against `b` admissions and the textbook
   bucket `theirs`. Admissions plus tokens at hand are no fewer, though tokens alone may be.
   */
  predicate Ahead(rate: Rate, mine: Level, a: nat, theirs: Level, b: nat) {
    && a >= b
    && mine.last <= theirs.last
    && theirs.tokens <= (rate.limit + rate.burst) * MINUTE
    && a * MINUTE + (rate.limit + rate.burst) * MINUTE >= b * MINUTE + theirs.tokens
    && a * MINUTE + mine.tokens + rate.limit * (theirs.last - mine.last) >= b * MINUTE + theirs.tokens
  }

  lemma FirstCallAhead(rate: Rate, now: Time)
    ensures Ahead(rate, Charge(rate, None, now).0, 1, TextbookCharge(rate, None, now).0, 1)
  {
    assert (now - now) * rate.limit == 0;
  }

  /** Between calls both gain alike; if only the textbook bucket can pay, the limiter is strictly ahead already. */
  lemma CallStaysAhead(rate: Rate, mine: Level, a: nat, theirs: Level, b: nat, now: Time)
    requires rate.limit >= 0 && theirs.last <= now && Ahead(rate, mine, a, theirs, b)
    ensures var (mine', info) := Charge(rate, Some(mine), now);
            var (theirs', allowed) := TextbookCharge(rate, Some(theirs), now);
            Ahead(rate, mine', a + (if info.allowed then 1 else 0), theirs', b + if allowed then 1 else 0)
  {
    var head, gain := rate.limit * (theirs.last - mine.last), rate.limit * (now - theirs.last);
    NonNegative(rate.limit, theirs.last - mine.last);
    NonNegative(rate.limit, now - theirs.last);
    assert rate.limit * (now - mine.last) == head + gain;
    ChargeGains(rate, mine, now, head + gain);
    TextbookGains(rate, theirs, now, gain);
    PurseStaysAhead((rate.limit + rate.burst) * MINUTE, mine.tokens + head, a, theirs.tokens, b, gain);
    assert rate.limit * (now - now) == 0;
  }

  /** A call on a known bucket, with its gain named. */
  lemma ChargeGains(rate: Rate, was: Level, now: Time, gain: int)
    requires gain == rate.limit * (now - was.last)
    ensures var (level, info) := Charge(rate, Some(was), now);
            var tokens := Min((rate.limit + rate.burst) * MINUTE, was.tokens + gain);
            && info.allowed == (tokens >= MINUTE)
            && level == if info.allowed then Level(tokens - MINUTE, now) else Level(tokens, was.last)
  {
    assert (now - was.last) * rate.limit == gain;
  }

  lemma TextbookGains(rate: Rate, was: Level, now: Time, gain: int)
    requires gain == rate.limit * (now - was.last)
    ensures var (level, allowed) := TextbookCharge(rate, Some(was), now);
            var tokens := Min((rate.limit + rate.burst) * MINUTE, was.tokens + gain);
            allowed == (tokens >= MINUTE) && level == Level(if allowed then tokens - MINUTE else tokens, now)
  {
  }

  /** Two purses that gain alike, up to a cap, keep their order; so does who can pay. */
  lemma PurseStaysAhead(cap: int, mine: int, a: nat, theirs: int, b: nat, gain: int)
    requires gain >= 0 && a >= b && theirs <= cap
    requires a * MINUTE + cap >= b * MINUTE + theirs && a * MINUTE + mine >= b * MINUTE + theirs
    ensures var x, y := Min(cap, mine + gain), if theirs + gain > cap then cap else theirs + gain;
            && a * MINUTE + x >= b * MINUTE + y && y <= cap
            && (y >= MINUTE && x < MINUTE ==> a >= b + 1)
  {
  }

  lemma {:induction false} SimulatesTextbook(rate: Rate, times: seq<Time>)
    requires rate.limit >= 0 && Nondecreasing(times) && times != []
    ensures Ahead(rate, After(rate, times).value, Admitted(rate, times),
                  TextbookAfter(rate, times).value, TextbookAdmitted(rate, times))
    ensures TextbookAfter(rate, times).value.last == Last(times)
  {
    if |times| == 1 {
      FirstCallAhead(rate, times[0]);
      assert Front(times) == [];
    } else {
      var before := Front(times);
      SimulatesTextbook(rate, before);
      CallStaysAhead(rate, After(rate, before).value, Admitted(rate, before),
                     TextbookAfter(rate, before).value, TextbookAdmitted(rate, before), Last(times));
    }
  }

  /** In every prefix the limiter has admitted at least as many calls as the textbook bucket. */
  lemma AdmitsAtLeastTextbook(rate: Rate, times: seq<Time>, n: nat)
    requires rate.limit >= 0 && Nondecreasing(times) && n <= |times|
    ensures Admitted(rate, times[..n]) >= TextbookAdmitted(rate, times[..n])
  {
    if n > 0 {
      SimulatesTextbook(rate, times[..n]);
    }
  }

  /** Up to and including the first denial the two decide alike. */
  lemma {:induction false} AgreesUntilFirstDenial(rate: Rate, times: seq<Time>)
    requires times != [] && Admitted(rate, Front(times)) == |times| - 1
    ensures After(rate, Front(times)) == TextbookAfter(rate, Front(times))
    ensures Allowed(rate, times) == TextbookAllowed(rate, times)
  {
    if |times| > 1 {
      AgreesUntilFirstDenial(rate, Front(times));
      ChargesAlike(rate, After(rate, Front(Front(times))), Last(Front(times)));
    }
    ChargesAlike(rate, After(rate, Front(times)), Last(times));
  }

  lemma ChargesAlike(rate: Rate, level: Option<Level>, now: Time)
    ensures var (mine, info) := Charge(rate, level, now);
            var (theirs, allowed) := TextbookCharge(rate, level, now);
            info.allowed == allowed && (allowed ==> mine == theirs)
  {
    if level.Some? {
      var gain := rate.limit * (now - level.value.last);
      ChargeGains(rate, level.value, now, gain);
      TextbookGains(rate, level.value, now, gain);
    }
  }

  /** Every call but the first found the bucket short of full by no less than was to be added. */
  predicate NeverCapped(rate: Rate, times: seq<Time>) {
    |times| <= 1 || (NeverCapped(rate, Front(times)) && Fits(rate, After(rate, Front(times)).value, Last(times)))
  }

  predicate Fits(rate: Rate, level: Level, now: Time) {
    level.tokens + rate.limit * (now - level.last) <= (rate.limit + rate.burst) * MINUTE
  }

  /** When a call was last admitted: the first always is. */
  function LastAdmission(rate: Rate, times: seq<Time>): Time
    requires times != []
  {
    if |times| == 1 || Allowed(rate, times) then Last(times) else LastAdmission(rate, Front(times))
  }

  /** What every call has waited for since the admission before it, added up. */
  function Waited(rate: Rate, times: seq<Time>): int {
    if |times| <= 1 then 0 else Waited(rate, Front(times)) + Last(times) - LastAdmission(rate, Front(times))
  }

  lemma Distribute(limit: int, a: int, b: int)
    ensures limit * a + limit * b == limit * (a + b)
  {
  }

  /**
   The exact ledger: while the bucket never overflows nothing is lost and nothing made up, to the
   nanosecond. What was admitted and what is left is the capacity plus the limit for the time that
   every call has waited since the admission before it; denied calls count theirs again.
   */
  lemma {:induction false} ExactLedger(rate: Rate, times: seq<Time>)
    requires times != [] && NeverCapped(rate, times)
    ensures After(rate, times).value.last == LastAdmission(rate, times)
    ensures Admitted(rate, times) * MINUTE + After(rate, times).value.tokens
         == (rate.limit + rate.burst) * MINUTE + rate.limit * Waited(rate, times)
  {
    if |times| == 1 {
      assert Front(times) == [];
    } else {
      var before := Front(times);
      var level, wait := After(rate, before).value, Last(times) - LastAdmission(rate, before);
      ExactLedger(rate, before);
      ChargeGains(rate, level, Last(times), rate.limit * wait);
      Distribute(rate.limit, Waited(rate, before), wait);
    }
  }

  /** So on a run without denials it is the limit for the time since the first call. */
  lemma {:induction false} UndeniedLedger(rate: Rate, times: seq<Time>)
    requires times != [] && NeverCapped(rate, times) && Admitted(rate, times) == |times|
    ensures |times| * MINUTE + After(rate, times).value.tokens
         == (rate.limit + rate.burst) * MINUTE + rate.limit * (Last(times) - times[0])
  {
    ExactLedger(rate, times);
    UndeniedWait(rate, times);
  }

  lemma {:induction false} UndeniedWait(rate: Rate, times: seq<Time>)
    requires times != [] && Admitted(rate, times) == |times|
    ensures Waited(rate, times) == Last(times) - times[0] && LastAdmission(rate, times) == Last(times)
  {
    if |times| > 1 {
      UndeniedWait(rate, Front(times));
    }
  }

  // ---------------------------------------------------------------------------------------------
  // Rate bounds
  // ---------------------------------------------------------------------------------------------

  /** The denials since the last admission. */
  function Denials(rate: Rate, times: seq<Time>): nat {
    if times == [] || Allowed(rate, times) then 0 else Denials(rate, Front(times)) + 1
  }

  /** At most `k` denials fall between consecutive admissions. */
  predicate GapsAtMost(rate: Rate, times: seq<Time>, k: nat) {
    times == []
    || (GapsAtMost(rate, Front(times), k) && (Allowed(rate, times) ==> Denials(rate, Front(times)) <= k))
  }

  /**
   The ledger after `a` admissions, `d` denials later, at time `now`: what has been admitted and
   what is at hand was there at first or was refilled, at most k+1 times over.
   */
  predicate Balanced(rate: Rate, k: nat, first: Time, level: Level, a: nat, d: nat, now: Time) {
    var earned := rate.Capacity() * MINUTE + (k + 1) * (rate.limit * (level.last - first));
    && 0 <= level.tokens && level.last <= now
    && a * MINUTE <= earned
    && a * MINUTE + level.tokens <= earned + d * (rate.limit * (now - level.last))
  }

  lemma FirstCallBalanced(rate: Rate, k: nat, now: Time)
    requires rate.Capacity() >= 1
    ensures Balanced(rate, k, now, Charge(rate, None, now).0, 1, 0, now)
  {
    assert (k + 1) * (rate.limit * (now - now)) == 0;
  }

  lemma CallStaysBalanced(rate: Rate, k: nat, first: Time, level: Level, a: nat, d: nat, previous: Time, now: Time)
    requires rate.limit >= 0 && rate.Capacity() >= 1 && previous <= now
    requires Balanced(rate, k, first, level, a, d, previous)
    ensures var (level', info) := Charge(rate, Some(level), now);
            && (!info.allowed ==> Balanced(rate, k, first, level', a, d + 1, now))
            && (info.allowed && d <= k ==> Balanced(rate, k, first, level', a + 1, 0, now))
  {
    LedgerStep(rate.limit, k, d, first, level.last, previous, now);
    NonNegative(now - level.last, rate.limit);
  }

  lemma {:induction false} Ledger(rate: Rate, times: seq<Time>, k: nat)
    requires rate.limit >= 0 && rate.Capacity() >= 1
    requires times != [] && Nondecreasing(times) && GapsAtMost(rate, times, k)
    ensures Balanced(rate, k, times[0], After(rate, times).value, Admitted(rate, times),
                     Denials(rate, times), Last(times))
  {
    if |times| == 1 {
      FirstCallBalanced(rate, k, times[0]);
      assert Front(times) == [];
    } else {
      var before := Front(times);
      Ledger(rate, before, k);
      CallStaysBalanced(rate, k, times[0], After(rate, before).value, Admitted(rate, before),
                        Denials(rate, before), Last(before), Last(times));
    }
  }

  /** A call at `now` earns for all the time since the last admission, once more. */
  lemma LedgerStep(limit: int, k: nat, d: nat, first: Time, last: Time, previous: Time, now: Time)
    requires limit >= 0 && last <= previous <= now
    ensures d * (limit * (previous - last)) + (now - last) * limit <= (d + 1) * (limit * (now - last))
    ensures d <= k ==> (k + 1) * (limit * (last - first)) + (d + 1) * (limit * (now - last))
                       <= (k + 1) * (limit * (now - first))
  {
    var gain := limit * (now - last);
    Scaled(limit, previous - last, now - last);
    Scaled(d, limit * (previous - last), gain);
    assert d * gain + gain == (d + 1) * gain;
    if d <= k {
      NonNegative(limit, now - last);
      assert (d + 1) * gain <= (k + 1) * gain by {
        NonNegative(k - d, gain);
        assert (k + 1) * gain - (d + 1) * gain == (k - d) * gain;
      }
      assert limit * (last - first) + gain == limit * (now - first);
      assert (k + 1) * (limit * (last - first)) + (k + 1) * gain == (k + 1) * (limit * (now - first));
    }
  }

  lemma Scaled(n: nat, a: int, b: int)
    requires a <= b
    ensures n * a <= n * b
  {
  }

  /**
   The rate bound: with at most `k` denials between admissions, the calls admitted from the first
   call on number at most the capacity plus k+1 times what the limit grants for that time.
   */
  lemma RateBound(rate: Rate, times: seq<Time>, k: nat)
    requires rate.limit >= 0 && rate.Capacity() >= 1
    requires times != [] && Nondecreasing(times) && GapsAtMost(rate, times, k)
    ensures Admitted(rate, times) * MINUTE
            <= rate.Capacity() * MINUTE + (k + 1) * (rate.limit * (Last(times) - times[0]))
  {
    Ledger(rate, times, k);
    var last := After(rate, times).value.last;
    Scaled(rate.limit, last - times[0], Last(times) - times[0]);
    Scaled(k + 1, rate.limit * (last - times[0]), rate.limit * (Last(times) - times[0]));
  }

  /** The textbook bound on a run: the capacity plus what the limit grants for the elapsed time. */
  predicate PlainBound(rate: Rate, times: seq<Time>)
    requires times != []
  {
    Admitted(rate, times) * MINUTE <= rate.Capacity() * MINUTE + rate.limit * (Last(times) - times[0])
  }

  /** The ledger when nothing is counted twice. */
  predicate PlainlyBalanced(rate: Rate, first: Time, level: Level, a: nat) {
    a * MINUTE + level.tokens <= rate.Capacity() * MINUTE + rate.limit * (level.last - first)
  }

  /** With a whole token for each nanosecond a denial finds no time elapsed, so nothing is counted twice. */
  lemma CallStaysPlain(rate: Rate, first: Time, level: Level, a: nat, now: Time)
    requires rate.limit >= MINUTE && rate.burst >= 0 && 0 <= level.tokens && level.last <= now
    requires PlainlyBalanced(rate, first, level, a)
    ensures var (level', info) := Charge(rate, Some(level), now);
            PlainlyBalanced(rate, first, level', a + if info.allowed then 1 else 0)
  {
    var gain := (now - level.last) * rate.limit;
    if now != level.last {
      Scaled(rate.limit, 1, now - level.last);
    }
    assert gain == 0 || gain >= rate.limit;
    assert rate.limit * (level.last - first) + gain == rate.limit * (now - first);
  }

  lemma {:induction false} PlainLedger(rate: Rate, times: seq<Time>)
    requires rate.limit >= MINUTE && rate.burst >= 0 && times != [] && Nondecreasing(times)
    ensures PlainlyBalanced(rate, times[0], After(rate, times).value, Admitted(rate, times))
  {
    if |times| == 1 {
      assert Front(times) == [];
      assert rate.limit * (times[0] - times[0]) == 0;
    } else {
      var before := Front(times);
      PlainLedger(rate, before);
      TokensStayInRange(rate, before);
      CallStaysPlain(rate, times[0], After(rate, before).value, Admitted(rate, before), Last(times));
    }
  }

  /** A burst of `n` calls at one instant takes `n` tokens and is admitted whole. */
  lemma {:induction false} BurstDrains(rate: Rate, n: nat)
    requires rate.limit >= 1 && 1 <= n <= rate.Capacity()
    ensures var times := seq(n, _ => 0);
            Admitted(rate, times) == n && After(rate, times) == Some(Level((rate.Capacity() - n) * MINUTE, 0))
  {
    var times := seq(n, _ => 0);
    if n == 1 {
      assert Front(times) == [];
    } else {
      assert Front(times) == seq(n - 1, _ => 0);
      BurstDrains(rate, n - 1);
    }
  }

  /** Drain the bucket, be denied once just short of a token, and call again at the same instant. */
  function Overrun(rate: Rate): (times: seq<Time>)
    requires 1 <= rate.limit < MINUTE && rate.burst >= 0
  {
    var t := (MINUTE - 1) / rate.limit;
    seq(rate.Capacity(), _ => 0) + [t] + [t]
  }

  lemma OverrunBreaksPlainBound(rate: Rate)
    requires 1 <= rate.limit < MINUTE && rate.burst >= 0
    ensures Nondecreasing(Overrun(rate)) && !PlainBound(rate, Overrun(rate))
  {
    var t, n := (MINUTE - 1) / rate.limit, rate.Capacity();
    var times := Overrun(rate);
    HalfMinute(rate.limit, t);
    OverrunAdmits(rate, t);
    OverTheBound(rate.limit, n, t);
    assert times[0] == 0 && Last(times) == t;
  }

  lemma OverrunAdmits(rate: Rate, t: Time)
    requires rate.limit >= 1 && rate.Capacity() >= 1 && t * rate.limit < MINUTE <= 2 * (t * rate.limit)
    ensures Admitted(rate, seq(rate.Capacity(), _ => 0) + [t] + [t]) == rate.Capacity() + 1
  {
    var drained := seq(rate.Capacity(), _ => 0);
    BurstDrains(rate, rate.Capacity());
    DeniedThenAdmitted(rate, t);
    CallAfter(rate, drained, t);
    CallAfter(rate, drained + [t], t);
  }

  /** What one more call at `t` does to a run. */
  lemma CallAfter(rate: Rate, times: seq<Time>, t: Time)
    ensures After(rate, times + [t]) == Some(Charge(rate, After(rate, times), t).0)
    ensures Admitted(rate, times + [t])
         == Admitted(rate, times) + if Charge(rate, After(rate, times), t).1.allowed then 1 else 0
  {
    assert Front(times + [t]) == times;
  }

  lemma DeniedThenAdmitted(rate: Rate, t: Time)
    requires rate.Capacity() >= 1 && t * rate.limit < MINUTE <= 2 * (t * rate.limit)
    ensures var (denied, info) := Charge(rate, Some(Level(0, 0)), t);
            denied == Level(t * rate.limit, 0) && !info.allowed && Charge(rate, Some(denied), t).1.allowed
  {
    assert (t - 0) * rate.limit == t * rate.limit;
  }

  lemma OverTheBound(limit: int, n: nat, t: Time)
    requires t * limit < MINUTE
    ensures (n + 1) * MINUTE > n * MINUTE + limit * (t - 0)
  {
    assert limit * (t - 0) == t * limit;
  }

  /** The largest instant that earns less than a token earns at least half of one. */
  lemma HalfMinute(limit: int, t: int)
    requires 1 <= limit < MINUTE && t == (MINUTE - 1) / limit
    ensures t >= 1 && t * limit < MINUTE && 2 * (t * limit) >= MINUTE
  {
    assert MINUTE - 1 == t * limit + (MINUTE - 1) % limit;
    Scaled(limit, 1, t);
  }

  /**
   The textbook bound holds on every run exactly when the limit grants a whole token for each
   nanosecond. Any usable limit is far below that, so denials let some run exceed the bound.
   */
  lemma PlainBoundIff(rate: Rate)
    requires rate.limit >= 1 && rate.burst >= 0
    ensures (forall times | times != [] && Nondecreasing(times) :: PlainBound(rate, times))
            <==> rate.limit >= MINUTE
  {
    if rate.limit >= MINUTE {
      forall times | times != [] && Nondecreasing(times)
        ensures PlainBound(rate, times)
      {
        PlainLedger(rate, times);
        TokensStayInRange(rate, times);
        Scaled(rate.limit, After(rate, times).value.last - times[0], Last(times) - times[0]);
      }
    } else {
      OverrunBreaksPlainBound(rate);
    }
  }

  // ---------------------------------------------------------------------------------------------
  // Runs over many keys
  // ---------------------------------------------------------------------------------------------

  datatype Call = Call(key: string, now: Time)

  /** All the buckets after `calls`. */
  function LevelsAfter(rate: Rate, calls: seq<Call>): map<string, Level> {
    if calls == [] then map[]
    else
      var levels, call := LevelsAfter(rate, Front(calls)), Last(calls);
      levels[call.key := Charge(rate, Lookup(levels, call.key), call.now).0]
  }

  /** The times of the calls on `key`. */
  function TimesOf(calls: seq<Call>, key: string): seq<Time> {
    if calls == [] then []
    else TimesOf(Front(calls), key) + if Last(calls).key == key then [Last(calls).now] else []
  }

  /** Key isolation: a key's bucket is what a fresh limiter has that saw only that key's calls. */
  lemma {:induction false} KeyIsolation(rate: Rate, calls: seq<Call>, key: string)
    ensures Lookup(LevelsAfter(rate, calls), key) == After(rate, TimesOf(calls, key))
  {
    if calls != [] {
      KeyIsolation(rate, Front(calls), key);
      assert Last(calls).key == key ==> Front(TimesOf(calls, key)) == TimesOf(Front(calls), key);
      assert Last(calls).key != key ==> TimesOf(calls, key) == TimesOf(Front(calls), key);
    }
  }

  /** So is every decision on it. */
  lemma KeyDecision(rate: Rate, calls: seq<Call>)
    requires calls != []
    ensures var key := Last(calls).key;
            TimesOf(calls, key) != []
            && Charge(rate, Lookup(LevelsAfter(rate, Front(calls)), key), Last(calls).now).1.allowed
               == Allowed(rate, TimesOf(calls, key))
  {
    var key := Last(calls).key;
    KeyIsolation(rate, Front(calls), key);
    assert Front(TimesOf(calls, key)) == TimesOf(Front(calls), key);
  }
}
