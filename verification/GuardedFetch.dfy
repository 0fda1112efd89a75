/** data/tushare_sync.py: `_fetch_with_guard`, one API pull behind the rate limiter and the
    circuit breaker, with bounded exponential backoff. */
module GuardedFetch {
  import opened Wrappers
  import TokenBucket
  import opened CircuitBreaker

  /** How one API call ends, the exceptions already classified. */
  datatype Reply<T> = Data(frame: T) | Empty | Transient | Persistent | Unknown

  const MAX_RETRIES: nat := 5
  const MAX_CALLS: nat := MAX_RETRIES + 1
  const OPEN_WAIT_RETRIES: nat := 1

  /** `_BACKOFF_BASE_SEC * 2 ** attempt` */
  function Backoff(attempt: nat): real {
    if attempt == 0 then 2.0 else 2.0 * Backoff(attempt - 1)
  }

  function TotalBackoff(retries: nat): real {
    if retries == 0 then 0.0 else TotalBackoff(retries - 1) + Backoff(retries - 1)
  }

  function Pow2(n: nat): (r: int)
    ensures 1 <= r
  {
    if n == 0 then 1 else 2 * Pow2(n - 1)
  }

  /** After k retries the backoff adds up to exactly 2^(k+1) - 2 seconds, at most 62. */
  lemma {:induction false} BackoffSum(retries: nat)
    ensures TotalBackoff(retries) == (Pow2(retries + 1) - 2) as real
    ensures Backoff(retries) == Pow2(retries + 1) as real
    ensures retries <= MAX_RETRIES ==> TotalBackoff(retries) <= 62.0
  {
    if retries > 0 {
      BackoffSum(retries - 1);
      if retries <= MAX_RETRIES { Pow2Table(retries); }
    }
  }

  lemma {:induction false} Pow2Table(n: nat)
    requires n <= 5
    ensures Pow2(n + 1) <= 64
  {
    assert Pow2(1) == 2 && Pow2(2) == 4 && Pow2(3) == 8 && Pow2(4) == 16;
    assert Pow2(5) == 32;
    assert Pow2(6) == 64;
  }

  /** `calls` is how many calls the retry chain makes: all but the last end in a transient
      failure, and a transient failure is last only when the retries are used up. */
  ghost predicate ChainLength<T>(api: nat -> Reply<T>, calls: nat) {
    && 1 <= calls <= MAX_CALLS
    && (forall k | 0 <= k < calls - 1 :: api(k).Transient?)
    && (api(calls - 1).Transient? ==> calls == MAX_CALLS)
  }

  lemma {:induction false} ChainLengthIsUnique<T>(api: nat -> Reply<T>, a: nat, b: nat)
    requires ChainLength(api, a) && ChainLength(api, b)
    ensures a == b
  {}

  /** The chain ends with the first reply that is not transient, or else with the sixth; five retries
      back off for 62 seconds. */
  lemma {:induction false} ChainEnds<T>(api: nat -> Reply<T>, calls: nat)
    ensures ChainLength(api, calls) <==>
            && 1 <= calls <= 6 && (calls == 6 || !api(calls - 1).Transient?)
            && forall k | 0 <= k < calls - 1 :: api(k).Transient?
    ensures TotalBackoff(5) == 62.0
  {
    BackoffSum(5);
    assert Pow2(4) == 16 && Pow2(6) == 64;
  }

  /** What the breaker is told about the last reply: nothing at all when it is neutral. */
  function Settled<T>(c: Config, gate: Status, last: Reply<T>, now: real): Status {
    match last
    case Data(_) => AfterSuccess(gate)
    case Empty => gate
    case Persistent => gate
    case Transient => AfterFailure(c, gate, now)
    case Unknown => AfterFailure(c, gate, now)
  }

  /** The status in which the request finally passed the breaker, at time `now`. */
  ghost predicate PassedGate(c: Config, before: Status, gate: Status, waited: nat, now: real) {
    || (waited == 0 && Allows(c, before, now) && gate == AfterAllow(c, before, now))
    || (waited == 1 && !Allows(c, before, now - c.recoveryTimeout) &&
        Allows(c, AfterAllow(c, before, now - c.recoveryTimeout), now) &&
        gate == AfterAllow(c, AfterAllow(c, before, now - c.recoveryTimeout), now))
  }

  /** Refused, and refused again one cooling time later, whatever other threads did meanwhile: the
      quota is used up, or one of their failures opened the breaker again during the wait. */
  lemma {:induction false} RefusedAfterTheWait(c: Config, s: Status, now: real, others: seq<Call>)
    requires 1 <= c.halfOpenMaxCalls && s.openedAt <= now
    requires InOrder(others, now, now + c.recoveryTimeout)
    ensures var t := AfterCalls(c, AfterAllow(c, s, now), others);
            && (!Allows(c, t, now + c.recoveryTimeout) <==> Wedged(c, t) || (t.mode == OPEN && now < t.openedAt))
            && (t.mode == OPEN && now < t.openedAt ==> exists i :: 0 <= i < |others| && others[i].Failure?)
  {
    var t := AfterAllow(c, s, now);
    if forall i | 0 <= i < |others| :: !others[i].Failure? {
      OnlyFailuresOpen(c, t, others);
    }
  }

  lemma {:induction false} OpenedByFailureOnly(c: Config, s: Status, now: real)
    ensures AfterAllow(c, s, now).openedAt == s.openedAt && AfterSuccess(s).openedAt == s.openedAt
    ensures AfterFailure(c, s, now).openedAt == s.openedAt || AfterFailure(c, s, now).openedAt == now
  {}

  lemma {:induction false} OnlyFailuresOpen(c: Config, s: Status, calls: seq<Call>)
    requires forall i | 0 <= i < |calls| :: !calls[i].Failure?
    ensures AfterCalls(c, s, calls).openedAt == s.openedAt
    decreases |calls|
  {
    if calls != [] { OnlyFailuresOpen(c, AfterCall(c, s, calls[0]), calls[1..]); }
  }

  /** With nobody else calling, a second refusal means the breaker was wedged all along. */
  lemma {:induction false} RefusedTwiceMeansWedged(c: Config, s: Status, now: real)
    requires 0.0 <= c.recoveryTimeout && 1 <= c.halfOpenMaxCalls && s.openedAt <= now
    ensures !Allows(c, s, now) && !Allows(c, AfterAllow(c, s, now), now + c.recoveryTimeout) <==> Wedged(c, s)
    ensures Wedged(c, s) ==> AfterAllow(c, AfterAllow(c, s, now), now + c.recoveryTimeout) == s
  {}

  /** Asks the breaker, and once more after one cooling time. It is refused in the end exactly when
      it was wedged, and then nothing about it has changed. */
  method PassBreaker(clock: TokenBucket.Clock, breaker: Breaker) returns (allowed: bool, waited: nat)
    requires 0.0 <= breaker.config.recoveryTimeout && 1 <= breaker.config.halfOpenMaxCalls
    requires breaker.openedAt <= clock.now
    modifies clock, breaker
    ensures old(clock.now) <= clock.now && breaker.openedAt == old(breaker.openedAt)
    ensures waited <= OPEN_WAIT_RETRIES
    ensures !allowed <==> Wedged(breaker.config, old(breaker.State()))
    ensures !allowed ==> breaker.State() == old(breaker.State())
    ensures allowed ==> PassedGate(breaker.config, old(breaker.State()), breaker.State(), waited, clock.now)
  {
    hide Allows, AfterAllow, Wedged;
    waited := 0;
    ghost var c, before, asked := breaker.config, breaker.State(), clock.now;
    RefusedTwiceMeansWedged(c, before, asked);
    OpenedByFailureOnly(c, before, asked);
    allowed := breaker.AllowRequest(clock.now);
    while !allowed
      invariant waited <= OPEN_WAIT_RETRIES && clock.now == asked + waited as real * c.recoveryTimeout
      invariant waited == 0 ==> allowed == Allows(c, before, asked) && breaker.State() == AfterAllow(c, before, asked)
      invariant waited == 1 ==>
                  && !Allows(c, before, asked)
                  && allowed == Allows(c, AfterAllow(c, before, asked), clock.now)
                  && breaker.State() == AfterAllow(c, AfterAllow(c, before, asked), clock.now)
      invariant breaker.openedAt == before.openedAt
      decreases OPEN_WAIT_RETRIES - waited
    {
      if waited >= OPEN_WAIT_RETRIES {
        return;
      }
      clock.Advance(breaker.config.recoveryTimeout);
      waited := waited + 1;
      OpenedByFailureOnly(c, breaker.State(), clock.now);
      allowed := breaker.AllowRequest(clock.now);
    }
  }

  /** Calls the API until a reply is not transient or the retries are used up, backing off in
      between, and tells the breaker about the last reply. */
  method CallWithRetries<T>(clock: TokenBucket.Clock, breaker: Breaker, api: nat -> Reply<T>, seconds: nat -> real)
      returns (frame: Option<T>, calls: nat, ghost backoff: real)
    requires forall i :: 0.0 <= seconds(i)
    requires breaker.openedAt <= clock.now
    modifies clock, breaker
    ensures old(clock.now) <= clock.now && breaker.openedAt <= clock.now
    ensures ChainLength(api, calls) && backoff == TotalBackoff(calls - 1)
    ensures breaker.State() == Settled(breaker.config, old(breaker.State()), api(calls - 1), clock.now)
    ensures frame == if api(calls - 1).Data? then Some(api(calls - 1).frame) else None
  {
    hide AfterSuccess, AfterFailure, Backoff;
    frame, calls, backoff := None, 0, 0.0;
    ghost var c, gate := breaker.config, breaker.State();
    var attempt: nat := 0;
    while attempt <= MAX_RETRIES
      invariant attempt <= MAX_CALLS && calls == attempt && frame == None
      invariant forall k | 0 <= k < attempt :: api(k).Transient?
      invariant breaker.State() == gate && old(clock.now) <= clock.now
      invariant backoff == TotalBackoff(if attempt <= MAX_RETRIES then attempt else MAX_RETRIES)
    {
      var reply := api(attempt);
      clock.Advance(seconds(attempt));
      calls := calls + 1;
      OpenedByFailureOnly(c, gate, clock.now);
      match reply {
        case Persistent => return;
        case Unknown =>
          breaker.RecordFailure(clock.now);
          return;
        case Empty => return;
        case Data(rows) =>
          breaker.RecordSuccess();
          frame := Some(rows);
          return;
        case Transient =>
          if attempt < MAX_RETRIES {
            BackoffSum(attempt);
            clock.Advance(Backoff(attempt));
            backoff := backoff + Backoff(attempt);
          }
          attempt := attempt + 1;
      }
    }
    OpenedByFailureOnly(c, gate, clock.now);
    breaker.RecordFailure(clock.now);
  }

  method FetchWithGuard<T>(clock: TokenBucket.Clock, limiter: TokenBucket.RateLimiter, breaker: Breaker,
                           api: nat -> Reply<T>, seconds: nat -> real, oversleep: nat -> real)
      returns (frame: Option<T>, calls: nat, waited: nat, ghost drawnAt: real, ghost backoff: real, ghost gate: Status,
               ghost passedAt: real)
    requires limiter.Valid() && 1.0 <= limiter.limits.capacity && limiter.lastRefill <= clock.now
    requires forall i :: 0.0 <= oversleep(i)
    requires forall i :: 0.0 <= seconds(i)
    requires 0.0 <= breaker.config.recoveryTimeout && 1 <= breaker.config.halfOpenMaxCalls
    requires breaker.openedAt <= clock.now
    modifies clock, limiter, breaker
    ensures limiter.Valid() && limiter.lastRefill <= clock.now && breaker.openedAt <= clock.now
    // One token is taken on the way, one cooling wait at most is spent.
    ensures old(clock.now) <= drawnAt <= clock.now
    ensures TokenBucket.Granted(limiter.limits, old(limiter.State()), 1.0, drawnAt)
    ensures limiter.State() == TokenBucket.AfterTry(limiter.limits, old(limiter.State()), 1.0, drawnAt)
    ensures waited <= OPEN_WAIT_RETRIES
    // Refused without any call exactly when the breaker was wedged.
    ensures calls == 0 <==> Wedged(breaker.config, old(breaker.State()))
    ensures calls == 0 ==> frame == None && breaker.State() == old(breaker.State())
    // Otherwise the retry chain runs to its end and the breaker hears about its last reply.
    ensures calls > 0 ==>
              && PassedGate(breaker.config, old(breaker.State()), gate, waited, passedAt)
              && ChainLength(api, calls)
              && backoff == TotalBackoff(calls - 1)
              && breaker.State() == Settled(breaker.config, gate, api(calls - 1), clock.now)
              && frame == (if api(calls - 1).Data? then Some(api(calls - 1).frame) else None)
  {
    hide TokenBucket.Granted, TokenBucket.AfterTry, TokenBucket.Level, Wedged, PassedGate, Settled, TotalBackoff;
    frame, calls, backoff := None, 0, 0.0;
    var _ := limiter.Acquire(1.0, None, clock, oversleep, 0);
    drawnAt := clock.now;
    var allowed;
    allowed, waited := PassBreaker(clock, breaker);
    gate, passedAt := breaker.State(), clock.now;
    if allowed {
      frame, calls, backoff := CallWithRetries(clock, breaker, api, seconds);
    }
  }

  // ---- what the guard means for the breaker ---------------------------------------------------

  /** An ending the breaker never hears of. */
  predicate Neutral<T>(last: Reply<T>) { last.Empty? || last.Persistent? }

  /** The first reply that is not transient, if it comes within the six calls, is neutral. */
  ghost predicate EndsNeutrally<T>(api: nat -> Reply<T>) {
    exists k :: 0 <= k < MAX_CALLS && Neutral(api(k)) && forall j | 0 <= j < k :: api(j).Transient?
  }

  /** A probe is answered exactly when the API does not go from transient failures, if any, to an
      empty frame or a permission error within its six calls. */
  lemma {:induction false} ProbeIsAnsweredExactlyWhen<T>(c: Config, gate: Status, api: nat -> Reply<T>, calls: nat,
                                                         now: real)
    requires gate.mode == HALF_OPEN && ChainLength(api, calls)
    ensures Settled(c, gate, api(calls - 1), now).mode != HALF_OPEN <==> !EndsNeutrally(api)
  {
    if EndsNeutrally(api) {
      var k :| 0 <= k < MAX_CALLS && Neutral(api(k)) && forall j | 0 <= j < k :: api(j).Transient?;
      ChainLengthIsUnique(api, calls, k + 1);
    }
    if Neutral(api(calls - 1)) { assert EndsNeutrally(api); }
  }

  /** One pull as the breaker sees it: asked at `now`, ended with `last` at `done`. */
  datatype Pull<T> = Pull(now: real, last: Reply<T>, done: real)

  function AfterPull<T>(c: Config, s: Status, p: Pull<T>): Status {
    if Allows(c, s, p.now) then Settled(c, AfterAllow(c, s, p.now), p.last, p.done) else AfterAllow(c, s, p.now)
  }

  function AfterPulls<T>(c: Config, s: Status, pulls: seq<Pull<T>>): Status {
    if pulls == [] then s else AfterPull(c, AfterPulls(c, s, pulls[..|pulls| - 1]), pulls[|pulls| - 1])
  }

  function Least(a: int, b: int): int { if a < b then a else b }

  lemma {:induction false} PrefixOf<T>(pulls: seq<Pull<T>>, n: nat)
    requires n < |pulls|
    ensures pulls[..n + 1][..n] == pulls[..n] && pulls[..n + 1][n] == pulls[n]
  {}

  /** As long as the granted pulls end neutrally, HALF_OPEN stays and each uses up one probe. */
  lemma {:induction false} NeutralPullsStay<T>(c: Config, s: Status, pulls: seq<Pull<T>>)
    requires s.mode == HALF_OPEN && s.halfOpenCalls <= c.halfOpenMaxCalls
    requires forall i | 0 <= i < |pulls| && s.halfOpenCalls + i < c.halfOpenMaxCalls :: Neutral(pulls[i].last)
    ensures AfterPulls(c, s, pulls) ==
            s.(halfOpenCalls := Least(s.halfOpenCalls + |pulls|, c.halfOpenMaxCalls))
  {
    if pulls != [] { NeutralPullsStay(c, s, pulls[..|pulls| - 1]); }
  }

  /** A breaker leaves HALF_OPEN, whatever its quota, exactly when one of the pulls that the rest of
      its quota admits is answered; pulls beyond the quota cannot help. */
  lemma {:induction false} LeavesHalfOpenExactlyWhen<T>(c: Config, s: Status, pulls: seq<Pull<T>>)
    requires s.mode == HALF_OPEN && s.halfOpenCalls <= c.halfOpenMaxCalls
    ensures (exists n :: 0 <= n <= |pulls| && AfterPulls(c, s, pulls[..n]).mode != HALF_OPEN) <==>
            (exists i :: 0 <= i < |pulls| && s.halfOpenCalls + i < c.halfOpenMaxCalls && !Neutral(pulls[i].last))
  {
    if i :| 0 <= i < |pulls| && s.halfOpenCalls + i < c.halfOpenMaxCalls && !Neutral(pulls[i].last) {
      var k := FirstAnswered(c, s, pulls, i);
      NeutralPullsStay(c, s, pulls[..k]);
      PrefixOf(pulls, k);
      assert AfterPulls(c, s, pulls[..k + 1]).mode != HALF_OPEN;
    } else {
      forall n | 0 <= n <= |pulls| ensures AfterPulls(c, s, pulls[..n]).mode == HALF_OPEN {
        NeutralPullsStay(c, s, pulls[..n]);
      }
    }
  }

  /** Which way it leaves is up to the first answered pull: data closes the breaker, anything else
      opens it again. */
  lemma {:induction false} FirstAnswerDecides<T>(c: Config, s: Status, pulls: seq<Pull<T>>, k: nat)
    requires s.mode == HALF_OPEN && k < |pulls| && s.halfOpenCalls + k < c.halfOpenMaxCalls
    requires !Neutral(pulls[k].last) && forall j | 0 <= j < k :: Neutral(pulls[j].last)
    ensures AfterPulls(c, s, pulls[..k]).mode == HALF_OPEN
    ensures AfterPulls(c, s, pulls[..k + 1]).mode == if pulls[k].last.Data? then CLOSED else OPEN
  {
    NeutralPullsStay(c, s, pulls[..k]);
    PrefixOf(pulls, k);
  }

  lemma {:induction false} FirstAnswered<T>(c: Config, s: Status, pulls: seq<Pull<T>>, i: nat) returns (k: nat)
    requires i < |pulls| && !Neutral(pulls[i].last)
    ensures k <= i && !Neutral(pulls[k].last) && forall j | 0 <= j < k :: Neutral(pulls[j].last)
  {
    k := i;
    if j :| 0 <= j < i && !Neutral(pulls[j].last) { k := FirstAnswered(c, s, pulls, j); }
  }

  /** Neutral pulls that use up the rest of the quota, of whatever size, wedge the breaker: from
      then on every request is refused, at every time, until something else records an answer. */
  lemma {:induction false} NeutralProbesWedge<T>(c: Config, s: Status, pulls: seq<Pull<T>>, later: seq<Call>)
    requires s.mode == HALF_OPEN && s.halfOpenCalls <= c.halfOpenMaxCalls
    requires forall i | 0 <= i < |pulls| :: Neutral(pulls[i].last)
    requires forall i | 0 <= i < |later| :: !IsAnswer(later[i])
    ensures Wedged(c, AfterPulls(c, s, pulls)) <==> c.halfOpenMaxCalls <= s.halfOpenCalls + |pulls|
    ensures c.halfOpenMaxCalls <= s.halfOpenCalls + |pulls| ==>
              forall now: real :: !Allows(c, AfterCalls(c, AfterPulls(c, s, pulls), later), now)
  {
    NeutralPullsStay(c, s, pulls);
    if c.halfOpenMaxCalls <= s.halfOpenCalls + |pulls| {
      WedgedUntilAnswered(c, AfterPulls(c, s, pulls), later);
    }
  }

  // ---- from CLOSED ------------------------------------------------------------------------------

  /** A pull that ended badly: the retries were used up, or an unknown error came. */
  predicate Bad<T>(last: Reply<T>) { last.Transient? || last.Unknown? }

  /** The bad pulls since the last one that brought data; the others count neither way. */
  function BadStreak<T>(pulls: seq<Pull<T>>): nat {
    if pulls == [] then 0
    else
      var before := BadStreak(pulls[..|pulls| - 1]);
      match pulls[|pulls| - 1].last
      case Data(_) => 0
      case Transient => before + 1
      case Unknown => before + 1
      case Empty => before
      case Persistent => before
  }

  lemma {:induction false} PullsCountTheStreak<T>(c: Config, s: Status, pulls: seq<Pull<T>>)
    requires s.mode == CLOSED && s.failures == 0
    requires forall n | 0 <= n <= |pulls| :: BadStreak(pulls[..n]) < Needed(c)
    ensures AfterPulls(c, s, pulls) == s.(failures := BadStreak(pulls))
  {
    if pulls != [] {
      var front := pulls[..|pulls| - 1];
      forall n | 0 <= n <= |front| ensures BadStreak(front[..n]) < Needed(c) {
        assert front[..n] == pulls[..n];
      }
      PullsCountTheStreak(c, s, front);
      assert pulls[..|pulls|] == pulls;
    }
  }

  /** A CLOSED breaker lets every pull through until the bad pulls since the last good one reach the
      threshold; the pull that reaches it is a bad one and opens the breaker when it ends. */
  lemma {:induction false} BadPullsOpen<T>(c: Config, s: Status, pulls: seq<Pull<T>>, k: nat)
    requires s.mode == CLOSED && s.failures == 0 && k < |pulls|
    requires forall n | 0 <= n <= k :: BadStreak(pulls[..n]) < Needed(c)
    ensures Allows(c, AfterPulls(c, s, pulls[..k]), pulls[k].now)
    ensures AfterPulls(c, s, pulls[..k + 1]).mode == OPEN <==> Needed(c) <= BadStreak(pulls[..k + 1])
    ensures AfterPulls(c, s, pulls[..k + 1]).mode == OPEN ==>
              Bad(pulls[k].last) && AfterPulls(c, s, pulls[..k + 1]).openedAt == pulls[k].done
  {
    forall n | 0 <= n <= k ensures pulls[..k][..n] == pulls[..n] {}
    PullsCountTheStreak(c, s, pulls[..k]);
    PrefixOf(pulls, k);
    assert BadStreak(pulls[..k]) < Needed(c);
  }

  // ---- API calls per window ----------------------------------------------------------------------

  function Sum(calls: seq<nat>): nat {
    if calls == [] then 0 else Sum(calls[..|calls| - 1]) + calls[|calls| - 1]
  }

  /** Each pull asks the bucket for one token and makes calls only if it gets it. */
  ghost predicate PullsBehindBucket(l: TokenBucket.Limits, b: TokenBucket.Bucket, asks: seq<TokenBucket.Ask>,
                                    calls: seq<nat>) {
    && |calls| == |asks|
    && forall i | 0 <= i < |asks| ::
         && asks[i].tokens == 1.0 && calls[i] <= MAX_CALLS
         && (calls[i] > 0 ==> TokenBucket.Granted(l, TokenBucket.AfterAsks(l, b, asks[..i]), 1.0, asks[i].now))
  }

  lemma {:induction false} CallsPerGrant(l: TokenBucket.Limits, b: TokenBucket.Bucket,
                                         asks: seq<TokenBucket.Ask>, calls: seq<nat>)
    requires PullsBehindBucket(l, b, asks, calls)
    ensures Sum(calls) as real <= 6.0 * TokenBucket.TotalGranted(l, b, asks)
  {
    if asks != [] {
      var n := |asks| - 1;
      forall i | 0 <= i < n ensures asks[..n][..i] == asks[..i] {}
      CallsPerGrant(l, b, asks[..n], calls[..n]);
    }
  }

  /** The API calls of any run of pulls within a window of length T number at most
      6 * (capacity + rate * T). */
  lemma {:induction false} CallsPerWindow(l: TokenBucket.Limits, b: TokenBucket.Bucket, asks: seq<TokenBucket.Ask>,
                                          calls: seq<nat>, from: real, to: real)
    requires TokenBucket.Sound(l, b) && b.lastRefill <= from && TokenBucket.InWindow(asks, from, to)
    requires PullsBehindBucket(l, b, asks, calls)
    ensures Sum(calls) as real <= 6.0 * (l.capacity + (to - from) * l.rate)
  {
    CallsPerGrant(l, b, asks, calls);
    TokenBucket.WindowBound(l, b, asks, from, to);
  }

  /** One pull of a run: the pause before it, and what it meets. */
  datatype Errand<T> = Errand(pause: real, api: nat -> Reply<T>, seconds: nat -> real, oversleep: nat -> real)

  ghost predicate Timed<T>(e: Errand<T>) {
    && 0.0 <= e.pause
    && (forall i :: 0.0 <= e.seconds(i))
    && (forall i :: 0.0 <= e.oversleep(i))
  }

  /** What a pull brings: nothing without a call, and otherwise the data of the last call of its
      retry chain, if that was data. */
  ghost predicate Brings<T>(e: Errand<T>, calls: nat, frame: Option<T>) {
    if calls == 0 then frame == None
    else ChainLength(e.api, calls) &&
         frame == if e.api(calls - 1).Data? then Some(e.api(calls - 1).frame) else None
  }

  lemma {:induction false} OneMoreAsk(l: TokenBucket.Limits, b: TokenBucket.Bucket, asks: seq<TokenBucket.Ask>,
                                      calls: seq<nat>, at: real, n: nat)
    requires PullsBehindBucket(l, b, asks, calls) && n <= MAX_CALLS
    requires TokenBucket.Granted(l, TokenBucket.AfterAsks(l, b, asks), 1.0, at)
    ensures PullsBehindBucket(l, b, asks + [TokenBucket.Ask(1.0, at)], calls + [n])
    ensures TokenBucket.AfterAsks(l, b, asks + [TokenBucket.Ask(1.0, at)]) ==
            TokenBucket.AfterTry(l, TokenBucket.AfterAsks(l, b, asks), 1.0, at)
  {
    hide TokenBucket.Granted, TokenBucket.AfterTry;
    var all := asks + [TokenBucket.Ask(1.0, at)];
    assert all[..|asks|] == asks;
    forall i | 0 <= i < |asks| ensures all[..i] == asks[..i] {}
  }

  /** Pulls one after the other, as the sync loops make them. Their API calls number at most
      6 * (capacity + rate * elapsed), and the clock and both guards are fit for the next run. */
  method FetchInTurn<T>(clock: TokenBucket.Clock, limiter: TokenBucket.RateLimiter, breaker: Breaker,
                        errands: seq<Errand<T>>)
      returns (frames: seq<Option<T>>, calls: seq<nat>)
    requires limiter.Valid() && 1.0 <= limiter.limits.capacity && limiter.lastRefill <= clock.now
    requires 0.0 <= breaker.config.recoveryTimeout && 1 <= breaker.config.halfOpenMaxCalls
    requires breaker.openedAt <= clock.now
    requires forall i | 0 <= i < |errands| :: Timed(errands[i])
    modifies clock, limiter, breaker
    ensures limiter.Valid() && limiter.lastRefill <= clock.now && breaker.openedAt <= clock.now
    ensures |frames| == |calls| == |errands| && old(clock.now) <= clock.now
    ensures forall i | 0 <= i < |errands| :: Brings(errands[i], calls[i], frames[i])
    ensures Sum(calls) as real <= 6.0 * (limiter.limits.capacity + (clock.now - old(clock.now)) * limiter.limits.rate)
  {
    hide PullsBehindBucket, TokenBucket.InWindow, TokenBucket.AfterAsks, TokenBucket.Granted, TokenBucket.AfterTry;
    frames, calls := [], [];
    ghost var l, b, start := limiter.limits, limiter.State(), clock.now;
    ghost var asks: seq<TokenBucket.Ask> := [];
    NothingAskedYet(l, b, start);
    for n := 0 to |errands|
      invariant limiter.Valid() && limiter.lastRefill <= clock.now && breaker.openedAt <= clock.now
      invariant start <= clock.now && |frames| == |calls| == n
      invariant forall i | 0 <= i < n :: Brings(errands[i], calls[i], frames[i])
      invariant PullsBehindBucket(l, b, asks, calls) && TokenBucket.InWindow(asks, start, clock.now)
      invariant limiter.State() == TokenBucket.AfterAsks(l, b, asks)
    {
      var e := errands[n];
      ghost var before := clock.now;
      clock.Advance(e.pause);
      var frame, made, _, drawnAt, _, _, _ := FetchWithGuard(clock, limiter, breaker, e.api, e.seconds, e.oversleep);
      OneMoreAsk(l, b, asks, calls, drawnAt, made);
      LaterAsk(asks, start, before, drawnAt, clock.now);
      asks := asks + [TokenBucket.Ask(1.0, drawnAt)];
      frames, calls := frames + [frame], calls + [made];
    }
    CallsPerWindow(l, b, asks, calls, start, clock.now);
  }

  lemma {:induction false} NothingAskedYet(l: TokenBucket.Limits, b: TokenBucket.Bucket, start: real)
    ensures PullsBehindBucket(l, b, [], []) && TokenBucket.InWindow([], start, start)
    ensures TokenBucket.AfterAsks(l, b, []) == b
  {}

  lemma {:induction false} LaterAsk(asks: seq<TokenBucket.Ask>, start: real, before: real, at: real, to: real)
    requires TokenBucket.InWindow(asks, start, before) && before <= at <= to
    ensures TokenBucket.InWindow(asks + [TokenBucket.Ask(1.0, at)], start, to)
  {}
}
