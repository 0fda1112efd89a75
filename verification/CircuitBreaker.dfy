/** data/resilience.py: the three-state circuit breaker. */
module CircuitBreaker {
  import Arithmetic

  datatype Config = Config(failureThreshold: int, recoveryTimeout: real, halfOpenMaxCalls: int)
  datatype Mode = CLOSED | OPEN | HALF_OPEN
  datatype Status = Status(mode: Mode, failures: int, halfOpenCalls: int, openedAt: real)

  const INITIAL := Status(CLOSED, 0, 0, 0.0)

  /** An OPEN breaker whose cooling time is over becomes HALF_OPEN when next looked at. */
  function Thaw(c: Config, s: Status, now: real): Status {
    if s.mode == OPEN && now - s.openedAt >= c.recoveryTimeout
    then s.(mode := HALF_OPEN, failures := 0, halfOpenCalls := 0)
    else s
  }

  predicate Allows(c: Config, s: Status, now: real) {
    var t := Thaw(c, s, now);
    t.mode == CLOSED || (t.mode == HALF_OPEN && t.halfOpenCalls < c.halfOpenMaxCalls)
  }

  function AfterAllow(c: Config, s: Status, now: real): Status {
    var t := Thaw(c, s, now);
    if t.mode == HALF_OPEN && t.halfOpenCalls < c.halfOpenMaxCalls then t.(halfOpenCalls := t.halfOpenCalls + 1) else t
  }

  function AfterSuccess(s: Status): Status {
    match s.mode
    case HALF_OPEN => s.(mode := CLOSED, failures := 0, halfOpenCalls := 0)
    case CLOSED => s.(failures := 0)
    case OPEN => s
  }

  function Tripped(s: Status, now: real): Status { s.(mode := OPEN, openedAt := now, halfOpenCalls := 0) }

  function AfterFailure(c: Config, s: Status, now: real): Status {
    var counted := s.(failures := s.failures + 1);
    match s.mode
    case HALF_OPEN => Tripped(counted, now)
    case CLOSED => if counted.failures >= c.failureThreshold then Tripped(counted, now) else counted
    case OPEN => counted
  }

  class Breaker {
    const config: Config
    var mode: Mode
    var failures: int
    var halfOpenCalls: int
    var openedAt: real

    function State(): Status
      reads this
    {
      Status(mode, failures, halfOpenCalls, openedAt)
    }

    constructor (config: Config)
      ensures this.config == config && State() == INITIAL
    {
      this.config := config;
      mode, failures, halfOpenCalls, openedAt := CLOSED, 0, 0, 0.0;
    }

    method MaybeHalfOpen(now: real)
      modifies this
      ensures State() == Thaw(config, old(State()), now)
    {
      if mode == OPEN && now - openedAt >= config.recoveryTimeout {
        mode, halfOpenCalls, failures := HALF_OPEN, 0, 0;
      }
    }

    method AllowRequest(now: real) returns (allowed: bool)
      modifies this
      ensures allowed == Allows(config, old(State()), now)
      ensures State() == AfterAllow(config, old(State()), now)
    {
      MaybeHalfOpen(now);
      if mode == OPEN {
        return false;
      }
      if mode == HALF_OPEN {
        if halfOpenCalls >= config.halfOpenMaxCalls {
          return false;
        }
        halfOpenCalls := halfOpenCalls + 1;
      }
      return true;
    }

    method RecordSuccess()
      modifies this
      ensures State() == AfterSuccess(old(State()))
    {
      if mode == HALF_OPEN {
        mode, failures, halfOpenCalls := CLOSED, 0, 0;
      } else if mode == CLOSED {
        failures := 0;
      }
    }

    method Trip(now: real)
      modifies this
      ensures State() == Tripped(old(State()), now)
    {
      mode, openedAt, halfOpenCalls := OPEN, now, 0;
    }

    method RecordFailure(now: real)
      modifies this
      ensures State() == AfterFailure(config, old(State()), now)
    {
      failures := failures + 1;
      if mode == HALF_OPEN {
        Trip(now);
      } else if mode == CLOSED {
        if failures >= config.failureThreshold {
          Trip(now);
        }
      }
    }
  }

  // ---- all interleavings -------------------------------------------------------------------

  /** What any of the threads may do under the lock, and when. */
  datatype Call = Allow(now: real) | Success(now: real) | Failure(now: real) | Look(now: real)

  function AfterCall(c: Config, s: Status, call: Call): Status {
    match call
    case Allow(now) => AfterAllow(c, s, now)
    case Success(_) => AfterSuccess(s)
    case Failure(now) => AfterFailure(c, s, now)
    case Look(now) => Thaw(c, s, now)
  }

  /** The call is granted as a probe: allowed, and the breaker is HALF_OPEN. */
  predicate IsProbe(c: Config, s: Status, call: Call) {
    call.Allow? && Allows(c, s, call.now) && Thaw(c, s, call.now).mode == HALF_OPEN
  }

  /** Calls in time order, none before `from` and none after `to`. */
  ghost predicate InOrder(calls: seq<Call>, from: real, to: real) {
    && from <= to
    && (forall i | 0 <= i < |calls| :: from <= calls[i].now <= to)
    && (forall i, j | 0 <= i < j < |calls| :: calls[i].now <= calls[j].now)
  }

  function AfterCalls(c: Config, s: Status, calls: seq<Call>): Status
    decreases |calls|
  {
    if calls == [] then s else AfterCalls(c, AfterCall(c, s, calls[0]), calls[1..])
  }

  function Probes(c: Config, s: Status, calls: seq<Call>): nat
    decreases |calls|
  {
    if calls == [] then 0
    else (if IsProbe(c, s, calls[0]) then 1 else 0) + Probes(c, AfterCall(c, s, calls[0]), calls[1..])
  }

  ghost predicate Sound(c: Config, s: Status) {
    && 0 <= s.failures && 0 <= s.halfOpenCalls
    && (s.mode == CLOSED ==> s.failures == 0 || s.failures < c.failureThreshold)
    && (s.mode == HALF_OPEN && 0 <= c.halfOpenMaxCalls ==> s.halfOpenCalls <= c.halfOpenMaxCalls)
    && (s.mode != HALF_OPEN ==> s.halfOpenCalls == 0)
  }

  lemma {:induction false} RunsStaySound(c: Config, s: Status, calls: seq<Call>)
    requires Sound(c, s)
    ensures Sound(c, AfterCalls(c, s, calls))
    decreases |calls|
  {
    if calls != [] {
      RunsStaySound(c, AfterCall(c, s, calls[0]), calls[1..]);
    }
  }

  lemma {:induction false} InitialIsSound(c: Config)
    ensures Sound(c, INITIAL)
  {}

  /** Whatever the threads call, in any order and at any times, a breaker that started fresh has
      seen fewer consecutive failures than its threshold while CLOSED, has granted no more probes
      than its quota while HALF_OPEN, and holds no probe count otherwise. */
  lemma {:induction false} ReachableIsSound(c: Config, calls: seq<Call>)
    ensures var s := AfterCalls(c, INITIAL, calls);
            && (s.mode == CLOSED ==> s.failures == 0 || s.failures < c.failureThreshold)
            && (s.mode == HALF_OPEN && 0 <= c.halfOpenMaxCalls ==> 0 <= s.halfOpenCalls <= c.halfOpenMaxCalls)
            && (s.mode != HALF_OPEN ==> s.halfOpenCalls == 0)
  {
    InitialIsSound(c);
    RunsStaySound(c, INITIAL, calls);
  }

  /** OPEN grants nothing until the cooling time is over. */
  lemma {:induction false} OpenGrantsNothing(c: Config, s: Status, now: real)
    requires s.mode == OPEN
    ensures Allows(c, s, now) <==> now >= s.openedAt + c.recoveryTimeout && 0 < c.halfOpenMaxCalls
  {}

  // ---- how many probes --------------------------------------------------------------------------

  /** The whole recovery timeouts that fit in `span`, plus one for the episode at its start. */
  function Episodes(c: Config, span: real): int
    requires 0.0 < c.recoveryTimeout
  {
    if span < 0.0 then 0 else (span / c.recoveryTimeout).Floor + 1
  }

  /** The probes still possible until `to`: what this episode has left, and a full quota for
      each later episode. */
  function Allowance(c: Config, s: Status, now: real, to: real): int
    requires 0.0 < c.recoveryTimeout
  {
    match s.mode
    case CLOSED => c.halfOpenMaxCalls * Episodes(c, to - now - c.recoveryTimeout)
    case HALF_OPEN =>
      c.halfOpenMaxCalls - s.halfOpenCalls + c.halfOpenMaxCalls * Episodes(c, to - now - c.recoveryTimeout)
    case OPEN =>
      var start := s.openedAt + c.recoveryTimeout;
      c.halfOpenMaxCalls * Episodes(c, to - if start < now then now else start)
  }

  lemma {:induction false} EpisodesMonotone(c: Config, a: real, b: real)
    requires 0.0 < c.recoveryTimeout && a <= b
    ensures 0 <= Episodes(c, a) <= Episodes(c, b)
  {
    if 0.0 <= a { Quotients(a, b, c.recoveryTimeout); }
  }

  lemma {:induction false} Quotients(a: real, b: real, d: real)
    requires 0.0 < d && 0.0 <= a <= b
    ensures 0.0 <= a / d <= b / d
  {
    Arithmetic.QuotientMonotone(0.0, a, d);
    Arithmetic.QuotientMonotone(a, b, d);
  }

  /** One more recovery timeout is one more episode. */
  lemma {:induction false} EpisodesStep(c: Config, span: real)
    requires 0.0 < c.recoveryTimeout && 0.0 <= span
    ensures Episodes(c, span) == 1 + Episodes(c, span - c.recoveryTimeout)
  {
    var d := c.recoveryTimeout;
    var x := span / d;
    assert x * d == span;
    if span < d {
      Arithmetic.NonNegativeFactor(x, d);
      if x >= 1.0 { Arithmetic.ProductNonNegative(x - 1.0, d); }
      assert x < 1.0;
    } else {
      assert (x - 1.0) * d == span - d;
      Arithmetic.QuotientIs(span - d, x - 1.0, d);
    }
  }

  lemma {:induction false} QuotaMonotone(quota: int, a: int, b: int)
    requires 0 <= quota && a <= b
    ensures quota * a <= quota * b
  {}

  /** Each call spends its probe from the allowance, and nothing else ever raises it. */
  lemma {:induction false} CallSpendsAllowance(c: Config, s: Status, call: Call, now: real, to: real)
    requires 0.0 < c.recoveryTimeout && 0 <= c.halfOpenMaxCalls && Sound(c, s)
    requires now <= call.now <= to && (s.mode == OPEN ==> s.openedAt <= call.now)
    ensures (if IsProbe(c, s, call) then 1 else 0) + Allowance(c, AfterCall(c, s, call), call.now, to)
            <= Allowance(c, s, now, to)
  {
    var d, quota := c.recoveryTimeout, c.halfOpenMaxCalls;
    var later := Episodes(c, to - call.now - d);
    EpisodesMonotone(c, to - call.now - d, to - now - d);
    QuotaMonotone(quota, later, Episodes(c, to - now - d));
    if s.mode == OPEN {
      var start := s.openedAt + d;
      var wasFrom := if start < now then now else start;
      var isFrom := if start < call.now then call.now else start;
      EpisodesMonotone(c, to - isFrom, to - wasFrom);
      QuotaMonotone(quota, Episodes(c, to - isFrom), Episodes(c, to - wasFrom));
      if call.now >= start {
        EpisodesStep(c, to - call.now);
        DistributeQuota(quota, later);
      }
    }
  }

  /** The probes granted from any state are within its allowance: what the running episode has
      left, and one quota for each episode that can still start. */
  lemma {:induction false} ProbesWithinAllowance(c: Config, s: Status, calls: seq<Call>, from: real, to: real)
    requires 0.0 < c.recoveryTimeout && 0 <= c.halfOpenMaxCalls && Sound(c, s)
    requires InOrder(calls, from, to) && (s.mode == OPEN ==> s.openedAt <= from)
    ensures Probes(c, s, calls) <= Allowance(c, s, from, to)
    decreases |calls|
  {
    if calls == [] {
      AllowanceNonNegative(c, s, from, to);
    } else {
      var call := calls[0];
      CallSpendsAllowance(c, s, call, from, to);
      ProbesWithinAllowance(c, AfterCall(c, s, call), calls[1..], call.now, to);
    }
  }

  lemma {:induction false} AllowanceNonNegative(c: Config, s: Status, now: real, to: real)
    requires 0.0 < c.recoveryTimeout && 0 <= c.halfOpenMaxCalls && Sound(c, s)
    ensures 0 <= Allowance(c, s, now, to)
  {
    var a := to - now - c.recoveryTimeout;
    EpisodesMonotone(c, a, a);
    QuotaMonotone(c.halfOpenMaxCalls, 0, Episodes(c, a));
    var start := s.openedAt + c.recoveryTimeout;
    var b := to - if start < now then now else start;
    EpisodesMonotone(c, b, b);
    QuotaMonotone(c.halfOpenMaxCalls, 0, Episodes(c, b));
  }

  /** For any interleaving within a span of length T, from any state: at most
      halfOpenMaxCalls * (floor(T / recoveryTimeout) + 1) probes reach the protected service. */
  lemma {:induction false} ProbeBound(c: Config, s: Status, calls: seq<Call>, from: real, to: real)
    requires 0.0 < c.recoveryTimeout && 0 <= c.halfOpenMaxCalls && Sound(c, s)
    requires InOrder(calls, from, to) && (s.mode == OPEN ==> s.openedAt <= from)
    ensures Probes(c, s, calls) <= c.halfOpenMaxCalls * ((to - from) / c.recoveryTimeout).Floor + c.halfOpenMaxCalls
  {
    hide Allowance, Probes, Sound, Episodes;
    ProbesWithinAllowance(c, s, calls, from, to);
    AllowanceAtMost(c, s, from, to);
    EpisodesOf(c, to - from);
  }

  lemma {:induction false} EpisodesOf(c: Config, span: real)
    requires 0.0 < c.recoveryTimeout && 0.0 <= span
    ensures Episodes(c, span) == (span / c.recoveryTimeout).Floor + 1
    ensures c.halfOpenMaxCalls * Episodes(c, span) ==
            c.halfOpenMaxCalls * (span / c.recoveryTimeout).Floor + c.halfOpenMaxCalls
  {}

  lemma {:induction false} AllowanceAtMost(c: Config, s: Status, now: real, to: real)
    requires 0.0 < c.recoveryTimeout && 0 <= c.halfOpenMaxCalls && Sound(c, s) && now <= to
    ensures Allowance(c, s, now, to) <= c.halfOpenMaxCalls * Episodes(c, to - now)
  {
    var d, quota, all := c.recoveryTimeout, c.halfOpenMaxCalls, Episodes(c, to - now);
    EpisodesStep(c, to - now);
    DistributeQuota(quota, Episodes(c, to - now - d));
    EpisodesMonotone(c, to - now - d, to - now);
    QuotaMonotone(quota, Episodes(c, to - now - d), all);
    var start := s.openedAt + d;
    var b := to - if start < now then now else start;
    EpisodesMonotone(c, b, to - now);
    QuotaMonotone(quota, Episodes(c, b), all);
  }

  lemma {:induction false} DistributeQuota(quota: int, n: int)
    ensures quota * (1 + n) == quota + quota * n
  {}

  // ---- episodes ---------------------------------------------------------------------------------

  lemma {:induction false} RunsCompose(c: Config, s: Status, a: seq<Call>, b: seq<Call>)
    ensures AfterCalls(c, s, a + b) == AfterCalls(c, AfterCalls(c, s, a), b)
    decreases |a|
  {
    if a == [] {
      assert a + b == b;
    } else {
      assert (a + b)[1..] == a[1..] + b;
      RunsCompose(c, AfterCall(c, s, a[0]), a[1..], b);
    }
  }

  lemma {:induction false} NextCall(c: Config, s: Status, calls: seq<Call>, i: nat)
    requires i < |calls|
    ensures AfterCalls(c, s, calls[..i + 1]) == AfterCall(c, AfterCalls(c, s, calls[..i]), calls[i])
  {
    var one := [calls[i]];
    assert calls[..i + 1] == calls[..i] + one;
    RunsCompose(c, s, calls[..i], one);
    assert one[1..] == [];
    assert AfterCalls(c, AfterCalls(c, s, calls[..i]), one) ==
           AfterCalls(c, AfterCall(c, AfterCalls(c, s, calls[..i]), one[0]), one[1..]);
  }

  /** Call i finds the breaker OPEN and leaves it HALF_OPEN. */
  predicate StartsEpisode(c: Config, s: Status, calls: seq<Call>, i: nat)
    requires i < |calls|
  {
    AfterCalls(c, s, calls[..i]).mode == OPEN && AfterCalls(c, s, calls[..i + 1]).mode == HALF_OPEN
  }

  /** A breaker that is not OPEN at `at`, or opened no earlier, stays so: it can only open later. */
  lemma {:induction false} OpensNoEarlier(c: Config, s: Status, calls: seq<Call>, at: real)
    requires forall i | 0 <= i < |calls| :: at <= calls[i].now
    requires s.mode == OPEN ==> at <= s.openedAt
    ensures AfterCalls(c, s, calls).mode == OPEN ==> at <= AfterCalls(c, s, calls).openedAt
    decreases |calls|
  {
    if calls != [] { OpensNoEarlier(c, AfterCall(c, s, calls[0]), calls[1..], at); }
  }

  /** Whatever happens in between, two episodes of HALF_OPEN start at least the recovery timeout
      apart. */
  lemma {:induction false} EpisodesAreApart(c: Config, s: Status, calls: seq<Call>, from: real, to: real,
                                            i: nat, j: nat)
    requires InOrder(calls, from, to) && i < j < |calls|
    requires StartsEpisode(c, s, calls, i) && StartsEpisode(c, s, calls, j)
    ensures calls[i].now + c.recoveryTimeout <= calls[j].now
  {
    var between := calls[i + 1..j];
    assert calls[..j] == calls[..i + 1] + between;
    RunsCompose(c, s, calls[..i + 1], between);
    OpensNoEarlier(c, AfterCalls(c, s, calls[..i + 1]), between, calls[i].now);
    NextCall(c, s, calls, j);
  }

  predicate IsAnswer(call: Call) { call.Success? || call.Failure? }

  // ---- opening --------------------------------------------------------------------------------

  /** The failures since the last success. */
  function Streak(calls: seq<Call>): nat {
    if calls == [] then 0
    else
      var before := Streak(calls[..|calls| - 1]);
      match calls[|calls| - 1]
      case Failure(_) => before + 1
      case Success(_) => 0
      case _ => before
  }

  /** The failures in a row that open the breaker; it takes one at least. */
  function Needed(c: Config): nat { if c.failureThreshold <= 1 then 1 else c.failureThreshold }

  /** The failures in a row stay below the threshold throughout. */
  ghost predicate StaysBelow(c: Config, calls: seq<Call>) {
    forall n | 0 <= n <= |calls| :: Streak(calls[..n]) < Needed(c)
  }

  lemma {:induction false} StreakNext(calls: seq<Call>, i: nat)
    requires i < |calls|
    ensures Streak(calls[..i + 1]) == match calls[i]
                                      case Failure(_) => Streak(calls[..i]) + 1
                                      case Success(_) => 0
                                      case _ => Streak(calls[..i])
  {
    assert calls[..i + 1][..i] == calls[..i];
  }

  /** Below the threshold the breaker is CLOSED and counts the failures since the last success. */
  lemma {:induction false} CountsTheStreak(c: Config, s: Status, calls: seq<Call>, n: nat)
    requires s.mode == CLOSED && s.failures == 0 && n <= |calls|
    requires forall k | 0 <= k <= n :: Streak(calls[..k]) < Needed(c)
    ensures AfterCalls(c, s, calls[..n]) == s.(failures := Streak(calls[..n]))
  {
    if n == 0 {
      assert calls[..0] == [];
    } else {
      CountsTheStreak(c, s, calls, n - 1);
      NextCall(c, s, calls, n - 1);
      StreakNext(calls, n - 1);
      hide AfterCalls, Streak;
      assert Streak(calls[..n]) < Needed(c);
    }
  }

  /** The call with which the failures in a row first reach the threshold is a failure, and opens the
      breaker at its own time. */
  lemma {:induction false} OpensAtTheThreshold(c: Config, s: Status, calls: seq<Call>, k: nat)
    requires s.mode == CLOSED && s.failures == 0 && k < |calls|
    requires forall n | 0 <= n <= k :: Streak(calls[..n]) < Needed(c)
    requires Needed(c) <= Streak(calls[..k + 1])
    ensures calls[k].Failure? && Streak(calls[..k + 1]) == Needed(c)
    ensures AfterCalls(c, s, calls[..k + 1]).mode == OPEN && AfterCalls(c, s, calls[..k + 1]).openedAt == calls[k].now
  {
    CountsTheStreak(c, s, calls, k);
    NextCall(c, s, calls, k);
    StreakNext(calls, k);
    hide AfterCalls, Streak;
    assert Streak(calls[..k]) < Needed(c);
  }

  /** The first prefix whose streak reaches the threshold. */
  lemma {:induction false} FirstReached(c: Config, calls: seq<Call>, n: nat) returns (k: nat)
    requires n <= |calls| && Needed(c) <= Streak(calls[..n])
    ensures k < n && Needed(c) <= Streak(calls[..k + 1])
    ensures forall m | 0 <= m <= k :: Streak(calls[..m]) < Needed(c)
  {
    assert calls[..0] == [];
    k := n - 1;
    if m :| 0 <= m <= k && Needed(c) <= Streak(calls[..m]) { k := FirstReached(c, calls, m); }
  }

  /** Whatever requests, looks, successes and failures come in whatever order, a breaker that is
      CLOSED without failures stays CLOSED exactly as long as the failures since the last success
      number fewer than the threshold; a success starts the count again. */
  lemma {:induction false} StaysClosedExactlyWhen(c: Config, s: Status, calls: seq<Call>)
    requires s.mode == CLOSED && s.failures == 0
    ensures (forall n | 0 <= n <= |calls| :: AfterCalls(c, s, calls[..n]).mode == CLOSED) <==> StaysBelow(c, calls)
  {
    if StaysBelow(c, calls) {
      forall n | 0 <= n <= |calls| ensures AfterCalls(c, s, calls[..n]).mode == CLOSED {
        CountsTheStreak(c, s, calls, n);
      }
    } else {
      var n :| 0 <= n <= |calls| && Needed(c) <= Streak(calls[..n]);
      var k := FirstReached(c, calls, n);
      OpensAtTheThreshold(c, s, calls, k);
      assert AfterCalls(c, s, calls[..k + 1]).mode != CLOSED;
    }
  }

  lemma {:induction false} OnlyFailures(calls: seq<Call>)
    requires forall i | 0 <= i < |calls| :: calls[i].Failure?
    ensures Streak(calls) == |calls|
  {
    if calls != [] { OnlyFailures(calls[..|calls| - 1]); }
  }

  /** Failures that arrive while the breaker is OPEN are only counted. */
  lemma {:induction false} LateAnswersChangeNothing(c: Config, s: Status, calls: seq<Call>)
    requires s.mode == OPEN && forall i | 0 <= i < |calls| :: IsAnswer(calls[i])
    ensures AfterCalls(c, s, calls).mode == OPEN && AfterCalls(c, s, calls).openedAt == s.openedAt
    decreases |calls|
  {
    if calls != [] { LateAnswersChangeNothing(c, AfterCall(c, s, calls[0]), calls[1..]); }
  }

  /** Failures alone: the breaker is OPEN exactly from the threshold-th on, since the time of that one;
      before, it is CLOSED. */
  lemma {:induction false} FailuresOpenExactlyWhen(c: Config, s: Status, calls: seq<Call>)
    requires s.mode == CLOSED && s.failures == 0 && calls != []
    requires forall i | 0 <= i < |calls| :: calls[i].Failure?
    ensures var t, needed := AfterCalls(c, s, calls), if c.failureThreshold <= 1 then 1 else c.failureThreshold;
            && (t.mode == OPEN <==> needed <= |calls|)
            && (t.mode == OPEN ==> t.openedAt == calls[needed - 1].now)
            && (|calls| < needed ==> t == s.(failures := |calls|))
  {
    var k := Needed(c);
    forall n | 0 <= n <= |calls| ensures Streak(calls[..n]) == n { OnlyFailures(calls[..n]); }
    assert calls[..|calls|] == calls;
    if |calls| < k {
      CountsTheStreak(c, s, calls, |calls|);
    } else {
      OpensAtTheThreshold(c, s, calls, k - 1);
      LateAnswersChangeNothing(c, AfterCalls(c, s, calls[..k]), calls[k..]);
      assert calls == calls[..k] + calls[k..];
      RunsCompose(c, s, calls[..k], calls[k..]);
    }
  }

  /** An OPEN breaker refuses everything until its cooling time is over, whatever arrives before. */
  lemma {:induction false} RefusesWhileCooling(c: Config, s: Status, calls: seq<Call>)
    requires s.mode == OPEN && forall i | 0 <= i < |calls| :: calls[i].now < s.openedAt + c.recoveryTimeout
    ensures AfterCalls(c, s, calls).mode == OPEN && AfterCalls(c, s, calls).openedAt == s.openedAt
    ensures forall now | now < s.openedAt + c.recoveryTimeout :: !Allows(c, AfterCalls(c, s, calls), now)
    decreases |calls|
  {
    if calls != [] { RefusesWhileCooling(c, AfterCall(c, s, calls[0]), calls[1..]); }
  }

  /** From the start to the first refusals: a fresh breaker grants every request until the failures
      since the last success reach the threshold; from that failure on it refuses every request
      until the recovery timeout has passed, whatever else is called meanwhile. */
  lemma {:induction false} FreshBreakerOpens(c: Config, calls: seq<Call>, k: nat, now: real)
    requires k < |calls| && Needed(c) <= Streak(calls[..k + 1])
    requires forall n | 0 <= n <= k :: Streak(calls[..n]) < Needed(c)
    requires forall i | k < i < |calls| :: calls[i].now < calls[k].now + c.recoveryTimeout
    ensures forall n, at: real | 0 <= n <= k :: Allows(c, AfterCalls(c, INITIAL, calls[..n]), at)
    ensures now < calls[k].now + c.recoveryTimeout ==> !Allows(c, AfterCalls(c, INITIAL, calls), now)
  {
    forall n, at: real | 0 <= n <= k ensures Allows(c, AfterCalls(c, INITIAL, calls[..n]), at) {
      CountsTheStreak(c, INITIAL, calls, n);
    }
    OpensAtTheThreshold(c, INITIAL, calls, k);
    var tripped, rest := AfterCalls(c, INITIAL, calls[..k + 1]), calls[k + 1..];
    RefusesWhileCooling(c, tripped, rest);
    assert calls == calls[..k + 1] + rest;
    RunsCompose(c, INITIAL, calls[..k + 1], rest);
  }

  // ---- leaving HALF_OPEN ----------------------------------------------------------------------

  /** Any answer to a probe leaves HALF_OPEN: a success closes, a failure opens again. */
  lemma {:induction false} AnswersLeaveHalfOpen(c: Config, s: Status, now: real)
    requires s.mode == HALF_OPEN
    ensures AfterSuccess(s) == Status(CLOSED, 0, 0, s.openedAt)
    ensures AfterFailure(c, s, now).mode == OPEN && AfterFailure(c, s, now).openedAt == now
  {}

  /** The breaker is wedged: the quota is used up and no answer has come. */
  ghost predicate Wedged(c: Config, s: Status) { s.mode == HALF_OPEN && s.halfOpenCalls >= c.halfOpenMaxCalls }

  /** A wedged breaker refuses every request, at any time, until some answer is recorded;
      HALF_OPEN has no timeout of its own. */
  lemma {:induction false} WedgedUntilAnswered(c: Config, s: Status, calls: seq<Call>)
    requires Wedged(c, s) && forall i | 0 <= i < |calls| :: calls[i].Allow? || calls[i].Look?
    ensures AfterCalls(c, s, calls) == s && Probes(c, s, calls) == 0
    ensures forall now: real :: !Allows(c, AfterCalls(c, s, calls), now)
  {
    if calls != [] {
      WedgedUntilAnswered(c, s, calls[1..]);
    }
  }

  lemma {:induction false} UnansweredStays(c: Config, s: Status, calls: seq<Call>)
    requires s.mode == HALF_OPEN && forall i | 0 <= i < |calls| :: !IsAnswer(calls[i])
    ensures AfterCalls(c, s, calls).mode == HALF_OPEN
    decreases |calls|
  {
    if calls != [] { UnansweredStays(c, AfterCall(c, s, calls[0]), calls[1..]); }
  }

  /** In any run HALF_OPEN is left exactly when some answer comes: one answered probe is enough,
      and nothing else, however long the run and whatever the times, will do. */
  lemma {:induction false} HalfOpenIsLeftOnlyByAnswers(c: Config, s: Status, calls: seq<Call>)
    requires s.mode == HALF_OPEN
    ensures (exists n :: 0 <= n <= |calls| && AfterCalls(c, s, calls[..n]).mode != HALF_OPEN)
       <==> (exists i :: 0 <= i < |calls| && IsAnswer(calls[i]))
  {
    if exists i :: 0 <= i < |calls| && IsAnswer(calls[i]) {
      var i :| 0 <= i < |calls| && IsAnswer(calls[i]);
      var t := AfterCalls(c, s, calls[..i]);
      NextCall(c, s, calls, i);
      if t.mode == HALF_OPEN { AnswersLeaveHalfOpen(c, t, calls[i].now); }
      assert t.mode != HALF_OPEN || AfterCalls(c, s, calls[..i + 1]).mode != HALF_OPEN;
    } else {
      forall n | 0 <= n <= |calls| ensures AfterCalls(c, s, calls[..n]).mode == HALF_OPEN {
        UnansweredStays(c, s, calls[..n]);
      }
    }
  }

  /** Until an answer comes, the counter counts exactly the probes that were granted, and they stay
      within what is left of the quota. */
  lemma {:induction false} ProbesAreCounted(c: Config, s: Status, calls: seq<Call>)
    requires s.mode == HALF_OPEN && forall i | 0 <= i < |calls| :: !IsAnswer(calls[i])
    ensures Probes(c, s, calls) == AfterCalls(c, s, calls).halfOpenCalls - s.halfOpenCalls
    ensures s.halfOpenCalls <= c.halfOpenMaxCalls ==> Probes(c, s, calls) <= c.halfOpenMaxCalls - s.halfOpenCalls
    decreases |calls|
  {
    if calls != [] { ProbesAreCounted(c, AfterCall(c, s, calls[0]), calls[1..]); }
  }

  /** One episode of HALF_OPEN, from the call that starts it for as long as it lasts, grants exactly
      the probes its counter shows, and no more than the quota. */
  lemma {:induction false} EpisodeStaysWithinQuota(c: Config, s: Status, calls: seq<Call>, i: nat, j: nat)
    requires i < j <= |calls| && 0 <= c.halfOpenMaxCalls && StartsEpisode(c, s, calls, i)
    requires forall n | i < n <= j :: AfterCalls(c, s, calls[..n]).mode == HALF_OPEN
    ensures Probes(c, AfterCalls(c, s, calls[..i]), calls[i..j]) == AfterCalls(c, s, calls[..j]).halfOpenCalls
    ensures Probes(c, AfterCalls(c, s, calls[..i]), calls[i..j]) <= c.halfOpenMaxCalls
  {
    var start, rest := AfterCalls(c, s, calls[..i]), calls[i + 1..j];
    NextCall(c, s, calls, i);
    forall n | i < n < j ensures !IsAnswer(calls[n]) {
      NextCall(c, s, calls, n);
      AnswersLeaveHalfOpen(c, AfterCalls(c, s, calls[..n]), calls[n].now);
    }
    var first := AfterCall(c, start, calls[i]);
    ProbesAreCounted(c, first, rest);
    assert calls[i..j][0] == calls[i] && calls[i..j][1..] == rest;
    assert calls[..j] == calls[..i + 1] + rest;
    RunsCompose(c, s, calls[..i + 1], rest);
  }

  function Asked(calls: seq<Call>): nat {
    if calls == [] then 0 else Asked(calls[1..]) + if calls[0].Allow? then 1 else 0
  }

  /** Without an answer HALF_OPEN wedges exactly when the requests use the quota up. */
  lemma {:induction false} UnansweredProbesWedge(c: Config, s: Status, calls: seq<Call>)
    requires s.mode == HALF_OPEN && forall i | 0 <= i < |calls| :: !IsAnswer(calls[i])
    ensures Wedged(c, AfterCalls(c, s, calls)) <==> c.halfOpenMaxCalls <= s.halfOpenCalls + Asked(calls)
    decreases |calls|
  {
    if calls != [] { UnansweredProbesWedge(c, AfterCall(c, s, calls[0]), calls[1..]); }
  }
}
