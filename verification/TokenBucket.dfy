/** data/resilience.py: the token-bucket rate limiter. */
module TokenBucket {
  import Arithmetic
  import opened Wrappers

  datatype Limits = Limits(capacity: real, rate: real)
  datatype Bucket = Bucket(tokens: real, lastRefill: real)

  ghost predicate Sound(l: Limits, b: Bucket) {
    l.capacity > 0.0 && l.rate > 0.0 && 0.0 <= b.tokens <= l.capacity
  }

  function Min(a: real, b: real): real { if a < b then a else b }

  /** What the bucket holds at time `now` if nobody takes anything. */
  function Level(l: Limits, b: Bucket, now: real): real {
    if now > b.lastRefill then Min(l.capacity, b.tokens + (now - b.lastRefill) * l.rate) else b.tokens
  }

  function Refill(l: Limits, b: Bucket, now: real): Bucket {
    if now > b.lastRefill then Bucket(Level(l, b, now), now) else b
  }

  /** One `try_acquire`. */
  predicate Granted(l: Limits, b: Bucket, tokens: real, now: real) { tokens <= Level(l, b, now) }

  function AfterTry(l: Limits, b: Bucket, tokens: real, now: real): Bucket {
    var full := Refill(l, b, now);
    if Granted(l, b, tokens, now) then full.(tokens := full.tokens - tokens) else full
  }

  lemma {:induction false} LevelBounds(l: Limits, b: Bucket, now: real)
    requires Sound(l, b)
    ensures b.tokens <= Level(l, b, now) <= l.capacity
    ensures b.lastRefill <= now ==> Level(l, b, now) <= b.tokens + (now - b.lastRefill) * l.rate
  {
    if now > b.lastRefill { Arithmetic.ProductNonNegative(now - b.lastRefill, l.rate); }
  }

  /** Lazy refills compose: looking at the bucket in between changes nothing about what it
      will hold later. */
  lemma {:induction false} RefillsCompose(l: Limits, b: Bucket, early: real, late: real)
    requires Sound(l, b) && early <= late
    ensures Refill(l, Refill(l, b, early), late) == Refill(l, b, late)
    ensures Level(l, Refill(l, b, early), late) == Level(l, b, late)
  {
    if early > b.lastRefill && late > early {
      Arithmetic.Distribute(early - b.lastRefill, late - early, l.rate);
      Arithmetic.ProductNonNegative(late - early, l.rate);
    }
  }

  /** A level after `d` more seconds. */
  function Grown(l: Limits, level: real, d: real): real { Min(l.capacity, level + d * l.rate) }

  /** Time passing: sleeping `d` adds `d * rate` while the bucket is not full. */
  lemma {:induction false} LevelGrows(l: Limits, b: Bucket, now: real, d: real)
    requires Sound(l, b) && b.lastRefill <= now && 0.0 <= d
    ensures Level(l, b, now + d) == Grown(l, Level(l, b, now), d)
  {
    Arithmetic.Distribute(now - b.lastRefill, d, l.rate);
    Arithmetic.ProductNonNegative(d, l.rate);
    Arithmetic.ProductNonNegative(now - b.lastRefill, l.rate);
  }

  // ---- the blocking acquire ------------------------------------------------------------------

  /** The monotonic clock; a sleep may last longer than asked for. */
  class Clock {
    var now: real

    constructor (now: real)
      ensures this.now == now
    {
      this.now := now;
    }

    method Advance(d: real)
      requires 0.0 <= d
      modifies this
      ensures now == old(now) + d
    {
      now := now + d;
    }
  }

  const SPIN: real := 0.01

  /** How many more spins of size `step` cover a shortfall of `x`. */
  ghost function Spins(x: real, step: real): nat
    requires 0.0 < step
  {
    if x <= 0.0 then 0
    else
      assert x / step * step == x;
      assert 0.0 < x / step;
      (x / step).Floor + 1
  }

  lemma {:induction false} FewerSpins(x: real, y: real, step: real)
    requires 0.0 < step && 0.0 < x && (y <= x - step || y <= 0.0)
    ensures Spins(y, step) < Spins(x, step)
  {
    if 0.0 < y {
      var a, b := y / step, x / step;
      assert a * step == y && b * step == x;
      assert (b - a - 1.0) * step == x - y - step;
      Arithmetic.NonNegativeFactor(b - a - 1.0, step);
    }
  }

  /** Waiting for `tokens` from level `level`: the pause taken, and what it buys. */
  function Pause(l: Limits, tokens: real, level: real): real
    requires 0.0 < l.rate
  {
    Min((tokens - level) / l.rate, SPIN)
  }

  lemma {:induction false} PauseProgress(l: Limits, tokens: real, level: real, extra: real)
    requires 0.0 < l.rate && level < tokens <= l.capacity && 0.0 <= extra
    ensures var p := Pause(l, tokens, level);
            var next := Grown(l, level, p + extra);
            && 0.0 < p
            && (tokens - next <= 0.0 || tokens - next <= tokens - level - SPIN * l.rate)
            && (extra == 0.0 ==> next <= tokens && (tokens - next) / l.rate == (tokens - level) / l.rate - p)
  {
    var wait, p := (tokens - level) / l.rate, Pause(l, tokens, level);
    assert wait * l.rate == tokens - level;
    assert 0.0 < wait by { if wait <= 0.0 { Arithmetic.ProductNonNegative(-wait, l.rate); assert false; } }
    Arithmetic.Distribute(p, extra, l.rate);
    Arithmetic.ProductNonNegative(extra, l.rate);
    Arithmetic.Distribute(wait, -p, l.rate);
    Arithmetic.ProductNonNegative(wait - p, l.rate);
    if extra == 0.0 {
      var next := level + p * l.rate;
      assert (wait - p) * l.rate == tokens - next;
      Arithmetic.Cancel(wait - p, l.rate);
    }
  }

  lemma {:induction false} LevelNeverFalls(l: Limits, b: Bucket, early: real, late: real)
    requires Sound(l, b) && early <= late
    ensures Level(l, b, early) <= Level(l, b, late)
  {
    if early > b.lastRefill {
      LevelGrows(l, b, early, late - early);
      LevelBounds(l, b, early);
      Arithmetic.ProductNonNegative(late - early, l.rate);
    } else {
      LevelBounds(l, b, late);
    }
  }

  lemma {:induction false} TooShort(rate: real, missing: real, d: real)
    requires 0.0 < rate && d < missing / rate
    ensures d * rate < missing
  {
    var wait := missing / rate;
    assert wait * rate == missing;
    Arithmetic.PositiveProduct(wait - d, rate);
    Arithmetic.Distribute(wait, -d, rate);
  }

  /** When the next pause would end past the deadline, the tokens would not be there at the deadline
      either. */
  lemma {:induction false} NotByTheDeadline(l: Limits, b: Bucket, n: real, now: real, deadline: real)
    requires Sound(l, b) && b.lastRefill <= now && Level(l, b, now) < n
    requires deadline < now + Pause(l, n, Level(l, b, now))
    ensures Level(l, b, deadline) < n
  {
    if deadline <= now {
      LevelNeverFalls(l, b, deadline, now);
    } else {
      LevelGrows(l, b, now, deadline - now);
      TooShort(l.rate, n - Level(l, b, now), deadline - now);
      hide Level;
      assert now + (deadline - now) == deadline;
    }
  }

  /** How a blocking request stands when it is last looked at. */
  datatype Outcome = Acquired | TimedOut | StillWaiting

  class RateLimiter {
    const limits: Limits
    var tokens: real
    var lastRefill: real

    function State(): Bucket
      reads this
    {
      Bucket(tokens, lastRefill)
    }

    ghost predicate Valid()
      reads this
    {
      Sound(limits, State())
    }

    constructor (limits: Limits, now: real)
      requires limits.capacity > 0.0 && limits.rate > 0.0
      ensures Valid() && this.limits == limits && State() == Bucket(limits.capacity, now)
    {
      this.limits, tokens, lastRefill := limits, limits.capacity, now;
    }

    method RefillNow(now: real)
      requires Valid()
      modifies this
      ensures Valid() && State() == Refill(limits, old(State()), now)
    {
      LevelBounds(limits, State(), now);
      var elapsed := now - lastRefill;
      if elapsed > 0.0 {
        tokens := Min(limits.capacity, tokens + elapsed * limits.rate);
        lastRefill := now;
      }
    }

    method TryAcquire(n: real, now: real) returns (granted: bool)
      requires Valid()
      modifies this
      ensures 0.0 <= n ==> Valid()
      ensures granted == Granted(limits, old(State()), n, now)
      ensures State() == AfterTry(limits, old(State()), n, now)
      // In numbers: the elapsed time refills up to the capacity, and exactly the grant is taken out.
      ensures var elapsed := if old(lastRefill) < now then now - old(lastRefill) else 0.0;
              var refilled := old(tokens) + elapsed * limits.rate;
              var level := if limits.capacity < refilled then limits.capacity else refilled;
              (granted <==> n <= level) && tokens == level - (if granted then n else 0.0)
    {
      RefillNow(now);
      if tokens >= n {
        tokens := tokens - n;
        return true;
      }
      return false;
    }

    /** Blocks in short spins until the tokens are there or the deadline would pass. For more than
        the capacity without a timeout the loop has no end: after any number of polls, `watched`,
        it is still waiting. In every other case it ends; it leaves the level the bucket would have
        had without the polling, less what was granted; and undisturbed it waits exactly as long as
        the shortfall takes to refill. */
    method Acquire(n: real, timeout: Option<real>, clock: Clock, oversleep: nat -> real, watched: nat)
        returns (outcome: Outcome)
      requires Valid() && 0.0 <= n && lastRefill <= clock.now
      requires forall i :: 0.0 <= oversleep(i)
      modifies this, clock
      ensures Valid() && lastRefill <= clock.now && old(clock.now) <= clock.now
      ensures outcome == StillWaiting <==> limits.capacity < n && timeout.None?
      // It gives up only when the tokens would not be there at the deadline either, and undisturbed it
      // has them by then if they are.
      ensures outcome == TimedOut ==> timeout.Some? && Level(limits, old(State()), old(clock.now) + timeout.value) < n
      ensures timeout.Some? && 0.0 <= timeout.value && (forall i :: oversleep(i) == 0.0) ==>
                (outcome == Acquired <==> n <= Level(limits, old(State()), old(clock.now) + timeout.value))
      ensures outcome == Acquired ==> Granted(limits, old(State()), n, clock.now) && n <= limits.capacity &&
                                      State() == AfterTry(limits, old(State()), n, clock.now)
      ensures outcome != Acquired ==> State() == Refill(limits, old(State()), clock.now)
      ensures timeout.None? && n <= limits.capacity && (forall i :: oversleep(i) == 0.0) ==>
                clock.now == old(clock.now) + WaitTime(limits, old(State()), n, old(clock.now))
    {
      hide SpinsLeft, Level, Refill, OnSchedule, WaitTime, Min, Pause;
      var deadline := if timeout.Some? then clock.now + timeout.value else 0.0;
      ghost var start, begun, seen := State(), clock.now, lastRefill;
      ghost var exact := forall i :: oversleep(i) == 0.0;
      var spins: nat := 0;
      PositiveSpin(limits.rate);
      BeforeSpinning(limits, start, n, begun);
      while true
        invariant Valid() && begun <= clock.now && lastRefill <= clock.now && seen <= clock.now
        invariant State() == Refill(limits, start, seen)
        invariant exact && n <= limits.capacity ==> OnSchedule(limits, start, n, begun, clock.now)
        invariant exact && timeout.Some? && 0.0 <= timeout.value ==> clock.now <= deadline
        decreases if limits.capacity < n && timeout.None? then watched - spins
                  else SpinsLeft(limits, start, n, deadline, clock.now)
      {
        RefillsCompose(limits, start, seen, clock.now);
        RefillNow(clock.now);
        seen := clock.now;
        RefilledTokens(limits, start, clock.now);
        if tokens >= n {
          LevelBounds(limits, start, clock.now);
          tokens := tokens - n;
          DoneWaiting(limits, start, n, begun, clock.now);
          if exact && timeout.Some? && 0.0 <= timeout.value { LevelNeverFalls(limits, start, clock.now, deadline); }
          return Acquired;
        }
        var pause := Pause(limits, n, tokens);
        if timeout.Some? && clock.now + pause > deadline {
          NotByTheDeadline(limits, start, n, clock.now, deadline);
          return TimedOut;
        }
        if limits.capacity < n && timeout.None? && watched <= spins {
          return StillWaiting;
        }
        if n <= limits.capacity {
          SpinStep(limits, start, n, begun, deadline, clock.now, oversleep(spins));
        } else {
          OversizedPause(limits, start, n, clock.now);
          if timeout.Some? { OversizedStep(limits, start, n, deadline, clock.now, oversleep(spins)); }
        }
        clock.Advance(pause + oversleep(spins));
        spins := spins + 1;
      }
    }
  }

  /** How long an undisturbed wait for `n` tokens takes. */
  function WaitTime(l: Limits, b: Bucket, n: real, now: real): real
    requires 0.0 < l.rate
  {
    if Granted(l, b, n, now) then 0.0 else (n - Level(l, b, now)) / l.rate
  }

  /** The wait that began at `begun` is neither late nor early at `now`. */
  ghost predicate OnSchedule(l: Limits, b: Bucket, n: real, begun: real, now: real)
    requires 0.0 < l.rate
  {
    now == begun ||
    (Level(l, b, now) <= n && now + (n - Level(l, b, now)) / l.rate == begun + WaitTime(l, b, n, begun))
  }

  lemma {:induction false} BeforeSpinning(l: Limits, b: Bucket, n: real, begun: real)
    requires 0.0 < l.rate
    ensures OnSchedule(l, b, n, begun, begun) && b == Refill(l, b, b.lastRefill)
  {}

  lemma {:induction false} RefilledTokens(l: Limits, b: Bucket, now: real)
    requires b.lastRefill <= now
    ensures Refill(l, b, now) == Bucket(Level(l, b, now), now)
    ensures forall n :: AfterTry(l, b, n, now) ==
                        if n <= Level(l, b, now) then Bucket(Level(l, b, now) - n, now) else Refill(l, b, now)
  {}

  /** The shortest pause while waiting for more than the capacity. */
  function Shortest(l: Limits, n: real): (r: real)
    requires 0.0 < l.rate
  {
    Pause(l, n, l.capacity)
  }

  /** A bound on the spins that remain: until the tokens are there or, when they never will be,
      until the deadline. */
  ghost function SpinsLeft(l: Limits, b: Bucket, n: real, deadline: real, now: real): nat
    requires 0.0 < l.rate && 0.0 < SPIN * l.rate
  {
    if n <= l.capacity then Spins(n - Level(l, b, now), SPIN * l.rate)
    else
      PositivePause(l, n);
      Spins(deadline - now, Shortest(l, n))
  }

  lemma {:induction false} PositivePause(l: Limits, n: real)
    requires 0.0 < l.rate && l.capacity < n
    ensures 0.0 < Shortest(l, n)
  {
    var wait := (n - l.capacity) / l.rate;
    assert wait * l.rate == n - l.capacity;
    Arithmetic.NonNegativeFactor(wait, l.rate);
    assert wait != 0.0;
  }

  lemma {:induction false} OversizedPause(l: Limits, b: Bucket, n: real, now: real)
    requires Sound(l, b) && l.capacity < n
    ensures 0.0 < Shortest(l, n) <= Pause(l, n, Level(l, b, now))
  {
    hide Level;
    LevelBounds(l, b, now);
    PositivePause(l, n);
    Arithmetic.QuotientMonotone(n - l.capacity, n - Level(l, b, now), l.rate);
  }

  lemma {:induction false} OversizedStep(l: Limits, b: Bucket, n: real, deadline: real, now: real, extra: real)
    requires Sound(l, b) && l.capacity < n && 0.0 <= extra
    requires 0.0 < SPIN * l.rate && now + Pause(l, n, Level(l, b, now)) <= deadline
    ensures var next := now + (Pause(l, n, Level(l, b, now)) + extra);
            now < next && SpinsLeft(l, b, n, deadline, next) < SpinsLeft(l, b, n, deadline, now)
  {
    hide Spins, Level;
    var pause := Pause(l, n, Level(l, b, now));
    OversizedPause(l, b, n, now);
    FewerSpins(deadline - now, deadline - (now + (pause + extra)), Shortest(l, n));
  }

  lemma {:induction false} SpinStep(l: Limits, b: Bucket, n: real, begun: real, deadline: real, now: real, extra: real)
    requires Sound(l, b) && b.lastRefill <= begun <= now && 0.0 <= extra
    requires Level(l, b, now) < n <= l.capacity
    ensures 0.0 < SPIN * l.rate
    ensures var next := now + (Pause(l, n, Level(l, b, now)) + extra);
            && now < next
            && SpinsLeft(l, b, n, deadline, next) < SpinsLeft(l, b, n, deadline, now)
            && (extra == 0.0 && OnSchedule(l, b, n, begun, now) ==> OnSchedule(l, b, n, begun, next))
  {
    hide *;
    var level := Level(l, b, now);
    Positive(l, b);
    var pause := Pause(l, n, level);
    PositiveSpin(l.rate);
    PauseProgress(l, n, level, extra);
    LevelGrows(l, b, now, pause + extra);
    FewerSpins(n - level, n - Level(l, b, now + (pause + extra)), SPIN * l.rate);
    FitsInCapacity(l, b, n, deadline, now);
    FitsInCapacity(l, b, n, deadline, now + (pause + extra));
    if extra == 0.0 && OnSchedule(l, b, n, begun, now) {
      ScheduleKept(l, b, n, begun, now, pause, extra);
    }
  }

  lemma {:induction false} FitsInCapacity(l: Limits, b: Bucket, n: real, deadline: real, now: real)
    requires 0.0 < l.rate && 0.0 < SPIN * l.rate && n <= l.capacity
    ensures SpinsLeft(l, b, n, deadline, now) == Spins(n - Level(l, b, now), SPIN * l.rate)
  {}

  lemma {:induction false} Positive(l: Limits, b: Bucket)
    requires Sound(l, b)
    ensures 0.0 < l.rate && 0.0 < l.capacity
  {}

  lemma {:induction false} ScheduleKept(l: Limits, b: Bucket, n: real, begun: real, now: real, pause: real, extra: real)
    requires 0.0 < l.rate && extra == 0.0 && 0.0 < pause
    requires Level(l, b, now) < n && OnSchedule(l, b, n, begun, now)
    requires var next := Level(l, b, now + (pause + extra));
             next <= n && (n - next) / l.rate == (n - Level(l, b, now)) / l.rate - pause
    ensures OnSchedule(l, b, n, begun, now + (pause + extra))
  {
    hide Level;
  }

  lemma {:induction false} DoneWaiting(l: Limits, b: Bucket, n: real, begun: real, now: real)
    requires 0.0 < l.rate && n <= Level(l, b, now)
    ensures OnSchedule(l, b, n, begun, now) ==> now == begun + WaitTime(l, b, n, begun)
  {
    hide Level;
    if now != begun && OnSchedule(l, b, n, begun, now) {
      assert (n - Level(l, b, now)) / l.rate == 0.0;
    }
  }

  lemma {:induction false} PositiveSpin(rate: real)
    requires 0.0 < rate
    ensures 0.0 < SPIN * rate
  {}

  // ---- whole runs ------------------------------------------------------------------------------

  datatype Ask = Ask(tokens: real, now: real)

  /** The asks come in time order within `from .. to`, for non-negative amounts. */
  ghost predicate InWindow(asks: seq<Ask>, from: real, to: real) {
    && from <= to
    && (forall i | 0 <= i < |asks| :: from <= asks[i].now <= to && 0.0 <= asks[i].tokens)
    && (forall i, j | 0 <= i < j < |asks| :: asks[i].now <= asks[j].now)
  }

  function AfterAsks(l: Limits, b: Bucket, asks: seq<Ask>): Bucket {
    if asks == [] then b
    else AfterTry(l, AfterAsks(l, b, asks[..|asks| - 1]), asks[|asks| - 1].tokens, asks[|asks| - 1].now)
  }

  /** All the tokens granted during the run. */
  function TotalGranted(l: Limits, b: Bucket, asks: seq<Ask>): real {
    if asks == [] then 0.0
    else
      var last := asks[|asks| - 1];
      TotalGranted(l, b, asks[..|asks| - 1]) +
      if Granted(l, AfterAsks(l, b, asks[..|asks| - 1]), last.tokens, last.now) then last.tokens else 0.0
  }

  lemma {:induction false} TryBalance(l: Limits, b: Bucket, n: real, now: real)
    requires Sound(l, b) && b.lastRefill <= now && 0.0 <= n
    ensures Sound(l, AfterTry(l, b, n, now)) && AfterTry(l, b, n, now).lastRefill == now
    ensures (if Granted(l, b, n, now) then n else 0.0) + AfterTry(l, b, n, now).tokens == Level(l, b, now)
    ensures Level(l, b, now) <= b.tokens + (now - b.lastRefill) * l.rate
  {
    LevelBounds(l, b, now);
  }

  lemma {:induction false} LastAsk(l: Limits, b: Bucket, asks: seq<Ask>)
    requires asks != []
    ensures var front, last := AfterAsks(l, b, asks[..|asks| - 1]), asks[|asks| - 1];
            && AfterAsks(l, b, asks) == AfterTry(l, front, last.tokens, last.now)
            && TotalGranted(l, b, asks) == TotalGranted(l, b, asks[..|asks| - 1]) +
                                           if Granted(l, front, last.tokens, last.now) then last.tokens else 0.0
  {}

  lemma {:induction false} NothingAsked(l: Limits, b: Bucket)
    ensures AfterAsks(l, b, []) == b && TotalGranted(l, b, []) == 0.0
  {}

  lemma {:induction false} ShorterWindow(asks: seq<Ask>, from: real, to: real)
    requires asks != [] && InWindow(asks, from, to)
    ensures var front, last := asks[..|asks| - 1], asks[|asks| - 1];
            && InWindow(front, from, to) && 0.0 <= last.tokens && from <= last.now
            && (front != [] ==> front[|front| - 1].now <= last.now)
  {}

  /** Nothing is granted that was not in the bucket or refilled since. */
  lemma {:induction false} GrantsAreBacked(l: Limits, b: Bucket, asks: seq<Ask>, from: real, to: real)
    requires Sound(l, b) && b.lastRefill <= from && InWindow(asks, from, to)
    ensures var end := AfterAsks(l, b, asks);
            && Sound(l, end)
            && end.lastRefill == (if asks == [] then b.lastRefill else asks[|asks| - 1].now)
            && TotalGranted(l, b, asks) + end.tokens <= b.tokens + (end.lastRefill - b.lastRefill) * l.rate
  {
    hide *;
    if asks == [] {
      NothingAsked(l, b);
    } else {
      var front, last := asks[..|asks| - 1], asks[|asks| - 1];
      ShorterWindow(asks, from, to);
      GrantsAreBacked(l, b, front, from, to);
      var mid := AfterAsks(l, b, front);
      LastAsk(l, b, asks);
      TryBalance(l, mid, last.tokens, last.now);
      Backed(TotalGranted(l, b, front), mid.tokens, b.tokens, b.lastRefill, mid.lastRefill, last.now, l.rate,
             TotalGranted(l, b, asks), AfterAsks(l, b, asks).tokens);
    }
  }

  lemma {:induction false} Backed(granted: real, held: real, initial: real, start: real, mid: real, end: real,
                                  rate: real,
                                  grantedNow: real, heldNow: real)
    requires granted + held <= initial + (mid - start) * rate
    requires grantedNow + heldNow <= granted + held + (end - mid) * rate
    ensures grantedNow + heldNow <= initial + (end - start) * rate
  {
    Arithmetic.Distribute(mid - start, end - mid, rate);
  }

  /** At no request has the bucket run over. */
  ghost predicate NeverOverflows(l: Limits, b: Bucket, asks: seq<Ask>) {
    forall i | 0 <= i < |asks| :: Fits(l, AfterAsks(l, b, asks[..i]), asks[i].now)
  }

  ghost predicate Fits(l: Limits, b: Bucket, now: real) { b.tokens + (now - b.lastRefill) * l.rate <= l.capacity }

  lemma {:induction false} FittingLevel(l: Limits, b: Bucket, now: real)
    requires Sound(l, b) && b.lastRefill <= now && Fits(l, b, now)
    ensures Level(l, b, now) == b.tokens + (now - b.lastRefill) * l.rate
  {}

  lemma {:induction false} OverflowsNoEarlier(l: Limits, b: Bucket, asks: seq<Ask>)
    requires asks != [] && NeverOverflows(l, b, asks)
    ensures NeverOverflows(l, b, asks[..|asks| - 1])
    ensures Fits(l, AfterAsks(l, b, asks[..|asks| - 1]), asks[|asks| - 1].now)
  {
    var front := asks[..|asks| - 1];
    forall i | 0 <= i < |front| ensures Fits(l, AfterAsks(l, b, front[..i]), front[i].now) {
      assert front[..i] == asks[..i] && front[i] == asks[i];
    }
  }

  /** And nothing gets lost: while the bucket does not run over, what was granted and what it holds are
      together exactly what it held and what was refilled since. */
  lemma {:induction false} GrantsAreExact(l: Limits, b: Bucket, asks: seq<Ask>, from: real, to: real)
    requires Sound(l, b) && b.lastRefill <= from && InWindow(asks, from, to) && NeverOverflows(l, b, asks)
    ensures var end := AfterAsks(l, b, asks);
            TotalGranted(l, b, asks) + end.tokens == b.tokens + (end.lastRefill - b.lastRefill) * l.rate
  {
    hide *;
    if asks == [] {
      NothingAsked(l, b);
    } else {
      var front, last := asks[..|asks| - 1], asks[|asks| - 1];
      ShorterWindow(asks, from, to);
      OverflowsNoEarlier(l, b, asks);
      GrantsAreBacked(l, b, front, from, to);
      GrantsAreExact(l, b, front, from, to);
      var mid := AfterAsks(l, b, front);
      LastAsk(l, b, asks);
      TryBalance(l, mid, last.tokens, last.now);
      FittingLevel(l, mid, last.now);
      Arithmetic.Distribute(mid.lastRefill - b.lastRefill, last.now - mid.lastRefill, l.rate);
    }
  }

  /** In any window of any run the bucket grants at most its capacity plus what the window
      refills, and its level stays between 0 and the capacity. */
  lemma {:induction false} WindowBound(l: Limits, b: Bucket, asks: seq<Ask>, from: real, to: real)
    requires Sound(l, b) && b.lastRefill <= from && InWindow(asks, from, to)
    ensures TotalGranted(l, b, asks) <= l.capacity + (to - from) * l.rate
    ensures 0.0 <= AfterAsks(l, b, asks).tokens <= l.capacity
  {
    hide TotalGranted, AfterAsks, Refill;
    var at := Refill(l, b, from);
    RefilledFirst(l, b, asks, from, to);
    GrantsAreBacked(l, at, asks, from, to);
    GrantsAreBacked(l, b, asks, from, to);
    var end := AfterAsks(l, at, asks);
    Arithmetic.ProductNonNegative(to - end.lastRefill, l.rate);
    Arithmetic.Distribute(end.lastRefill - from, to - end.lastRefill, l.rate);
  }

  /** Refilling at the start of the window changes none of its grants. */
  lemma {:induction false} RefilledFirst(l: Limits, b: Bucket, asks: seq<Ask>, from: real, to: real)
    requires Sound(l, b) && b.lastRefill <= from && InWindow(asks, from, to)
    ensures Sound(l, Refill(l, b, from)) && Refill(l, b, from).lastRefill == from
    ensures TotalGranted(l, Refill(l, b, from), asks) == TotalGranted(l, b, asks)
    ensures asks != [] ==> AfterAsks(l, Refill(l, b, from), asks) == AfterAsks(l, b, asks)
  {
    LevelBounds(l, b, from);
    if asks != [] {
      RefilledFirst(l, b, asks[..|asks| - 1], from, to);
      RefillsCompose(l, b, from, asks[|asks| - 1].now);
    }
  }

  /** A request for more than the capacity is never granted, so waiting for it without a
      timeout would never end. */
  lemma {:induction false} OversizedIsNeverGranted(l: Limits, b: Bucket, n: real, now: real)
    requires Sound(l, b) && n > l.capacity
    ensures !Granted(l, b, n, now)
  {
    LevelBounds(l, b, now);
  }
}
