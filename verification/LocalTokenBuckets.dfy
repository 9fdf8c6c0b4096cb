/**
 The token bucket object and its blocking `acquire` loop (core/utils/rate_limiter.py), proved
 against the step functions of `TokenBuckets`.
 */
module LocalTokenBuckets {
  import opened Options
  import opened Clocks
  import opened Basics
  import opened TokenBuckets

  /** `StillWaiting` when the call has not come to an end within the passes that are looked at. */
  datatype Outcome = Granted | Refused | DivisionByZero | StillWaiting

  // ----- Arithmetic of waiting -----

  /** The time in which `deficit` tokens flow in. */
  function Wait(rate: real, deficit: real): real
    requires rate > 0.0
  {
    deficit / rate
  }

  lemma WaitIsPositive(rate: real, deficit: real)
    requires rate > 0.0 && deficit > 0.0
    ensures Wait(rate, deficit) > 0.0
  {
  }

  lemma WaitFills(rate: real, deficit: real)
    requires rate > 0.0
    ensures Flow(rate, 0.0, Wait(rate, deficit)) == deficit
  {
  }

  lemma WaitShrinks(rate: real, deficit: real, elapsed: real)
    requires rate > 0.0
    ensures Wait(rate, deficit - Flow(rate, 0.0, elapsed)) == Wait(rate, deficit) - elapsed
  {
  }

  lemma WaitMonotone(rate: real, a: real, b: real)
    requires rate > 0.0 && a <= b
    ensures Wait(rate, a) <= Wait(rate, b)
  {
    if a < b { WaitIsPositive(rate, b - a); }
    assert Wait(rate, b - a) == Wait(rate, b) - Wait(rate, a);
  }

  /** The level after `elapsed` seconds of waiting. */
  function LevelAfter(lim: Limits, level0: real, elapsed: real): real {
    Min(lim.capacity as real, level0 + Flow(lim.rate, 0.0, elapsed))
  }

  lemma LevelAfterNap(lim: Limits, level0: real, elapsed: real, now: real, nap: real)
    requires lim.Valid() && nap >= 0.0
    ensures Refill(lim, BucketState(LevelAfter(lim, level0, elapsed), now), now + nap).tokens
         == LevelAfter(lim, level0, elapsed + nap)
  {
    FlowAdds(lim.rate, 0.0, elapsed, elapsed + nap);
    FlowGrows(lim.rate, 0.0, 0.0, nap, nap);
    assert Flow(lim.rate, now, now + nap) == Flow(lim.rate, elapsed, elapsed + nap) == Flow(lim.rate, 0.0, nap);
  }

  /** What holds when a pass begins after sleeping: the call waits for a deficit it may wait for. */
  ghost predicate Waiting(lim: Limits, level0: real, n: int, timeout: Option<real>, elapsed: real) {
    && lim.rate > 0.0 && level0 < n as real && 0.0 < elapsed
    && (timeout.Some? ==> Wait(lim.rate, n as real - level0) <= timeout.value && elapsed <= timeout.value)
    && (n <= lim.capacity ==> elapsed <= Wait(lim.rate, n as real - level0))
  }

  /** A pass that finds enough after sleeping has slept exactly the first deficit. */
  lemma GrantedWhenDue(lim: Limits, level0: real, n: int, timeout: Option<real>, elapsed: real)
    requires Waiting(lim, level0, n, timeout, elapsed)
    requires LevelAfter(lim, level0, elapsed) >= n as real
    ensures n <= lim.capacity
    ensures elapsed == Wait(lim.rate, n as real - level0)
    ensures LevelAfter(lim, level0, elapsed) == n as real
  {
    var deficit := n as real - level0;
    WaitShrinks(lim.rate, deficit, elapsed);
    if elapsed < Wait(lim.rate, deficit) {
      if deficit - Flow(lim.rate, 0.0, elapsed) <= 0.0 {
        WaitMonotone(lim.rate, deficit - Flow(lim.rate, 0.0, elapsed), 0.0);
      }
    }
    WaitFills(lim.rate, deficit);
  }

  /** A pass that still lacks tokens waits for what is left of the first deficit, if the request fits. */
  lemma RestOfWait(lim: Limits, level0: real, n: int, elapsed: real)
    requires lim.rate > 0.0 && n <= lim.capacity
    requires LevelAfter(lim, level0, elapsed) < n as real
    ensures Wait(lim.rate, n as real - LevelAfter(lim, level0, elapsed))
         == Wait(lim.rate, n as real - level0) - elapsed
  {
    WaitShrinks(lim.rate, n as real - level0, elapsed);
  }

  /** A request above the capacity waits at least the time of one token. */
  lemma OversizedWait(lim: Limits, level: real, n: int)
    requires lim.rate > 0.0 && n > lim.capacity && level <= lim.capacity as real
    ensures Wait(lim.rate, n as real - level) >= Wait(lim.rate, 1.0) > 0.0
  {
    WaitIsPositive(lim.rate, 1.0);
    WaitMonotone(lim.rate, 1.0, n as real - level);
  }

  /** How many sleeps of at least `least` fit in `time`, as a real. */
  function Naps(time: real, least: real): real
    requires least > 0.0
  {
    time / least
  }

  lemma NapUsesBudget(time: real, nap: real, least: real)
    requires 0.0 < least <= nap
    ensures Naps(time - nap, least) <= Naps(time, least) - 1.0
  {
    WaitMonotone(least, least, nap);
    assert Naps(time - nap, least) == Naps(time, least) - nap / least;
  }

  lemma NapsNonNegative(time: real, least: real)
    requires least > 0.0 && time >= 0.0
    ensures Naps(time, least) >= 0.0
  {
  }

  /** A bound on the passes still to come. */
  ghost function PassesLeft(lim: Limits, level0: real, n: int, timeout: Option<real>, elapsed: real): real {
    if lim.rate <= 0.0 then 0.0
    else if n <= lim.capacity then
      var rest := Wait(lim.rate, n as real - level0) - elapsed;
      if rest <= 0.0 then 0.0 else 10.0 * rest + 1.0
    else
      WaitIsPositive(lim.rate, 1.0);
      if timeout.Some? then Naps(timeout.value - elapsed, Nap(Wait(lim.rate, 1.0))) + 1.0 else 0.0
  }

  /** The call comes to an end by itself: the request fits, or there is a timeout. */
  predicate Ends(lim: Limits, n: int, timeout: Option<real>) { n <= lim.capacity || timeout.Some? }

  /** One more pass without success: the call is still waiting, and if it ends, fewer passes are to come. */
  lemma PassFails(lim: Limits, level0: real, n: int, timeout: Option<real>, elapsed: real, wait: real)
    requires lim.rate > 0.0 && 0.0 <= elapsed
    requires elapsed > 0.0 ==> Waiting(lim, level0, n, timeout, elapsed)
    requires elapsed == 0.0 ==> level0 == LevelAfter(lim, level0, elapsed)
    requires LevelAfter(lim, level0, elapsed) < n as real
    requires wait == Wait(lim.rate, n as real - LevelAfter(lim, level0, elapsed))
    requires timeout.Some? ==> elapsed + wait <= timeout.value
    ensures wait > 0.0
    ensures Waiting(lim, level0, n, timeout, elapsed + Nap(wait))
    ensures Ends(lim, n, timeout) ==>
              && 0.0 <= PassesLeft(lim, level0, n, timeout, elapsed + Nap(wait))
              && PassesLeft(lim, level0, n, timeout, elapsed + Nap(wait))
                 <= PassesLeft(lim, level0, n, timeout, elapsed) - 1.0
  {
    WaitIsPositive(lim.rate, n as real - LevelAfter(lim, level0, elapsed));
    if n <= lim.capacity {
      RestOfWait(lim, level0, n, elapsed);
    } else {
      OversizedWait(lim, LevelAfter(lim, level0, elapsed), n);
      if timeout.Some? {
        NapUsesBudget(timeout.value - elapsed, Nap(wait), Nap(Wait(lim.rate, 1.0)));
        NapsNonNegative(timeout.value - elapsed - Nap(wait), Nap(Wait(lim.rate, 1.0)));
      }
    }
  }

  /**
   Some later pass can grant a request exactly when it fits the bucket.  A request above the
   capacity is refused by every pass, so a blocking call without a timeout never returns.
   */
  lemma EventuallyGrantedIffFits(lim: Limits, s: BucketState, n: int)
    requires lim.rate > 0.0 && s.tokens >= 0.0
    ensures (exists now :: s.lastRefill <= now && Take(lim, s, now, n).1) <==> n <= lim.capacity
  {
    if n <= lim.capacity {
      var wait := if n > 0 then Wait(lim.rate, n as real) else 0.0;
      if n > 0 {
        WaitIsPositive(lim.rate, n as real);
        WaitFills(lim.rate, n as real);
      }
      var now := s.lastRefill + wait;
      assert Flow(lim.rate, s.lastRefill, now) == Flow(lim.rate, 0.0, wait) >= n as real;
      assert Take(lim, s, now, n).1;
    }
  }

  class TokenBucket {
    const limits: Limits
    var tokens: real
    var lastRefill: real

    ghost predicate Valid()
    {
      limits.Valid()
    }

    function State(): BucketState
      reads this
    {
      BucketState(tokens, lastRefill)
    }

    constructor (limits: Limits, now: real)
      requires limits.Valid()
      ensures Valid() && this.limits == limits && State() == Full(limits, now)
    {
      this.limits := limits;
      this.tokens := limits.capacity as real;
      this.lastRefill := now;
    }

    /** The range checks of the constructor: no bucket for a negative capacity or rate. */
    static method Create(rate: real, capacity: int, now: real) returns (r: Option<TokenBucket>)
      ensures r.None? <==> capacity < 0 || rate < 0.0
      ensures r.Some? ==> fresh(r.value) && r.value.Valid()
                          && r.value.limits == Limits(rate, capacity)
                          && r.value.State() == Full(r.value.limits, now)
    {
      if capacity < 0 || rate < 0.0 {
        return None;
      }
      var b := new TokenBucket(Limits(rate, capacity), now);
      r := Some(b);
    }

    method RefillNow(now: real)
      modifies this
      ensures State() == Refill(limits, old(State()), now)
    {
      var elapsed := now - lastRefill;
      tokens := Min(limits.capacity as real, tokens + elapsed * limits.rate);
      lastRefill := now;
    }

    /** One pass of `acquire` under the lock. */
    method TryAcquire(now: real, n: int) returns (ok: bool)
      modifies this
      ensures (State(), ok) == Take(limits, old(State()), now, n)
    {
      RefillNow(now);
      ok := tokens >= n as real;
      if ok {
        tokens := tokens - n as real;
      }
    }

    method AvailableTokens(now: real) returns (level: real)
      modifies this
      ensures State() == Refill(limits, old(State()), now) && level == State().tokens
    {
      RefillNow(now);
      level := tokens;
    }

    /** The level a pass would see now. */
    function LevelAt(now: real): real
      reads this
    {
      Refill(limits, State(), now).tokens
    }

    /**
     The whole call of an uncontended caller, followed for a number of passes that the code does not
     bound.  It succeeds at once when the tokens are there; otherwise it succeeds after exactly
     deficit / rate if that is within the timeout, and refuses at once, without sleeping, if it is not.
     Only a request above the capacity, given a timeout that its first wait still meets, sleeps and is
     then refused, never past the timeout.  All this happens within a number of passes known
     beforehand.  A request above the capacity without a timeout waits for ever.
     */
    method Acquire(clock: Clock, n: int, block: bool, timeout: Option<real>, passes: nat)
      returns (r: Outcome)
      requires Valid() && passes > 0
      modifies this, clock
      ensures clock.longest <= old(clock.longest) || clock.longest <= 0.1
      ensures clock.now >= old(clock.now) && (r != StillWaiting ==> lastRefill == clock.now)
      ensures old(LevelAt(clock.now)) >= n as real ==>
                r == Granted && clock.now == old(clock.now)
                && tokens == old(LevelAt(clock.now)) - n as real
      ensures old(LevelAt(clock.now)) < n as real && !block ==>
                r == Refused && clock.now == old(clock.now) && tokens == old(LevelAt(clock.now))
      ensures old(LevelAt(clock.now)) < n as real && block && limits.rate == 0.0 ==>
                r == DivisionByZero && clock.now == old(clock.now) && tokens == old(LevelAt(clock.now))
      ensures old(LevelAt(clock.now)) < n as real && block && limits.rate > 0.0 ==>
                var level := old(LevelAt(clock.now));
                var wait := Wait(limits.rate, n as real - level);
                && r != DivisionByZero
                && (n > limits.capacity && timeout.None? ==> r == StillWaiting)
                && (Ends(limits, n, timeout) && passes as real > PassesLeft(limits, level, n, timeout, 0.0) ==>
                      r != StillWaiting)
                && (r != StillWaiting ==>
                      (r == Granted <==> n <= limits.capacity && (timeout.None? || wait <= timeout.value)))
                && (r == Granted ==> clock.now == old(clock.now) + wait && tokens == 0.0)
                && (r == Refused ==> timeout.Some? && tokens < n as real)
                && (r == Refused ==> tokens == LevelAfter(limits, level, clock.now - old(clock.now)))
                && (r == Refused && wait > timeout.value ==> clock.now == old(clock.now))
                && (r == Refused && wait <= timeout.value ==> clock.now <= old(clock.now) + timeout.value)
                && (r == StillWaiting ==> LevelAt(clock.now) == LevelAfter(limits, level, clock.now - old(clock.now)))
                && (r == StillWaiting && n <= limits.capacity ==> clock.now <= old(clock.now) + wait)
                && (r == StillWaiting && timeout.Some? ==> clock.now <= old(clock.now) + timeout.value)
    {
      var start := clock.now;
      ghost var level0 := LevelAt(start);
      assert Flow(limits.rate, 0.0, 0.0) == 0.0;
      var pass := 0;
      while pass < passes
        invariant clock.longest <= old(clock.longest) || clock.longest <= 0.1
        invariant start <= clock.now && (pass == 0 <==> start == clock.now)
        invariant LevelAt(clock.now) == LevelAfter(limits, level0, clock.now - start)
        invariant start < clock.now ==> block && Waiting(limits, level0, n, timeout, clock.now - start)
        invariant pass > 0 && Ends(limits, n, timeout) ==>
                    && 0.0 <= PassesLeft(limits, level0, n, timeout, clock.now - start)
                    && PassesLeft(limits, level0, n, timeout, clock.now - start)
                       <= PassesLeft(limits, level0, n, timeout, 0.0) - pass as real
      {
        ghost var elapsed := clock.now - start;
        var ok := TryAcquire(clock.now, n);
        if ok {
          if elapsed > 0.0 { GrantedWhenDue(limits, level0, n, timeout, elapsed); }
          return Granted;
        }
        if !block {
          return Refused;
        }
        if limits.rate == 0.0 {
          return DivisionByZero;
        }
        var wait := (n as real - tokens) / limits.rate;
        if timeout.Some? && (clock.now - start) + wait > timeout.value {
          if n <= limits.capacity { RestOfWait(limits, level0, n, elapsed); }
          return Refused;
        }
        PassFails(limits, level0, n, timeout, elapsed, wait);
        LevelAfterNap(limits, level0, elapsed, clock.now, Nap(wait));
        clock.Sleep(Nap(wait));
        pass := pass + 1;
      }
      r := StillWaiting;
    }
  }
}
