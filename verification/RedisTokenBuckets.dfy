/**
 The distributed token bucket (core/utils/rate_limiter.py): a Lua script run atomically on a
 Redis hash that expires 60 seconds after it was last touched, and the polling loop around it.
 Client and server are taken to read one clock.
 */
module RedisTokenBuckets {
  import opened Options
  import opened Clocks
  import opened Basics
  import opened TokenBuckets
  import opened LocalTokenBuckets

  const TTL: real := 60.0
  const POLL_SECONDS: real := 0.1

  datatype Hash = Missing | Stored(bucket: BucketState, expireAt: real)

  /** A key whose time to live has run out is as good as missing. */
  predicate Live(h: Hash, now: real) { h.Stored? && now <= h.expireAt }

  /** The bucket the script reads: absent fields mean a full bucket refilled just now. */
  function Read(lim: Limits, h: Hash, now: real): BucketState {
    if Live(h, now) then h.bucket else BucketState(lim.capacity as real, now)
  }

  /** The level at which the script decides. */
  function LevelFound(lim: Limits, h: Hash, now: real): real { Refill(lim, Read(lim, h, now), now).tokens }

  /** The script: refill, take if possible, store both ways, renew the time to live. */
  function Script(lim: Limits, h: Hash, now: real, n: int): (Hash, bool) {
    var (s, ok) := Take(lim, Read(lim, h, now), now, n);
    (Stored(s, now + TTL), ok)
  }

  // ----- Refinement of the in-memory bucket -----

  ghost predicate Requests(es: seq<Event>) {
    forall i :: 0 <= i < |es| ==> es[i].Acquire?
  }

  /** The hash after the first `k` requests, from a missing key. */
  function HashAt(lim: Limits, es: seq<Event>, k: nat): Hash
    requires k <= |es| && Requests(es)
  {
    if k == 0 then Missing else Script(lim, HashAt(lim, es, k - 1), es[k - 1].time, es[k - 1].n).0
  }

  predicate ScriptAccepts(lim: Limits, es: seq<Event>, k: nat)
    requires k < |es| && Requests(es)
  {
    Script(lim, HashAt(lim, es, k), es[k].time, es[k].n).1
  }

  ghost predicate SameAnswers(lim: Limits, start: real, es: seq<Event>)
    requires Requests(es)
  {
    forall k :: 0 <= k < |es| ==> (ScriptAccepts(lim, es, k) <==> Accepted(lim, start, es, k))
  }

  /** A bucket left alone for longer than the time to live is full, so expiry does not show. */
  lemma ExpiredIsFull(lim: Limits, s: BucketState, now: real)
    requires lim.Valid() && Flow(lim.rate, 0.0, TTL) >= lim.capacity as real
    requires s.tokens >= 0.0 && now > s.lastRefill + TTL
    ensures Refill(lim, s, now) == Full(lim, now)
  {
    assert Flow(lim.rate, s.lastRefill, s.lastRefill + TTL) == Flow(lim.rate, 0.0, TTL);
    FlowGrows(lim.rate, s.lastRefill, s.lastRefill, s.lastRefill + TTL, now);
  }

  lemma FullStaysFull(lim: Limits, from: real, now: real)
    requires lim.Valid() && from <= now
    ensures Refill(lim, Full(lim, from), now) == Full(lim, now)
  {
    FlowGrows(lim.rate, from, from, now, now);
  }

  /** The hash after `k` requests holds the in-memory bucket, or would be read like it. */
  ghost predicate Related(lim: Limits, start: real, es: seq<Event>, k: nat)
    requires k <= |es| && Requests(es)
  {
    var s := At(lim, start, es, k);
    && s.tokens >= 0.0
    && s.lastRefill == PointTime(start, es, k)
    && HashAt(lim, es, k) == if k == 0 then Missing else Stored(s, s.lastRefill + TTL)
  }

  /** Either the bucket can fill up while its key lives, or no pause between two requests outlives the key. */
  ghost predicate KeyLives(lim: Limits, es: seq<Event>) {
    || Flow(lim.rate, 0.0, TTL) >= lim.capacity as real
    || forall k {:trigger es[k]} :: 0 < k < |es| ==> es[k].time - es[k - 1].time <= 60.0
  }

  lemma ReadLikeMemory(lim: Limits, start: real, es: seq<Event>, k: nat, now: real)
    requires lim.Valid()
    requires k <= |es| && Requests(es) && Related(lim, start, es, k)
    requires Flow(lim.rate, 0.0, TTL) >= lim.capacity as real || (k > 0 ==> now - es[k - 1].time <= 60.0)
    requires PointTime(start, es, k) <= now
    ensures Refill(lim, Read(lim, HashAt(lim, es, k), now), now) == Refill(lim, At(lim, start, es, k), now)
  {
    FullStaysFull(lim, now, now);
    if k == 0 {
      FullStaysFull(lim, start, now);
    } else if !Live(HashAt(lim, es, k), now) {
      ExpiredIsFull(lim, At(lim, start, es, k), now);
    }
  }

  lemma {:induction false} RelatedAfter(lim: Limits, start: real, es: seq<Event>, k: nat)
    requires lim.Valid() && KeyLives(lim, es)
    requires k <= |es| && Requests(es) && Ordered(start, es)
    ensures Related(lim, start, es, k)
    ensures k < |es| ==> (ScriptAccepts(lim, es, k) <==> Accepted(lim, start, es, k))
  {
    PointsOrdered(start, es);
    if k > 0 {
      RelatedAfter(lim, start, es, k - 1);
      ReadLikeMemory(lim, start, es, k - 1, es[k - 1].time);
      FlowGrows(lim.rate, PointTime(start, es, k - 1), PointTime(start, es, k - 1),
                es[k - 1].time, es[k - 1].time);
    }
    if k < |es| {
      ReadLikeMemory(lim, start, es, k, es[k].time);
    }
  }

  /** Drain the bucket, and ask for all of it again just after the key has expired. */
  function DrainTwice(lim: Limits, gap: real): (es: seq<Event>)
    ensures Requests(es)
  {
    [Acquire(0.0, lim.capacity), Acquire(gap, lim.capacity)]
  }

  lemma ExpiryShows(lim: Limits) returns (gap: real)
    requires lim.Valid() && Flow(lim.rate, 0.0, TTL) < lim.capacity as real
    ensures Ordered(0.0, DrainTwice(lim, gap))
    ensures !SameAnswers(lim, 0.0, DrainTwice(lim, gap))
  {
    if lim.rate == 0.0 {
      gap := TTL + 1.0;
    } else {
      var missing := lim.capacity as real - Flow(lim.rate, 0.0, TTL);
      var extra := Wait(lim.rate, missing / 2.0);
      WaitIsPositive(lim.rate, missing / 2.0);
      WaitFills(lim.rate, missing / 2.0);
      gap := TTL + extra;
      FlowAdds(lim.rate, 0.0, TTL, gap);
      assert Flow(lim.rate, TTL, gap) == Flow(lim.rate, 0.0, extra);
    }
    assert Flow(lim.rate, 0.0, gap) < lim.capacity as real;
    DrainTwiceDiffers(lim, gap);
  }

  lemma DrainTwiceDiffers(lim: Limits, gap: real)
    requires lim.Valid() && gap > TTL && Flow(lim.rate, 0.0, gap) < lim.capacity as real
    ensures !SameAnswers(lim, 0.0, DrainTwice(lim, gap))
  {
    var es := DrainTwice(lim, gap);
    FullStaysFull(lim, 0.0, 0.0);
    FullStaysFull(lim, gap, gap);
    assert At(lim, 0.0, es, 0) == Full(lim, 0.0);
    assert At(lim, 0.0, es, 1) == BucketState(0.0, 0.0);
    assert HashAt(lim, es, 1) == Stored(BucketState(0.0, 0.0), TTL) by {
      assert HashAt(lim, es, 0) == Missing;
    }
    assert !Accepted(lim, 0.0, es, 1);
    assert ScriptAccepts(lim, es, 1);
  }

  /**
   The Redis bucket answers every sequence of timed requests like the in-memory bucket exactly
   when the bucket can fill up within the time to live of its key.
   */
  lemma RedisRefinesMemoryIff(lim: Limits)
    requires lim.Valid()
    ensures 60.0 * lim.rate >= lim.capacity as real <==>
            forall start: real, es: seq<Event> ::
              Requests(es) && Ordered(start, es) ==> SameAnswers(lim, start, es)
  {
    assert Flow(lim.rate, 0.0, TTL) == 60.0 * lim.rate;
    if Flow(lim.rate, 0.0, TTL) >= lim.capacity as real {
      forall start: real, es: seq<Event> | Requests(es) && Ordered(start, es)
        ensures SameAnswers(lim, start, es)
      {
        forall k | 0 <= k < |es|
          ensures ScriptAccepts(lim, es, k) <==> Accepted(lim, start, es, k)
        {
          RelatedAfter(lim, start, es, k);
        }
      }
    } else {
      var gap := ExpiryShows(lim);
    }
  }

  /** Whatever its rate, it does so as long as no pause between two requests is longer than that time. */
  lemma AgreesWhileKeyLives(lim: Limits, start: real, es: seq<Event>)
    requires lim.Valid() && Requests(es) && Ordered(start, es)
    requires forall k {:trigger es[k]} :: 0 < k < |es| ==> es[k].time - es[k - 1].time <= 60.0
    ensures SameAnswers(lim, start, es)
  {
    forall k | 0 <= k < |es| ensures ScriptAccepts(lim, es, k) <==> Accepted(lim, start, es, k) {
      RelatedAfter(lim, start, es, k);
    }
  }

  // ----- The polling loop -----

  /** When a waiting request is due: it must fit, and its deficit must have flowed in. */
  lemma DueIff(lim: Limits, level0: real, n: int, elapsed: real)
    requires lim.rate > 0.0 && level0 < n as real && elapsed >= 0.0
    ensures LevelAfter(lim, level0, elapsed) >= n as real <==>
            n <= lim.capacity && Wait(lim.rate, n as real - level0) <= elapsed
  {
    var deficit := n as real - level0;
    WaitShrinks(lim.rate, deficit, elapsed);
    var rest := deficit - Flow(lim.rate, 0.0, elapsed);
    if rest > 0.0 {
      WaitIsPositive(lim.rate, rest);
    } else {
      WaitMonotone(lim.rate, rest, 0.0);
    }
  }

  /** The time of poll `k`. */
  function Poll(k: nat): real { k as real * POLL_SECONDS }

  class RedisServer {
    var hashes: map<string, Hash>

    function HashOf(key: string): Hash
      reads this
    {
      if key in hashes then hashes[key] else Missing
    }

    method Eval(lim: Limits, key: string, now: real, n: int) returns (ok: bool)
      modifies this
      ensures hashes == old(hashes)[key := Script(lim, old(HashOf(key)), now, n).0]
      ensures ok == Script(lim, old(HashOf(key)), now, n).1
    {
      var h := HashOf(key);
      var live := h.Stored? && now <= h.expireAt;
      var level := if live then h.bucket.tokens else lim.capacity as real;
      var last := if live then h.bucket.lastRefill else now;
      level := Min(lim.capacity as real, level + Flow(lim.rate, last, now));
      ok := level >= n as real;
      if ok {
        level := level - n as real;
      }
      hashes := hashes[key := Stored(BucketState(level, now), now + TTL)];
    }
  }

  function KeyFor(prefix: string, identifier: string): string {
    prefix + ":ratelimit:" + identifier
  }

  lemma PollLater(k: nat)
    ensures Poll(0) == 0.0 && Poll(k + 1) == Poll(k) + 0.1
  {
  }

  /** After a refused script the level `nap` seconds on is that of an undisturbed wait. */
  lemma LevelAtNextPoll(lim: Limits, level0: real, elapsed: real, now: real)
    requires lim.Valid()
    ensures var h := Stored(BucketState(LevelAfter(lim, level0, elapsed), now), now + TTL);
            LevelFound(lim, h, now + POLL_SECONDS) == LevelAfter(lim, level0, elapsed + POLL_SECONDS)
  {
    LevelAfterNap(lim, level0, elapsed, now, POLL_SECONDS);
  }

  /** The hash a script leaves at `now` when it finds `level` tokens there. */
  function Left(level: real, n: int, granted: bool, now: real): Hash {
    Stored(BucketState(if granted then level - n as real else level, now), now + TTL)
  }

  class RedisTokenBucket {
    const server: RedisServer
    const prefix: string
    const lim: Limits

    constructor (server: RedisServer, prefix: string, lim: Limits)
      ensures this.server == server && this.prefix == prefix && this.lim == lim
    {
      this.server, this.prefix, this.lim := server, prefix, lim;
    }

    /** One pass: the script, and a sleep if the call goes on. */
    method Pass(clock: Clock, key: string, n: int, block: bool, ghost level0: real, ghost start: real, ghost polls: nat)
      returns (granted: bool)
      requires lim.Valid() && clock.now == start + Poll(polls)
      requires LevelFound(lim, server.HashOf(key), clock.now) == LevelAfter(lim, level0, Poll(polls))
      modifies server, clock
      ensures granted <==> LevelAfter(lim, level0, Poll(polls)) >= n as real
      ensures server.hashes
           == old(server.hashes)[key := Left(LevelAfter(lim, level0, Poll(polls)), n, granted, start + Poll(polls))]
      ensures clock.now == start + Poll(if granted || !block then polls else polls + 1)
      ensures !granted && block ==>
                LevelFound(lim, server.HashOf(key), clock.now) == LevelAfter(lim, level0, Poll(polls + 1))
    {
      granted := server.Eval(lim, key, clock.now, n);
      if !granted && block {
        LevelAtNextPoll(lim, level0, Poll(polls), clock.now);
        PollLater(polls);
        clock.Sleep(POLL_SECONDS);
      }
    }

    /**
     The call polls every tenth of a second and looks at the timeout only after sleeping.  It succeeds
     at the first poll within the timeout at which the request is due, and refuses at the first poll
     after the timeout, whether or not the wait could have been seen to be too long.  It is followed for
     a number of passes that the code does not bound; there is no answer while it is still polling.
     */
    method Acquire(clock: Clock, identifier: string, n: int, block: bool, timeout: Option<real>, passes: nat)
      returns (r: Option<bool>, ghost polls: nat)
      requires lim.Valid() && passes > 0
      modifies server, clock
      ensures clock.now == old(clock.now) + Poll(polls)
      ensures r == None ==> block && polls == passes && (timeout.Some? ==> Poll(polls) <= timeout.value)
      ensures r == Some(false) && block ==> timeout.Some? && polls > 0 && Poll(polls) > timeout.value
      ensures r == Some(false) && block && polls > 1 ==> Poll(polls - 1) <= timeout.value
      ensures r == Some(false) && !block ==> polls == 0
      ensures r != Some(true) && block ==> polls > 0
      ensures r == Some(true) && timeout.Some? && polls > 0 ==> Poll(polls) <= timeout.value
      ensures var key, start := KeyFor(prefix, identifier), old(clock.now);
              var level := LevelFound(lim, old(server.HashOf(key)), start);
              var last := if r == Some(true) || !block then polls else polls - 1;
              && (r == Some(true) <==> LevelAfter(lim, level, Poll(last)) >= n as real)
              && (forall i :: 0 <= i < last ==> LevelAfter(lim, level, Poll(i)) < n as real)
              && server.HashOf(key) == Left(LevelAfter(lim, level, Poll(last)), n, r == Some(true), start + Poll(last))
      ensures forall other :: other != KeyFor(prefix, identifier) ==> server.HashOf(other) == old(server.HashOf(other))
    {
      var key := KeyFor(prefix, identifier);
      var start := clock.now;
      ghost var level0 := LevelFound(lim, server.HashOf(key), start);
      polls := 0;
      for pass := 0 to passes
        invariant polls == pass && clock.now == start + Poll(polls)
        invariant LevelFound(lim, server.HashOf(key), clock.now) == LevelAfter(lim, level0, Poll(polls))
        invariant forall i :: 0 <= i < polls ==> LevelAfter(lim, level0, Poll(i)) < n as real
        invariant polls > 0 ==> block && (timeout.Some? ==> Poll(polls) <= timeout.value)
        invariant polls > 0 ==> server.HashOf(key)
                                == Left(LevelAfter(lim, level0, Poll(polls - 1)), n, false, start + Poll(polls - 1))
        invariant forall other :: other != key ==> server.HashOf(other) == old(server.HashOf(other))
      {
        var granted := Pass(clock, key, n, block, level0, start, polls);
        if granted {
          return Some(true), polls;
        }
        if !block {
          return Some(false), polls;
        }
        polls := polls + 1;
        if timeout.Some? && clock.now - start > timeout.value {
          return Some(false), polls;
        }
      }
      r := None;
    }
  }

  /**
   A waiting request is still not due after a number of polls exactly when it does not fit, or the last
   of those polls came before its deficit had flowed in: so every request that fits is answered.
   */
  lemma NotDueYetIff(lim: Limits, level0: real, n: int, polls: nat)
    requires lim.rate > 0.0 && level0 < n as real
    ensures (forall i: nat :: i < polls ==> LevelAfter(lim, level0, Poll(i)) < n as real) <==>
            n > lim.capacity || polls == 0 || Poll(polls - 1) < Wait(lim.rate, n as real - level0)
  {
    forall i: nat | i < polls
      ensures LevelAfter(lim, level0, Poll(i)) < n as real <==>
              n > lim.capacity || Poll(i) < Wait(lim.rate, n as real - level0)
    {
      DueIff(lim, level0, n, Poll(i));
      assert i <= polls - 1 && Poll(i) <= Poll(polls - 1);
    }
  }
}
