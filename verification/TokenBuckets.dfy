/**
 The in-memory token bucket (core/utils/rate_limiter.py).

 Time and tokens are reals.  Every critical section guarded by the bucket's lock is one atomic
 step, so a run of a shared bucket is a sequence of timed events.  The main results describe
 the level of the bucket after any run by the set of all windows of the past.
 */
module TokenBuckets {
  import opened Basics
  import opened Reflections

  /** `Limits` are the constructor's arguments, after its range checks. */
  datatype Limits = Limits(rate: real, capacity: nat) {
    predicate Valid() { rate >= 0.0 }
  }

  datatype BucketState = BucketState(tokens: real, lastRefill: real)

  /** The tokens that flow in from one time to another. */
  function Flow(rate: real, from: real, to: real): real { (to - from) * rate }

  function Full(lim: Limits, now: real): BucketState {
    BucketState(lim.capacity as real, now)
  }

  function Refill(lim: Limits, s: BucketState, now: real): BucketState {
    BucketState(Min(lim.capacity as real, s.tokens + Flow(lim.rate, s.lastRefill, now)), now)
  }

  /** One locked section of `acquire`: refill, then take `n` tokens if they are there. */
  function Take(lim: Limits, s: BucketState, now: real, n: int): (r: (BucketState, bool)) {
    var s' := Refill(lim, s, now);
    if s'.tokens >= n as real then (s'.(tokens := s'.tokens - n as real), true) else (s', false)
  }

  // ----- Runs of a shared bucket -----

  datatype Event = Acquire(time: real, n: int) | Available(time: real)

  /** The events happen in clock order, none before the bucket was made. */
  ghost predicate Ordered(start: real, es: seq<Event>) {
    && (forall i :: 0 <= i < |es| ==> start <= es[i].time)
    && (forall i, j :: 0 <= i < j < |es| ==> es[i].time <= es[j].time)
  }

  function Step(lim: Limits, s: BucketState, e: Event): (BucketState, bool) {
    match e
    case Acquire(t, n) => Take(lim, s, t, n)
    case Available(t) => (Refill(lim, s, t), false)
  }

  /** The bucket after the first `k` events of a run that begins with a full bucket. */
  function At(lim: Limits, start: real, es: seq<Event>, k: nat): BucketState
    requires k <= |es|
  {
    if k == 0 then Full(lim, start) else Step(lim, At(lim, start, es, k - 1), es[k - 1]).0
  }

  predicate Accepted(lim: Limits, start: real, es: seq<Event>, k: nat)
    requires k < |es|
  {
    Step(lim, At(lim, start, es, k), es[k]).1
  }

  // A run has one point per event, and point 0 for the making of the bucket.

  function PointTime(start: real, es: seq<Event>, i: nat): real
    requires i <= |es|
  {
    if i == 0 then start else es[i - 1].time
  }

  /** The tokens handed out at point `i`. */
  function Grant(lim: Limits, start: real, es: seq<Event>, i: nat): real
    requires i <= |es|
  {
    if i > 0 && Accepted(lim, start, es, i - 1) then es[i - 1].n as real else 0.0
  }

  function Granted(lim: Limits, start: real, es: seq<Event>): (gs: seq<real>)
    ensures |gs| == |es| + 1
  {
    seq(|es| + 1, i requires 0 <= i <= |es| => Grant(lim, start, es, i))
  }

  /** The tokens handed out from point `i` up to, and not including, point `k`. */
  function Spent(lim: Limits, start: real, es: seq<Event>, i: nat, k: nat): real
    requires i <= k <= |es| + 1
  {
    Sum(Granted(lim, start, es), i, k)
  }

  /** The level of the bucket at point `k`, refilled and before anything is taken. */
  function Level(lim: Limits, start: real, es: seq<Event>, k: nat): real
    requires k <= |es|
  {
    if k == 0 then lim.capacity as real
    else Refill(lim, At(lim, start, es, k - 1), es[k - 1].time).tokens
  }

  function Levels(lim: Limits, start: real, es: seq<Event>): (ls: seq<real>)
    ensures |ls| == |es| + 1
  {
    seq(|es| + 1, i requires 0 <= i <= |es| => Level(lim, start, es, i))
  }

  /** What flows in between point `k` and the next. */
  function Inflow(lim: Limits, start: real, es: seq<Event>, k: nat): real
    requires k < |es|
  {
    Flow(lim.rate, PointTime(start, es, k), es[k].time)
  }

  function Inflows(lim: Limits, start: real, es: seq<Event>): (fs: seq<real>)
    ensures |fs| == |es|
  {
    seq(|es|, k requires 0 <= k < |es| => Inflow(lim, start, es, k))
  }

  lemma FlowGrows(rate: real, lo: real, a: real, b: real, hi: real)
    requires rate >= 0.0 && lo <= a <= b <= hi
    ensures 0.0 <= Flow(rate, a, b) <= Flow(rate, lo, hi)
  {
    assert rate * (b - a) <= rate * (hi - lo) by { assert b - a <= hi - lo; }
  }

  lemma FlowAdds(rate: real, a: real, b: real, c: real)
    ensures Flow(rate, a, c) == Flow(rate, a, b) + Flow(rate, b, c)
  {
  }

  lemma {:induction false} InflowOverWindow(lim: Limits, start: real, es: seq<Event>, i: nat, k: nat)
    requires i <= k <= |es|
    ensures Sum(Inflows(lim, start, es), i, k)
         == Flow(lim.rate, PointTime(start, es, i), PointTime(start, es, k))
  {
    if i == k {
    } else {
      InflowOverWindow(lim, start, es, i, k - 1);
      FlowAdds(lim.rate, PointTime(start, es, i), PointTime(start, es, k - 1), PointTime(start, es, k));
    }
  }

  /** The last refill is the last point, and what is left there is the level less the grant. */
  lemma AfterPoint(lim: Limits, start: real, es: seq<Event>, k: nat)
    requires k <= |es|
    ensures At(lim, start, es, k).lastRefill == PointTime(start, es, k)
    ensures At(lim, start, es, k).tokens == Level(lim, start, es, k) - Grant(lim, start, es, k)
  {
  }

  lemma LevelsAreReflected(lim: Limits, start: real, es: seq<Event>)
    ensures Reflected(lim.capacity as real, Levels(lim, start, es),
                      Inflows(lim, start, es), Granted(lim, start, es))
  {
    forall k | 0 <= k < |es|
      ensures Level(lim, start, es, k + 1)
           == Min(lim.capacity as real,
                  Level(lim, start, es, k) - Grant(lim, start, es, k) + Inflow(lim, start, es, k))
    {
      AfterPoint(lim, start, es, k);
    }
  }

  /** What the window from point `i` to point `k` still allows: a burst, and the flow of its length. */
  function Allowance(lim: Limits, start: real, es: seq<Event>, i: nat, k: nat): real
    requires i <= k <= |es|
  {
    lim.capacity as real
    + Flow(lim.rate, PointTime(start, es, i), PointTime(start, es, k))
    - Spent(lim, start, es, i, k)
  }

  function BalanceAt(lim: Limits, start: real, es: seq<Event>, i: nat, k: nat): real
    requires i <= k <= |es|
  {
    Balance(lim.capacity as real, Inflows(lim, start, es), Granted(lim, start, es), i, k)
  }

  lemma BalanceIsAllowance(lim: Limits, start: real, es: seq<Event>, i: nat, k: nat)
    requires i <= k <= |es|
    ensures BalanceAt(lim, start, es, i, k) == Allowance(lim, start, es, i, k)
  {
    InflowOverWindow(lim, start, es, i, k);
  }

  lemma LevelBelow(lim: Limits, start: real, es: seq<Event>, i: nat, k: nat)
    requires i <= k <= |es|
    ensures Levels(lim, start, es)[k] <= Allowance(lim, start, es, i, k)
  {
    LevelsAreReflected(lim, start, es);
    LevelIsLeastBalance(lim.capacity as real, Levels(lim, start, es),
                        Inflows(lim, start, es), Granted(lim, start, es), k);
    assert Levels(lim, start, es)[k] <= BalanceAt(lim, start, es, i, k);
    BalanceIsAllowance(lim, start, es, i, k);
  }

  lemma LevelReached(lim: Limits, start: real, es: seq<Event>, k: nat) returns (i: nat)
    requires k <= |es|
    ensures i <= k && Levels(lim, start, es)[k] == Allowance(lim, start, es, i, k)
  {
    LevelsAreReflected(lim, start, es);
    LevelIsLeastBalance(lim.capacity as real, Levels(lim, start, es),
                        Inflows(lim, start, es), Granted(lim, start, es), k);
    i :| 0 <= i <= k && Levels(lim, start, es)[k]
          == Balance(lim.capacity as real, Inflows(lim, start, es), Granted(lim, start, es), i, k);
    BalanceIsAllowance(lim, start, es, i, k);
  }

  /**
   The level is the least allowance over all windows that end now: it is below every one of them
   and it is one of them.  No order of the times is needed.
   */
  lemma LevelIsLeastAllowance(lim: Limits, start: real, es: seq<Event>, k: nat)
    requires k <= |es|
    ensures forall i :: 0 <= i <= k ==> Level(lim, start, es, k) <= Allowance(lim, start, es, i, k)
    ensures exists i :: 0 <= i <= k && Level(lim, start, es, k) == Allowance(lim, start, es, i, k)
  {
    assert Level(lim, start, es, k) == Levels(lim, start, es)[k];
    forall i | 0 <= i <= k
      ensures Level(lim, start, es, k) <= Allowance(lim, start, es, i, k)
    {
      LevelBelow(lim, start, es, i, k);
    }
    var j := LevelReached(lim, start, es, k);
  }

  /** Granting `n` at the time of event `k` keeps the window that began at point `i` in its bound. */
  ghost predicate WindowAllows(lim: Limits, start: real, es: seq<Event>, i: nat, k: nat, n: int)
    requires i <= k + 1 <= |es|
  {
    Spent(lim, start, es, i, k + 1) + n as real
    <= lim.capacity as real + lim.rate * (es[k].time - PointTime(start, es, i))
  }

  lemma WindowAllowsIffAllowance(lim: Limits, start: real, es: seq<Event>, i: nat, k: nat, n: int)
    requires i <= k + 1 <= |es|
    ensures WindowAllows(lim, start, es, i, k, n) <==> n as real <= Allowance(lim, start, es, i, k + 1)
  {
    assert Flow(lim.rate, PointTime(start, es, i), es[k].time) == lim.rate * (es[k].time - PointTime(start, es, i));
  }

  lemma AcceptedIffLevel(lim: Limits, start: real, es: seq<Event>, k: nat)
    requires k < |es| && es[k].Acquire?
    ensures Accepted(lim, start, es, k) <==> Levels(lim, start, es)[k + 1] >= es[k].n as real
  {
  }

  /**
   A request is accepted exactly when granting it keeps every window of the past within
   capacity + rate * length: the bucket never over-issues, and never refuses without need.
   */
  lemma AcceptedIffEveryWindowAllows(lim: Limits, start: real, es: seq<Event>, k: nat)
    requires k < |es| && es[k].Acquire?
    ensures Accepted(lim, start, es, k) <==>
            forall i :: 0 <= i <= k + 1 ==> WindowAllows(lim, start, es, i, k, es[k].n)
  {
    AcceptedIffLevel(lim, start, es, k);
    if Accepted(lim, start, es, k) {
      forall i | 0 <= i <= k + 1 ensures WindowAllows(lim, start, es, i, k, es[k].n) {
        LevelBelow(lim, start, es, i, k + 1);
        WindowAllowsIffAllowance(lim, start, es, i, k, es[k].n);
      }
    } else {
      var j := LevelReached(lim, start, es, k + 1);
      WindowAllowsIffAllowance(lim, start, es, j, k, es[k].n);
    }
  }

  // ----- The rate guarantee, over windows of real time -----

  /** The tokens handed out at points before `m` whose time lies in [lo, hi]. */
  function SpentBetween(lim: Limits, start: real, es: seq<Event>, lo: real, hi: real, m: nat): real
    requires m <= |es| + 1
  {
    if m == 0 then 0.0
    else SpentBetween(lim, start, es, lo, hi, m - 1)
         + if lo <= PointTime(start, es, m - 1) <= hi then Grant(lim, start, es, m - 1) else 0.0
  }

  lemma PointsOrdered(start: real, es: seq<Event>)
    requires Ordered(start, es)
    ensures forall i, j :: 0 <= i <= j <= |es| ==> PointTime(start, es, i) <= PointTime(start, es, j)
  {
  }

  /** The points of a window of real time are consecutive. */
  lemma {:induction false} WindowIsConsecutive(
    lim: Limits, start: real, es: seq<Event>, lo: real, hi: real, m: nat) returns (i: nat, k: nat)
    requires m <= |es| + 1 && Ordered(start, es) && lo <= hi
    ensures i <= k <= m
    ensures forall j :: i <= j < k ==> lo <= PointTime(start, es, j) <= hi
    ensures forall j :: k <= j < m ==> hi < PointTime(start, es, j)
    ensures SpentBetween(lim, start, es, lo, hi, m) == Spent(lim, start, es, i, k)
  {
    if m == 0 {
      i, k := 0, 0;
    } else {
      i, k := WindowIsConsecutive(lim, start, es, lo, hi, m - 1);
      PointsOrdered(start, es);
      var p := PointTime(start, es, m - 1);
      if p < lo {
        i, k := m, m;
      } else if p <= hi {
        k := m;
      }
    }
  }

  lemma LevelNeverNegative(lim: Limits, start: real, es: seq<Event>, k: nat)
    requires lim.Valid() && Ordered(start, es) && k <= |es|
    ensures Level(lim, start, es, k) >= 0.0
  {
    LevelsAreReflected(lim, start, es);
    PointsOrdered(start, es);
    forall j | 0 <= j < |es| ensures Inflow(lim, start, es, j) >= 0.0 {
      FlowGrows(lim.rate, PointTime(start, es, j), PointTime(start, es, j), es[j].time, es[j].time);
    }
    LevelNonNegative(lim.capacity as real, Levels(lim, start, es),
                     Inflows(lim, start, es), Granted(lim, start, es), k);
  }

  lemma GrantWithinLevel(lim: Limits, start: real, es: seq<Event>, k: nat)
    requires k <= |es|
    ensures Grant(lim, start, es, k) <= Levels(lim, start, es)[k] || Grant(lim, start, es, k) == 0.0
  {
  }

  /** The tokens handed out from point `i` to point `k`, both included. */
  lemma SpentWithinFlow(lim: Limits, start: real, es: seq<Event>, i: nat, k: nat)
    requires lim.Valid() && Ordered(start, es) && i <= k <= |es|
    ensures Spent(lim, start, es, i, k + 1)
         <= lim.capacity as real + Flow(lim.rate, PointTime(start, es, i), PointTime(start, es, k))
  {
    LevelNeverNegative(lim, start, es, k);
    GrantWithinLevel(lim, start, es, k);
    LevelBelow(lim, start, es, i, k);
  }

  /**
   The promise of the limiter: in any interval of real time, whatever the requests, no more than
   capacity + rate * length tokens are handed out, net of what requests for negative amounts put back.
   */
  lemma RateGuarantee(lim: Limits, start: real, es: seq<Event>, lo: real, hi: real)
    requires lim.Valid() && Ordered(start, es) && lo <= hi
    ensures SpentBetween(lim, start, es, lo, hi, |es| + 1)
         <= lim.capacity as real + lim.rate * (hi - lo)
  {
    assert Flow(lim.rate, lo, hi) == lim.rate * (hi - lo);
    var i, k := WindowIsConsecutive(lim, start, es, lo, hi, |es| + 1);
    if i < k {
      SpentWithinFlow(lim, start, es, i, k - 1);
      PointsOrdered(start, es);
      FlowGrows(lim.rate, lo, PointTime(start, es, i), PointTime(start, es, k - 1), hi);
    } else {
      FlowGrows(lim.rate, lo, lo, lo, hi);
    }
  }

  /** The tokens handed out in [lo, hi] at points before `m`, without what is put back. */
  function HandedBetween(lim: Limits, start: real, es: seq<Event>, lo: real, hi: real, m: nat): real
    requires m <= |es| + 1
  {
    if m == 0 then 0.0
    else HandedBetween(lim, start, es, lo, hi, m - 1)
         + if lo <= PointTime(start, es, m - 1) <= hi && Grant(lim, start, es, m - 1) > 0.0
           then Grant(lim, start, es, m - 1) else 0.0
  }

  ghost predicate AsksForNoLess(es: seq<Event>) {
    forall i :: 0 <= i < |es| && es[i].Acquire? ==> es[i].n >= 0
  }

  lemma {:induction false} NothingPutBack(lim: Limits, start: real, es: seq<Event>, lo: real, hi: real, m: nat)
    requires m <= |es| + 1 && AsksForNoLess(es)
    ensures HandedBetween(lim, start, es, lo, hi, m) == SpentBetween(lim, start, es, lo, hi, m)
  {
    if m == 0 {
    } else {
      NothingPutBack(lim, start, es, lo, hi, m - 1);
    }
  }

  /** With requests that are not negative the promise is about every token handed out. */
  lemma GrossRateGuarantee(lim: Limits, start: real, es: seq<Event>, lo: real, hi: real)
    requires lim.Valid() && Ordered(start, es) && lo <= hi && AsksForNoLess(es)
    ensures HandedBetween(lim, start, es, lo, hi, |es| + 1) <= lim.capacity as real + lim.rate * (hi - lo)
  {
    NothingPutBack(lim, start, es, lo, hi, |es| + 1);
    RateGuarantee(lim, start, es, lo, hi);
  }

  /** Take all, put it back, take all again. */
  function TakeTwice(lim: Limits): seq<Event> {
    [Acquire(0.0, lim.capacity), Acquire(0.0, 0 - lim.capacity as int), Acquire(0.0, lim.capacity)]
  }

  lemma RefillNow(lim: Limits, tokens: real)
    requires tokens <= lim.capacity as real
    ensures Refill(lim, BucketState(tokens, 0.0), 0.0) == BucketState(tokens, 0.0)
  {
    assert Flow(lim.rate, 0.0, 0.0) == 0.0;
  }

  lemma AtThree(lim: Limits, es: seq<Event>)
    requires |es| == 3
    ensures At(lim, 0.0, es, 0) == Full(lim, 0.0)
    ensures At(lim, 0.0, es, 1) == Step(lim, At(lim, 0.0, es, 0), es[0]).0
    ensures At(lim, 0.0, es, 2) == Step(lim, At(lim, 0.0, es, 1), es[1]).0
  {
  }

  /** A request for a negative amount gets round it: twice the capacity is handed out at one instant. */
  lemma NegativeRequestsGetRoundIt(lim: Limits)
    requires lim.Valid() && lim.capacity > 0
    ensures var es := TakeTwice(lim);
            && Ordered(0.0, es)
            && HandedBetween(lim, 0.0, es, 0.0, 0.0, 4) == 2.0 * lim.capacity as real
            && 2.0 * lim.capacity as real > lim.capacity as real + lim.rate * (0.0 - 0.0)
  {
    var es, c := TakeTwice(lim), lim.capacity as real;
    AtThree(lim, es);
    RefillNow(lim, c);
    RefillNow(lim, 0.0);
    assert At(lim, 0.0, es, 1) == BucketState(0.0, 0.0);
    assert At(lim, 0.0, es, 2) == BucketState(c, 0.0);
    HandedFour(lim, es);
    assert Grant(lim, 0.0, es, 1) == c && Grant(lim, 0.0, es, 2) == -c && Grant(lim, 0.0, es, 3) == c;
    assert Flow(lim.rate, 0.0, 0.0) == 0.0;
  }

  function Gross(r: real): real { if r > 0.0 then r else 0.0 }

  lemma HandedFour(lim: Limits, es: seq<Event>)
    requires |es| == 3 && es[0].time == es[1].time == es[2].time == 0.0
    ensures HandedBetween(lim, 0.0, es, 0.0, 0.0, 4)
         == Gross(Grant(lim, 0.0, es, 1)) + Gross(Grant(lim, 0.0, es, 2)) + Gross(Grant(lim, 0.0, es, 3))
  {
    assert HandedBetween(lim, 0.0, es, 0.0, 0.0, 0) == 0.0;
    assert HandedBetween(lim, 0.0, es, 0.0, 0.0, 1) == 0.0;
    assert HandedBetween(lim, 0.0, es, 0.0, 0.0, 2) == Gross(Grant(lim, 0.0, es, 1));
    assert HandedBetween(lim, 0.0, es, 0.0, 0.0, 3)
        == Gross(Grant(lim, 0.0, es, 1)) + Gross(Grant(lim, 0.0, es, 2));
  }

  // ----- Only grants matter -----

  /** The accepted requests among the first `k` events, in order. */
  function Grants(lim: Limits, start: real, es: seq<Event>, k: nat): (gs: seq<Event>)
    requires k <= |es|
    ensures |gs| <= k
  {
    if k == 0 then []
    else Grants(lim, start, es, k - 1) + if Accepted(lim, start, es, k - 1) then [es[k - 1]] else []
  }

  lemma {:induction false} AtPrefix(lim: Limits, start: real, es: seq<Event>, more: seq<Event>, k: nat)
    requires k <= |es|
    ensures At(lim, start, es + more, k) == At(lim, start, es, k)
  {
    if k == 0 {
    } else {
      AtPrefix(lim, start, es, more, k - 1);
    }
  }

  /** Two refills in a row are one. */
  lemma RefillTwice(lim: Limits, s: BucketState, now: real, later: real)
    requires lim.Valid() && now <= later
    ensures Refill(lim, Refill(lim, s, now), later) == Refill(lim, s, later)
  {
    FlowAdds(lim.rate, s.lastRefill, now, later);
    FlowGrows(lim.rate, now, now, later, later);
  }

  /** An event that takes nothing only refills. */
  lemma RejectedOnlyRefills(lim: Limits, start: real, es: seq<Event>, k: nat)
    requires k < |es| && !Accepted(lim, start, es, k)
    ensures At(lim, start, es, k + 1) == Refill(lim, At(lim, start, es, k), es[k].time)
  {
  }

  /** What a request does depends only on the bucket as refilled at its time. */
  lemma StepFromRefill(lim: Limits, s: BucketState, s': BucketState, e: Event)
    requires Refill(lim, s, e.time) == Refill(lim, s', e.time)
    ensures Step(lim, s, e) == Step(lim, s', e)
  {
  }

  /**
   The accepted requests among the first `k` events, made alone, are all accepted again and leave
   the bucket with the same level at time `now`.
   */
  ghost predicate GrantsExplain(lim: Limits, start: real, es: seq<Event>, k: nat, now: real)
    requires k <= |es|
  {
    var gs := Grants(lim, start, es, k);
    && Refill(lim, At(lim, start, gs, |gs|), now) == Refill(lim, At(lim, start, es, k), now)
    && (forall i :: 0 <= i < |gs| ==> Accepted(lim, start, gs, i))
  }

  lemma RejectedExplained(lim: Limits, start: real, es: seq<Event>, k: nat, now: real)
    requires lim.Valid() && k < |es| && es[k].time <= now && !Accepted(lim, start, es, k)
    requires GrantsExplain(lim, start, es, k, now)
    ensures GrantsExplain(lim, start, es, k + 1, now)
  {
    assert Grants(lim, start, es, k + 1) == Grants(lim, start, es, k);
    RejectedOnlyRefills(lim, start, es, k);
    RefillTwice(lim, At(lim, start, es, k), es[k].time, now);
  }

  lemma GrantExplained(lim: Limits, start: real, es: seq<Event>, k: nat, now: real)
    requires k < |es| && Accepted(lim, start, es, k)
    requires GrantsExplain(lim, start, es, k, es[k].time)
    ensures GrantsExplain(lim, start, es, k + 1, now)
  {
    var gs, e := Grants(lim, start, es, k), es[k];
    assert Grants(lim, start, es, k + 1) == gs + [e];
    StepFromRefill(lim, At(lim, start, gs, |gs|), At(lim, start, es, k), e);
    AtPrefix(lim, start, gs, [e], |gs|);
    forall i | 0 <= i < |gs| ensures Accepted(lim, start, gs + [e], i) {
      AtPrefix(lim, start, gs, [e], i);
      assert Accepted(lim, start, gs, i);
    }
  }

  /**
   Rejected requests and `available()` calls leave no trace: at any later time the bucket holds
   what it would hold had only the accepted requests been made.
   */
  lemma {:induction false} OnlyGrantsMatter(lim: Limits, start: real, es: seq<Event>, k: nat, now: real)
    requires lim.Valid() && Ordered(start, es) && k <= |es| && PointTime(start, es, k) <= now
    ensures GrantsExplain(lim, start, es, k, now)
    decreases k
  {
    if k == 0 {
    } else {
      PointsOrdered(start, es);
      if Accepted(lim, start, es, k - 1) {
        OnlyGrantsMatter(lim, start, es, k - 1, es[k - 1].time);
        GrantExplained(lim, start, es, k - 1, now);
      } else {
        OnlyGrantsMatter(lim, start, es, k - 1, now);
        RejectedExplained(lim, start, es, k - 1, now);
      }
    }
  }
}
