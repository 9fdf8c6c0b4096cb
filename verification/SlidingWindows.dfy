/**
 The sliding window limiter (core/utils/rate_limiter.py): the limiter keeps only the accepted
 times that are still inside its window, and is compared with one that never forgets.
 */
module SlidingWindows {
  import opened Options
  import opened Clocks
  import opened Basics

  datatype Shape = Shape(rate: real, window: real)

  /** Those of the first `n` times that are after `cutoff`, in order. */
  function PruneFirst(times: seq<real>, cutoff: real, n: nat): seq<real>
    requires n <= |times|
  {
    if n == 0 then []
    else PruneFirst(times, cutoff, n - 1) + if times[n - 1] > cutoff then [times[n - 1]] else []
  }

  function Prune(times: seq<real>, cutoff: real): seq<real> { PruneFirst(times, cutoff, |times|) }

  /** The part of `acquire` under the lock, at the time read just before. */
  function Admit(sh: Shape, requests: seq<real>, now: real): (seq<real>, bool) {
    var live := Prune(requests, now - sh.window);
    if |live| as real < sh.rate then (live + [now], true) else (live, false)
  }

  // ----- Runs -----

  datatype Event = Acquire(time: real) | Available(time: real)

  ghost predicate Ordered(es: seq<Event>) {
    forall i, j :: 0 <= i < j < |es| ==> es[i].time <= es[j].time
  }

  function Step(sh: Shape, requests: seq<real>, e: Event): (seq<real>, bool) {
    match e
    case Acquire(t) => Admit(sh, requests, t)
    case Available(t) => (Prune(requests, t - sh.window), false)
  }

  /** The limiter's list after the first `k` events. */
  function ListAt(sh: Shape, es: seq<Event>, k: nat): seq<real>
    requires k <= |es|
  {
    if k == 0 then [] else Step(sh, ListAt(sh, es, k - 1), es[k - 1]).0
  }

  predicate Accepted(sh: Shape, es: seq<Event>, k: nat)
    requires k < |es|
  {
    Step(sh, ListAt(sh, es, k), es[k]).1
  }

  function AcceptedTime(sh: Shape, requests: seq<real>, e: Event): seq<real> {
    if Step(sh, requests, e).1 then [e.time] else []
  }

  /** Every accepted time among the first `k` events, none forgotten. */
  function History(sh: Shape, es: seq<Event>, k: nat): seq<real>
    requires k <= |es|
  {
    if k == 0 then []
    else History(sh, es, k - 1) + AcceptedTime(sh, ListAt(sh, es, k - 1), es[k - 1])
  }

  /** How many of the first `n` times lie in (lo, hi]. */
  function CountFirst(times: seq<real>, lo: real, hi: real, n: nat): nat
    requires n <= |times|
  {
    if n == 0 then 0
    else CountFirst(times, lo, hi, n - 1) + if lo < times[n - 1] <= hi then 1 else 0
  }

  function CountIn(times: seq<real>, lo: real, hi: real): nat { CountFirst(times, lo, hi, |times|) }

  // ----- The pruned list decides like the full history -----

  lemma {:induction false} PrunePrefix(times: seq<real>, more: seq<real>, cutoff: real, n: nat)
    requires n <= |times|
    ensures PruneFirst(times + more, cutoff, n) == PruneFirst(times, cutoff, n)
  {
    if n == 0 {
    } else {
      PrunePrefix(times, more, cutoff, n - 1);
    }
  }

  lemma PruneSnoc(times: seq<real>, t: real, cutoff: real)
    ensures Prune(times + [t], cutoff) == Prune(times, cutoff) + if t > cutoff then [t] else []
  {
    PrunePrefix(times, [t], cutoff, |times|);
  }

  lemma {:induction false} PruneFirstTwice(times: seq<real>, early: real, late: real, n: nat)
    requires early <= late && n <= |times|
    ensures Prune(PruneFirst(times, early, n), late) == PruneFirst(times, late, n)
  {
    if n == 0 {
    } else {
      PruneFirstTwice(times, early, late, n - 1);
      if times[n - 1] > early {
        PruneSnoc(PruneFirst(times, early, n - 1), times[n - 1], late);
      } else {
        assert PruneFirst(times, early, n) == PruneFirst(times, early, n - 1);
        assert PruneFirst(times, late, n) == PruneFirst(times, late, n - 1);
      }
    }
  }

  lemma PruneTwice(times: seq<real>, early: real, late: real)
    requires early <= late
    ensures Prune(Prune(times, early), late) == Prune(times, late)
  {
    PruneFirstTwice(times, early, late, |times|);
  }

  /** One event keeps a list and a history in agreement from the new cutoff on. */
  lemma StepAgrees(sh: Shape, list: seq<real>, past: seq<real>, e: Event, cutoff: real)
    requires Prune(list, cutoff) == Prune(past, cutoff)
    requires e.time - sh.window <= cutoff
    ensures Prune(Step(sh, list, e).0, cutoff) == Prune(past + AcceptedTime(sh, list, e), cutoff)
  {
    PruneTwice(list, e.time - sh.window, cutoff);
    if Step(sh, list, e).1 {
      PruneSnoc(Prune(list, e.time - sh.window), e.time, cutoff);
      PruneSnoc(past, e.time, cutoff);
    } else {
      assert past + AcceptedTime(sh, list, e) == past;
    }
  }

  /** From any cutoff not before the last one on, the list and the history agree. */
  lemma {:induction false} ListAgreesWithHistory(sh: Shape, es: seq<Event>, k: nat, cutoff: real)
    requires Ordered(es) && k <= |es|
    requires k > 0 ==> es[k - 1].time - sh.window <= cutoff
    ensures Prune(ListAt(sh, es, k), cutoff) == Prune(History(sh, es, k), cutoff)
    decreases k
  {
    if k == 0 {
    } else {
      var list, past := ListAt(sh, es, k - 1), History(sh, es, k - 1);
      ListAgreesWithHistory(sh, es, k - 1, cutoff);
      StepAgrees(sh, list, past, es[k - 1], cutoff);
    }
  }

  lemma TimesOrdered(es: seq<Event>, i: nat, j: nat)
    requires Ordered(es) && i <= j < |es|
    ensures es[i].time <= es[j].time
  {
  }

  /** The window before `now` holds fewer accepted requests than the rate. */
  predicate HistoryAllows(sh: Shape, past: seq<real>, now: real) {
    |Prune(past, now - sh.window)| as real < sh.rate
  }

  lemma AdmitsAlike(sh: Shape, list: seq<real>, past: seq<real>, e: Event)
    requires e.Acquire? && Prune(list, e.time - sh.window) == Prune(past, e.time - sh.window)
    ensures Step(sh, list, e).1 <==> HistoryAllows(sh, past, e.time)
  {
  }

  lemma {:induction false} PruneCounts(times: seq<real>, cutoff: real, now: real, n: nat)
    requires n <= |times| && forall i :: 0 <= i < n ==> times[i] <= now
    ensures |PruneFirst(times, cutoff, n)| == CountFirst(times, cutoff, now, n)
  {
    if n == 0 {
    } else {
      PruneCounts(times, cutoff, now, n - 1);
    }
  }

  lemma {:induction false} HistoryNotAhead(sh: Shape, es: seq<Event>, k: nat, now: real)
    requires Ordered(es) && k <= |es| && (k > 0 ==> es[k - 1].time <= now)
    ensures forall i :: 0 <= i < |History(sh, es, k)| ==> History(sh, es, k)[i] <= now
  {
    if k == 0 {
    } else {
      HistoryNotAhead(sh, es, k - 1, now);
    }
  }

  /** Forgetting is safe: a request is accepted iff the full history of the window is short of the rate. */
  lemma AcceptedIffHistoryAllows(sh: Shape, es: seq<Event>, k: nat)
    requires Ordered(es) && k < |es| && es[k].Acquire?
    ensures Accepted(sh, es, k) <==> HistoryAllows(sh, History(sh, es, k), es[k].time)
  {
    if k > 0 { TimesOrdered(es, k - 1, k); }
    ListAgreesWithHistory(sh, es, k, es[k].time - sh.window);
    AdmitsAlike(sh, ListAt(sh, es, k), History(sh, es, k), es[k]);
  }

  /** In numbers: fewer requests have been accepted after `now` - window and up to `now` than the rate. */
  lemma AcceptedIffCountAllows(sh: Shape, es: seq<Event>, k: nat)
    requires Ordered(es) && k < |es| && es[k].Acquire?
    ensures Accepted(sh, es, k)
            <==> CountIn(History(sh, es, k), es[k].time - sh.window, es[k].time) as real < sh.rate
  {
    AcceptedIffHistoryAllows(sh, es, k);
    if k > 0 { TimesOrdered(es, k - 1, k); }
    HistoryNotAhead(sh, es, k, es[k].time);
    PruneCounts(History(sh, es, k), es[k].time - sh.window, es[k].time, |History(sh, es, k)|);
  }

  // ----- No window is over-full -----

  lemma {:induction false} CountWithinPrune(times: seq<real>, cutoff: real, lo: real, hi: real, n: nat)
    requires cutoff <= lo && n <= |times|
    ensures CountFirst(times, lo, hi, n) <= |PruneFirst(times, cutoff, n)|
  {
    if n == 0 {
    } else {
      CountWithinPrune(times, cutoff, lo, hi, n - 1);
    }
  }

  lemma {:induction false} CountPrefix(times: seq<real>, more: seq<real>, lo: real, hi: real, n: nat)
    requires n <= |times|
    ensures CountFirst(times + more, lo, hi, n) == CountFirst(times, lo, hi, n)
  {
    if n == 0 {
    } else {
      CountPrefix(times, more, lo, hi, n - 1);
    }
  }

  lemma CountSnoc(times: seq<real>, t: real, lo: real, hi: real)
    ensures CountIn(times + [t], lo, hi) == CountIn(times, lo, hi) + if lo < t <= hi then 1 else 0
  {
    CountPrefix(times, [t], lo, hi, |times|);
  }

  function MostInWindow(rate: real): int { if rate > 0.0 then Ceiling(rate) else 0 }

  /** One more accepted time, `now`, when the live history is short of the rate. */
  lemma OneMoreWithinRate(sh: Shape, past: seq<real>, now: real, t: real)
    requires HistoryAllows(sh, past, now)
    requires CountIn(past, t - sh.window, t) <= MostInWindow(sh.rate)
    ensures CountIn(past + [now], t - sh.window, t) <= MostInWindow(sh.rate)
  {
    CountSnoc(past, now, t - sh.window, t);
    if t - sh.window < now <= t {
      CountWithinPrune(past, now - sh.window, t - sh.window, t, |past|);
    }
  }

  lemma NextWithinRate(sh: Shape, list: seq<real>, past: seq<real>, e: Event, t: real)
    requires Prune(list, e.time - sh.window) == Prune(past, e.time - sh.window)
    requires CountIn(past, t - sh.window, t) <= MostInWindow(sh.rate)
    ensures CountIn(past + AcceptedTime(sh, list, e), t - sh.window, t) <= MostInWindow(sh.rate)
  {
    if Step(sh, list, e).1 {
      AdmitsAlike(sh, list, past, e);
      OneMoreWithinRate(sh, past, e.time, t);
    } else {
      assert past + AcceptedTime(sh, list, e) == past;
    }
  }

  /**
   In any run every window (t - window, t], wherever it ends, holds at most ceil(rate) accepted
   requests, and none at all if the rate is not positive.
   */
  lemma {:induction false} EveryWindowWithinRate(sh: Shape, es: seq<Event>, k: nat, t: real)
    requires Ordered(es) && k <= |es|
    ensures CountIn(History(sh, es, k), t - sh.window, t) <= MostInWindow(sh.rate)
    decreases k
  {
    if k == 0 {
    } else {
      EveryWindowWithinRate(sh, es, k - 1, t);
      if k > 1 { TimesOrdered(es, k - 2, k - 1); }
      ListAgreesWithHistory(sh, es, k - 1, es[k - 1].time - sh.window);
      NextWithinRate(sh, ListAt(sh, es, k - 1), History(sh, es, k - 1), es[k - 1], t);
    }
  }

  // ----- What `available` reports -----

  /** Python's `int` on a float: truncation toward zero. */
  function Truncate(r: real): int { if r >= 0.0 then r.Floor else -((-r).Floor) }

  predicate Foretells(rate: real, len: nat) {
    len as real < rate <==> Truncate(rate - len as real) >= 1
  }

  /** The slots that `available` reports at `now` after the run. */
  function Reported(sh: Shape, es: seq<Event>, now: real): int {
    Truncate(sh.rate - |Step(sh, ListAt(sh, es, |es|), Available(now)).0| as real)
  }

  /** Whether a request at `now` after the run is accepted. */
  predicate WouldAccept(sh: Shape, es: seq<Event>, now: real) {
    Step(sh, ListAt(sh, es, |es|), Acquire(now)).1
  }

  lemma ForetellsLength(sh: Shape, es: seq<Event>, now: real)
    ensures (WouldAccept(sh, es, now) <==> Reported(sh, es, now) >= 1)
            <==> Foretells(sh.rate, |Prune(ListAt(sh, es, |es|), now - sh.window)|)
  {
  }

  /** A reported slot can always be had: only a report of none can be wrong. */
  lemma ReportedSlotIsFree(sh: Shape, es: seq<Event>, now: real)
    ensures Reported(sh, es, now) >= 1 ==> WouldAccept(sh, es, now)
  {
  }

  /** `n` is `r` cut off toward zero. */
  predicate CutOff(r: real, n: int) {
    if r >= 0.0 then n as real <= r < n as real + 1.0 else n as real - 1.0 < r <= n as real
  }

  lemma TruncateCutsOff(r: real)
    ensures CutOff(r, Truncate(r))
  {
  }

  lemma LiveAreCounted(sh: Shape, es: seq<Event>, now: real)
    requires RunUpTo(es, now)
    ensures |Prune(ListAt(sh, es, |es|), now - sh.window)|
         == CountIn(History(sh, es, |es|), now - sh.window, now)
  {
    ListAgreesWithHistory(sh, es, |es|, now - sh.window);
    HistoryNotAhead(sh, es, |es|, now);
    PruneCounts(History(sh, es, |es|), now - sh.window, now, |History(sh, es, |es|)|);
  }

  lemma ReportedIs(sh: Shape, es: seq<Event>, now: real, used: nat)
    requires used == |Prune(ListAt(sh, es, |es|), now - sh.window)|
    ensures CutOff(sh.rate - used as real, Reported(sh, es, now))
  {
    TruncateCutsOff(sh.rate - used as real);
  }

  /** The report is what the rate leaves free of the window in the full history, cut off toward zero. */
  lemma ReportedIsFree(sh: Shape, es: seq<Event>, now: real, used: nat)
    requires RunUpTo(es, now) && used == CountIn(History(sh, es, |es|), now - sh.window, now)
    ensures CutOff(sh.rate - used as real, Reported(sh, es, now))
  {
    LiveAreCounted(sh, es, now);
    ReportedIs(sh, es, now, used);
  }

  lemma {:induction false} PruneKeepsAll(times: seq<real>, cutoff: real, n: nat)
    requires n <= |times| && forall i :: 0 <= i < n ==> cutoff < times[i]
    ensures PruneFirst(times, cutoff, n) == times[..n]
  {
    if n == 0 {
    } else {
      PruneKeepsAll(times, cutoff, n - 1);
    }
  }

  /** `n` requests at one time. */
  function Burst(n: nat): (es: seq<Event>)
    ensures |es| == n && Ordered(es)
  {
    seq(n, i => Acquire(0.0))
  }

  lemma {:induction false} BurstFills(sh: Shape, n: nat)
    requires sh.window > 0.0 && (n as real) < sh.rate + 1.0
    ensures ListAt(sh, Burst(n), n) == seq(n, i => 0.0)
  {
    if n == 0 {
    } else {
      BurstFills(sh, n - 1);
      ListPrefix(sh, Burst(n - 1), [Acquire(0.0)], n - 1);
      assert Burst(n) == Burst(n - 1) + [Acquire(0.0)];
      var list := ListAt(sh, Burst(n), n - 1);
      PruneKeepsAll(list, 0.0 - sh.window, n - 1);
      assert list[..n - 1] == list;
    }
  }

  lemma {:induction false} ListPrefix(sh: Shape, es: seq<Event>, more: seq<Event>, k: nat)
    requires k <= |es|
    ensures ListAt(sh, es + more, k) == ListAt(sh, es, k)
  {
    if k == 0 {
    } else {
      ListPrefix(sh, es, more, k - 1);
    }
  }

  /** The list is not ahead of the clock. */
  lemma {:induction false} ListNotAhead(sh: Shape, es: seq<Event>, k: nat, now: real)
    requires k <= |es|
    requires forall i :: 0 <= i < k ==> es[i].time <= now
    ensures forall i :: 0 <= i < |ListAt(sh, es, k)| ==> ListAt(sh, es, k)[i] <= now
  {
    if k == 0 {
    } else {
      ListNotAhead(sh, es, k - 1, now);
      PruneSubset(ListAt(sh, es, k - 1), es[k - 1].time - sh.window, |ListAt(sh, es, k - 1)|, now);
    }
  }

  lemma {:induction false} PruneSubset(times: seq<real>, cutoff: real, n: nat, now: real)
    requires n <= |times| && forall i :: 0 <= i < |times| ==> times[i] <= now
    ensures forall i :: 0 <= i < |PruneFirst(times, cutoff, n)| ==> PruneFirst(times, cutoff, n)[i] <= now
  {
    if n == 0 {
    } else {
      PruneSubset(times, cutoff, n - 1, now);
    }
  }

  lemma {:induction false} PruneNone(times: seq<real>, cutoff: real, n: nat)
    requires n <= |times| && forall i :: 0 <= i < |times| ==> times[i] <= cutoff
    ensures PruneFirst(times, cutoff, n) == []
  {
    if n == 0 {
    } else {
      PruneNone(times, cutoff, n - 1);
    }
  }

  /** The limiter's events so far, none after `now`. */
  ghost predicate RunUpTo(es: seq<Event>, now: real) {
    Ordered(es) && forall i :: 0 <= i < |es| ==> es[i].time <= now
  }

  ghost predicate AlwaysForetells(sh: Shape) {
    forall es, now :: RunUpTo(es, now) ==> (WouldAccept(sh, es, now) <==> Reported(sh, es, now) >= 1)
  }

  predicate Whole(rate: real) { rate == rate.Floor as real }

  lemma WholeForetells(rate: real, len: nat)
    requires rate <= 0.0 || Whole(rate)
    ensures Foretells(rate, len)
  {
    if rate > 0.0 {
      assert rate - len as real == (rate.Floor - len) as real;
    }
  }

  /** A fractional rate misleads once its whole part is in use. */
  lemma FullBurstMisleads(sh: Shape)
    requires sh.rate > 0.0 && !Whole(sh.rate) && sh.window > 0.0
    ensures var es := Burst(sh.rate.Floor);
            RunUpTo(es, 0.0) && WouldAccept(sh, es, 0.0) && Reported(sh, es, 0.0) < 1
  {
    var n := sh.rate.Floor;
    BurstFills(sh, n);
    var list := ListAt(sh, Burst(n), n);
    PruneKeepsAll(list, 0.0 - sh.window, n);
    assert list[..n] == list;
    ForetellsLength(sh, Burst(n), 0.0);
  }

  /**
   No reported slot means that the next request is refused, in every state, exactly when the rate is
   whole or not positive - or the window has no length, so that nothing is ever counted, and there is
   a slot to report.
   */
  lemma AvailableForetellsIff(sh: Shape)
    ensures AlwaysForetells(sh) <==>
            sh.rate <= 0.0 || Whole(sh.rate) || (sh.window <= 0.0 && sh.rate >= 1.0)
  {
    if sh.rate <= 0.0 || Whole(sh.rate) {
      forall es, now | RunUpTo(es, now) ensures WouldAccept(sh, es, now) <==> Reported(sh, es, now) >= 1 {
        ForetellsLength(sh, es, now);
        WholeForetells(sh.rate, |Prune(ListAt(sh, es, |es|), now - sh.window)|);
      }
    } else if sh.window <= 0.0 && sh.rate >= 1.0 {
      forall es, now | RunUpTo(es, now) ensures WouldAccept(sh, es, now) <==> Reported(sh, es, now) >= 1 {
        ListNotAhead(sh, es, |es|, now);
        PruneNone(ListAt(sh, es, |es|), now - sh.window, |ListAt(sh, es, |es|)|);
      }
    } else if sh.window <= 0.0 {
      assert RunUpTo([], 0.0) && WouldAccept(sh, [], 0.0) && Reported(sh, [], 0.0) == 0;
    } else {
      FullBurstMisleads(sh);
    }
  }

  // ----- The limiter object -----

  function OldestFirst(times: seq<real>, n: nat): real
    requires 0 < n <= |times|
  {
    if n == 1 then times[0] else Min(OldestFirst(times, n - 1), times[n - 1])
  }

  function Oldest(times: seq<real>): real
    requires times != []
  {
    OldestFirst(times, |times|)
  }

  lemma {:induction false} OldestIsLeast(times: seq<real>, n: nat)
    requires 0 < n <= |times|
    ensures exists i :: 0 <= i < n && times[i] == OldestFirst(times, n)
    ensures forall i :: 0 <= i < n ==> OldestFirst(times, n) <= times[i]
  {
    if n == 1 {
      assert times[0] == OldestFirst(times, n);
    } else {
      OldestIsLeast(times, n - 1);
      var i :| 0 <= i < n - 1 && times[i] == OldestFirst(times, n - 1);
      assert times[if OldestFirst(times, n - 1) <= times[n - 1] then i else n - 1] == OldestFirst(times, n);
    }
  }

  lemma {:induction false} PruneKeepsLater(times: seq<real>, cutoff: real, n: nat)
    requires n <= |times|
    ensures forall i :: 0 <= i < |PruneFirst(times, cutoff, n)| ==> cutoff < PruneFirst(times, cutoff, n)[i]
  {
    if n == 0 {
    } else {
      PruneKeepsLater(times, cutoff, n - 1);
    }
  }

  lemma {:induction false} PruneDrops(times: seq<real>, cutoff: real, n: nat)
    requires n <= |times|
    ensures |PruneFirst(times, cutoff, n)| <= n
    ensures (exists i :: 0 <= i < n && times[i] <= cutoff) ==> |PruneFirst(times, cutoff, n)| < n
  {
    if n == 0 {
    } else {
      PruneDrops(times, cutoff, n - 1);
    }
  }

  /** Before the oldest live request leaves the window nothing changes; when it leaves, a slot is free. */
  lemma SlotWhenOldestLeaves(sh: Shape, live: seq<real>, now: real)
    requires live != [] && now <= Oldest(live) + sh.window
    requires sh.rate <= |live| as real < sh.rate + 1.0
    ensures now < Oldest(live) + sh.window ==> Prune(live, now - sh.window) == live
    ensures now == Oldest(live) + sh.window ==> |Prune(live, now - sh.window)| as real < sh.rate
  {
    OldestIsLeast(live, |live|);
    if now < Oldest(live) + sh.window {
      PruneKeepsAll(live, now - sh.window, |live|);
    } else {
      PruneDrops(live, now - sh.window, |live|);
    }
  }

  datatype Outcome = Granted | Refused | EmptyMinimum
  datatype Result = Result(outcome: Outcome, time: real, requests: seq<real>)

  /**
   What a blocking call made at `start` with the live requests `live` comes to: a slot is taken
   at once if there is one; otherwise exactly when the oldest live request leaves the window, if
   the timeout allows it, and if not the call refuses at once without sleeping.  With a rate that
   is not positive there is no live request, and looking for the oldest one raises an error.
   */
  function Settled(sh: Shape, live: seq<real>, start: real, block: bool, timeout: Option<real>): Result {
    if |live| as real < sh.rate then Result(Granted, start, live + [start])
    else if !block then Result(Refused, start, live)
    else if live == [] then Result(EmptyMinimum, start, [])
    else
      var due := Oldest(live) + sh.window;
      if timeout.Some? && due - start > timeout.value then Result(Refused, start, live)
      else Result(Granted, due, Prune(live, Oldest(live)) + [due])
  }

  /** One round of the loop whose cleaned-up list is `live`: an outcome, or a sleep until later. */
  function Round(sh: Shape, live: seq<real>, now: real, start: real, block: bool, timeout: Option<real>)
    : (Option<Outcome>, Result)
  {
    if |live| as real < sh.rate then (Some(Granted), Result(Granted, now, live + [now]))
    else if !block then (Some(Refused), Result(Refused, now, live))
    else if live == [] then (Some(EmptyMinimum), Result(EmptyMinimum, now, []))
    else
      var wait := if 0.0 < Oldest(live) + sh.window - now then Oldest(live) + sh.window - now else 0.0;
      if timeout.Some? && (now - start) + wait > timeout.value then (Some(Refused), Result(Refused, now, live))
      else (None, Result(Refused, now + Nap(wait), live))
  }

  /** The call has slept, and the oldest live request is still to leave. */
  ghost predicate Pending(sh: Shape, live: seq<real>, start: real, now: real, block: bool, timeout: Option<real>) {
    && start < now && block && live != []
    && sh.rate <= |live| as real < sh.rate + 1.0
    && now <= Oldest(live) + sh.window
    && (timeout.Some? ==> Oldest(live) + sh.window - start <= timeout.value)
  }

  function RoundsLeft(sh: Shape, live: seq<real>, now: real): real {
    if live == [] || Oldest(live) + sh.window <= now then 0.0
    else 10.0 * (Oldest(live) + sh.window - now) + 1.0
  }

  predicate Fits(sh: Shape, requests: seq<real>) {
    requests == [] || |requests| as real < sh.rate + 1.0
  }

  lemma FirstRound(sh: Shape, requests: seq<real>, live: seq<real>, start: real, block: bool, timeout: Option<real>)
    requires Fits(sh, requests) && live == Prune(requests, start - sh.window)
    ensures var (o, r) := Round(sh, live, start, start, block, timeout);
            if o.Some? then r == Settled(sh, live, start, block, timeout)
            else && r.requests == live && Pending(sh, live, start, r.time, block, timeout)
                 && RoundsLeft(sh, live, r.time) <= RoundsLeft(sh, live, start) - 1.0
  {
    PruneKeepsLater(requests, start - sh.window, |requests|);
    PruneDrops(requests, start - sh.window, |requests|);
    if live != [] { OldestIsLeast(live, |live|); }
  }

  lemma LaterRound(sh: Shape, live: seq<real>, start: real, now: real, block: bool, timeout: Option<real>)
    requires Pending(sh, live, start, now, block, timeout)
    ensures var (o, r) := Round(sh, Prune(live, now - sh.window), now, start, block, timeout);
            if o.Some? then r == Settled(sh, live, start, block, timeout)
            else && r.requests == live && Pending(sh, live, start, r.time, block, timeout)
                 && RoundsLeft(sh, live, r.time) <= RoundsLeft(sh, live, now) - 1.0
  {
    SlotWhenOldestLeaves(sh, live, now);
  }

  /** Either the call begins, or it has slept and nothing has changed. */
  ghost predicate RoundBegins(
    sh: Shape, requests: seq<real>, live: seq<real>, start: real, now: real, block: bool, timeout: Option<real>)
  {
    if now == start then Fits(sh, requests) && live == Prune(requests, start - sh.window)
    else requests == live && Pending(sh, live, start, now, block, timeout)
  }

  lemma AnyRound(
    sh: Shape, requests: seq<real>, live: seq<real>, start: real, now: real, block: bool, timeout: Option<real>)
    requires RoundBegins(sh, requests, live, start, now, block, timeout)
    ensures var (o, r) := Round(sh, Prune(requests, now - sh.window), now, start, block, timeout);
            if o.Some? then r == Settled(sh, live, start, block, timeout)
            else && RoundBegins(sh, r.requests, live, start, r.time, block, timeout)
                 && RoundsLeft(sh, live, r.time) <= RoundsLeft(sh, live, now) - 1.0
  {
    if now == start {
      FirstRound(sh, requests, live, start, block, timeout);
    } else {
      LaterRound(sh, live, start, now, block, timeout);
    }
  }

  /** `t` is the earliest time, from `start` on, at which the window before it is short of the rate. */
  ghost predicate EarliestRoom(sh: Shape, past: seq<real>, start: real, t: real) {
    && start <= t && HistoryAllows(sh, past, t)
    && forall early :: start <= early < t ==> !HistoryAllows(sh, past, early)
  }

  ghost predicate NeverRoom(sh: Shape, past: seq<real>, start: real) {
    forall t :: start <= t ==> !HistoryAllows(sh, past, t)
  }

  /** What a call finds once it has forgotten what has left the window. */
  ghost predicate Live(sh: Shape, live: seq<real>, start: real) {
    Fits(sh, live) && forall i :: 0 <= i < |live| ==> start - sh.window < live[i]
  }

  lemma ForgettingKeepsRoom(sh: Shape, requests: seq<real>, start: real, t: real)
    requires start <= t
    ensures var live := Prune(requests, start - sh.window);
            && Prune(live, t - sh.window) == Prune(requests, t - sh.window)
            && (HistoryAllows(sh, live, t) <==> HistoryAllows(sh, requests, t))
            && (EarliestRoom(sh, live, start, t) <==> EarliestRoom(sh, requests, start, t))
            && (NeverRoom(sh, live, start) <==> NeverRoom(sh, requests, start))
  {
    var live := Prune(requests, start - sh.window);
    forall at | start <= at ensures HistoryAllows(sh, live, at) <==> HistoryAllows(sh, requests, at) {
      PruneTwice(requests, start - sh.window, at - sh.window);
    }
    PruneTwice(requests, start - sh.window, t - sh.window);
  }

  lemma OneEarliest(sh: Shape, past: seq<real>, start: real, t: real, u: real)
    requires EarliestRoom(sh, past, start, t) && EarliestRoom(sh, past, start, u)
    ensures t == u
  {
  }

  lemma RoomNow(sh: Shape, live: seq<real>, start: real)
    requires Live(sh, live, start)
    ensures HistoryAllows(sh, live, start) <==> |live| as real < sh.rate
  {
    PruneKeepsAll(live, start - sh.window, |live|);
    assert live[..|live|] == live;
  }

  lemma RoomLater(sh: Shape, live: seq<real>, start: real)
    requires Live(sh, live, start) && live != [] && |live| as real >= sh.rate
    ensures start < Oldest(live) + sh.window
    ensures EarliestRoom(sh, live, start, Oldest(live) + sh.window)
  {
    var due := Oldest(live) + sh.window;
    OldestIsLeast(live, |live|);
    SlotWhenOldestLeaves(sh, live, due);
    forall t | start <= t < due ensures !HistoryAllows(sh, live, t) {
      SlotWhenOldestLeaves(sh, live, t);
    }
  }

  /** There is room at some time just when the rate is positive. */
  lemma NeverRoomIff(sh: Shape, live: seq<real>, start: real)
    requires Live(sh, live, start)
    ensures NeverRoom(sh, live, start) <==> sh.rate <= 0.0
  {
    RoomNow(sh, live, start);
    if sh.rate <= 0.0 {
      forall t | start <= t ensures !HistoryAllows(sh, live, t) {
      }
    } else if |live| as real >= sh.rate {
      RoomLater(sh, live, start);
      assert HistoryAllows(sh, live, Oldest(live) + sh.window);
    } else {
      assert HistoryAllows(sh, live, start);
    }
  }

  /**
   What a blocking call settles on, from its history alone.  It is granted at the earliest time at which the
   window has room, if that is now or the call may wait that long; if the rate is not positive there is no
   such time and the call fails on its empty list; in every other case it refuses at once.
   */
  lemma SettledIsEarliest(sh: Shape, requests: seq<real>, start: real, block: bool, timeout: Option<real>)
    requires Fits(sh, requests)
    ensures var r := Settled(sh, Prune(requests, start - sh.window), start, block, timeout);
            && (r.outcome == EmptyMinimum <==> block && NeverRoom(sh, requests, start))
            && (r.outcome == Granted ==>
                  && EarliestRoom(sh, requests, start, r.time)
                  && r.requests == Prune(requests, r.time - sh.window) + [r.time])
            && (forall t :: EarliestRoom(sh, requests, start, t) ==>
                  (r.outcome == Granted
                   <==> t == start || (block && (timeout.None? || t - start <= timeout.value))))
            && (r.outcome != Granted ==> r.time == start && r.requests == Prune(requests, start - sh.window))
    ensures NeverRoom(sh, requests, start) <==> sh.rate <= 0.0
  {
    var live := Prune(requests, start - sh.window);
    var r := Settled(sh, live, start, block, timeout);
    PruneKeepsLater(requests, start - sh.window, |requests|);
    PruneDrops(requests, start - sh.window, |requests|);
    RoomNow(sh, live, start);
    NeverRoomIff(sh, live, start);
    if live != [] && |live| as real >= sh.rate { RoomLater(sh, live, start); }
    ForgettingKeepsRoom(sh, requests, start, start);
    if live != [] { ForgettingKeepsRoom(sh, requests, start, r.time); }
    forall t | EarliestRoom(sh, requests, start, t)
      ensures r.outcome == Granted
              <==> t == start || (block && (timeout.None? || t - start <= timeout.value))
    {
      ForgettingKeepsRoom(sh, requests, start, t);
      var due := if |live| as real < sh.rate then start else Oldest(live) + sh.window;
      OneEarliest(sh, live, start, t, due);
    }
  }

  class SlidingWindow {
    const shape: Shape
    var requests: seq<real>

    /** The list never outgrows the rate by a whole request. */
    ghost predicate Valid()
      reads this
    {
      Fits(shape, requests)
    }

    constructor (shape: Shape)
      ensures Valid() && this.shape == shape && requests == []
    {
      this.shape := shape;
      requests := [];
    }

    method Cleanup(now: real)
      modifies this
      ensures requests == Prune(old(requests), now - shape.window)
      ensures |requests| <= |old(requests)|
    {
      var cutoff := now - shape.window;
      PruneDrops(requests, cutoff, |requests|);
      requests := Prune(requests, cutoff);
    }

    /** One pass of `acquire`. */
    method TryAcquire(now: real) returns (ok: bool)
      requires Valid()
      modifies this
      ensures Valid()
      ensures (requests, ok) == Admit(shape, old(requests), now)
    {
      Cleanup(now);
      ok := |requests| as real < shape.rate;
      if ok {
        requests := requests + [now];
      }
    }

    method AvailableSlots(now: real) returns (slots: int)
      requires Valid()
      modifies this
      ensures Valid() && requests == Prune(old(requests), now - shape.window)
      ensures slots == Truncate(shape.rate - |requests| as real)
    {
      Cleanup(now);
      slots := Truncate(shape.rate - |requests| as real);
    }

    /** One round of the loop: a pass, and a sleep if the call goes on. */
    method PassAndSleep(clock: Clock, start: real, block: bool, timeout: Option<real>)
      returns (o: Option<Outcome>)
      requires Valid()
      modifies this, clock
      ensures Valid()
      ensures var (o', r) := Round(shape, Prune(old(requests), old(clock.now) - shape.window),
                                   old(clock.now), start, block, timeout);
              o == o' && clock.now == r.time && requests == r.requests
      ensures clock.longest <= old(clock.longest) || clock.longest <= 0.1
    {
      var now := clock.now;
      var ok := TryAcquire(now);
      if ok {
        return Some(Granted);
      }
      if !block {
        return Some(Refused);
      }
      if requests == [] {
        return Some(EmptyMinimum);
      }
      var oldest := Oldest(requests);
      var wait := if 0.0 < oldest + shape.window - now then oldest + shape.window - now else 0.0;
      if timeout.Some? && (now - start) + wait > timeout.value {
        return Some(Refused);
      }
      clock.Sleep(Nap(wait));
      o := None;
    }

    /**
     The whole blocking call of an uncontended caller, sleeping in steps of at most a tenth of a
     second, comes to what `Settled` says in one go.
     */
    method Acquire(clock: Clock, block: bool, timeout: Option<real>) returns (r: Outcome)
      requires Valid()
      modifies this, clock
      ensures Valid()
      ensures Result(r, clock.now, requests)
           == Settled(shape, Prune(old(requests), old(clock.now) - shape.window), old(clock.now), block, timeout)
      ensures clock.longest <= old(clock.longest) || clock.longest <= 0.1
    {
      var start := clock.now;
      ghost var live := Prune(requests, start - shape.window);
      while true
        invariant clock.longest <= old(clock.longest) || clock.longest <= 0.1
        invariant Valid() && RoundBegins(shape, requests, live, start, clock.now, block, timeout)
        decreases RoundsLeft(shape, live, clock.now)
      {
        AnyRound(shape, requests, live, start, clock.now, block, timeout);
        var o := PassAndSleep(clock, start, block, timeout);
        if o.Some? {
          return o.value;
        }
      }
    }
  }
}
