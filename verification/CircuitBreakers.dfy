/**
 The circuit breaker (core/harness/circuit_breaker.py).

 A call passes the gate in one critical section and reports its outcome in another; the function
 runs in between without the lock.  A run is therefore any interleaving of gate passages,
 completions of calls that are in flight, and manual resets.
 */
module CircuitBreakers {
  import opened Options

  datatype Config = Config(failureThreshold: int, successThreshold: int, timeout: real, halfOpenMaxCalls: int) {
    /** Failures that open a closed breaker: a threshold below one acts like one. */
    function FailuresToOpen(): nat { if failureThreshold < 1 then 1 else failureThreshold }

    function SuccessesToClose(): nat { if successThreshold < 1 then 1 else successThreshold }
  }

  datatype State = Closed | Open | HalfOpen

  datatype Breaker = Breaker(state: State, failures: int, successes: int, lastFailure: Option<real>, probes: int)

  const INITIAL: Breaker := Breaker(Closed, 0, 0, None, 0)

  function ToOpen(b: Breaker): Breaker { b.(state := Open, successes := 0, probes := 0) }

  function ToHalfOpen(b: Breaker): Breaker { b.(state := HalfOpen, successes := 0, probes := 0) }

  function ToClosed(b: Breaker): Breaker { b.(state := Closed, failures := 0, successes := 0, probes := 0) }

  predicate ShouldAttemptReset(cfg: Config, b: Breaker, now: real) {
    match b.lastFailure
    case None => true
    case Some(f) => now - f >= cfg.timeout
  }

  /** The gate of `call`: the breaker afterwards, and whether the call may run. */
  function Gate(cfg: Config, b: Breaker, now: real): (Breaker, bool) {
    if b.state == Open && !ShouldAttemptReset(cfg, b, now) then (b, false)
    else
      var b' := if b.state == Open then ToHalfOpen(b) else b;
      if b'.state != HalfOpen then (b', true)
      else if b'.probes >= cfg.halfOpenMaxCalls then (b', false)
      else (b'.(probes := b'.probes + 1), true)
  }

  function OnSuccess(cfg: Config, b: Breaker): Breaker {
    match b.state
    case HalfOpen =>
      var b' := b.(successes := b.successes + 1);
      if b'.successes >= cfg.successThreshold then ToClosed(b') else b'
    case Closed => b.(failures := 0)
    case Open => b
  }

  function OnFailure(cfg: Config, b: Breaker, now: real): Breaker {
    var b' := b.(lastFailure := Some(now));
    match b.state
    case HalfOpen => ToOpen(b')
    case Closed =>
      var b'' := b'.(failures := b'.failures + 1);
      if b''.failures >= cfg.failureThreshold then ToOpen(b'') else b''
    case Open => b'
  }

  // ----- The system: breaker and calls in flight -----

  /** `Escape` is a completion by an exception that the breaker does not count. */
  datatype Event =
    | Call(time: real)
    | Succeed(id: nat, time: real)
    | Fail(id: nat, time: real)
    | Escape(id: nat, time: real)
    | Reset(time: real)

  /**
   Calls are numbered as they are admitted.  `episode` holds the probes of this half-open episode,
   `earned` those of them whose success has been counted in it, and `stale` the calls admitted
   before it whose success has been counted in it.
   */
  datatype System = System(
    breaker: Breaker, inFlight: set<nat>, next: nat, episode: set<nat>, earned: set<nat>, stale: set<nat>)

  const START: System := System(INITIAL, {}, 0, {}, {}, {})

  predicate Enabled(sys: System, e: Event) {
    match e
    case Call(_) => true
    case Reset(_) => true
    case Succeed(id, _) => id in sys.inFlight
    case Fail(id, _) => id in sys.inFlight
    case Escape(id, _) => id in sys.inFlight
  }

  function Transition(cfg: Config, b: Breaker, e: Event): Breaker {
    match e
    case Call(t) => Gate(cfg, b, t).0
    case Succeed(_, _) => OnSuccess(cfg, b)
    case Fail(_, t) => OnFailure(cfg, b, t)
    case Escape(_, _) => b
    case Reset(_) => ToClosed(b)
  }

  predicate Admitted(cfg: Config, b: Breaker, e: Event) {
    e.Call? && Gate(cfg, b, e.time).1
  }

  /** A success reported to a half-open breaker by a call admitted before the episode. */
  predicate Stale(sys: System, e: Event) {
    e.Succeed? && sys.breaker.state == HalfOpen && e.id !in sys.episode
  }

  function Step(cfg: Config, sys: System, e: Event): System
    requires Enabled(sys, e)
  {
    var b := Transition(cfg, sys.breaker, e);
    var goesOn := b.state == HalfOpen == sys.breaker.state;
    var kept := sys.(
      breaker := b,
      episode := if goesOn then sys.episode else {},
      earned := if goesOn then sys.earned + (if e.Succeed? && !Stale(sys, e) then {e.id} else {}) else {},
      stale := if goesOn then sys.stale + (if Stale(sys, e) then {e.id} else {}) else {});
    match e
    case Call(_) =>
      if !Admitted(cfg, sys.breaker, e) then kept
      else kept.(inFlight := sys.inFlight + {sys.next}, next := sys.next + 1,
                 episode := if b.state == HalfOpen then kept.episode + {sys.next} else kept.episode)
    case Reset(_) => kept
    case _ => kept.(inFlight := sys.inFlight - {e.id})
  }

  predicate Legal(cfg: Config, sys: System, es: seq<Event>)
    decreases |es|
  {
    es == [] || (Enabled(sys, es[0]) && Legal(cfg, Step(cfg, sys, es[0]), es[1..]))
  }

  function After(cfg: Config, sys: System, es: seq<Event>): System
    requires Legal(cfg, sys, es)
    decreases |es|
  {
    if es == [] then sys else After(cfg, Step(cfg, sys, es[0]), es[1..])
  }

  // ----- What every reachable state satisfies -----

  ghost predicate BreakerInvariant(cfg: Config, b: Breaker) {
    match b.state
    case Closed => 0 <= b.failures < cfg.FailuresToOpen() && b.successes == 0 && b.probes == 0
    case Open => b.failures == cfg.FailuresToOpen() && b.successes == 0 && b.probes == 0 && b.lastFailure.Some?
    case HalfOpen =>
      && b.failures == cfg.FailuresToOpen()
      && 0 <= b.successes < cfg.SuccessesToClose()
      && 0 <= b.probes && (b.probes == 0 || b.probes <= cfg.halfOpenMaxCalls)
  }

  ghost predicate Invariant(cfg: Config, sys: System) {
    && BreakerInvariant(cfg, sys.breaker)
    && (forall id :: id in sys.inFlight ==> id < sys.next)
    && (forall id :: id in sys.episode ==> id < sys.next)
    && |sys.episode| == sys.breaker.probes
  }

  lemma TransitionKeepsInvariant(cfg: Config, b: Breaker, e: Event)
    requires BreakerInvariant(cfg, b)
    ensures BreakerInvariant(cfg, Transition(cfg, b, e))
    ensures b.state != HalfOpen ==> Transition(cfg, b, e).successes == 0
  {
  }

  /** The probe count follows the probes of the episode. */
  lemma ProbeCount(cfg: Config, b: Breaker, e: Event)
    requires BreakerInvariant(cfg, b)
    ensures var b' := Transition(cfg, b, e);
            b'.probes == (if b.state == HalfOpen == b'.state then b.probes else 0)
                         + if b'.state == HalfOpen && Admitted(cfg, b, e) then 1 else 0
  {
  }

  lemma StepKeepsInvariant(cfg: Config, sys: System, e: Event)
    requires Invariant(cfg, sys) && Enabled(sys, e)
    ensures Invariant(cfg, Step(cfg, sys, e))
  {
    TransitionKeepsInvariant(cfg, sys.breaker, e);
    ProbeCount(cfg, sys.breaker, e);
  }

  /**
   In every interleaving of calls, completions (stale ones included) and resets: closed means
   fewer failures than open the breaker and nothing counted for recovery; open means exactly that
   many failures and a recorded failure time; half-open means no more probes let through in this
   episode than allowed, and too few successes to close.
   */
  lemma {:induction false} InvariantAfterAnyRun(cfg: Config, sys: System, es: seq<Event>)
    requires Invariant(cfg, sys) && Legal(cfg, sys, es)
    ensures Invariant(cfg, After(cfg, sys, es))
    decreases |es|
  {
    if es == [] {
    } else {
      StepKeepsInvariant(cfg, sys, es[0]);
      InvariantAfterAnyRun(cfg, Step(cfg, sys, es[0]), es[1..]);
    }
  }

  lemma StartSatisfiesInvariant(cfg: Config)
    ensures Invariant(cfg, START) && Accounted(START)
  {
  }

  // ----- When a closed breaker opens -----

  /** The breaker after the first `k` events. */
  function At(cfg: Config, b: Breaker, es: seq<Event>, k: nat): Breaker
    requires k <= |es|
  {
    if k == 0 then b else Transition(cfg, At(cfg, b, es, k - 1), es[k - 1])
  }

  /** How many failures in a row the first `k` events end with; calls and escapes leave no record. */
  function Streak(es: seq<Event>, k: nat): nat
    requires k <= |es|
  {
    if k == 0 then 0
    else match es[k - 1]
      case Fail(_, _) => Streak(es, k - 1) + 1
      case Succeed(_, _) => 0
      case Reset(_) => 0
      case _ => Streak(es, k - 1)
  }

  /** While the breaker stays closed its failure count is the streak. */
  lemma {:induction false} FailuresAreStreak(cfg: Config, b: Breaker, es: seq<Event>, k: nat)
    requires k <= |es| && b.state == Closed && b.failures == 0
    requires forall j :: 0 <= j < k ==> At(cfg, b, es, j).state == Closed
    ensures Streak(es, k) <= cfg.FailuresToOpen()
    ensures At(cfg, b, es, k).state == if Streak(es, k) < cfg.FailuresToOpen() then Closed else Open
    ensures Streak(es, k) < cfg.FailuresToOpen() ==> At(cfg, b, es, k).failures == Streak(es, k)
  {
    if k == 0 {
    } else {
      FailuresAreStreak(cfg, b, es, k - 1);
      assert At(cfg, b, es, k - 1).state == Closed;
    }
  }

  ghost predicate ClosedThrough(cfg: Config, b: Breaker, es: seq<Event>, k: nat)
    requires k <= |es|
  {
    forall j :: 0 <= j <= k ==> At(cfg, b, es, j).state == Closed
  }

  ghost predicate NoLongStreak(cfg: Config, es: seq<Event>, k: nat)
    requires k <= |es|
  {
    forall j :: 0 <= j <= k ==> Streak(es, j) < cfg.FailuresToOpen()
  }

  /** A breaker that begins closed stays closed exactly as long as no streak of failures is long enough. */
  lemma {:induction false} StaysClosedIffNoStreak(cfg: Config, b: Breaker, es: seq<Event>, k: nat)
    requires k <= |es| && b.state == Closed && b.failures == 0
    ensures ClosedThrough(cfg, b, es, k) <==> NoLongStreak(cfg, es, k)
  {
    if ClosedThrough(cfg, b, es, k) {
      forall j | 0 <= j <= k ensures Streak(es, j) < cfg.FailuresToOpen() {
        FailuresAreStreak(cfg, b, es, j);
        assert At(cfg, b, es, j).state == Closed;
      }
    } else if NoLongStreak(cfg, es, k) {
      if k > 0 {
        StaysClosedIffNoStreak(cfg, b, es, k - 1);
        FailuresAreStreak(cfg, b, es, k);
      }
      assert false;
    }
  }

  /** The outcomes that count, oldest first: `true` for a failure, `false` for a success or a reset. */
  function Record(es: seq<Event>, k: nat): seq<bool>
    requires k <= |es|
  {
    if k == 0 then []
    else match es[k - 1]
      case Fail(_, _) => Record(es, k - 1) + [true]
      case Succeed(_, _) => Record(es, k - 1) + [false]
      case Reset(_) => Record(es, k - 1) + [false]
      case _ => Record(es, k - 1)
  }

  /** A streak of at least `n` is `n` failures at the end of the record. */
  lemma {:induction false} StreakIsSuffix(es: seq<Event>, k: nat, n: nat)
    requires k <= |es|
    ensures Streak(es, k) >= n <==>
            |Record(es, k)| >= n
            && forall i :: |Record(es, k)| - n <= i < |Record(es, k)| ==> Record(es, k)[i]
  {
    if k > 0 && n > 0 {
      var r := Record(es, k - 1);
      match es[k - 1]
      case Fail(_, _) =>
        StreakIsSuffix(es, k - 1, n - 1);
        assert forall i :: |r| - (n - 1) <= i < |r| && 0 <= i ==> Record(es, k)[i] == r[i];
      case Succeed(_, _) => assert !Record(es, k)[|r|];
      case Reset(_) => assert !Record(es, k)[|r|];
      case _ => StreakIsSuffix(es, k - 1, n);
    }
  }

  // ----- How long an open breaker stays shut -----

  /** The latest failure among the first `k` events, or the one before them. */
  function LatestFailure(f: real, es: seq<Event>, k: nat): real
    requires k <= |es|
  {
    if k == 0 then f else if es[k - 1].Fail? then es[k - 1].time else LatestFailure(f, es, k - 1)
  }

  ghost predicate NoReset(es: seq<Event>) {
    forall i :: 0 <= i < |es| ==> !es[i].Reset?
  }

  /** Call `k` comes before the timeout since the latest failure has passed. */
  predicate TooEarly(cfg: Config, f: real, es: seq<Event>, k: nat)
    requires k < |es|
  {
    es[k].Call? && es[k].time - LatestFailure(f, es, k) < cfg.timeout
  }

  /** As long as every call comes too early, the breaker is open and every call is refused. */
  lemma {:induction false} ShutWhileTooEarly(cfg: Config, b: Breaker, f: real, es: seq<Event>, k: nat)
    requires b.state == Open && b.lastFailure == Some(f)
    requires NoReset(es) && k <= |es|
    requires forall j :: 0 <= j < k && es[j].Call? ==> TooEarly(cfg, f, es, j)
    ensures At(cfg, b, es, k).state == Open
    ensures At(cfg, b, es, k).lastFailure == Some(LatestFailure(f, es, k))
    ensures k < |es| && es[k].Call? ==>
              (Admitted(cfg, At(cfg, b, es, k), es[k]) <==>
               !TooEarly(cfg, f, es, k) && cfg.halfOpenMaxCalls >= 1)
  {
    if k == 0 {
    } else {
      ShutWhileTooEarly(cfg, b, f, es, k - 1);
    }
  }

  ghost predicate Ordered(from: real, es: seq<Event>) {
    && (forall i :: 0 <= i < |es| ==> from <= es[i].time)
    && (forall i, j :: 0 <= i < j < |es| ==> es[i].time <= es[j].time)
  }

  lemma {:induction false} LatestNotBefore(f: real, es: seq<Event>, k: nat)
    requires Ordered(f, es) && k <= |es|
    ensures f <= LatestFailure(f, es, k)
  {
    if k == 0 {
    } else {
      LatestNotBefore(f, es, k - 1);
    }
  }

  /**
   Fail fast: once a failure at `f` has left the breaker open, no call is admitted before
   f + timeout, in any interleaving without a reset.
   */
  lemma {:induction false} NoCallBeforeTimeout(cfg: Config, b: Breaker, f: real, es: seq<Event>, k: nat)
    requires b.state == Open && b.lastFailure == Some(f)
    requires NoReset(es) && Ordered(f, es)
    requires k < |es| && Admitted(cfg, At(cfg, b, es, k), es[k])
    ensures es[k].time >= f + cfg.timeout
  {
    if forall j :: 0 <= j <= k && es[j].Call? ==> TooEarly(cfg, f, es, j) {
      ShutWhileTooEarly(cfg, b, f, es, k);
    } else {
      var j :| 0 <= j <= k && es[j].Call? && !TooEarly(cfg, f, es, j);
      LatestNotBefore(f, es, j);
    }
  }

  /** Whatever its state and memory, a breaker that a failure leaves open stays shut for the timeout. */
  lemma ShutAfterOpeningFailure(cfg: Config, b: Breaker, id: nat, t: real, es: seq<Event>, k: nat)
    requires Transition(cfg, b, Fail(id, t)).state == Open
    requires NoReset(es) && Ordered(t, es)
    requires k < |es| && Admitted(cfg, At(cfg, Transition(cfg, b, Fail(id, t)), es, k), es[k])
    ensures es[k].time >= t + cfg.timeout
  {
    NoCallBeforeTimeout(cfg, Transition(cfg, b, Fail(id, t)), t, es, k);
  }

  /** The time of the latest failure among the first `k` events. */
  function LatestFail(es: seq<Event>, k: nat): Option<real>
    requires k <= |es|
  {
    if k == 0 then None else if es[k - 1].Fail? then Some(es[k - 1].time) else LatestFail(es, k - 1)
  }

  lemma {:induction false} AfterIsAt(cfg: Config, sys: System, es: seq<Event>)
    requires Legal(cfg, sys, es)
    ensures After(cfg, sys, es).breaker == At(cfg, sys.breaker, es, |es|)
    decreases |es|
  {
    if es == [] {
    } else {
      AfterIsAt(cfg, Step(cfg, sys, es[0]), es[1..]);
      AtFirst(cfg, sys.breaker, es, |es|);
    }
  }

  lemma {:induction false} AtFirst(cfg: Config, b: Breaker, es: seq<Event>, k: nat)
    requires 0 < k <= |es|
    ensures At(cfg, b, es, k) == At(cfg, Transition(cfg, b, es[0]), es[1..], k - 1)
  {
    if k == 1 {
    } else {
      AtFirst(cfg, b, es, k - 1);
      assert es[1..][k - 2] == es[k - 1];
    }
  }

  lemma {:induction false} LastFailureAt(cfg: Config, b: Breaker, es: seq<Event>, k: nat)
    requires k <= |es|
    ensures At(cfg, b, es, k).lastFailure == if LatestFail(es, k).Some? then LatestFail(es, k) else b.lastFailure
  {
    if k == 0 {
    } else {
      LastFailureAt(cfg, b, es, k - 1);
    }
  }

  /** In every state, after every run, the breaker remembers the latest failure reported to it, if any. */
  lemma LastFailureIsLatest(cfg: Config, es: seq<Event>)
    requires Legal(cfg, START, es)
    ensures After(cfg, START, es).breaker.lastFailure == LatestFail(es, |es|)
  {
    AfterIsAt(cfg, START, es);
    LastFailureAt(cfg, INITIAL, es, |es|);
  }

  // ----- Recovery in sequential use -----

  datatype Outcome = Success | Failure | Other

  /** A whole call that nothing interrupts: gate at `now`, outcome reported at `done`. */
  function SequentialCall(cfg: Config, b: Breaker, now: real, done: real, o: Outcome): (Breaker, bool) {
    var (b', ok) := Gate(cfg, b, now);
    if !ok then (b', false)
    else match o
      case Success => (OnSuccess(cfg, b'), true)
      case Failure => (OnFailure(cfg, b', done), true)
      case Other => (b', true)
  }

  /** Such a call is the run of its events: an admission and, if there is one, the report of its outcome. */
  lemma SequentialCallIsRun(cfg: Config, sys: System, now: real, done: real, o: Outcome)
    ensures var (b, ok) := SequentialCall(cfg, sys.breaker, now, done, o);
            var admitted := After(cfg, sys, [Call(now)]);
            && (ok <==> Admitted(cfg, sys.breaker, Call(now)))
            && (!ok ==> b == admitted.breaker)
            && (ok ==>
                  var end := match o
                             case Success => Succeed(sys.next, done)
                             case Failure => Fail(sys.next, done)
                             case Other => Escape(sys.next, done);
                  Enabled(admitted, end) && b == Step(cfg, admitted, end).breaker)
  {
    assert [Call(now)][1..] == [];
    assert After(cfg, Step(cfg, sys, Call(now)), []) == Step(cfg, sys, Call(now));
  }

  /** Between sequential calls that end in a success or a counted failure, every probe has succeeded. */
  ghost predicate ProbesSucceeded(cfg: Config, b: Breaker) {
    BreakerInvariant(cfg, b) && (b.state == HalfOpen ==> b.probes == b.successes)
  }

  /**
   Used sequentially, with enough probe slots, a half-open breaker never refuses a call; a failure
   reopens it, and a success brings it one step nearer to closing.
   */
  lemma SequentialRecoveryStep(cfg: Config, b: Breaker, now: real, done: real, o: Outcome)
    requires ProbesSucceeded(cfg, b) && !o.Other?
    requires cfg.SuccessesToClose() <= cfg.halfOpenMaxCalls
    ensures var (b', ok) := SequentialCall(cfg, b, now, done, o);
            && ProbesSucceeded(cfg, b')
            && (b.state == HalfOpen ==> ok)
            && (b.state == HalfOpen && o.Failure? ==> b'.state == Open)
            && (b.state == HalfOpen && o.Success? ==>
                  if b.successes + 1 < cfg.SuccessesToClose()
                  then b' == b.(successes := b.successes + 1, probes := b.probes + 1)
                  else b' == ToClosed(b))
  {
  }

  datatype SequentialUse = SequentialUse(now: real, done: real, outcome: Outcome)

  function AfterUses(cfg: Config, b: Breaker, us: seq<SequentialUse>, k: nat): Breaker
    requires k <= |us|
  {
    if k == 0 then b
    else SequentialCall(cfg, AfterUses(cfg, b, us, k - 1), us[k - 1].now, us[k - 1].done, us[k - 1].outcome).0
  }

  /**
   Over any such run, half-open at its beginning or not: between calls every probe has succeeded, a
   half-open breaker refuses no call, and it does not stay half-open for as many calls as it needs
   successes.
   */
  lemma {:induction false} RecoveryIsQuick(cfg: Config, b: Breaker, us: seq<SequentialUse>, k: nat)
    requires ProbesSucceeded(cfg, b) && cfg.SuccessesToClose() <= cfg.halfOpenMaxCalls
    requires k <= |us| && forall i :: 0 <= i < |us| ==> !us[i].outcome.Other?
    ensures ProbesSucceeded(cfg, AfterUses(cfg, b, us, k))
    ensures k < |us| && AfterUses(cfg, b, us, k).state == HalfOpen ==>
              SequentialCall(cfg, AfterUses(cfg, b, us, k), us[k].now, us[k].done, us[k].outcome).1
    ensures (forall j :: 0 <= j <= k ==> AfterUses(cfg, b, us, j).state == HalfOpen) ==>
              AfterUses(cfg, b, us, k).successes == b.successes + k && k < cfg.SuccessesToClose()
  {
    if k > 0 {
      RecoveryIsQuick(cfg, b, us, k - 1);
      var u := us[k - 1];
      SequentialRecoveryStep(cfg, AfterUses(cfg, b, us, k - 1), u.now, u.done, u.outcome);
    }
    if k < |us| {
      SequentialRecoveryStep(cfg, AfterUses(cfg, b, us, k), us[k].now, us[k].done, us[k].outcome);
    }
  }

  /** A half-open breaker after `n` successful sequential calls; their times do not matter. */
  function AfterSuccesses(cfg: Config, b: Breaker, n: nat): Breaker {
    if n == 0 then b else SequentialCall(cfg, AfterSuccesses(cfg, b, n - 1), 0.0, 0.0, Success).0
  }

  lemma {:induction false} SuccessesCount(cfg: Config, b: Breaker, n: nat)
    requires b.state == HalfOpen && b.successes == 0 && b.probes == 0
    requires n < cfg.SuccessesToClose() && n <= cfg.halfOpenMaxCalls
    ensures AfterSuccesses(cfg, b, n) == b.(successes := n, probes := n)
  {
    if n == 0 {
    } else {
      SuccessesCount(cfg, b, n - 1);
    }
  }

  lemma {:induction false} StuckOnceSlotsUsed(cfg: Config, b: Breaker, m: nat, n: nat)
    requires m <= n
    requires AfterSuccesses(cfg, b, m).state == HalfOpen
    requires AfterSuccesses(cfg, b, m).probes >= cfg.halfOpenMaxCalls
    ensures AfterSuccesses(cfg, b, n) == AfterSuccesses(cfg, b, m)
  {
    if m == n {
    } else {
      StuckOnceSlotsUsed(cfg, b, m, n - 1);
    }
  }

  /**
   A breaker that has just become half-open, used sequentially by calls that all succeed, closes
   exactly when it has as many probe slots as it needs successes.  If not, it stays half-open and
   refuses every call for good.
   */
  lemma RecoversIffEnoughProbes(cfg: Config, b: Breaker)
    requires b.state == HalfOpen && b.successes == 0 && b.probes == 0
    ensures (exists n: nat :: AfterSuccesses(cfg, b, n).state == Closed) <==>
            cfg.SuccessesToClose() <= cfg.halfOpenMaxCalls
  {
    var needed := cfg.SuccessesToClose();
    if needed <= cfg.halfOpenMaxCalls {
      SuccessesCount(cfg, b, needed - 1);
      assert AfterSuccesses(cfg, b, needed).state == Closed;
    } else {
      var slots: nat := if cfg.halfOpenMaxCalls < 0 then 0 else cfg.halfOpenMaxCalls;
      forall n: nat ensures AfterSuccesses(cfg, b, n).state != Closed {
        if n <= slots && n <= cfg.halfOpenMaxCalls {
          SuccessesCount(cfg, b, n);
        } else {
          if slots <= cfg.halfOpenMaxCalls { SuccessesCount(cfg, b, slots); }
          StuckOnceSlotsUsed(cfg, b, slots, n);
        }
      }
    }
  }

  // ----- When a half-open breaker can be left at all -----

  ghost predicate LeavesHalfOpen(cfg: Config, sys: System, es: seq<Event>) {
    Legal(cfg, sys, es) && NoReset(es) && After(cfg, sys, es).breaker.state != HalfOpen
  }

  /** With no slot left and nothing in flight, nothing but a reset changes the breaker or admits a call. */
  lemma {:induction false} WedgedForGood(cfg: Config, sys: System, es: seq<Event>)
    requires sys.breaker.state == HalfOpen && sys.inFlight == {}
    requires sys.breaker.probes >= cfg.halfOpenMaxCalls
    requires Legal(cfg, sys, es) && NoReset(es)
    ensures After(cfg, sys, es) == sys
    ensures forall i :: 0 <= i < |es| ==> es[i].Call? && !Admitted(cfg, sys.breaker, es[i])
    decreases |es|
  {
    if es == [] {
    } else {
      assert !es[0].Reset?;
      assert Step(cfg, sys, es[0]) == sys;
      assert NoReset(es[1..]);
      WedgedForGood(cfg, sys, es[1..]);
      assert forall i :: 1 <= i < |es| ==> es[i] == es[1..][i - 1];
    }
  }

  /**
   Without a reset, a half-open breaker can ever be left exactly when a call is in flight or a
   probe slot is free.  A probe that ends in an uncounted exception gives neither back.
   */
  lemma HalfOpenLeftIff(cfg: Config, sys: System)
    requires sys.breaker.state == HalfOpen
    ensures (exists es :: LeavesHalfOpen(cfg, sys, es)) <==>
            sys.inFlight != {} || sys.breaker.probes < cfg.halfOpenMaxCalls
  {
    if sys.inFlight != {} {
      var id :| id in sys.inFlight;
      AfterSnoc(cfg, sys, [], Fail(id, 0.0));
      assert LeavesHalfOpen(cfg, sys, [] + [Fail(id, 0.0)]);
    } else if sys.breaker.probes < cfg.halfOpenMaxCalls {
      var call, fail := Call(0.0), Fail(sys.next, 0.0);
      var mid := Step(cfg, sys, call);
      assert sys.next in mid.inFlight && mid.breaker.state == HalfOpen;
      AfterSnoc(cfg, sys, [], call);
      AfterSnoc(cfg, sys, [] + [call], fail);
      assert LeavesHalfOpen(cfg, sys, [] + [call] + [fail]);
    } else {
      forall es | Legal(cfg, sys, es) && NoReset(es) ensures !LeavesHalfOpen(cfg, sys, es) {
        WedgedForGood(cfg, sys, es);
      }
    }
  }

  ghost predicate AllAt(es: seq<Event>, t: real) {
    forall i :: 0 <= i < |es| ==> es[i].time == t
  }

  ghost predicate Wedged(cfg: Config, sys: System) {
    sys.breaker.state == HalfOpen && sys.inFlight == {} && sys.breaker.probes >= cfg.halfOpenMaxCalls
  }

  lemma Prepend(cfg: Config, sys: System, e: Event, es: seq<Event>, t: real)
    requires Enabled(sys, e) && Legal(cfg, Step(cfg, sys, e), es) && e.time == t && AllAt(es, t)
    ensures Legal(cfg, sys, [e] + es) && After(cfg, sys, [e] + es) == After(cfg, Step(cfg, sys, e), es)
    ensures AllAt([e] + es, t) && (NoReset(es) && !e.Reset? ==> NoReset([e] + es))
  {
    assert ([e] + es)[1..] == es;
  }

  /** Escaping probes use up the slots one by one: such a breaker is wedged with the thresholds in order. */
  lemma {:induction false} EscapingProbesWedge(cfg: Config, sys: System, t: real) returns (es: seq<Event>)
    requires sys.breaker.state == HalfOpen && sys.inFlight == {}
    ensures Legal(cfg, sys, es) && NoReset(es) && AllAt(es, t) && Wedged(cfg, After(cfg, sys, es))
    decreases cfg.halfOpenMaxCalls - sys.breaker.probes
  {
    if sys.breaker.probes >= cfg.halfOpenMaxCalls {
      es := [];
    } else {
      var call, escape := Call(t), Escape(sys.next, t);
      var mid := Step(cfg, sys, call);
      var next := Step(cfg, mid, escape);
      assert next.breaker.probes == sys.breaker.probes + 1;
      assert next.inFlight == {};
      var rest := EscapingProbesWedge(cfg, next, t);
      Prepend(cfg, mid, escape, rest, t);
      Prepend(cfg, sys, call, [escape] + rest, t);
      es := [call] + ([escape] + rest);
    }
  }

  /** Failing calls open a closed breaker, whatever its threshold. */
  lemma {:induction false} FailuresOpen(cfg: Config, sys: System) returns (es: seq<Event>)
    requires Invariant(cfg, sys) && sys.breaker.state == Closed && sys.inFlight == {}
    ensures Legal(cfg, sys, es) && NoReset(es) && AllAt(es, 0.0)
    ensures var end := After(cfg, sys, es);
            Invariant(cfg, end) && end.breaker.state == Open && end.inFlight == {}
            && end.breaker.lastFailure == Some(0.0)
    decreases cfg.FailuresToOpen() - sys.breaker.failures
  {
    var call, fail := Call(0.0), Fail(sys.next, 0.0);
    var mid := Step(cfg, sys, call);
    var next := Step(cfg, mid, fail);
    StepKeepsInvariant(cfg, sys, call);
    StepKeepsInvariant(cfg, mid, fail);
    assert next.inFlight == {};
    var rest := [];
    if next.breaker.state == Closed {
      rest := FailuresOpen(cfg, next);
    }
    Prepend(cfg, mid, fail, rest, 0.0);
    Prepend(cfg, sys, call, [fail] + rest, 0.0);
    es := [call] + ([fail] + rest);
  }

  lemma {:induction false} LegalConcat(cfg: Config, sys: System, a: seq<Event>, b: seq<Event>)
    requires Legal(cfg, sys, a) && Legal(cfg, After(cfg, sys, a), b)
    ensures Legal(cfg, sys, a + b) && After(cfg, sys, a + b) == After(cfg, After(cfg, sys, a), b)
    decreases |a|
  {
    if a == [] {
      assert a + b == b;
    } else {
      LegalConcat(cfg, Step(cfg, sys, a[0]), a[1..], b);
      assert (a + b)[1..] == a[1..] + b;
    }
  }

  /**
   Every breaker can come to be wedged, whatever its thresholds: calls that fail open it, and after the
   timeout its probes end in exceptions that do not count.
   */
  lemma WedgeIsReachable(cfg: Config) returns (es: seq<Event>)
    ensures Legal(cfg, START, es) && NoReset(es) && Ordered(0.0, es) && Wedged(cfg, After(cfg, START, es))
  {
    var t := if cfg.timeout > 0.0 then cfg.timeout else 0.0;
    var opening := FailuresOpen(cfg, START);
    var shut := After(cfg, START, opening);
    var call := Call(t);
    var open := Step(cfg, shut, call);
    var escapes: seq<Event> := [];
    var quiet := open;
    if Admitted(cfg, shut.breaker, call) {
      quiet := Step(cfg, open, Escape(shut.next, t));
      assert quiet.inFlight == {};
      escapes := [Escape(shut.next, t)];
    }
    var wedging := EscapingProbesWedge(cfg, quiet, t);
    var rest := wedging;
    if escapes != [] {
      Prepend(cfg, open, escapes[0], wedging, t);
      rest := [escapes[0]] + wedging;
    }
    Prepend(cfg, shut, call, rest, t);
    LegalConcat(cfg, START, opening, [call] + rest);
    es := opening + ([call] + rest);
  }

  // ----- Where the successes of an episode come from -----

  /** Every counted success belongs to one call: a probe of this episode, or a call from before it. */
  ghost predicate Accounted(sys: System) {
    && sys.earned <= sys.episode && sys.earned !! sys.inFlight
    && sys.stale !! sys.episode && sys.stale !! sys.inFlight
    && (forall id :: id in sys.stale ==> id < sys.next)
    && if sys.breaker.state == HalfOpen then sys.breaker.successes == |sys.earned| + |sys.stale|
       else sys.earned == {} == sys.stale
  }

  lemma OneMore(s: set<nat>, id: nat)
    requires id !in s
    ensures |s + {id}| == |s| + 1
  {
  }

  lemma SuccessIsAccounted(cfg: Config, sys: System, id: nat, t: real)
    requires Invariant(cfg, sys) && Accounted(sys) && id in sys.inFlight
    ensures Accounted(Step(cfg, sys, Succeed(id, t)))
  {
    OneMore(sys.earned, id);
    OneMore(sys.stale, id);
  }

  lemma CallIsAccounted(cfg: Config, sys: System, t: real)
    requires Invariant(cfg, sys) && Accounted(sys)
    ensures Accounted(Step(cfg, sys, Call(t)))
  {
    assert sys.next !in sys.episode && sys.next !in sys.stale && sys.next !in sys.earned;
  }

  lemma StepStaysAccounted(cfg: Config, sys: System, e: Event)
    requires Invariant(cfg, sys) && Accounted(sys) && Enabled(sys, e)
    ensures Accounted(Step(cfg, sys, e))
  {
    match e
    case Succeed(id, t) => SuccessIsAccounted(cfg, sys, id, t);
    case Call(t) => CallIsAccounted(cfg, sys, t);
    case _ => TransitionKeepsInvariant(cfg, sys.breaker, e);
  }

  /** In every interleaving the success count of an episode is the sum of its two kinds of successes. */
  lemma {:induction false} SuccessesAreAccounted(cfg: Config, sys: System, es: seq<Event>)
    requires Invariant(cfg, sys) && Accounted(sys) && Legal(cfg, sys, es)
    ensures Invariant(cfg, After(cfg, sys, es)) && Accounted(After(cfg, sys, es))
    decreases |es|
  {
    if es == [] {
    } else {
      StepKeepsInvariant(cfg, sys, es[0]);
      StepStaysAccounted(cfg, sys, es[0]);
      SuccessesAreAccounted(cfg, Step(cfg, sys, es[0]), es[1..]);
    }
  }

  /** A legal run within one half-open episode. */
  predicate WithinEpisode(cfg: Config, sys: System, es: seq<Event>)
    decreases |es|
  {
    && sys.breaker.state == HalfOpen
    && (es == [] || (Enabled(sys, es[0]) && WithinEpisode(cfg, Step(cfg, sys, es[0]), es[1..])))
  }

  lemma {:induction false} EpisodeIsLegal(cfg: Config, sys: System, es: seq<Event>)
    requires WithinEpisode(cfg, sys, es)
    ensures Legal(cfg, sys, es) && After(cfg, sys, es).breaker.state == HalfOpen
    decreases |es|
  {
    if es == [] {
    } else {
      EpisodeIsLegal(cfg, Step(cfg, sys, es[0]), es[1..]);
    }
  }

  /** No call from before the episode reports a success in it. */
  predicate NoStaleReport(cfg: Config, sys: System, es: seq<Event>)
    requires WithinEpisode(cfg, sys, es)
    decreases |es|
  {
    es == [] || (!Stale(sys, es[0]) && NoStaleReport(cfg, Step(cfg, sys, es[0]), es[1..]))
  }

  lemma {:induction false} StaleIffReported(cfg: Config, sys: System, es: seq<Event>)
    requires WithinEpisode(cfg, sys, es)
    ensures Legal(cfg, sys, es)
    ensures After(cfg, sys, es).stale == {} <==> sys.stale == {} && NoStaleReport(cfg, sys, es)
    decreases |es|
  {
    EpisodeIsLegal(cfg, sys, es);
    if es == [] {
    } else {
      var next := Step(cfg, sys, es[0]);
      assert next.breaker.state == HalfOpen;
      StaleIffReported(cfg, next, es[1..]);
      if Stale(sys, es[0]) { assert es[0].id in next.stale; }
      assert sys.stale <= next.stale;
    }
  }

  /**
   All successes that a half-open breaker has counted were earned by probes of the episode exactly
   when no call from before it has reported a success in it.
   */
  lemma AllEarnedIffNoStaleReport(cfg: Config, sys: System, es: seq<Event>)
    requires Invariant(cfg, sys) && Accounted(sys) && sys.stale == {} && WithinEpisode(cfg, sys, es)
    ensures Legal(cfg, sys, es)
    ensures After(cfg, sys, es).breaker.successes == |After(cfg, sys, es).earned| <==> NoStaleReport(cfg, sys, es)
  {
    EpisodeIsLegal(cfg, sys, es);
    StaleIffReported(cfg, sys, es);
    SuccessesAreAccounted(cfg, sys, es);
  }

  /**
   A breaker closes on as many successes of its own probes as it asks for exactly when none of the
   successes of the episode, the closing one included, comes from before it.
   */
  lemma ClosesOnOwnIffNoStaleReport(cfg: Config, sys: System, es: seq<Event>, last: Event)
    requires Invariant(cfg, sys) && Accounted(sys) && sys.stale == {} && WithinEpisode(cfg, sys, es)
    requires last.Succeed? && Legal(cfg, sys, es) && Enabled(After(cfg, sys, es), last)
    requires Step(cfg, After(cfg, sys, es), last).breaker.state == Closed
    ensures var end := After(cfg, sys, es);
            |end.earned| + (if last.id in end.episode then 1 else 0) == cfg.SuccessesToClose()
            <==> NoStaleReport(cfg, sys, es) && !Stale(end, last)
  {
    EpisodeIsLegal(cfg, sys, es);
    StaleIffReported(cfg, sys, es);
    SuccessesAreAccounted(cfg, sys, es);
    assert After(cfg, sys, es).breaker.successes + 1 == cfg.SuccessesToClose();
  }

  ghost predicate StaleCanCome(cfg: Config, sys: System, es: seq<Event>, last: Event) {
    WithinEpisode(cfg, sys, es) && Legal(cfg, sys, es) && Stale(After(cfg, sys, es), last)
    && Enabled(After(cfg, sys, es), last)
  }

  /** Within an episode no call from before it is admitted any more. */
  lemma {:induction false} OldCallsOnlyLeave(cfg: Config, sys: System, es: seq<Event>)
    requires WithinEpisode(cfg, sys, es) && Legal(cfg, sys, es)
    ensures After(cfg, sys, es).inFlight - After(cfg, sys, es).episode <= sys.inFlight - sys.episode
    decreases |es|
  {
    if es == [] {
    } else {
      OldCallsOnlyLeave(cfg, Step(cfg, sys, es[0]), es[1..]);
    }
  }

  /** A stale success can still come in this episode exactly while a call from before it is in flight. */
  lemma StaleCanComeIff(cfg: Config, sys: System)
    requires sys.breaker.state == HalfOpen
    ensures (exists es, last :: StaleCanCome(cfg, sys, es, last)) <==> sys.inFlight - sys.episode != {}
  {
    if sys.inFlight - sys.episode != {} {
      var id :| id in sys.inFlight - sys.episode;
      assert StaleCanCome(cfg, sys, [], Succeed(id, 0.0));
    }
    if es, last :| StaleCanCome(cfg, sys, es, last) {
      OldCallsOnlyLeave(cfg, sys, es);
      assert last.id in After(cfg, sys, es).inFlight - After(cfg, sys, es).episode;
    }
  }

  /** A failure reported to a half-open breaker by a call admitted before the episode. */
  predicate StaleFailure(sys: System, e: Event) {
    e.Fail? && sys.breaker.state == HalfOpen && e.id !in sys.episode
  }

  ghost predicate StaleFailureCanCome(cfg: Config, sys: System, es: seq<Event>, last: Event) {
    WithinEpisode(cfg, sys, es) && Legal(cfg, sys, es) && StaleFailure(After(cfg, sys, es), last)
    && Enabled(After(cfg, sys, es), last)
  }

  /**
   Any failure reopens a half-open breaker, and it comes from before the episode exactly if its call
   is not one of the probes.  In this episode such a failure can still come exactly while a call from
   before it is in flight.
   */
  lemma StaleFailureReopensIff(cfg: Config, sys: System)
    requires sys.breaker.state == HalfOpen
    ensures forall e: Event :: e.Fail? && Enabled(sys, e) ==> Step(cfg, sys, e).breaker.state == Open
    ensures (exists es, last :: StaleFailureCanCome(cfg, sys, es, last)) <==> sys.inFlight - sys.episode != {}
  {
    if sys.inFlight - sys.episode != {} {
      var id :| id in sys.inFlight - sys.episode;
      assert StaleFailureCanCome(cfg, sys, [], Fail(id, 0.0));
    }
    if es, last :| StaleFailureCanCome(cfg, sys, es, last) {
      OldCallsOnlyLeave(cfg, sys, es);
      assert last.id in After(cfg, sys, es).inFlight - After(cfg, sys, es).episode;
    }
  }

  /**
   A breaker can close on nothing but the late success of a call made before it opened, while its only
   probe is still in flight.
   */
  lemma StaleSuccessCloses(timeout: real) returns (es: seq<Event>, last: Event)
    requires timeout >= 0.0
    ensures var cfg := Config(1, 1, timeout, 3);
            && Legal(cfg, START, es) && NoReset(es)
            && var mid := After(cfg, START, es);
            && mid.breaker.state == HalfOpen && mid.episode == {2}
            && Enabled(mid, last) && Stale(mid, last)
            && var end := Step(cfg, mid, last);
            && end.breaker.state == Closed && end.inFlight == {2}
  {
    var cfg := Config(1, 1, timeout, 3);
    last := Succeed(0, timeout);
    var a, b, c, d := Call(0.0), Call(0.0), Fail(1, 0.0), Call(timeout);
    var s1 := Step(cfg, START, a);
    var s2 := Step(cfg, s1, b);
    assert s2.inFlight == {0, 1};
    var s3 := Step(cfg, s2, c);
    assert s3.inFlight == {0} && s3.breaker.state == Open;
    var s4 := Step(cfg, s3, d);
    assert s4.inFlight == {0, 2} && s4.episode == {2} && s4.breaker.state == HalfOpen;
    AfterSnoc(cfg, START, [], a);
    AfterSnoc(cfg, START, [] + [a], b);
    AfterSnoc(cfg, START, [] + [a] + [b], c);
    AfterSnoc(cfg, START, [] + [a] + [b] + [c], d);
    es := [] + [a] + [b] + [c] + [d];
    assert Step(cfg, s4, last).inFlight == {2};
  }

  lemma {:induction false} AfterSnoc(cfg: Config, sys: System, es: seq<Event>, e: Event)
    requires Legal(cfg, sys, es) && Enabled(After(cfg, sys, es), e)
    ensures Legal(cfg, sys, es + [e]) && After(cfg, sys, es + [e]) == Step(cfg, After(cfg, sys, es), e)
    decreases |es|
  {
    if es == [] {
      assert [e][1..] == [];
    } else {
      AfterSnoc(cfg, Step(cfg, sys, es[0]), es[1..], e);
      assert (es + [e])[1..] == es[1..] + [e];
    }
  }

  // ----- The breaker object -----

  class CircuitBreaker {
    const cfg: Config
    var state: State
    var failureCount: int
    var successCount: int
    var lastFailureTime: Option<real>
    var halfOpenCalls: int

    function View(): Breaker
      reads this
    {
      Breaker(state, failureCount, successCount, lastFailureTime, halfOpenCalls)
    }

    constructor (cfg: Config)
      ensures this.cfg == cfg && View() == INITIAL
    {
      this.cfg := cfg;
      state, failureCount, successCount, lastFailureTime, halfOpenCalls := Closed, 0, 0, None, 0;
    }

    method TransitionToOpen()
      modifies this
      ensures View() == ToOpen(old(View()))
    {
      state := Open;
      successCount := 0;
      halfOpenCalls := 0;
    }

    method TransitionToHalfOpen()
      modifies this
      ensures View() == ToHalfOpen(old(View()))
    {
      state := HalfOpen;
      successCount := 0;
      halfOpenCalls := 0;
    }

    method TransitionToClosed()
      modifies this
      ensures View() == ToClosed(old(View()))
    {
      state := Closed;
      failureCount := 0;
      successCount := 0;
      halfOpenCalls := 0;
    }

    /** The first critical section of `call`. */
    method Enter(now: real) returns (admitted: bool)
      modifies this
      ensures (View(), admitted) == Gate(cfg, old(View()), now)
    {
      if state == Open {
        if ShouldAttemptReset(cfg, View(), now) {
          TransitionToHalfOpen();
        } else {
          return false;
        }
      }
      if state == HalfOpen {
        if halfOpenCalls >= cfg.halfOpenMaxCalls {
          return false;
        }
        halfOpenCalls := halfOpenCalls + 1;
      }
      admitted := true;
    }

    method RecordSuccess()
      modifies this
      ensures View() == OnSuccess(cfg, old(View()))
    {
      if state == HalfOpen {
        successCount := successCount + 1;
        if successCount >= cfg.successThreshold {
          TransitionToClosed();
        }
      } else if state == Closed {
        failureCount := 0;
      }
    }

    method RecordFailure(now: real)
      modifies this
      ensures View() == OnFailure(cfg, old(View()), now)
    {
      lastFailureTime := Some(now);
      if state == HalfOpen {
        TransitionToOpen();
      } else if state == Closed {
        failureCount := failureCount + 1;
        if failureCount >= cfg.failureThreshold {
          TransitionToOpen();
        }
      }
    }

    method ManualReset()
      modifies this
      ensures View() == ToClosed(old(View()))
    {
      TransitionToClosed();
    }

    /** A call that no other call overlaps. */
    method CallAlone(now: real, done: real, outcome: Outcome) returns (admitted: bool)
      modifies this
      ensures (View(), admitted) == SequentialCall(cfg, old(View()), now, done, outcome)
    {
      admitted := Enter(now);
      if admitted {
        match outcome
        case Success => RecordSuccess();
        case Failure => RecordFailure(done);
        case Other =>
      }
    }
  }
}
