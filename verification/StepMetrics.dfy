/**
 Metrics of one step over all stored workflows (core/utils/workflow_progress.py): counts by status,
 the success rate, and the mean and the 95th percentile of the durations of completed steps.
 */
module StepMetrics {
  import opened Options
  import WorkflowProgress

  /** What a scan of the store comes across; a workflow may have expired since its key was seen. */
  type Scan = seq<Option<WorkflowProgress.Workflow>>

  predicate Has(w: Option<WorkflowProgress.Workflow>, step: string) { w.Some? && step in w.value.steps }

  predicate Is(w: Option<WorkflowProgress.Workflow>, step: string, status: string) {
    Has(w, step) && w.value.steps[step].status == status
  }

  /** How many of the first `n` workflows have the step, with the given status if one is given. */
  function Occurrences(scan: Scan, step: string, status: Option<string>, n: nat): nat
    requires n <= |scan|
  {
    if n == 0 then 0
    else Occurrences(scan, step, status, n - 1)
         + if (if status.Some? then Is(scan[n - 1], step, status.value) else Has(scan[n - 1], step)) then 1 else 0
  }

  /** The duration that a workflow contributes: that of a completed step, unless it is missing or zero. */
  function DurationOf(w: Option<WorkflowProgress.Workflow>, step: string): seq<int> {
    if !Is(w, step, WorkflowProgress.COMPLETED) then []
    else match w.value.steps[step].durationMs
      case None => []
      case Some(d) => if d == 0 then [] else [d]
  }

  function Durations(scan: Scan, step: string, n: nat): seq<int>
    requires n <= |scan|
  {
    if n == 0 then [] else Durations(scan, step, n - 1) + DurationOf(scan[n - 1], step)
  }

  /** An entry of the scan counts as completed or as failed or as neither, and only a completed one gives a duration. */
  lemma {:induction false} CountsFit(scan: Scan, step: string, n: nat)
    requires n <= |scan|
    ensures |Durations(scan, step, n)| <= Occurrences(scan, step, Some(WorkflowProgress.COMPLETED), n)
    ensures Occurrences(scan, step, Some(WorkflowProgress.COMPLETED), n)
            + Occurrences(scan, step, Some(WorkflowProgress.FAILED), n) <= Occurrences(scan, step, None, n)
  {
    if n == 0 {
    } else {
      CountsFit(scan, step, n - 1);
      assert WorkflowProgress.COMPLETED[0] != WorkflowProgress.FAILED[0];
    }
  }

  /** The status of the step in the `i`-th workflow, if it is there and has the step. */
  function StatusAt(scan: Scan, step: string, i: nat): Option<string>
    requires i < |scan|
  {
    match scan[i]
    case None => None
    case Some(w) => if step in w.steps then Some(w.steps[step].status) else None
  }

  /** The places where the step occurs at all, and those where it has the status. */
  ghost function Places(scan: Scan, step: string, n: nat): set<nat>
    requires n <= |scan|
  {
    set i: nat | i < n && StatusAt(scan, step, i) != None
  }

  ghost function PlacesWith(scan: Scan, step: string, status: string, n: nat): set<nat>
    requires n <= |scan|
  {
    set i: nat | i < n && StatusAt(scan, step, i) == Some(status)
  }

  lemma PlacesOneMore(scan: Scan, step: string, status: string, n: nat)
    requires n < |scan|
    ensures |Places(scan, step, n + 1)| == |Places(scan, step, n)| + if StatusAt(scan, step, n).Some? then 1 else 0
    ensures |PlacesWith(scan, step, status, n + 1)|
         == |PlacesWith(scan, step, status, n)| + if StatusAt(scan, step, n) == Some(status) then 1 else 0
  {
    var all, some := Places(scan, step, n), PlacesWith(scan, step, status, n);
    assert Places(scan, step, n + 1) == if StatusAt(scan, step, n).Some? then all + {n} else all;
    assert PlacesWith(scan, step, status, n + 1)
        == if StatusAt(scan, step, n) == Some(status) then some + {n} else some;
  }

  lemma {:induction false} OccurrencesArePlaces(scan: Scan, step: string, status: string, n: nat)
    requires n <= |scan|
    ensures Occurrences(scan, step, None, n) == |Places(scan, step, n)|
    ensures Occurrences(scan, step, Some(status), n) == |PlacesWith(scan, step, status, n)|
  {
    if n == 0 {
      assert Places(scan, step, n) == {} == PlacesWith(scan, step, status, n);
    } else {
      OccurrencesArePlaces(scan, step, status, n - 1);
      PlacesOneMore(scan, step, status, n - 1);
    }
  }

  /** The workflow at `i` has completed the step, in a time that is known and not zero. */
  predicate Timed(scan: Scan, step: string, i: nat)
    requires i < |scan|
  {
    && StatusAt(scan, step, i) == Some(WorkflowProgress.COMPLETED)
    && scan[i].value.steps[step].durationMs !in [None, Some(0)]
  }

  /** These workflows, in the order of the scan. */
  function TimedPlaces(scan: Scan, step: string, n: nat): (at: seq<nat>)
    requires n <= |scan|
    ensures forall j :: 0 <= j < |at| ==> at[j] < n
  {
    if n == 0 then [] else TimedPlaces(scan, step, n - 1) + if Timed(scan, step, n - 1) then [n - 1] else []
  }

  lemma {:induction false} TimedPlacesExact(scan: Scan, step: string, n: nat, i: nat)
    requires n <= |scan|
    ensures i in TimedPlaces(scan, step, n) <==> i < n && Timed(scan, step, i)
  {
    if n == 0 {
    } else {
      TimedPlacesExact(scan, step, n - 1, i);
    }
  }

  lemma {:induction false} TimedPlacesInOrder(scan: Scan, step: string, n: nat)
    requires n <= |scan|
    ensures forall j, k :: 0 <= j < k < |TimedPlaces(scan, step, n)| ==>
              TimedPlaces(scan, step, n)[j] < TimedPlaces(scan, step, n)[k]
  {
    if n == 0 {
      assert TimedPlaces(scan, step, n) == [];
    } else {
      TimedPlacesInOrder(scan, step, n - 1);
      var at := TimedPlaces(scan, step, n - 1);
      assert TimedPlaces(scan, step, n) == if Timed(scan, step, n - 1) then at + [n - 1] else at;
    }
  }

  lemma {:induction false} DurationsComeFrom(scan: Scan, step: string, n: nat)
    requires n <= |scan|
    ensures var at := TimedPlaces(scan, step, n);
            && |Durations(scan, step, n)| == |at|
            && forall j :: 0 <= j < |at| ==>
                 Timed(scan, step, at[j])
                 && scan[at[j]].value.steps[step].durationMs == Some(Durations(scan, step, n)[j])
  {
    if n == 0 {
    } else {
      DurationsComeFrom(scan, step, n - 1);
      assert Timed(scan, step, n - 1) ==>
          DurationOf(scan[n - 1], step) == [scan[n - 1].value.steps[step].durationMs.value];
      assert !Timed(scan, step, n - 1) ==> DurationOf(scan[n - 1], step) == [];
    }
  }

  // ----- Keys that the scan returns twice -----

  type Hashes = map<string, WorkflowProgress.Workflow>

  /** What the keys of a scan lead to in a store that does not change meanwhile. */
  function Look(store: Hashes, keys: seq<string>): (scan: Scan)
    ensures |scan| == |keys|
  {
    seq(|keys|, i requires 0 <= i < |keys| => if keys[i] in store then Some(store[keys[i]]) else None)
  }

  predicate Relevant(store: Hashes, step: string, key: string) { key in store && step in store[key].steps }

  /** The workflows with the step that the first `n` keys lead to, each once. */
  function Seen(store: Hashes, keys: seq<string>, step: string, n: nat): set<string>
    requires n <= |keys|
  {
    if n == 0 then {}
    else Seen(store, keys, step, n - 1) + if Relevant(store, step, keys[n - 1]) then {keys[n - 1]} else {}
  }

  lemma {:induction false} SeenExact(store: Hashes, keys: seq<string>, step: string, n: nat)
    requires n <= |keys|
    ensures forall k :: k in Seen(store, keys, step, n) <==> Relevant(store, step, k) && k in keys[..n]
  {
    if n == 0 {
    } else {
      SeenExact(store, keys, step, n - 1);
      assert keys[..n] == keys[..n - 1] + [keys[n - 1]];
    }
  }

  /** No workflow with the step is returned twice. */
  ghost predicate NoRepeats(store: Hashes, keys: seq<string>, step: string, n: nat)
    requires n <= |keys|
  {
    forall i, j :: 0 <= i < j < n && Relevant(store, step, keys[i]) ==> keys[i] != keys[j]
  }

  lemma RepeatsOneMore(store: Hashes, keys: seq<string>, step: string, n: nat)
    requires n < |keys|
    ensures NoRepeats(store, keys, step, n + 1) <==>
            NoRepeats(store, keys, step, n) && keys[n] !in Seen(store, keys, step, n)
  {
    SeenExact(store, keys, step, n);
    if keys[n] in Seen(store, keys, step, n) {
      var i :| 0 <= i < n && keys[..n][i] == keys[n];
      assert keys[i] == keys[n] && Relevant(store, step, keys[i]);
    }
    forall i | 0 <= i < n && Relevant(store, step, keys[i]) && keys[i] == keys[n]
      ensures keys[n] in Seen(store, keys, step, n)
    {
      assert keys[..n][i] == keys[n];
    }
  }

  lemma AddOne(seen: set<string>, key: string)
    ensures |seen + {key}| == |seen| + if key in seen then 0 else 1
  {
    if key in seen { assert seen + {key} == seen; }
  }

  /**
   A scan may return a key twice, and a workflow then counts twice: the total is the number of workflows
   with the step exactly when none of them is returned twice, and greater otherwise.
   */
  lemma {:induction false} TotalIsWorkflowsIffNoRepeats(store: Hashes, keys: seq<string>, step: string, n: nat)
    requires n <= |keys|
    ensures Occurrences(Look(store, keys), step, None, n) >= |Seen(store, keys, step, n)|
    ensures Occurrences(Look(store, keys), step, None, n) == |Seen(store, keys, step, n)|
            <==> NoRepeats(store, keys, step, n)
  {
    if n == 0 {
    } else {
      TotalIsWorkflowsIffNoRepeats(store, keys, step, n - 1);
      RepeatsOneMore(store, keys, step, n - 1);
      SeenExact(store, keys, step, n - 1);
      AddOne(Seen(store, keys, step, n - 1), keys[n - 1]);
      assert Has(Look(store, keys)[n - 1], step) <==> Relevant(store, step, keys[n - 1]);
    }
  }

  // ----- The mean -----

  function Sum(ds: seq<int>): int { if ds == [] then 0 else ds[0] + Sum(ds[1..]) }

  /** Python's `int` of a quotient: cut off toward zero. */
  function Average(ds: seq<int>): int
    requires ds != []
  {
    if Sum(ds) >= 0 then Sum(ds) / |ds| else -((-Sum(ds)) / |ds|)
  }

  function Times(n: nat, d: int): int { n * d }

  lemma RestIn(ds: seq<int>)
    requires ds != []
    ensures forall d :: d in ds <==> d == ds[0] || d in ds[1..]
  {
    assert ds == [ds[0]] + ds[1..];
  }

  lemma {:induction false} SumBetween(ds: seq<int>, lo: int, hi: int)
    requires forall d :: d in ds ==> lo <= d <= hi
    ensures Times(|ds|, lo) <= Sum(ds) <= Times(|ds|, hi)
  {
    if ds == [] {
    } else {
      assert ds[0] in ds;
      RestIn(ds);
      SumBetween(ds[1..], lo, hi);
      assert Times(|ds|, lo) == Times(|ds| - 1, lo) + lo && Times(|ds|, hi) == Times(|ds| - 1, hi) + hi;
    }
  }

  lemma TimesGrows(n: nat, a: int, b: int)
    requires a <= b
    ensures Times(n, a) <= Times(n, b)
    ensures Times(n, a + 1) == Times(n, a) + n
  {
  }

  lemma QuotientBetween(a: int, n: nat, lo: int, hi: int)
    requires a >= 0 && n > 0 && Times(n, lo) <= a <= Times(n, hi)
    ensures lo <= a / n <= hi
  {
    var q := a / n;
    assert a == Times(n, q) + a % n;
    assert Times(n, q + 1) == Times(n, q) + n;
    if q < lo {
      TimesGrows(n, q + 1, lo);
    } else if q > hi {
      TimesGrows(n, hi, hi);
      TimesGrows(n, hi + 1, q);
    }
  }

  /** Although it is cut off, the mean lies between any bounds that hold for every duration. */
  lemma AverageBetween(ds: seq<int>, lo: int, hi: int)
    requires ds != [] && forall d :: d in ds ==> lo <= d <= hi
    ensures lo <= Average(ds) <= hi
  {
    SumBetween(ds, lo, hi);
    if Sum(ds) >= 0 {
      QuotientBetween(Sum(ds), |ds|, lo, hi);
    } else {
      assert Times(|ds|, -lo) == -Times(|ds|, lo) && Times(|ds|, -hi) == -Times(|ds|, hi);
      QuotientBetween(-Sum(ds), |ds|, -hi, -lo);
    }
  }

  lemma {:induction false} SumConcat(ds: seq<int>, more: seq<int>)
    ensures Sum(ds + more) == Sum(ds) + Sum(more)
    ensures |more| == 1 ==> Sum(more) == more[0]
  {
    if ds == [] {
      assert ds + more == more;
      assert |more| == 1 ==> more[1..] == [];
    } else {
      SumConcat(ds[1..], more);
      assert (ds + more)[1..] == ds[1..] + more;
    }
  }

  /** The mean is the exact one, less what is cut off; of durations that are not negative in all. */
  lemma AverageIsMean(ds: seq<int>)
    requires ds != []
    ensures Sum(ds) >= 0 ==> Times(|ds|, Average(ds)) <= Sum(ds) < Times(|ds|, Average(ds) + 1)
    ensures Sum(ds) < 0 ==> Times(|ds|, Average(ds) - 1) < Sum(ds) <= Times(|ds|, Average(ds))
  {
    var n, s := |ds|, if Sum(ds) >= 0 then Sum(ds) else -Sum(ds);
    var q := s / n;
    assert s == Times(n, q) + s % n;
    TimesGrows(n, q, q);
    assert Times(n, -q) == -Times(n, q);
    TimesGrows(n, -q - 1, -q);
  }

  // ----- The percentile -----

  function Insert(x: int, ds: seq<int>): seq<int> {
    if ds == [] || x <= ds[0] then [x] + ds else [ds[0]] + Insert(x, ds[1..])
  }

  function Sorted(ds: seq<int>): seq<int> {
    if ds == [] then [] else Insert(ds[0], Sorted(ds[1..]))
  }

  /** How many of the durations are below `x`; with `orEqual`, how many are at most `x`. */
  function CountBelow(ds: seq<int>, x: int, orEqual: bool): nat {
    if ds == [] then 0
    else (if ds[0] < x || (orEqual && ds[0] == x) then 1 else 0) + CountBelow(ds[1..], x, orEqual)
  }

  predicate Ascending(ds: seq<int>) {
    forall i, j :: 0 <= i < j < |ds| ==> ds[i] <= ds[j]
  }

  lemma FirstKeepsAscending(x: int, ds: seq<int>)
    requires Ascending(ds) && (ds != [] ==> x <= ds[0])
    ensures Ascending([x] + ds)
  {
    forall j | 1 <= j < |ds| + 1 ensures x <= ([x] + ds)[j] {
      assert ([x] + ds)[j] == ds[j - 1];
    }
  }

  lemma {:induction false} InsertExact(y: int, ds: seq<int>)
    requires Ascending(ds)
    ensures Ascending(Insert(y, ds)) && |Insert(y, ds)| == |ds| + 1
    ensures forall d :: d in Insert(y, ds) <==> d == y || d in ds
  {
    if ds == [] || y <= ds[0] {
      FirstKeepsAscending(y, ds);
    } else {
      InsertExact(y, ds[1..]);
      var rest := Insert(y, ds[1..]);
      assert ([ds[0]] + rest)[1..] == rest;
      forall d | d in rest ensures ds[0] <= d {
      }
      FirstKeepsAscending(ds[0], rest);
      RestIn(ds);
    }
  }

  lemma {:induction false} InsertCounts(y: int, ds: seq<int>, x: int, orEqual: bool)
    ensures CountBelow(Insert(y, ds), x, orEqual) == CountBelow([y], x, orEqual) + CountBelow(ds, x, orEqual)
  {
    assert [y][1..] == [];
    if ds == [] || y <= ds[0] {
      assert ([y] + ds)[1..] == ds;
    } else {
      InsertCounts(y, ds[1..], x, orEqual);
      var rest := Insert(y, ds[1..]);
      assert ([ds[0]] + rest)[1..] == rest;
    }
  }

  lemma {:induction false} SortedExact(ds: seq<int>, x: int, orEqual: bool)
    ensures Ascending(Sorted(ds)) && |Sorted(ds)| == |ds|
    ensures forall d :: d in Sorted(ds) <==> d in ds
    ensures CountBelow(Sorted(ds), x, orEqual) == CountBelow(ds, x, orEqual)
  {
    if ds == [] {
    } else {
      SortedExact(ds[1..], x, orEqual);
      InsertExact(ds[0], Sorted(ds[1..]));
      InsertCounts(ds[0], Sorted(ds[1..]), x, orEqual);
      assert [ds[0]][1..] == [];
      RestIn(ds);
    }
  }

  lemma {:induction false} CountInAscending(ds: seq<int>, k: nat)
    requires Ascending(ds) && k < |ds|
    ensures CountBelow(ds, ds[k], false) <= k < CountBelow(ds, ds[k], true)
  {
    if k > 0 {
      CountInAscending(ds[1..], k - 1);
      assert ds[1..][k - 1] == ds[k];
    } else {
      NoneBelow(ds, ds[0]);
    }
  }

  lemma {:induction false} NoneBelow(ds: seq<int>, x: int)
    requires forall d :: d in ds ==> x <= d
    ensures CountBelow(ds, x, false) == 0
  {
    if ds == [] {
    } else {
      assert ds[0] in ds;
      RestIn(ds);
      NoneBelow(ds[1..], x);
    }
  }

  /** `x` is the element that `k` of them come before when they are lined up by size. */
  ghost predicate HasRank(ds: seq<int>, x: int, k: nat) {
    x in ds && CountBelow(ds, x, false) <= k < CountBelow(ds, x, true)
  }

  lemma SortedHasRank(ds: seq<int>, k: nat)
    requires k < |ds|
    ensures |Sorted(ds)| == |ds| && HasRank(ds, Sorted(ds)[k], k)
  {
    SortedExact(ds, 0, false);
    var x := Sorted(ds)[k];
    SortedExact(ds, x, false);
    SortedExact(ds, x, true);
    CountInAscending(Sorted(ds), k);
  }

  lemma {:induction false} BelowIsUpTo(ds: seq<int>, x: int, y: int)
    requires x < y
    ensures CountBelow(ds, x, true) <= CountBelow(ds, y, false)
  {
    if ds == [] {
    } else {
      BelowIsUpTo(ds[1..], x, y);
    }
  }

  /** There is only one such value. */
  lemma RankIsUnique(ds: seq<int>, x: int, y: int, k: nat)
    requires HasRank(ds, x, k) && HasRank(ds, y, k)
    ensures x == y
  {
    if x < y { BelowIsUpTo(ds, x, y); }
    if y < x { BelowIsUpTo(ds, y, x); }
  }

  // ----- The success rate -----

  /** Python's `round`: to the nearest whole number, and from the middle to the even one. */
  function Round(x: real): int {
    var d := x - x.Floor as real;
    if d < 0.5 || (d == 0.5 && x.Floor % 2 == 0) then x.Floor else x.Floor + 1
  }

  lemma RoundNear(x: real)
    ensures -0.5 <= Round(x) as real - x <= 0.5
    ensures Round(x) as real - x in {-0.5, 0.5} ==> Round(x) % 2 == 0
  {
  }

  lemma RoundBetween(x: real, lo: int, hi: int)
    requires lo as real <= x <= hi as real
    ensures lo <= Round(x) <= hi
  {
  }

  function Ratio(completed: nat, total: nat): real
    requires total > 0
  {
    completed as real / total as real
  }

  /** In percent, with two decimals. */
  function SuccessRate(completed: nat, total: nat): real {
    if total == 0 then 0.0 else Round(Ratio(completed, total) * 100.0 * 100.0) as real / 100.0
  }

  lemma RatioBetween(completed: nat, total: nat)
    requires total > 0 && completed <= total
    ensures 0.0 <= Ratio(completed, total) <= 1.0
    ensures completed == total ==> Ratio(completed, total) == 1.0
    ensures completed == 0 ==> Ratio(completed, total) == 0.0
  {
  }

  function TimesReal(a: real, b: real): real { a * b }

  lemma PositiveTimes(a: real, t: real)
    requires t > 0.0 && a > 0.0
    ensures TimesReal(a, t) > 0.0
  {
  }

  lemma TimesTotal(q: real, d: real, t: real)
    requires t > 0.0
    ensures TimesReal(q + d, t) == TimesReal(q, t) + TimesReal(d, t)
    ensures TimesReal(10000.0 * q, t) == 10000.0 * TimesReal(q, t)
    ensures d == 0.5 ==> TimesReal(d, t) == 0.5 * t
    ensures d == -0.5 ==> TimesReal(d, t) == -0.5 * t
    ensures -0.5 < d < 0.5 ==> -0.5 * t < TimesReal(d, t) < 0.5 * t
  {
    if -0.5 < d < 0.5 {
      PositiveTimes(0.5 - d, t);
      PositiveTimes(0.5 + d, t);
      assert TimesReal(0.5 - d, t) == 0.5 * t - TimesReal(d, t);
      assert TimesReal(0.5 + d, t) == 0.5 * t + TimesReal(d, t);
    }
  }

  lemma RatioTimes(completed: nat, total: nat)
    requires total > 0
    ensures TimesReal(Ratio(completed, total), total as real) == completed as real
  {
  }

  /** The rate as a percentage in hundredths: the nearest to the exact one, the even one if two are as near. */
  ghost predicate NearestHundredths(hundredths: int, completed: nat, total: nat) {
    var off := 2 * (Times(total, hundredths) - 10000 * completed);
    0 <= off + total && off <= total && (off == total || off + total == 0 ==> hundredths % 2 == 0)
  }

  /** The rate is exact at both ends, and zero without workflows. */
  lemma SuccessRateIsPercentage(completed: nat, total: nat) returns (hundredths: int)
    requires completed <= total
    ensures SuccessRate(completed, total) == hundredths as real / 100.0 && 0 <= hundredths <= 10000
    ensures total > 0 ==> NearestHundredths(hundredths, completed, total)
    ensures completed == total > 0 ==> SuccessRate(completed, total) == 100.0
    ensures completed == 0 ==> SuccessRate(completed, total) == 0.0
  {
    hundredths := 0;
    if total > 0 {
      var q := Ratio(completed, total);
      RatioBetween(completed, total);
      RoundNear(q * 100.0 * 100.0);
      RoundBetween(q * 100.0 * 100.0, 0, 10000);
      hundredths := Round(q * 100.0 * 100.0);
      NearestInWhole(hundredths, q, completed, total);
    }
  }

  lemma NearestInWhole(hundredths: int, q: real, completed: nat, total: nat)
    requires total > 0 && q == Ratio(completed, total)
    requires -0.5 <= hundredths as real - 10000.0 * q <= 0.5
    requires hundredths as real - 10000.0 * q in {-0.5, 0.5} ==> hundredths % 2 == 0
    ensures NearestHundredths(hundredths, completed, total)
  {
    var t, d := total as real, hundredths as real - 10000.0 * q;
    RatioTimes(completed, total);
    TimesTotal(q, d, t);
    TimesTotal(10000.0 * q, d, t);
    assert TimesReal(hundredths as real, t) == Times(total, hundredths) as real;
  }

  // ----- The method -----

  datatype Metrics = Metrics(
    total: nat, completed: nat, failed: nat, successRate: real, average: Option<int>, p95: Option<int>)

  /**
   The whole scan is counted: `limit`, which is passed along to the server, is only a hint for the size
   of its answers.  A tracker that is not enabled has no metrics.
   */
  method GetStepMetrics(enabled: bool, scan: Scan, step: string, limit: int) returns (r: Option<Metrics>)
    ensures r.Some? <==> enabled
    ensures r.Some? ==>
              var m := r.value;
              && m.total == Occurrences(scan, step, None, |scan|)
              && m.completed == Occurrences(scan, step, Some(WorkflowProgress.COMPLETED), |scan|)
              && m.failed == Occurrences(scan, step, Some(WorkflowProgress.FAILED), |scan|)
              && m.successRate == SuccessRate(m.completed, m.total)
              && var ds := Durations(scan, step, |scan|);
                 if ds == [] then m.average == None == m.p95
                 else && m.average == Some(Average(ds))
                      && m.p95.Some? && HasRank(ds, m.p95.value, |ds| * 19 / 20)
  {
    if !enabled {
      return None;
    }
    var durations: seq<int>, total: nat, completed: nat, failed: nat := [], 0, 0, 0;
    for i := 0 to |scan|
      invariant total == Occurrences(scan, step, None, i)
      invariant completed == Occurrences(scan, step, Some(WorkflowProgress.COMPLETED), i)
      invariant failed == Occurrences(scan, step, Some(WorkflowProgress.FAILED), i)
      invariant durations == Durations(scan, step, i)
    {
      if scan[i].None? || step !in scan[i].value.steps {
        continue;
      }
      var data := scan[i].value.steps[step];
      total := total + 1;
      if data.status == WorkflowProgress.COMPLETED {
        completed := completed + 1;
        if data.durationMs.Some? && data.durationMs.value != 0 {
          durations := durations + [data.durationMs.value];
        }
      } else if data.status == WorkflowProgress.FAILED {
        failed := failed + 1;
      }
    }
    var rate := SuccessRate(completed, total);
    if durations == [] {
      return Some(Metrics(total, completed, failed, rate, None, None));
    }
    var k := |durations| * 19 / 20;
    SortedHasRank(durations, k);
    r := Some(Metrics(total, completed, failed, rate, Some(Average(durations)), Some(Sorted(durations)[k])));
  }

  // ----- What the limit does not limit -----

  /** How many of the first `n` are there and have the step. */
  lemma {:induction false} OccurrencesAtMost(scan: Scan, step: string, n: nat)
    requires n <= |scan|
    ensures Occurrences(scan, step, None, n) <= n
    ensures Occurrences(scan, step, None, n) == n <==> forall i :: 0 <= i < n ==> Has(scan[i], step)
  {
    if n == 0 {
    } else {
      OccurrencesAtMost(scan, step, n - 1);
    }
  }

  /**
   The limit is documented as the number of workflows that are analysed at most.  A store of no more
   workflows than that keeps it; for any greater number there is a store of that many that are all
   analysed.
   */
  lemma LimitKeptIffStoreWithin(limit: nat, step: string, size: nat)
    ensures (forall scan: Scan :: |scan| == size ==> Occurrences(scan, step, None, size) <= limit)
            <==> size <= limit
  {
    if size <= limit {
      forall scan: Scan | |scan| == size ensures Occurrences(scan, step, None, size) <= limit {
        OccurrencesAtMost(scan, step, size);
      }
    } else {
      var w := Some(WorkflowProgress.Started([step], 0));
      var scan: Scan := seq(size, i => w);
      OccurrencesAtMost(scan, step, size);
      assert Occurrences(scan, step, None, size) == size;
    }
  }
}
