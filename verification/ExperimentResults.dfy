/**
 Conversion statistics and the choice of a winner (core/utils/ab_testing.py).

 Square roots are avoided by comparing squares.  Python turns the square root of a negative number
 into a complex one: its absolute value can still be compared, but `max` of it raises an error.
 */
module ExperimentResults {
  import opened Basics
  import opened Options

  datatype Event = Sent | Opened | Clicked | Replied | Meeting | Converted | Unsubscribed | Bounced

  datatype Conversion = Conversion(lead: string, experiment: string, variant: string, event: Event)

  datatype Experiment = Experiment(id: string, variants: seq<string>)

  // ----- Counting -----

  /** The records of one experiment and variant, in order. */
  function RecordsOf(cs: seq<Conversion>, experiment: string, variant: string, n: nat): seq<Conversion>
    requires n <= |cs|
  {
    if n == 0 then []
    else RecordsOf(cs, experiment, variant, n - 1)
         + if cs[n - 1].experiment == experiment && cs[n - 1].variant == variant then [cs[n - 1]] else []
  }

  function Leads(rs: seq<Conversion>): set<string> {
    set i | 0 <= i < |rs| :: rs[i].lead
  }

  function EventCount(rs: seq<Conversion>, e: Event, n: nat): nat
    requires n <= |rs|
  {
    if n == 0 then 0 else EventCount(rs, e, n - 1) + if rs[n - 1].event == e then 1 else 0
  }

  function Rate(count: nat, sample: nat): real {
    if sample == 0 then 0.0 else count as real / sample as real
  }

  /** No lead has two records of the event among these. */
  ghost predicate OncePerLead(rs: seq<Conversion>, e: Event) {
    forall i, j :: 0 <= i < j < |rs| && rs[i].event == e == rs[j].event ==> rs[i].lead != rs[j].lead
  }

  function LeadsWith(rs: seq<Conversion>, e: Event, n: nat): set<string>
    requires n <= |rs|
  {
    set i | 0 <= i < n && rs[i].event == e :: rs[i].lead
  }

  lemma LeadsWithOneMore(rs: seq<Conversion>, e: Event, n: nat)
    requires n < |rs|
    ensures LeadsWith(rs, e, n + 1)
         == LeadsWith(rs, e, n) + if rs[n].event == e then {rs[n].lead} else {}
  {
    if rs[n].event == e {
      forall l | l in LeadsWith(rs, e, n) + {rs[n].lead} ensures l in LeadsWith(rs, e, n + 1) {
        if l == rs[n].lead { assert rs[n].lead == l; }
      }
    }
  }

  lemma NewLead(rs: seq<Conversion>, e: Event, n: nat)
    requires OncePerLead(rs, e) && n < |rs| && rs[n].event == e
    ensures rs[n].lead !in LeadsWith(rs, e, n)
  {
  }

  lemma OneMoreLead(rs: seq<Conversion>, e: Event, n: nat)
    requires OncePerLead(rs, e) && n < |rs|
    ensures |LeadsWith(rs, e, n + 1)| == |LeadsWith(rs, e, n)| + if rs[n].event == e then 1 else 0
  {
    LeadsWithOneMore(rs, e, n);
    if rs[n].event == e { NewLead(rs, e, n); }
  }

  lemma {:induction false} CountIsLeads(rs: seq<Conversion>, e: Event, n: nat)
    requires OncePerLead(rs, e) && n <= |rs|
    ensures EventCount(rs, e, n) == |LeadsWith(rs, e, n)|
  {
    if n > 0 {
      CountIsLeads(rs, e, n - 1);
      OneMoreLead(rs, e, n - 1);
    } else {
      assert LeadsWith(rs, e, 0) == {};
    }
  }

  lemma NonNegativeProduct(a: real, b: real)
    requires a >= 0.0 && b >= 0.0
    ensures a * b >= 0.0
  {
  }

  lemma PositiveProduct(a: real, b: real)
    requires a > 0.0 && b > 0.0
    ensures a * b > 0.0
  {
  }

  lemma DistributesOver(r: real, m: real)
    ensures (1.0 - r) * m == m - r * m && (r - 1.0) * m == r * m - m && (-r) * m == -(r * m)
  {
  }

  lemma QuotientBounds(r: real, m: real, c: real)
    requires m > 0.0 && c >= 0.0 && r * m == c
    ensures r >= 0.0 && (r <= 1.0 <==> c <= m)
  {
    DistributesOver(r, m);
    if r < 0.0 { PositiveProduct(-r, m); }
    if r <= 1.0 {
      NonNegativeProduct(1.0 - r, m);
    } else {
      PositiveProduct(r - 1.0, m);
    }
  }

  lemma RateBounds(count: nat, sample: nat)
    ensures Rate(count, sample) >= 0.0
    ensures sample > 0 ==> (Rate(count, sample) <= 1.0 <==> count <= sample)
  {
    if sample > 0 {
      assert Rate(count, sample) * sample as real == count as real;
      QuotientBounds(Rate(count, sample), sample as real, count as real);
    }
  }

  /** When no lead has two records of an event within a variant, the event's rate is a proportion. */
  lemma RateIsProportion(rs: seq<Conversion>, e: Event)
    requires OncePerLead(rs, e)
    ensures 0.0 <= Rate(EventCount(rs, e, |rs|), |Leads(rs)|) <= 1.0
  {
    CountIsLeads(rs, e, |rs|);
    assert LeadsWith(rs, e, |rs|) <= Leads(rs);
    SubsetSize(LeadsWith(rs, e, |rs|), Leads(rs));
    RateBounds(EventCount(rs, e, |rs|), |Leads(rs)|);
  }

  // ----- The two tests -----

  const Z_CRITICAL: real := 1.96
  const MIN_SAMPLE: nat := 30

  /** A rate times its sample. */
  function Conversions(p: real, m: nat): real { p * m as real }

  function Pooled(p: real, q: real, m: nat, n: nat): real
    requires m + n > 0
  {
    (Conversions(p, m) + Conversions(q, n)) / (m + n) as real
  }

  /** The square of the standard error. */
  function Variance(p: real, q: real, m: nat, n: nat): real
    requires m > 0 && n > 0
  {
    var pool := Pooled(p, q, m, n);
    pool * (1.0 - pool) * (1.0 / m as real + 1.0 / n as real)
  }

  function Abs(r: real): real { if r < 0.0 then -r else r }

  /** The z-statistic of a difference with this variance is above the critical value, as squares. */
  predicate Exceeds(difference: real, variance: real) {
    difference * difference > Z_CRITICAL * Z_CRITICAL * Abs(variance)
  }

  predicate Significant(control: real, variant: real, m: nat, n: nat) {
    m >= MIN_SAMPLE && n >= MIN_SAMPLE
    && var v := Variance(control, variant, m, n);
       v != 0.0 && Exceeds(variant - control, v)
  }

  /** The test does not depend on which arm is called the control. */
  lemma SignificantIsSymmetric(p: real, q: real, m: nat, n: nat)
    ensures Significant(p, q, m, n) <==> Significant(q, p, n, m)
  {
    if m >= MIN_SAMPLE && n >= MIN_SAMPLE {
      assert Pooled(p, q, m, n) == Pooled(q, p, n, m);
      assert Variance(p, q, m, n) == Variance(q, p, n, m);
      SquaresAgree(p, q);
    }
  }

  lemma SquaresAgree(p: real, q: real)
    ensures (q - p) * (q - p) == (p - q) * (p - q)
  {
  }

  lemma Between(p: real, m: nat)
    requires 0.0 <= p <= 1.0
    ensures 0.0 <= Conversions(p, m) <= m as real
  {
    NonNegativeProduct(1.0 - p, m as real);
  }

  lemma Quotient(a: real, b: real)
    requires 0.0 <= a <= b && b > 0.0
    ensures 0.0 <= a / b <= 1.0
  {
  }

  lemma PooledBetween(p: real, q: real, m: nat, n: nat)
    requires 0.0 <= p <= 1.0 && 0.0 <= q <= 1.0 && m > 0 && n > 0
    ensures 0.0 <= Pooled(p, q, m, n) <= 1.0
  {
    Between(p, m);
    Between(q, n);
    Quotient(Conversions(p, m) + Conversions(q, n), (m + n) as real);
  }

  lemma Reciprocal(n: nat)
    requires n > 0
    ensures 1.0 / n as real > 0.0
  {
  }

  // The test in whole numbers.  Every quotient is first multiplied out.

  lemma {:induction false} CastTimes(x: int, y: int)
    ensures (x * y) as real == x as real * y as real
  {
  }

  lemma RateTimes(a: nat, m: nat)
    requires m > 0
    ensures Rate(a, m) * m as real == a as real
  {
  }

  lemma PooledTimes(p: real, q: real, m: nat, n: nat)
    requires m > 0 && n > 0
    ensures Pooled(p, q, m, n) * (m + n) as real == Conversions(p, m) + Conversions(q, n)
  {
  }

  lemma WeightTimes(m: real, n: real)
    requires m > 0.0 && n > 0.0
    ensures (1.0 / m + 1.0 / n) * (m * n) == m + n
  {
    var u, v := 1.0 / m, 1.0 / n;
    assert u * m == 1.0 && v * n == 1.0;
    assert (u + v) * (m * n) == (u * m) * n + (v * n) * m;
  }

  /** The variance, multiplied out: s and t are the conversions and the rest of both samples. */
  lemma VarianceTimes(pool: real, w: real, total: real, s: real, mn: real)
    requires pool * total == s && w * mn == total
    ensures pool * (1.0 - pool) * w * (total * mn) == s * (total - s)
  {
    var c := 1.0 - pool;
    assert c * total == total - s by { assert (1.0 - pool) * total == total - pool * total; }
    assert pool * c * w * (total * mn) == (pool * c) * total * (w * mn) by {
      Regroup(pool * c, w, total, mn);
    }
    assert (pool * c) * total * total == (pool * total) * (c * total) by {
      Regroup(pool, c, total, total);
    }
  }

  lemma Regroup(a: real, b: real, c: real, d: real)
    ensures a * b * (c * d) == (a * c) * (b * d)
    ensures (a * b) * c * d == (a * c) * (b * d)
    ensures a * b * (c * d) == a * c * (b * d)
  {
  }

  /** The difference of the rates, multiplied out. */
  lemma DifferenceTimes(p: real, q: real, m: real, n: real, a: real, b: real)
    requires p * m == a && q * n == b
    ensures (q - p) * (m * n) == b * m - a * n
  {
    assert (q - p) * (m * n) == (q * n) * m - (p * m) * n;
  }

  lemma Scaled(x: real, y: real, k: real)
    requires k > 0.0
    ensures x > y <==> x * k > y * k
    ensures x == 0.0 <==> x * k == 0.0
    ensures x >= 0.0 <==> x * k >= 0.0
  {
    assert (x - y) * k == x * k - y * k;
    if x > y {
      PositiveProduct(x - y, k);
    } else {
      NonNegativeProduct(y - x, k);
      assert (y - x) * k == y * k - x * k;
    }
    if x > 0.0 { PositiveProduct(x, k); }
    if x < 0.0 { PositiveProduct(-x, k); }
  }

  lemma SquareTimes(d: real, mn: real, e: real)
    requires d * mn == e
    ensures d * d * (mn * mn) == e * e
  {
    Regroup(d, d, mn, mn);
  }

  /** The test multiplied out: `e` is the difference, `st` the product of conversions and rest. */
  predicate ExceedsOut(e: real, total: real, st: real, mn: real) { e * e * total > 3.8416 * st * mn }

  lemma LeftOut(d: real, mn: real, e: real, total: real)
    requires d * mn == e
    ensures d * d * (mn * (mn * total)) == e * e * total
  {
    SquareTimes(d, mn, e);
    assert d * d * (mn * (mn * total)) == (d * d * (mn * mn)) * total;
  }

  lemma RightOut(v: real, mn: real, total: real, st: real)
    requires v * (total * mn) == st
    ensures 3.8416 * v * (mn * (mn * total)) == 3.8416 * st * mn
  {
    var w := v * (total * mn);
    assert v * (mn * (mn * total)) == w * mn;
    assert 3.8416 * v * (mn * (mn * total)) == 3.8416 * (v * (mn * (mn * total)));
    assert 3.8416 * st * mn == 3.8416 * (st * mn);
  }

  lemma AbsOut(v: real, k: real, st: real)
    requires k > 0.0 && v * k == st
    ensures Abs(v) * k == Abs(st) && (v == 0.0 <==> st == 0.0)
  {
    Scaled(v, 0.0, k);
    assert (-v) * k == -(v * k);
  }

  lemma ExceedsMultipliedOut(d: real, v: real, mn: real, total: real, e: real, st: real)
    requires mn > 0.0 && total > 0.0 && d * mn == e && Abs(v) * (total * mn) == st
    ensures Exceeds(d, v) <==> ExceedsOut(e, total, st, mn)
  {
    PositiveProduct(mn, total);
    PositiveProduct(mn, mn * total);
    Scaled(d * d, 3.8416 * Abs(v), mn * (mn * total));
    LeftOut(d, mn, e, total);
    RightOut(Abs(v), mn, total, st);
  }

  /** Conversions times rest. */
  function Mixed(s: real, total: real): real { s * (total - s) }

  function Area(m: nat, n: nat): real { m as real * n as real }

  lemma VarianceOut(a: nat, b: nat, m: nat, n: nat)
    requires m > 0 && n > 0
    ensures Area(m, n) > 0.0
    ensures Variance(Rate(a, m), Rate(b, n), m, n) * ((m + n) as real * Area(m, n))
         == Mixed((a + b) as real, (m + n) as real)
  {
    RateTimes(a, m);
    RateTimes(b, n);
    PooledTimes(Rate(a, m), Rate(b, n), m, n);
    WeightTimes(m as real, n as real);
    PositiveProduct(m as real, n as real);
    VarianceTimes(Pooled(Rate(a, m), Rate(b, n), m, n), 1.0 / m as real + 1.0 / n as real,
                  (m + n) as real, (a + b) as real, Area(m, n));
  }

  function Cross(a: nat, b: nat, m: nat, n: nat): real { b as real * m as real - a as real * n as real }

  lemma DifferenceOut(a: nat, b: nat, m: nat, n: nat)
    requires m > 0 && n > 0
    ensures (Rate(b, n) - Rate(a, m)) * Area(m, n) == Cross(a, b, m, n)
  {
    RateTimes(a, m);
    RateTimes(b, n);
    DifferenceTimes(Rate(a, m), Rate(b, n), m as real, n as real, a as real, b as real);
  }

  lemma TestMultipliedOut(d: real, v: real, mn: real, total: real, e: real, st: real)
    requires mn > 0.0 && total > 0.0 && d * mn == e && v * (total * mn) == st
    ensures v != 0.0 && Exceeds(d, v) <==> st != 0.0 && ExceedsOut(e, total, Abs(st), mn)
  {
    PositiveProduct(total, mn);
    AbsOut(v, total * mn, st);
    ExceedsMultipliedOut(d, v, mn, total, e, Abs(st));
  }

  /** In reals: `a` of `m` against `b` of `n` conversions. */
  lemma SignificantMultipliedOut(a: nat, b: nat, m: nat, n: nat)
    requires m >= MIN_SAMPLE && n >= MIN_SAMPLE
    ensures var st := Mixed((a + b) as real, (m + n) as real);
            Significant(Rate(a, m), Rate(b, n), m, n) <==>
            st != 0.0 && ExceedsOut(Cross(a, b, m, n), (m + n) as real, Abs(st), Area(m, n))
  {
    VarianceOut(a, b, m, n);
    DifferenceOut(a, b, m, n);
    TestMultipliedOut(Rate(b, n) - Rate(a, m), Variance(Rate(a, m), Rate(b, n), m, n), Area(m, n), (m + n) as real,
                      Cross(a, b, m, n), Mixed((a + b) as real, (m + n) as real));
  }

  /** The same comparison in whole numbers. */
  predicate ExceedsWhole(e: int, total: int, st: int, mn: int) {
    10000 * (e * e) * total > 38416 * st * mn
  }

  lemma WholeNumbers(e: int, total: int, st: int, mn: int)
    ensures ExceedsOut(e as real, total as real, st as real, mn as real) <==> ExceedsWhole(e, total, st, mn)
  {
    CastTimes(e, e);
    CastTimes(e * e, total);
    CastTimes(st, mn);
    var l, r := e * e * total, st * mn;
    assert 10000 * (e * e) * total == 10000 * l && 38416 * st * mn == 38416 * r;
    assert 3.8416 * st as real * mn as real == 3.8416 * (st as real * mn as real);
  }

  lemma CastParts(a: nat, b: nat, m: nat, n: nat)
    ensures Cross(a, b, m, n) == (b * m - a * n) as real
    ensures Mixed((a + b) as real, (m + n) as real) == ((a + b) * (m + n - a - b)) as real
    ensures Area(m, n) == (m * n) as real
  {
    CastTimes(b, m);
    CastTimes(a, n);
    CastTimes(a + b, m + n - a - b);
    CastTimes(m, n);
  }

  function Distance(i: int): nat { if i < 0 then -i else i }

  /**
   The test in whole numbers, also for counts above the sample: `a` records of `m` leads and `b` of `n`
   differ significantly exactly when the pooled rate is neither 0 nor 1 and the z-statistic, as the
   code computes it, is above 1.96.
   */
  lemma SignificantIff(a: nat, b: nat, m: nat, n: nat)
    requires m >= 30 && n >= 30
    ensures Significant(Rate(a, m), Rate(b, n), m, n) <==>
            && (a + b) * (m + n - a - b) != 0
            && ExceedsWhole(b * m - a * n, m + n, Distance((a + b) * (m + n - a - b)), m * n)
  {
    SignificantMultipliedOut(a, b, m, n);
    CastParts(a, b, m, n);
    WholeNumbers(b * m - a * n, m + n, Distance((a + b) * (m + n - a - b)), m * n);
  }

  lemma NoZeroProduct(s: nat, t: nat)
    ensures s * t == 0 <==> s == 0 || t == 0
    ensures s * t >= 0
  {
  }

  /** For proportions: some leads have converted, some have not, and z * z > 1.96 * 1.96, multiplied out. */
  lemma SignificantProportionsIff(a: nat, b: nat, m: nat, n: nat)
    requires a <= m && b <= n && m >= 30 && n >= 30
    ensures Significant(Rate(a, m), Rate(b, n), m, n) <==>
            && 0 < a + b < m + n
            && 10000 * ((b * m - a * n) * (b * m - a * n)) * (m + n)
               > 38416 * ((a + b) * (m + n - a - b)) * (m * n)
  {
    SignificantIff(a, b, m, n);
    NoZeroProduct(a + b, m + n - a - b);
  }

  /** Smaller samples never differ significantly, whatever their rates. */
  lemma SmallSamplesNeverDiffer(p: real, q: real, m: nat, n: nat)
    requires m < 30 || n < 30
    ensures !Significant(p, q, m, n)
  {
  }

  /** With proportions in both arms the pooled rate is one, and no square root is of a negative number. */
  lemma PooledIsProportion(p: real, q: real, m: nat, n: nat)
    requires 0.0 <= p <= 1.0 && 0.0 <= q <= 1.0 && m > 0 && n > 0
    ensures 0.0 <= Pooled(p, q, m, n) <= 1.0
    ensures Variance(p, q, m, n) >= 0.0
  {
    PooledBetween(p, q, m, n);
    Reciprocal(m);
    Reciprocal(n);
    SpreadNonNegative(Pooled(p, q, m, n), 1.0 / m as real + 1.0 / n as real);
  }

  lemma SpreadNonNegative(pool: real, w: real)
    requires 0.0 <= pool <= 1.0 && w >= 0.0
    ensures pool * (1.0 - pool) * w >= 0.0
  {
    NonNegativeProduct(pool, 1.0 - pool);
    NonNegativeProduct(pool * (1.0 - pool), w);
  }

  /** The confidence interval raises an error on a sample of 30 or more with a rate above one. */
  predicate IntervalRaises(rate: real, sample: nat) { sample >= MIN_SAMPLE && rate > 1.0 }

  // ----- The choice of a winner -----

  datatype Stats = Stats(variant: string, sample: nat, rate: real)

  function StatsFor(cs: seq<Conversion>, experiment: string, variant: string, e: Event): Stats {
    var rs := RecordsOf(cs, experiment, variant, |cs|);
    var sample := |Leads(rs)|;
    Stats(variant, sample, Rate(EventCount(rs, e, |rs|), sample))
  }

  /** The statistics of the first entry for the control variant, or zeros. */
  function ControlStats(ss: seq<Stats>, control: string): Stats {
    if ss == [] then Stats(control, 0, 0.0)
    else if ss[0].variant == control then ss[0]
    else ControlStats(ss[1..], control)
  }

  predicate Eligible(ss: seq<Stats>, c: Stats, i: nat)
    requires i < |ss|
  {
    ss[i].variant != c.variant && Significant(c.rate, ss[i].rate, c.sample, ss[i].sample) && ss[i].rate > 0.0
  }

  /** `i` is the earliest of the eligible variants with the highest rate among the first `n`. */
  ghost predicate BestOf(ss: seq<Stats>, c: Stats, i: nat, n: nat)
    requires n <= |ss|
  {
    && i < n && Eligible(ss, c, i)
    && (forall j :: 0 <= j < n && Eligible(ss, c, j) ==> ss[j].rate <= ss[i].rate)
    && (forall j :: 0 <= j < i && Eligible(ss, c, j) ==> ss[j].rate < ss[i].rate)
  }

  lemma BestIsUnique(ss: seq<Stats>, c: Stats, i: nat, j: nat, n: nat)
    requires n <= |ss| && BestOf(ss, c, i, n) && BestOf(ss, c, j, n)
    ensures i == j
  {
  }

  /** The loop over the variants. */
  method PickWinner(ss: seq<Stats>, control: string) returns (winner: Option<nat>)
    ensures var c := ControlStats(ss, control);
            match winner
            case Some(i) => BestOf(ss, c, i, |ss|)
            case None => forall j :: 0 <= j < |ss| ==> !Eligible(ss, c, j)
  {
    var c := ControlStats(ss, control);
    ControlIsNamed(ss, control);
    winner := None;
    var maxRate := 0.0;
    for i := 0 to |ss|
      invariant winner.None? ==> maxRate == 0.0 && forall j :: 0 <= j < i ==> !Eligible(ss, c, j)
      invariant winner.Some? ==> BestOf(ss, c, winner.value, i) && maxRate == ss[winner.value].rate
    {
      if ss[i].variant == control {
        continue;
      }
      var significant := Significant(c.rate, ss[i].rate, c.sample, ss[i].sample);
      if significant && ss[i].rate > maxRate {
        maxRate := ss[i].rate;
        winner := Some(i);
      }
    }
  }

  lemma {:induction false} ControlIsNamed(ss: seq<Stats>, control: string)
    ensures ControlStats(ss, control).variant == control
  {
    if ss == [] {
    } else {
      ControlIsNamed(ss[1..], control);
    }
  }

  // ----- Whole results -----

  datatype Recommendation = RollOut | Inconclusive | NoDifference

  datatype Outcome =
    | NotFound
    | TypeError
    | Results(stats: seq<Stats>, winner: Option<string>, lift: Option<real>, advice: Recommendation)

  ghost predicate SomeIntervalRaises(ss: seq<Stats>) {
    exists i :: 0 <= i < |ss| && IntervalRaises(ss[i].rate, ss[i].sample)
  }

  predicate AnySignificant(ss: seq<Stats>, c: Stats, i: nat)
    requires i < |ss|
  {
    ss[i].variant != c.variant && Significant(c.rate, ss[i].rate, c.sample, ss[i].sample)
  }

  /** The test in whole numbers, for `a` of `m` leads and `b` of `n`. */
  ghost predicate Differ(a: nat, b: nat, m: nat, n: nat) {
    && m >= 30 && n >= 30 && 0 < a + b < m + n
    && 10000 * ((b * m - a * n) * (b * m - a * n)) * (m + n)
       > 38416 * ((a + b) * (m + n - a - b)) * (m * n)
  }

  /** A variant is eligible if it differs from the control and has any conversion at all, better or worse. */
  lemma EligibleIff(ss: seq<Stats>, c: Stats, i: nat, a: nat, b: nat)
    requires i < |ss| && a <= c.sample && b <= ss[i].sample
    requires c.rate == Rate(a, c.sample) && ss[i].rate == Rate(b, ss[i].sample)
    ensures AnySignificant(ss, c, i) <==> ss[i].variant != c.variant && Differ(a, b, c.sample, ss[i].sample)
    ensures Eligible(ss, c, i) <==> ss[i].variant != c.variant && Differ(a, b, c.sample, ss[i].sample) && b > 0
  {
    if c.sample >= 30 && ss[i].sample >= 30 {
      SignificantProportionsIff(a, b, c.sample, ss[i].sample);
      RatePositiveIff(b, ss[i].sample);
    }
  }

  lemma RatePositiveIff(count: nat, sample: nat)
    requires sample > 0
    ensures Rate(count, sample) > 0.0 <==> count > 0
  {
    assert Rate(count, sample) * sample as real == count as real;
  }

  /** Some variant that can win is better than the control. */
  ghost predicate AnyBetter(ss: seq<Stats>, c: Stats) {
    exists j :: 0 <= j < |ss| && Eligible(ss, c, j) && ss[j].rate > c.rate
  }

  /** The winner has the highest rate of all variants that differ, so it is better than the control iff any is. */
  lemma WinnerIsBetterIff(ss: seq<Stats>, c: Stats, i: nat)
    requires BestOf(ss, c, i, |ss|)
    ensures ss[i].rate > c.rate <==> AnyBetter(ss, c)
  {
  }

  /** A variant that differs from the control because it is worse is declared the winner if no other differs. */
  lemma WorseCanWin()
    ensures var c, v := Stats("A", 100, Rate(100, 100)), Stats("B", 100, Rate(50, 100));
            BestOf([c, v], c, 1, 2) && v.rate < c.rate
  {
    var c, v := Stats("A", 100, Rate(100, 100)), Stats("B", 100, Rate(50, 100));
    EligibleIff([c, v], c, 1, 100, 50);
    assert "A"[0] != "B"[0];
  }

  /** There is a winner with a name to print, and nothing to measure its lift against. */
  ghost predicate LiftUndefined(ss: seq<Stats>, control: string) {
    var c := ControlStats(ss, control);
    c.rate <= 0.0 && exists i: nat :: BestOf(ss, c, i, |ss|) && ss[i].variant != ""
  }

  lemma {:induction false} RecordsPrefix(
    cs: seq<Conversion>, more: seq<Conversion>, experiment: string, variant: string, n: nat)
    requires n <= |cs|
    ensures RecordsOf(cs + more, experiment, variant, n) == RecordsOf(cs, experiment, variant, n)
  {
    if n == 0 {
    } else {
      RecordsPrefix(cs, more, experiment, variant, n - 1);
    }
  }

  /** A record of another experiment or variant does not change a variant's statistics. */
  lemma OtherRecordsDoNotMatter(cs: seq<Conversion>, c: Conversion, experiment: string, variant: string, e: Event)
    requires c.experiment != experiment || c.variant != variant
    ensures StatsFor(cs + [c], experiment, variant, e) == StatsFor(cs, experiment, variant, e)
  {
    RecordsPrefix(cs, [c], experiment, variant, |cs|);
    assert RecordsOf(cs + [c], experiment, variant, |cs| + 1) == RecordsOf(cs, experiment, variant, |cs|);
  }

  function AllStats(cs: seq<Conversion>, x: Experiment, id: string, e: Event): seq<Stats> {
    seq(|x.variants|, i requires 0 <= i < |x.variants| => StatsFor(cs, id, x.variants[i], e))
  }

  /**
   What the report says: it raises exactly when an interval does, or when the winner's lift over a
   control without conversions is to be printed; otherwise the winner is the best eligible variant.
   A winner whose name is empty is reported, but counts as none in the advice.
   */
  ghost predicate Concluded(ss: seq<Stats>, control: string, r: Outcome) {
    var c := ControlStats(ss, control);
    match r
    case NotFound => false
    case TypeError => SomeIntervalRaises(ss) || LiftUndefined(ss, control)
    case Results(stats, winner, lift, advice) =>
      && !SomeIntervalRaises(ss) && !LiftUndefined(ss, control) && stats == ss
      && match winner
         case None =>
           && lift == None && (forall j :: 0 <= j < |ss| ==> !Eligible(ss, c, j))
           && advice == if exists j :: 0 <= j < |ss| && AnySignificant(ss, c, j) then Inconclusive else NoDifference
         case Some(name) =>
           exists i: nat :: BestOf(ss, c, i, |ss|) && ss[i].variant == name
             && if name == "" then lift == None && advice == Inconclusive
                else advice == RollOut && c.rate != 0.0 && lift == Some((ss[i].rate - c.rate) / c.rate * 100.0)
  }

  function Times(a: real, b: real): real { a * b }

  lemma QuotientTimes(d: real, rate: real, lift: real)
    requires rate > 0.0 && lift == d / rate * 100.0
    ensures Times(lift, rate) == 100.0 * d
    ensures lift > 0.0 <==> d > 0.0
  {
    assert d / rate * rate == d;
    if d > 0.0 { PositiveQuotient(d, rate); }
    if d < 0.0 {
      PositiveQuotient(-d, rate);
      assert (-d) / rate == -(d / rate);
    }
  }

  lemma PositiveQuotient(d: real, rate: real)
    requires rate > 0.0 && d > 0.0
    ensures d / rate > 0.0
  {
  }

  lemma LiftOfWinner(ss: seq<Stats>, c: Stats, i: nat, lift: real)
    requires BestOf(ss, c, i, |ss|) && c.rate > 0.0 && lift == (ss[i].rate - c.rate) / c.rate * 100.0
    ensures Times(lift, c.rate) == 100.0 * (ss[i].rate - c.rate)
    ensures lift > 0.0 <==> AnyBetter(ss, c)
  {
    QuotientTimes(ss[i].rate - c.rate, c.rate, lift);
    WinnerIsBetterIff(ss, c, i);
  }

  /**
   A lift is reported exactly when the advice is to roll out: what the winner, entry `i`, gains over the
   control, in percent of the control's rate.  It is a gain exactly when any variant that differs is better.
   */
  lemma LiftTellsGain(ss: seq<Stats>, control: string, r: Outcome) returns (i: nat)
    requires Concluded(ss, control, r) && r.Results? && ControlStats(ss, control).rate >= 0.0
    ensures r.advice == RollOut <==> r.lift.Some?
    ensures r.lift.Some? ==>
              var c := ControlStats(ss, control);
              && BestOf(ss, c, i, |ss|) && r.winner == Some(ss[i].variant)
              && Times(r.lift.value, c.rate) == 100.0 * (ss[i].rate - c.rate)
              && (r.lift.value > 0.0 <==> AnyBetter(ss, c))
  {
    i := 0;
    if r.lift.Some? {
      var c := ControlStats(ss, control);
      i :| BestOf(ss, c, i, |ss|) && ss[i].variant == r.winner.value
        && r.lift == Some((ss[i].rate - c.rate) / c.rate * 100.0);
      LiftOfWinner(ss, c, i, r.lift.value);
    }
  }

  /** No difference is reported exactly when no variant differs, a roll-out exactly for a winner with a name. */
  lemma AdviceTells(ss: seq<Stats>, control: string, c: Stats, r: Outcome)
    requires Concluded(ss, control, r) && r.Results? && c == ControlStats(ss, control)
    ensures r.advice == NoDifference <==> forall j :: 0 <= j < |ss| ==> !AnySignificant(ss, c, j)
    ensures r.advice == RollOut <==> r.winner.Some? && r.winner.value != ""
    ensures r.winner.Some? <==> exists j :: 0 <= j < |ss| && Eligible(ss, c, j)
  {
    if r.winner.Some? {
      var i: nat :| BestOf(ss, c, i, |ss|) && ss[i].variant == r.winner.value;
      assert Eligible(ss, c, i) && AnySignificant(ss, c, i);
    }
  }

  /** From the statistics to the report, once every interval has been computed. */
  method Conclude(ss: seq<Stats>, control: string) returns (r: Outcome)
    requires !SomeIntervalRaises(ss)
    ensures Concluded(ss, control, r)
  {
    var c := ControlStats(ss, control);
    var w := PickWinner(ss, control);
    if w.None? {
      var advice := if exists i :: 0 <= i < |ss| && AnySignificant(ss, c, i) then Inconclusive else NoDifference;
      return Results(ss, None, None, advice);
    }
    forall i: nat | BestOf(ss, c, i, |ss|) ensures i == w.value {
      BestIsUnique(ss, c, i, w.value, |ss|);
    }
    if ss[w.value].variant == "" {
      return Results(ss, Some(""), None, Inconclusive);
    }
    if c.rate > 0.0 {
      var lift := (ss[w.value].rate - c.rate) / c.rate * 100.0;
      return Results(ss, Some(ss[w.value].variant), Some(lift), RollOut);
    }
    return TypeError;
  }

  // ----- Records that make it raise -----

  lemma {:induction false} RecordsConcat(
    a: seq<Conversion>, b: seq<Conversion>, experiment: string, variant: string, n: nat)
    requires n <= |b|
    ensures RecordsOf(a + b, experiment, variant, |a| + n)
         == RecordsOf(a, experiment, variant, |a|) + RecordsOf(b, experiment, variant, n)
  {
    if n == 0 {
      RecordsPrefix(a, b, experiment, variant, |a|);
    } else {
      RecordsConcat(a, b, experiment, variant, n - 1);
      assert (a + b)[|a| + n - 1] == b[n - 1];
    }
  }

  /** One record of the event for each of `n` leads. */
  function OneEach(experiment: string, variant: string, e: Event, n: nat): (cs: seq<Conversion>)
    ensures |cs| == n
  {
    seq(n, i requires 0 <= i < n => Conversion(seq(i, _ => 'l'), experiment, variant, e))
  }

  lemma {:induction false} AllRecords(rs: seq<Conversion>, experiment: string, variant: string, k: nat)
    requires forall i :: 0 <= i < |rs| ==> rs[i].experiment == experiment && rs[i].variant == variant
    requires k <= |rs|
    ensures RecordsOf(rs, experiment, variant, k) == rs[..k]
  {
    if k == 0 {
    } else {
      AllRecords(rs, experiment, variant, k - 1);
      assert rs[..k] == rs[..k - 1] + [rs[k - 1]];
    }
  }

  lemma {:induction false} NoRecords(rs: seq<Conversion>, experiment: string, variant: string, k: nat)
    requires forall i :: 0 <= i < |rs| ==> rs[i].variant != variant
    requires k <= |rs|
    ensures RecordsOf(rs, experiment, variant, k) == []
  {
    if k == 0 {
    } else {
      NoRecords(rs, experiment, variant, k - 1);
    }
  }

  lemma {:induction false} OneEachCounts(experiment: string, variant: string, e: Event, n: nat, other: Event, k: nat)
    requires k <= n
    ensures EventCount(OneEach(experiment, variant, e, n), other, k) == if other == e then k else 0
  {
    if k == 0 {
    } else {
      OneEachCounts(experiment, variant, e, n, other, k - 1);
    }
  }

  lemma OneEachSample(experiment: string, variant: string, e: Event, n: nat)
    ensures |Leads(OneEach(experiment, variant, e, n))| == n
  {
    var rs := OneEach(experiment, variant, e, n);
    forall i, j | 0 <= i < j < n ensures rs[i].lead != rs[j].lead {
      assert |rs[i].lead| == i && |rs[j].lead| == j;
    }
    CountIsLeads(rs, e, n);
    OneEachCounts(experiment, variant, e, n, e, n);
    assert Leads(rs) == LeadsWith(rs, e, n);
  }

  lemma StatsOfOneEach(cs: seq<Conversion>, id: string, v: string, a: Event, m: nat, e: Event)
    requires RecordsOf(cs, id, v, |cs|) == OneEach(id, v, a, m)
    ensures StatsFor(cs, id, v, e) == Stats(v, m, Rate(if e == a then m else 0, m))
  {
    OneEachSample(id, v, a, m);
    OneEachCounts(id, v, a, m, e, m);
  }

  lemma RecordsOfFirst(first: seq<Conversion>, second: seq<Conversion>, id: string, v: string)
    requires forall i :: 0 <= i < |first| ==> first[i].experiment == id && first[i].variant == v
    requires forall i :: 0 <= i < |second| ==> second[i].variant != v
    ensures RecordsOf(first + second, id, v, |first + second|) == first
  {
    RecordsConcat(first, second, id, v, |second|);
    AllRecords(first, id, v, |first|);
    NoRecords(second, id, v, |second|);
  }

  lemma RecordsOfSecond(first: seq<Conversion>, second: seq<Conversion>, id: string, v: string)
    requires forall i :: 0 <= i < |first| ==> first[i].variant != v
    requires forall i :: 0 <= i < |second| ==> second[i].experiment == id && second[i].variant == v
    ensures RecordsOf(first + second, id, v, |first + second|) == second
  {
    RecordsConcat(first, second, id, v, |second|);
    NoRecords(first, id, v, |first|);
    AllRecords(second, id, v, |second|);
  }

  lemma StatsOfTwo(id: string, v: string, w: string, a: Event, b: Event, m: nat, n: nat, e: Event)
    requires v != w
    ensures var cs := OneEach(id, v, a, m) + OneEach(id, w, b, n);
            && StatsFor(cs, id, v, e) == Stats(v, m, Rate(if e == a then m else 0, m))
            && StatsFor(cs, id, w, e) == Stats(w, n, Rate(if e == b then n else 0, n))
  {
    var first, second := OneEach(id, v, a, m), OneEach(id, w, b, n);
    var cs := first + second;
    RecordsOfFirst(first, second, id, v);
    RecordsOfSecond(first, second, id, w);
    StatsOfOneEach(cs, id, v, a, m, e);
    StatsOfOneEach(cs, id, w, b, n, e);
  }

  lemma LiftOfThirty(ss: seq<Stats>)
    requires ss == [Stats("A", 30, 0.0), Stats("B", 30, 1.0)]
    ensures !SomeIntervalRaises(ss) && LiftUndefined(ss, "A")
  {
    assert Pooled(0.0, 1.0, 30, 30) == 0.5;
    assert Variance(0.0, 1.0, 30, 30) == 0.5 * 0.5 * (1.0 / 30.0 + 1.0 / 30.0);
    assert "B" != "A" by { assert "B"[0] != "A"[0]; }
    assert Eligible(ss, ControlStats(ss, "A"), 1);
    assert BestOf(ss, ControlStats(ss, "A"), 1, 2);
  }

  /**
   Such an error needs no odd data: thirty leads of the control were sent a message that none opened,
   and thirty leads of the variant all opened theirs.
   */
  lemma LiftCanBeUndefined(id: string)
    ensures var cs := OneEach(id, "A", Sent, 30) + OneEach(id, "B", Opened, 30);
            var ss := AllStats(cs, Experiment(id, ["A", "B"]), id, Opened);
            !SomeIntervalRaises(ss) && LiftUndefined(ss, "A")
  {
    var cs := OneEach(id, "A", Sent, 30) + OneEach(id, "B", Opened, 30);
    assert "B" != "A" by { assert "B"[0] != "A"[0]; }
    StatsOfTwo(id, "A", "B", Sent, Opened, 30, 30, Opened);
    assert AllStats(cs, Experiment(id, ["A", "B"]), id, Opened) == [Stats("A", 30, 0.0), Stats("B", 30, 1.0)];
    LiftOfThirty([Stats("A", 30, 0.0), Stats("B", 30, 1.0)]);
  }

  /** An interval cannot be computed exactly when a large sample has fewer leads than records of the event. */
  lemma IntervalRaisesIff(cs: seq<Conversion>, id: string, v: string, e: Event)
    ensures var s, rs := StatsFor(cs, id, v, e), RecordsOf(cs, id, v, |cs|);
            IntervalRaises(s.rate, s.sample) <==>
            |Leads(rs)| >= MIN_SAMPLE && EventCount(rs, e, |rs|) > |Leads(rs)|
  {
    var rs := RecordsOf(cs, id, v, |cs|);
    RateBounds(EventCount(rs, e, |rs|), |Leads(rs)|);
  }

  /** Thirty leads of the control who all opened their message twice are such records. */
  lemma IntervalCanRaise(id: string)
    ensures var cs := OneEach(id, "A", Opened, 30) + OneEach(id, "A", Opened, 30);
            SomeIntervalRaises(AllStats(cs, Experiment(id, ["A"]), id, Opened))
  {
    var half := OneEach(id, "A", Opened, 30);
    var cs := half + half;
    AllRecords(cs, id, "A", |cs|);
    assert cs[..|cs|] == cs;
    OneEachSample(id, "A", Opened, 30);
    assert Leads(cs) == Leads(half) by {
      assert forall i :: 0 <= i < 30 ==> cs[i] == half[i] && cs[30 + i] == half[i];
    }
    EventCountConcat(half, half, Opened, 30);
    OneEachCounts(id, "A", Opened, 30, Opened, 30);
    IntervalRaisesIff(cs, id, "A", Opened);
    assert AllStats(cs, Experiment(id, ["A"]), id, Opened)[0] == StatsFor(cs, id, "A", Opened);
  }

  lemma {:induction false} EventCountConcat(a: seq<Conversion>, b: seq<Conversion>, e: Event, n: nat)
    requires n <= |b|
    ensures EventCount(a + b, e, |a| + n) == EventCount(a, e, |a|) + EventCount(b, e, n)
  {
    if n == 0 {
      EventCountPrefix(a, b, e, |a|);
    } else {
      EventCountConcat(a, b, e, n - 1);
      assert (a + b)[|a| + n - 1] == b[n - 1];
    }
  }

  lemma {:induction false} EventCountPrefix(a: seq<Conversion>, b: seq<Conversion>, e: Event, n: nat)
    requires n <= |a|
    ensures EventCount(a + b, e, n) == EventCount(a, e, n)
  {
    if n == 0 {
    } else {
      EventCountPrefix(a, b, e, n - 1);
    }
  }

  class ABTestingStore {
    var experiments: map<string, Experiment>
    var conversions: seq<Conversion>

    constructor ()
      ensures experiments == map[] && conversions == []
    {
      experiments := map[];
      conversions := [];
    }

    method SaveExperiment(x: Experiment)
      modifies this
      ensures experiments == old(experiments)[x.id := x] && conversions == old(conversions)
    {
      experiments := experiments[x.id := x];
    }

    method RecordConversion(c: Conversion)
      modifies this
      ensures conversions == old(conversions) + [c] && experiments == old(experiments)
    {
      conversions := conversions + [c];
    }

    /** The report on an experiment. */
    method CalculateResults(id: string, e: Event, control: string) returns (r: Outcome)
      ensures id !in experiments ==> r == NotFound
      ensures id in experiments ==> Concluded(AllStats(conversions, experiments[id], id, e), control, r)
    {
      if id !in experiments {
        return NotFound;
      }
      var vs := experiments[id].variants;
      ghost var all := AllStats(conversions, experiments[id], id, e);
      var ss: seq<Stats> := [];
      for i := 0 to |vs|
        invariant ss == all[..i]
        invariant forall j :: 0 <= j < i ==> !IntervalRaises(all[j].rate, all[j].sample)
      {
        var s := StatsFor(conversions, id, vs[i], e);
        assert all[i] == s;
        if IntervalRaises(s.rate, s.sample) {
          return TypeError;
        }
        ss := ss + [s];
      }
      assert ss == all;
      r := Conclude(ss, control);
    }
  }
}
