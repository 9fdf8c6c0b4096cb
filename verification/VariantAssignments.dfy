/**
 Weighted assignment of leads to variants (core/utils/ab_testing.py).

 A lead's hash falls into one of `n` equal buckets, and the bucket goes to the first variant whose
 cumulative weight lies above it.  The code uses 10000 buckets; nothing here depends on that.
 */
module VariantAssignments {
  import opened Basics
  import opened Options

  datatype Variant = Variant(name: string, weight: real)

  const BUCKETS: nat := 10000

  ghost predicate ValidWeights(vs: seq<Variant>) {
    forall i :: 0 <= i < |vs| ==> vs[i].weight >= 0.0
  }

  /** The weight of the first `i` variants together. */
  function Cumulative(vs: seq<Variant>, i: nat): real
    requires i <= |vs|
  {
    if i == 0 then 0.0 else Cumulative(vs, i - 1) + vs[i - 1].weight
  }

  /** The first variant from `i` on whose cumulative weight lies above `x`, or the last one. */
  function IndexFrom(vs: seq<Variant>, x: real, i: nat): (r: nat)
    requires i < |vs|
    ensures i <= r < |vs|
    decreases |vs| - i
  {
    if x < Cumulative(vs, i + 1) || i == |vs| - 1 then i else IndexFrom(vs, x, i + 1)
  }

  function IndexOf(vs: seq<Variant>, x: real): (r: nat)
    requires vs != []
    ensures r < |vs|
  {
    IndexFrom(vs, x, 0)
  }

  /** The position of bucket `b` of `n` in [0, 1). */
  function Position(b: nat, n: nat): real
    requires n > 0
  {
    b as real / n as real
  }

  /** The loop of `assign_variant`; an empty list of variants raises an error. */
  method AssignVariant(vs: seq<Variant>, hash: nat) returns (r: Option<string>)
    ensures r == if vs == [] then None
                 else Some(vs[IndexOf(vs, Position(hash % BUCKETS, BUCKETS))].name)
  {
    if vs == [] {
      return None;
    }
    var bucket := (hash % BUCKETS) as real / BUCKETS as real;
    var cumulative := 0.0;
    for i := 0 to |vs|
      invariant cumulative == Cumulative(vs, i)
      invariant i < |vs| ==> IndexOf(vs, bucket) == IndexFrom(vs, bucket, i)
      invariant i == |vs| ==> IndexOf(vs, bucket) == |vs| - 1
    {
      cumulative := cumulative + vs[i].weight;
      if bucket < cumulative {
        return Some(vs[i].name);
      }
    }
    return Some(vs[|vs| - 1].name);
  }

  // ----- Which positions a variant gets -----

  lemma {:induction false} CumulativeGrows(vs: seq<Variant>, i: nat, j: nat)
    requires ValidWeights(vs) && i <= j <= |vs|
    ensures Cumulative(vs, i) <= Cumulative(vs, j)
  {
    if i == j {
    } else {
      CumulativeGrows(vs, i, j - 1);
    }
  }

  /** A variant gets the positions from its lower boundary to its upper one; the last has no upper one. */
  lemma {:induction false} IndexIffBetween(vs: seq<Variant>, x: real, k: nat, i: nat)
    requires ValidWeights(vs) && k <= i < |vs|
    ensures IndexFrom(vs, x, k) == i <==>
            (k == i || Cumulative(vs, i) <= x) && (i == |vs| - 1 || x < Cumulative(vs, i + 1))
    decreases i - k
  {
    if k == i {
    } else {
      IndexIffBetween(vs, x, k + 1, i);
      CumulativeGrows(vs, k + 1, i);
    }
  }

  /** Raising cumulative boundaries never moves a position to a later variant. */
  lemma {:induction false} RaisingNeverMovesLater(vs: seq<Variant>, vs': seq<Variant>, x: real, k: nat)
    requires |vs| == |vs'| && k < |vs|
    requires forall i :: 0 <= i <= |vs| ==> Cumulative(vs, i) <= Cumulative(vs', i)
    ensures IndexFrom(vs', x, k) <= IndexFrom(vs, x, k)
    decreases |vs| - k
  {
    assert Cumulative(vs, k + 1) <= Cumulative(vs', k + 1);
    if k + 1 < |vs| { RaisingNeverMovesLater(vs, vs', x, k + 1); }
  }

  // ----- How many buckets a variant gets -----

  /** A weight as a number of buckets, not rounded. */
  function Scaled(c: real, n: nat): real { c * n as real }

  /** The number of buckets below a boundary. */
  function Below(c: real, n: nat): nat {
    var t := Ceiling(Scaled(c, n));
    if t < 0 then 0 else if t > n then n else t
  }

  lemma CeilingBounds(r: real)
    ensures r <= Ceiling(r) as real < r + 1.0
  {
  }

  lemma BucketBelow(b: nat, n: nat, c: real)
    requires b < n
    ensures Position(b, n) < c <==> b < Below(c, n)
  {
    PositionBelow(b, n, c);
    CeilingBounds(Scaled(c, n));
  }

  lemma PositionBelow(b: nat, n: nat, c: real)
    requires n > 0
    ensures Position(b, n) < c <==> b as real < Scaled(c, n)
  {
    var x := Position(b, n);
    assert x * n as real == b as real;
    if x < c {
      assert (c - x) * n as real > 0.0;
    } else {
      assert (x - c) * n as real >= 0.0;
    }
  }

  lemma ScaledGrows(a: real, b: real, n: nat)
    requires a <= b
    ensures Scaled(a, n) <= Scaled(b, n)
  {
  }

  lemma ScaledDifference(a: real, b: real, n: nat)
    ensures Scaled(b, n) - Scaled(a, n) == Scaled(b - a, n)
  {
  }

  lemma BelowGrows(c: real, c': real, n: nat)
    requires c <= c'
    ensures Below(c, n) <= Below(c', n)
  {
    ScaledGrows(c, c', n);
  }

  predicate FromOn(lo: nat, b: nat) { lo <= b }

  function Interval(lo: nat, hi: nat): set<nat> { set b: nat | b < hi && FromOn(lo, b) }

  lemma {:induction false} IntervalSize(lo: nat, hi: nat)
    requires lo <= hi
    ensures |Interval(lo, hi)| == hi - lo
    decreases hi - lo
  {
    if lo < hi {
      IntervalSize(lo, hi - 1);
      assert Interval(lo, hi) == Interval(lo, hi - 1) + {hi - 1};
    } else {
      assert Interval(lo, hi) == {};
    }
  }

  /** The buckets that go to variant `i`. */
  function Share(vs: seq<Variant>, n: nat, i: nat): set<nat>
    requires vs != []
  {
    set b: nat | b < n && IndexOf(vs, Position(b, n)) == i
  }

  /** The end of variant `i`'s share: where its boundary lies, or for the last one the end of all. */
  function ShareEnd(vs: seq<Variant>, n: nat, i: nat): nat
    requires i < |vs|
  {
    if i == |vs| - 1 then n else Below(Cumulative(vs, i + 1), n)
  }

  lemma ShareIsInterval(vs: seq<Variant>, n: nat, i: nat)
    requires ValidWeights(vs) && i < |vs| && n > 0
    ensures Below(Cumulative(vs, i), n) <= ShareEnd(vs, n, i)
    ensures Share(vs, n, i) == Interval(Below(Cumulative(vs, i), n), ShareEnd(vs, n, i))
  {
    BelowGrows(Cumulative(vs, i), Cumulative(vs, i + 1), n);
    forall b: nat | b < n
      ensures b in Share(vs, n, i) <==> Below(Cumulative(vs, i), n) <= b < ShareEnd(vs, n, i)
    {
      IndexIffBetween(vs, Position(b, n), 0, i);
      BucketBelow(b, n, Cumulative(vs, i));
      if i < |vs| - 1 { BucketBelow(b, n, Cumulative(vs, i + 1)); }
    }
  }

  /**
   The exact shares: a variant that is not the last gets as many buckets as lie between its
   rounded-up boundaries, and the last one gets the rest, whatever its weight.
   */
  lemma ShareSize(vs: seq<Variant>, n: nat, i: nat)
    requires ValidWeights(vs) && i < |vs| && n > 0
    ensures |Share(vs, n, i)| ==
            (if i == |vs| - 1 then n else Below(Cumulative(vs, i + 1), n)) - Below(Cumulative(vs, i), n)
  {
    ShareIsInterval(vs, n, i);
    IntervalSize(Below(Cumulative(vs, i), n), ShareEnd(vs, n, i));
  }

  lemma BelowInRange(c: real, n: nat)
    requires 0.0 <= c <= 1.0
    ensures Below(c, n) == Ceiling(Scaled(c, n))
  {
    ScaledGrows(0.0, c, n);
    ScaledGrows(c, 1.0, n);
    CeilingBounds(Scaled(c, n));
  }

  lemma RoundedDifference(a: real, b: real)
    ensures -1.0 < (Ceiling(b) - Ceiling(a)) as real - (b - a) < 1.0
  {
    CeilingBounds(a);
    CeilingBounds(b);
  }

  /** So a variant whose boundary is within [0, 1] is less than one bucket away from its weight. */
  lemma ShareNearWeight(vs: seq<Variant>, n: nat, i: nat)
    requires ValidWeights(vs) && i < |vs| - 1 && n > 0 && Cumulative(vs, i + 1) <= 1.0
    ensures -1.0 < |Share(vs, n, i)| as real - Scaled(vs[i].weight, n) < 1.0
  {
    var lo, hi := Cumulative(vs, i), Cumulative(vs, i + 1);
    CumulativeGrows(vs, 0, i);
    ShareSize(vs, n, i);
    BelowInRange(lo, n);
    BelowInRange(hi, n);
    ScaledDifference(lo, hi, n);
    RoundedDifference(Scaled(lo, n), Scaled(hi, n));
  }
}
