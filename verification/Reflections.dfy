/**
 Levels that grow by an inflow, shrink by an outflow and are cut off at a cap: pure facts about
 sequences of reals, used for the token buckets.
 */
module Reflections {
  import opened Basics

  /** xs[i] + ... + xs[k - 1] */
  function Sum(xs: seq<real>, i: nat, k: nat): real
    requires i <= k <= |xs|
  {
    if i == k then 0.0 else Sum(xs, i, k - 1) + xs[k - 1]
  }

  /** `level` starts at the cap; between points it loses `outflow`, gains `inflow` and is cut off. */
  ghost predicate Reflected(cap: real, level: seq<real>, inflow: seq<real>, outflow: seq<real>) {
    && |level| == |outflow| == |inflow| + 1
    && level[0] == cap
    && forall k :: 0 <= k < |inflow| ==>
         level[k + 1] == Min(cap, level[k] - outflow[k] + inflow[k])
  }

  /** What is left of the cap and the inflow of points i..k after the outflow of points i..k. */
  function Balance(cap: real, inflow: seq<real>, outflow: seq<real>, i: nat, k: nat): real
    requires i <= k <= |inflow| <= |outflow|
  {
    cap + Sum(inflow, i, k) - Sum(outflow, i, k)
  }

  /** The level is the least of the balances of all windows that end now. */
  lemma {:induction false} LevelIsLeastBalance(
    cap: real, level: seq<real>, inflow: seq<real>, outflow: seq<real>, k: nat)
    requires Reflected(cap, level, inflow, outflow) && k < |level|
    ensures forall i :: 0 <= i <= k ==> level[k] <= Balance(cap, inflow, outflow, i, k)
    ensures exists i :: 0 <= i <= k && level[k] == Balance(cap, inflow, outflow, i, k)
  {
    assert Balance(cap, inflow, outflow, k, k) == cap;
    if k > 0 {
      LevelIsLeastBalance(cap, level, inflow, outflow, k - 1);
      assert forall i :: 0 <= i < k ==>
          Balance(cap, inflow, outflow, i, k)
          == Balance(cap, inflow, outflow, i, k - 1) + inflow[k - 1] - outflow[k - 1];
      var j :| 0 <= j < k && level[k - 1] == Balance(cap, inflow, outflow, j, k - 1);
      assert level[k] == Balance(cap, inflow, outflow, if level[k] == cap then k else j, k);
    }
  }

  /** With inflows that are not negative and outflows that the level covers, the level is never negative. */
  lemma {:induction false} LevelNonNegative(
    cap: real, level: seq<real>, inflow: seq<real>, outflow: seq<real>, k: nat)
    requires Reflected(cap, level, inflow, outflow) && k < |level| && cap >= 0.0
    requires forall j :: 0 <= j < |inflow| ==> inflow[j] >= 0.0
    requires forall j :: 0 <= j < |outflow| ==> outflow[j] <= level[j] || outflow[j] == 0.0
    ensures level[k] >= 0.0
  {
    if k == 0 {
    } else {
      LevelNonNegative(cap, level, inflow, outflow, k - 1);
    }
  }
}
