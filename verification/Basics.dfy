/** Small facts about numbers and sets, shared by the other modules. */
module Basics {
  function Min(a: real, b: real): real { if a <= b then a else b }

  function Ceiling(r: real): int { -((-r).Floor) }

  lemma SubsetSize<T>(a: set<T>, b: set<T>)
    requires a <= b
    ensures |a| <= |b| && (|a| == |b| <==> a == b)
  {
    assert b == a + (b - a);
    if a != b {
      var x :| x in b - a;
      assert |b - a| > 0;
    }
  }
}
