/**
 * The free-energy helper that picks the lambda point of a path nearest to
 * a given lambda (cpc/lib/fe/utils.py).
 */
module Lambdas {
  /** The distance findClosest compares: the squared difference. */
  function SqDiff(plam: real, lam: real): (r: real)
    ensures r >= 0.0
  {
    (plam - lam) * (plam - lam)
  }

  /** The distance findClosest starts from: only points nearer than this count. */
  const StartDistance: real := 2.0

  /**
   * What findClosest returns: -1 when no point is nearer than the start
   * distance; otherwise the first point of least distance.
   */
  ghost predicate IsClosest(path: seq<real>, lam: real, m: int) {
    -1 <= m < |path| &&
    (m == -1 <==> forall i :: 0 <= i < |path| ==> SqDiff(path[i], lam) >= StartDistance) &&
    (m >= 0 ==>
       && SqDiff(path[m], lam) < StartDistance
       && (forall i :: 0 <= i < |path| ==> SqDiff(path[m], lam) <= SqDiff(path[i], lam))
       && (forall i :: 0 <= i < m ==> SqDiff(path[i], lam) > SqDiff(path[m], lam)))
  }

  /** findClosest: the index of the nearest lambda point, earliest on ties, or -1. */
  method FindClosest(path: seq<real>, lam: real) returns (mini: int)
    ensures IsClosest(path, lam, mini)
  {
    var mindif := StartDistance;
    mini := -1;
    var i := 0;
    while i < |path|
      invariant 0 <= i <= |path|
      invariant -1 <= mini < i
      invariant mini == -1 ==> mindif == StartDistance && forall k :: 0 <= k < i ==> SqDiff(path[k], lam) >= StartDistance
      invariant mini >= 0 ==> mindif == SqDiff(path[mini], lam) && mindif < StartDistance
      invariant forall k :: 0 <= k < i ==> mindif <= SqDiff(path[k], lam)
      invariant mini >= 0 ==> forall k :: 0 <= k < mini ==> SqDiff(path[k], lam) > mindif
    {
      var dif := SqDiff(path[i], lam);
      if dif < mindif {
        mini := i;
        mindif := dif;
      }
      i := i + 1;
    }
  }

  /** The result is determined: two answers meeting the description are the same. */
  lemma {:induction false} ClosestUnique(path: seq<real>, lam: real, a: int, b: int)
    requires IsClosest(path, lam, a) && IsClosest(path, lam, b)
    ensures a == b
  {
    if a >= 0 && b >= 0 {
      assert SqDiff(path[a], lam) == SqDiff(path[b], lam);
    }
  }

  /**
   * A point lying exactly at the given lambda is never passed over: the
   * answer is that point or an earlier one, and lies at distance zero.
   */
  lemma {:induction false} ExactPointFound(path: seq<real>, lam: real, j: nat, m: int)
    requires j < |path| && path[j] == lam && IsClosest(path, lam, m)
    ensures 0 <= m <= j && SqDiff(path[m], lam) == 0.0
  {
    assert SqDiff(path[j], lam) == 0.0;
  }
}
