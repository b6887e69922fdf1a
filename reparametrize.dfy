/**
 * The string-method reparametrization of cpc/lib/swarms/reparametrize.py:
 * a path of points in collective-variable space is redistributed so that the
 * interior points sit at equal arc length (Maragliano et al., J. Chem. Phys.
 * 125, 2006).  Coordinates are reals; the square root is a parameter `sqrt`
 * that satisfies `IsSqrt`.  Indices follow the source: `L` and `S` are
 * 1-based, `L(0)` is the sentinel 1.
 *
 * The coordinate-wise helpers work on the common prefix of their two
 * arguments; on points of equal dimension, the only case in which the Python
 * `map(f, v1, v2)` does not raise, that is the whole point.
 */
module Reparametrize {
  import opened Wrappers

  type Point = seq<real>
  type Path = seq<Point>

  /** The exceptions the Python code can raise on points of equal dimension. */
  datatype PyError = IndexError | ZeroDivisionError

  /**
   * What the model needs of the square root: on non-negative arguments it is
   * non-negative and zero exactly at zero.  The real square root is one such
   * function, so everything proved here holds for it.
   */
  ghost predicate IsSqrt(sqrt: real -> real) {
    forall x :: x >= 0.0 ==> sqrt(x) >= 0.0 && (sqrt(x) == 0.0 <==> x == 0.0)
  }

  /** All points of the path have the same number of coordinates. */
  predicate SameDim(path: Path) {
    forall i :: 0 <= i < |path| ==> |path[i]| == |path[0]|
  }

  function Min(a: nat, b: nat): nat { if a <= b then a else b }

  function Add(x: real, y: real): real { x + y }

  /** `sub(x, y)` is `y - x`: differences point from the first argument to the second. */
  function Sub(x: real, y: real): real { y - x }

  function Scale(k: real, v: Point): (r: Point)
    ensures |r| == |v| && forall i {:trigger r[i]} :: 0 <= i < |v| ==> r[i] == k * v[i]
  {
    if |v| == 0 then [] else Scale(k, v[..|v| - 1]) + [k * v[|v| - 1]]
  }

  function MapAdd(x: Point, y: Point): (r: Point)
    ensures |r| == Min(|x|, |y|) && forall i {:trigger r[i]} :: 0 <= i < |r| ==> r[i] == x[i] + y[i]
  {
    seq(Min(|x|, |y|), i => if 0 <= i < |x| && i < |y| then Add(x[i], y[i]) else 0.0)
  }

  lemma MulPos(a: real, b: real)
    requires a > 0.0 && b > 0.0
    ensures a * b > 0.0
  {
  }

  lemma MulNeg(a: real, b: real)
    requires a < 0.0 && b < 0.0
    ensures a * b > 0.0
  {
    MulPos(-a, -b);
    assert (-a) * (-b) == a * b;
  }

  lemma MulMixed(a: real, b: real)
    requires a > 0.0 && b < 0.0
    ensures a * b < 0.0
  {
    MulPos(a, -b);
    assert a * (-b) == -(a * b);
  }

  /** The sign rules of real multiplication (a square is the case a == b). */
  lemma MulSigns(a: real, b: real)
    ensures (a > 0.0 && b > 0.0) || (a < 0.0 && b < 0.0) ==> a * b > 0.0
    ensures a >= 0.0 && b >= 0.0 ==> a * b >= 0.0
    ensures a * b == 0.0 ==> a == 0.0 || b == 0.0
  {
    if a > 0.0 && b > 0.0 {
      MulPos(a, b);
    } else if a < 0.0 && b < 0.0 {
      MulNeg(a, b);
    } else if a > 0.0 && b < 0.0 {
      MulMixed(a, b);
    } else if a < 0.0 && b > 0.0 {
      MulMixed(b, a);
      assert b * a == a * b;
    }
  }

  /** Sum of the squared differences of the first n coordinates. */
  function SqDistUpTo(v1: Point, v2: Point, n: nat): (r: real)
    requires n <= |v1| && n <= |v2|
    ensures r >= 0.0
  {
    if n == 0 then 0.0
    else
      var d := Sub(v1[n - 1], v2[n - 1]);
      MulSigns(d, d);
      SqDistUpTo(v1, v2, n - 1) + d * d
  }

  /** Sum of the squared coordinate differences, over the coordinates both points have. */
  function SqDist(v1: Point, v2: Point): (r: real)
    ensures r >= 0.0
  {
    SqDistUpTo(v1, v2, Min(|v1|, |v2|))
  }

  /** The first n squared differences sum to zero exactly when the first n coordinates agree. */
  lemma {:induction false} SqDistUpToZero(v1: Point, v2: Point, n: nat)
    requires n <= |v1| && n <= |v2|
    ensures SqDistUpTo(v1, v2, n) == 0.0 <==> forall i :: 0 <= i < n ==> v1[i] == v2[i]
  {
    if n > 0 {
      var d := Sub(v1[n - 1], v2[n - 1]);
      MulSigns(d, d);
      SqDistUpToZero(v1, v2, n - 1);
      assert SqDistUpTo(v1, v2, n) == SqDistUpTo(v1, v2, n - 1) + d * d;
    }
  }

  /** The squared distance of two points of equal dimension is zero exactly when they coincide. */
  lemma SqDistZero(v1: Point, v2: Point)
    requires |v1| == |v2|
    ensures SqDist(v1, v2) == 0.0 <==> v1 == v2
  {
    SqDistUpToZero(v1, v2, |v1|);
  }

  /** Euclidean distance. */
  function Dist(sqrt: real -> real, v1: Point, v2: Point): (r: real)
    requires IsSqrt(sqrt)
    ensures r >= 0.0
    ensures |v1| == |v2| ==> (r == 0.0 <==> v1 == v2)
  {
    if |v1| == |v2| then SqDistZero(v1, v2); sqrt(SqDist(v1, v2))
    else sqrt(SqDist(v1, v2))
  }

  /** Sum of the first `m` segment lengths: `path[0]` to `path[m]`. */
  function Segments(sqrt: real -> real, path: Path, m: nat): (r: real)
    requires IsSqrt(sqrt) && m < |path|
    ensures r >= 0.0
  {
    if m == 0 then 0.0
    else Segments(sqrt, path, m - 1) + Dist(sqrt, path[m - 1], path[m])
  }

  /** `L(n, path)`: 1 for n == 0, else the length of the path up to its n-th point. */
  function L(sqrt: real -> real, path: Path, n: nat): real
    requires IsSqrt(sqrt) && n <= |path|
  {
    if n == 0 then 1.0
    else if |path| == 0 then 0.0
    else Segments(sqrt, path, n - 1)
  }

  /** `s(m, path)`: the arc length at which the m-th point should sit. */
  function S(sqrt: real -> real, path: Path, m: int): real
    requires IsSqrt(sqrt) && |path| >= 3
  {
    var R := |path| - 1;
    (m - 1) as real * L(sqrt, path, R) / (R - 1) as real
  }

  /** `dir(v1, v2)`: unit direction from v1 to v2; coincident points divide by zero. */
  function Dir(sqrt: real -> real, v1: Point, v2: Point): (r: Result<Point, PyError>)
    requires IsSqrt(sqrt)
    ensures |v1| == |v2| ==> (r.Err? <==> v1 == v2 && |v1| > 0)
    ensures r.Err? ==> r.error == ZeroDivisionError
    ensures r.Ok? ==> |r.value| == Min(|v1|, |v2|)
    ensures r.Ok? && |r.value| > 0 ==> Dist(sqrt, v1, v2) > 0.0
    ensures Dist(sqrt, v1, v2) > 0.0 ==> r.Ok?
  {
    var d := Dist(sqrt, v1, v2);
    var n := Min(|v1|, |v2|);
    if n == 0 then Ok([])
    else if d == 0.0 then Err(ZeroDivisionError)
    else Ok(seq(n, i => if 0 <= i < n then Sub(v1[i], v2[i]) / d else 0.0))
  }

  /** Each coordinate of the direction, times the distance, is the coordinate difference. */
  lemma DirScaled(sqrt: real -> real, v1: Point, v2: Point)
    requires IsSqrt(sqrt) && Dir(sqrt, v1, v2).Ok?
    ensures var v := Dir(sqrt, v1, v2).value;
      forall x :: 0 <= x < |v| ==> v[x] * Dist(sqrt, v1, v2) == v2[x] - v1[x]
  {
    var v := Dir(sqrt, v1, v2).value;
    var d := Dist(sqrt, v1, v2);
    forall x | 0 <= x < |v|
      ensures v[x] * d == v2[x] - v1[x]
    {
      assert v[x] == Sub(v1[x], v2[x]) / d;
    }
  }

  // ---------------------------------------------------------------- path length facts

  lemma LSentinel(sqrt: real -> real, path: Path)
    requires IsSqrt(sqrt)
    ensures L(sqrt, path, 0) == 1.0
    ensures |path| >= 1 ==> L(sqrt, path, 1) == 0.0
  {
  }

  /** L is non-decreasing on n >= 1. */
  lemma {:induction false} LMonotone(sqrt: real -> real, path: Path, a: nat, b: nat)
    requires IsSqrt(sqrt)
    requires 1 <= a <= b <= |path|
    ensures L(sqrt, path, a) <= L(sqrt, path, b)
    decreases b - a
  {
    if a < b {
      LMonotone(sqrt, path, a, b - 1);
      LStep(sqrt, path, b);
    }
  }

  /** Consecutive values of L differ by one segment length. */
  lemma LStep(sqrt: real -> real, path: Path, k: nat)
    requires IsSqrt(sqrt)
    requires 2 <= k <= |path|
    ensures L(sqrt, path, k) == L(sqrt, path, k - 1) + Dist(sqrt, path[k - 2], path[k - 1])
  {
  }

  lemma STargets(sqrt: real -> real, path: Path)
    requires IsSqrt(sqrt) && |path| >= 3
    ensures S(sqrt, path, 1) == 0.0
    ensures S(sqrt, path, |path| - 1) == L(sqrt, path, |path| - 1)
  {
  }

  /** For 2 <= i < |path| the target arc length lies in (0, L(R)] when L(R) > 0, and is 0 otherwise. */
  lemma SRange(sqrt: real -> real, path: Path, i: int)
    requires IsSqrt(sqrt) && |path| >= 3
    requires 2 <= i <= |path| - 1
    ensures 0.0 <= S(sqrt, path, i) <= L(sqrt, path, |path| - 1)
    ensures S(sqrt, path, i) == 0.0 <==> L(sqrt, path, |path| - 1) == 0.0
  {
    FractionOf((i - 1) as real, (|path| - 1 - 1) as real, L(sqrt, path, |path| - 1));
  }

  /** For 0 < a <= b and x >= 0, a * x / b lies in [0, x] and is 0 exactly when x is. */
  lemma FractionOf(a: real, b: real, x: real)
    requires 0.0 < a <= b && x >= 0.0
    ensures 0.0 <= a * x / b <= x
    ensures a * x / b == 0.0 <==> x == 0.0
  {
    var q := a / b;
    FractionInUnit(a, b);
    ScaleStep(x, b, q, a);
    MulSigns(q, x);
    MulSigns(1.0 - q, x);
    assert x - q * x == (1.0 - q) * x;
  }


  // ---------------------------------------------------------------- bracket search

  /** Segment k (from point k-1 to point k, 1-based) contains arc length s. */
  predicate Brackets(sqrt: real -> real, path: Path, s: real, k: nat)
    requires IsSqrt(sqrt) && 2 <= k <= |path|
  {
    L(sqrt, path, k - 1) < s <= L(sqrt, path, k)
  }

  /** The first k >= from that brackets s, or |path| + 1 when there is none. */
  function FirstBracket(sqrt: real -> real, path: Path, s: real, from: nat): (k: nat)
    requires IsSqrt(sqrt) && 2 <= from <= |path| + 1
    ensures from <= k <= |path| + 1
    ensures k <= |path| ==> Brackets(sqrt, path, s, k)
    decreases |path| + 1 - from
  {
    if from > |path| then from
    else if Brackets(sqrt, path, s, from) then from
    else FirstBracket(sqrt, path, s, from + 1)
  }

  /** A segment that does not bracket s can be skipped. */
  lemma FirstBracketSkip(sqrt: real -> real, path: Path, s: real, k: nat)
    requires IsSqrt(sqrt) && 2 <= k <= |path| && !Brackets(sqrt, path, s, k)
    ensures FirstBracket(sqrt, path, s, k) == FirstBracket(sqrt, path, s, k + 1)
  {
  }

  /** No segment before the one FirstBracket returns brackets s. */
  lemma {:induction false} FirstBracketIsFirst(sqrt: real -> real, path: Path, s: real, from: nat, j: nat)
    requires IsSqrt(sqrt) && 2 <= from <= |path| + 1
    requires from <= j < FirstBracket(sqrt, path, s, from) && j <= |path|
    ensures !Brackets(sqrt, path, s, j)
    decreases |path| + 1 - from
  {
    if j > from {
      FirstBracketIsFirst(sqrt, path, s, from + 1, j);
    }
  }

  /** FirstBracket is characterised by its postconditions. */
  lemma {:induction false} FirstBracketIs(sqrt: real -> real, path: Path, s: real, from: nat, k: nat)
    requires IsSqrt(sqrt) && 2 <= from <= k <= |path| + 1
    requires k <= |path| ==> Brackets(sqrt, path, s, k)
    requires forall j :: from <= j < k && j <= |path| ==> !Brackets(sqrt, path, s, j)
    ensures FirstBracket(sqrt, path, s, from) == k
    decreases k - from
  {
    if from < k {
      FirstBracketIs(sqrt, path, s, from + 1, k);
    }
  }

  /** A target in (L(from-1), L(R)] is bracketed before the padding segment. */
  lemma {:induction false} BracketExists(sqrt: real -> real, path: Path, s: real, from: nat)
    requires IsSqrt(sqrt) && 2 <= from <= |path| - 1
    requires L(sqrt, path, from - 1) < s <= L(sqrt, path, |path| - 1)
    ensures FirstBracket(sqrt, path, s, from) <= |path| - 1
    decreases |path| - from
  {
    if !Brackets(sqrt, path, s, from) {
      if from == |path| - 1 {
        assert false;
      }
      BracketExists(sqrt, path, s, from + 1);
    }
  }

  /** A non-positive target is never bracketed: every L(k - 1) with k >= 2 is >= 0. */
  lemma NoBracketAtZero(sqrt: real -> real, path: Path, s: real, from: nat)
    requires IsSqrt(sqrt) && 2 <= from <= |path| + 1
    requires s <= 0.0
    ensures FirstBracket(sqrt, path, s, from) == |path| + 1
  {
  }

  /** The segment found for a target has positive length. */
  lemma BracketPositive(sqrt: real -> real, path: Path, s: real, k: nat)
    requires IsSqrt(sqrt) && 2 <= k <= |path|
    requires Brackets(sqrt, path, s, k)
    ensures Dist(sqrt, path[k - 2], path[k - 1]) > 0.0
    ensures path[k - 2] != path[k - 1]
  {
    LStep(sqrt, path, k);
  }

  // ---------------------------------------------------------------- first-error collection

  /**
   * The values of rs in order, or the first error among them: what a loop
   * that appends one result per iteration yields when an exception ends it.
   */
  function Collect<T, E>(rs: seq<Result<T, E>>): (r: Result<seq<T>, E>)
    ensures r.Ok? ==> |r.value| == |rs|
  {
    if |rs| == 0 then Ok([])
    else
      match Collect(rs[..|rs| - 1])
      case Err(e) => Err(e)
      case Ok(ps) =>
        match rs[|rs| - 1]
        case Err(e) => Err(e)
        case Ok(p) => Ok(ps + [p])
  }

  /** A successful collection holds every element's value at its index. */
  lemma {:induction false} CollectAt<T, E>(rs: seq<Result<T, E>>, j: int)
    requires Collect(rs).Ok? && 0 <= j < |rs|
    ensures rs[j].Ok? && Collect(rs).value[j] == rs[j].value
    decreases |rs|
  {
    var front := rs[..|rs| - 1];
    if j < |rs| - 1 {
      CollectAt(front, j);
      assert front[j] == rs[j];
    }
  }

  /** With no failing element the collection succeeds. */
  lemma {:induction false} CollectAllOk<T, E>(rs: seq<Result<T, E>>)
    requires forall j :: 0 <= j < |rs| ==> rs[j].Ok?
    ensures Collect(rs).Ok?
    decreases |rs|
  {
    if |rs| > 0 {
      var front := rs[..|rs| - 1];
      assert forall j :: 0 <= j < |front| ==> front[j] == rs[j];
      CollectAllOk(front);
    }
  }

  /** The first failing element decides the error. */
  lemma {:induction false} CollectFirstErr<T, E>(rs: seq<Result<T, E>>, j: int)
    requires 0 <= j < |rs| && rs[j].Err?
    requires forall i :: 0 <= i < j ==> rs[i].Ok?
    ensures Collect(rs) == Err(rs[j].error)
    decreases |rs|
  {
    var front := rs[..|rs| - 1];
    if j < |rs| - 1 {
      assert front[j] == rs[j];
      assert forall i :: 0 <= i < j ==> front[i] == rs[i];
      CollectFirstErr(front, j);
    } else {
      assert forall i :: 0 <= i < |front| ==> front[i] == rs[i];
      CollectAllOk(front);
    }
  }

  /** One more successful element extends a successful prefix. */
  lemma CollectSnoc<T, E>(rs: seq<Result<T, E>>, n: int)
    requires 0 <= n < |rs| && Collect(rs[..n]).Ok? && rs[n].Ok?
    ensures Collect(rs[..n + 1]) == Ok(Collect(rs[..n]).value + [rs[n].value])
  {
    assert rs[..n + 1][..n] == rs[..n];
  }

  /** A failing element after a successful prefix is the collection's error. */
  lemma CollectErrAt<T, E>(rs: seq<Result<T, E>>, n: int)
    requires 0 <= n < |rs| && Collect(rs[..n]).Ok? && rs[n].Err?
    ensures Collect(rs) == Err(rs[n].error)
  {
    forall i | 0 <= i < n
      ensures rs[i].Ok?
    {
      CollectAt(rs[..n], i);
      assert rs[..n][i] == rs[i];
    }
    CollectFirstErr(rs, n);
  }

  // ---------------------------------------------------------------- rep_pts

  /**
   * The point at arc length s along the path, as the body of the `rep_pts`
   * loop computes it: find the segment k that brackets s, then step from the
   * segment's start along `dir` by the remaining length s - L(k-1).
   */
  function Advance(sqrt: real -> real, path: Path, s: real): Result<Point, PyError>
    requires IsSqrt(sqrt) && |path| >= 2
  {
    var k := FirstBracket(sqrt, path, s, 2);
    if k > |path| then Err(IndexError)
    else
      match Dir(sqrt, path[k - 2], path[k - 1])
      case Err(e) => Err(e)
      case Ok(v) => Ok(MapAdd(path[k - 2], Scale(s - L(sqrt, path, k - 1), v)))
  }

  /** The reparametrized point for index i (2 <= i < |path|): the point at arc length s(i). */
  function NewPoint(sqrt: real -> real, path: Path, i: int): Result<Point, PyError>
    requires IsSqrt(sqrt) && |path| >= 3 && 2 <= i < |path|
  {
    Advance(sqrt, path, S(sqrt, path, i))
  }

  /** NewPoint, made total for the sequence comprehension below. */
  function NewPointOrNone(sqrt: real -> real, path: Path, i: int): Result<Point, PyError>
    requires IsSqrt(sqrt)
  {
    if |path| >= 3 && 2 <= i < |path| then NewPoint(sqrt, path, i) else Err(IndexError)
  }

  /** The new points for i = 2 .. |path| - 1, in the order the loop computes them. */
  function NewPoints(sqrt: real -> real, path: Path): (rs: seq<Result<Point, PyError>>)
    requires IsSqrt(sqrt) && |path| >= 3
    ensures |rs| == |path| - 2
  {
    seq(|path| - 2, j => NewPointOrNone(sqrt, path, j + 2))
  }

  /** Entry j of NewPoints is the point for index j + 2. */
  lemma NewPointsAt(sqrt: real -> real, path: Path, j: int)
    requires IsSqrt(sqrt) && |path| >= 3 && 0 <= j < |path| - 2
    ensures NewPoints(sqrt, path)[j] == NewPoint(sqrt, path, j + 2)
  {
  }

  /** The value `rep_pts(newpts)` returns, or the exception it raises. */
  function RepPtsSpec(sqrt: real -> real, path: Path): Result<Path, PyError>
    requires IsSqrt(sqrt)
  {
    if |path| == 0 then Err(IndexError)
    else if |path| < 3 then Ok([path[0], path[|path| - 1]])
    else
      match Collect(NewPoints(sqrt, path))
      case Err(e) => Err(e)
      case Ok(ps) => Ok([path[0]] + ps + [path[|path| - 1]])
  }

  /**
   * The while loop of `rep_pts` for one target s: k advances from 2 while
   * `L(k-1) >= s or s > L(k)`.  Returns the k it stops at, or |path| + 1 at
   * the point where the next evaluation of L would index past the path.
   */
  method SearchK(sqrt: real -> real, path: Path, s: real) returns (k: nat)
    requires IsSqrt(sqrt) && |path| >= 2
    ensures k == FirstBracket(sqrt, path, s, 2)
  {
    var n := |path|;
    k := 2;
    while true
      invariant 2 <= k <= n + 2
      invariant forall j :: 2 <= j < k && j <= n ==> !Brackets(sqrt, path, s, j)
      decreases n + 2 - k
    {
      if k - 1 > n {
        // L(k - 1) raises IndexError
        k := n + 1;
        break;
      }
      if L(sqrt, path, k - 1) >= s {
        k := k + 1;
      } else if k > n {
        // L(k) raises IndexError
        break;
      } else if s > L(sqrt, path, k) {
        k := k + 1;
      } else {
        break;
      }
    }
    FirstBracketIs(sqrt, path, s, 2, k);
  }

  /** One iteration of the `rep_pts` loop: search for k, then step along the segment. */
  method ComputePoint(sqrt: real -> real, newpts: Path, i: int) returns (r: Result<Point, PyError>)
    requires IsSqrt(sqrt) && |newpts| >= 3 && 2 <= i < |newpts|
    ensures r == NewPoint(sqrt, newpts, i)
  {
    var n := |newpts|;
    var si := S(sqrt, newpts, i);
    var k := SearchK(sqrt, newpts, si);
    if k > n {
      return Err(IndexError);
    }
    // the segment found has positive length, so `dir` does not divide by zero
    AdvanceFound(sqrt, newpts, si, k);
    var v := Dir(sqrt, newpts[k - 2], newpts[k - 1]).value;
    return Ok(MapAdd(newpts[k - 2], Scale(si - L(sqrt, newpts, k - 1), v)));
  }

  /** When the search stops inside the path, `dir` succeeds and Advance steps along segment k. */
  lemma AdvanceFound(sqrt: real -> real, path: Path, s: real, k: int)
    requires IsSqrt(sqrt) && |path| >= 2 && k == FirstBracket(sqrt, path, s, 2) && k <= |path|
    ensures Dir(sqrt, path[k - 2], path[k - 1]).Ok?
    ensures Advance(sqrt, path, s) ==
      Ok(MapAdd(path[k - 2], Scale(s - L(sqrt, path, k - 1), Dir(sqrt, path[k - 2], path[k - 1]).value)))
  {
    BracketPositive(sqrt, path, s, k);
  }

  /** `adjusted.insert(i - 1, p)` when `adjusted` holds i points: p goes just before the last. */
  lemma InsertBeforeLast(first: Point, ps: seq<Point>, last: Point, p: Point)
    ensures var a := [first] + ps + [last];
      a[..|ps| + 1] + [p] + a[|ps| + 1..] == [first] + (ps + [p]) + [last]
  {
    var a := [first] + ps + [last];
    assert a[..|ps| + 1] == [first] + ps;
    assert a[|ps| + 1..] == [last];
  }

  /** `rep_pts`: the Python loop, with `list.insert` on a sequence. */
  method RepPts(sqrt: real -> real, newpts: Path) returns (r: Result<Path, PyError>)
    requires IsSqrt(sqrt) && SameDim(newpts)
    ensures r == RepPtsSpec(sqrt, newpts)
  {
    if |newpts| == 0 {
      return Err(IndexError);
    }
    var n := |newpts|;
    var adjusted := [newpts[0], newpts[n - 1]];
    if n < 3 {
      return Ok(adjusted);
    }
    ghost var rs := NewPoints(sqrt, newpts);
    ghost var ps: seq<Point> := [];
    for i := 2 to n
      invariant Collect(rs[..i - 2]) == Ok(ps)
      invariant adjusted == [newpts[0]] + ps + [newpts[n - 1]]
    {
      var reppt := ComputePoint(sqrt, newpts, i);
      NewPointsAt(sqrt, newpts, i - 2);
      if reppt.Err? {
        CollectErrAt(rs, i - 2);
        return Err(reppt.error);
      }
      CollectSnoc(rs, i - 2);
      InsertBeforeLast(newpts[0], ps, newpts[n - 1], reppt.value);
      adjusted := adjusted[..i - 1] + [reppt.value] + adjusted[i - 1..];
      ps := ps + [reppt.value];
    }
    assert rs[..n - 2] == rs;
    return Ok(adjusted);
  }

  // ---------------------------------------------------------------- segment geometry

  /** a * c == (a / d) * w, where c * d == w. */
  lemma ScaleStep(a: real, d: real, c: real, w: real)
    requires d != 0.0 && c * d == w
    ensures a * c == (a / d) * w
  {
    var t := a / d;
    assert t * d == a;
    calc {
      t * w;
      == t * (c * d);
      == (t * d) * c;
      == a * c;
    }
  }

  /** 0 < a <= d gives a fraction a / d in (0, 1]. */
  lemma FractionInUnit(a: real, d: real)
    requires 0.0 < a <= d
    ensures 0.0 < a / d <= 1.0
  {
    var t := a / d;
    assert t * d == a;
    if t > 1.0 {
      MulPos(t - 1.0, d);
    }
  }

  /** np is the point a fraction t of the way from p to q, in every common coordinate. */
  predicate OnSegment(np: Point, p: Point, q: Point, t: real) {
    |np| == Min(|p|, |q|) && forall x :: 0 <= x < |np| ==> np[x] == p[x] + t * (q[x] - p[x])
  }

  /** p + a * v, where v * d is the step from p to q, is the point a fraction a / d of the way to q. */
  lemma StepAlong(p: Point, q: Point, v: Point, a: real, d: real)
    requires d > 0.0 && |v| == Min(|p|, |q|)
    requires forall x :: 0 <= x < |v| ==> v[x] * d == q[x] - p[x]
    ensures OnSegment(MapAdd(p, Scale(a, v)), p, q, a / d)
  {
    var sv := Scale(a, v);
    var np := MapAdd(p, sv);
    var t := a / d;
    assert |sv| == |v| && |np| == |v|;
    forall x | 0 <= x < |np|
      ensures np[x] == p[x] + t * (q[x] - p[x])
    {
      assert np[x] == p[x] + sv[x] && sv[x] == a * v[x];
      ScaleStep(a, d, v[x], q[x] - p[x]);
    }
    assert OnSegment(np, p, q, t);
  }

  /** How far into segment k (as a fraction of its length) the arc length s falls. */
  function Fraction(sqrt: real -> real, path: Path, s: real, k: nat): real
    requires IsSqrt(sqrt) && 2 <= k <= |path| && Brackets(sqrt, path, s, k)
  {
    BracketPositive(sqrt, path, s, k);
    (s - L(sqrt, path, k - 1)) / Dist(sqrt, path[k - 2], path[k - 1])
  }

  /**
   * Stepping from the start of a segment that brackets s by the remaining
   * arc length s - L(k-1) along dir gives a point of the segment, a fraction
   * t in (0, 1] of the way along it.
   */
  lemma StepOnSegment(sqrt: real -> real, path: Path, s: real, k: nat)
    requires IsSqrt(sqrt) && 2 <= k <= |path| && Brackets(sqrt, path, s, k)
    ensures Dir(sqrt, path[k - 2], path[k - 1]).Ok?
    ensures 0.0 < Fraction(sqrt, path, s, k) <= 1.0
    ensures OnSegment(MapAdd(path[k - 2], Scale(s - L(sqrt, path, k - 1), Dir(sqrt, path[k - 2], path[k - 1]).value)),
                      path[k - 2], path[k - 1], Fraction(sqrt, path, s, k))
  {
    var p := path[k - 2];
    var q := path[k - 1];
    BracketPositive(sqrt, path, s, k);
    LStep(sqrt, path, k);
    var d := Dist(sqrt, p, q);
    var a := s - L(sqrt, path, k - 1);
    FractionInUnit(a, d);
    DirScaled(sqrt, p, q);
    StepAlong(p, q, Dir(sqrt, p, q).value, a, d);
  }

  // ---------------------------------------------------------------- properties of Advance

  /**
   * Advance fails exactly when no segment brackets s, and then with an
   * IndexError: at a bracketing segment dir never divides by zero.
   */
  lemma AdvanceErrors(sqrt: real -> real, path: Path, s: real)
    requires IsSqrt(sqrt) && |path| >= 2
    ensures Advance(sqrt, path, s).Err? <==> FirstBracket(sqrt, path, s, 2) > |path|
    ensures Advance(sqrt, path, s).Err? ==> Advance(sqrt, path, s).error == IndexError
  {
    var k := FirstBracket(sqrt, path, s, 2);
    if k <= |path| {
      BracketPositive(sqrt, path, s, k);
    }
  }

  /** A target in (0, L(R)] is found on a real segment, before the padding point. */
  lemma AdvanceInRange(sqrt: real -> real, path: Path, s: real)
    requires IsSqrt(sqrt) && |path| >= 3
    requires 0.0 < s <= L(sqrt, path, |path| - 1)
    ensures FirstBracket(sqrt, path, s, 2) <= |path| - 1
    ensures Advance(sqrt, path, s).Ok?
  {
    LSentinel(sqrt, path);
    BracketExists(sqrt, path, s, 2);
    AdvanceErrors(sqrt, path, s);
  }

  /** A non-positive target is never found: the search runs off the end of the path. */
  lemma AdvanceAtZero(sqrt: real -> real, path: Path, s: real)
    requires IsSqrt(sqrt) && |path| >= 2 && s <= 0.0
    ensures Advance(sqrt, path, s) == Err(IndexError)
  {
    NoBracketAtZero(sqrt, path, s, 2);
  }

  /** The point Advance returns lies on the bracketing segment, a fraction t in (0, 1] along it. */
  lemma AdvanceOnSegment(sqrt: real -> real, path: Path, s: real)
    requires IsSqrt(sqrt) && |path| >= 2
    requires FirstBracket(sqrt, path, s, 2) <= |path|
    ensures var k := FirstBracket(sqrt, path, s, 2);
      Advance(sqrt, path, s).Ok? && 0.0 < Fraction(sqrt, path, s, k) <= 1.0 &&
      OnSegment(Advance(sqrt, path, s).value, path[k - 2], path[k - 1], Fraction(sqrt, path, s, k))
  {
    var k := FirstBracket(sqrt, path, s, 2);
    StepOnSegment(sqrt, path, s, k);
  }

  // ---------------------------------------------------------------- properties of rep_pts

  /** With a positive path length every new point is well defined: dir never divides by zero. */
  lemma NewPointOk(sqrt: real -> real, path: Path, i: int)
    requires IsSqrt(sqrt) && |path| >= 3 && 2 <= i < |path|
    requires L(sqrt, path, |path| - 1) > 0.0
    ensures NewPoint(sqrt, path, i).Ok?
  {
    SRange(sqrt, path, i);
    AdvanceInRange(sqrt, path, S(sqrt, path, i));
  }

  /**
   * The new point for index i lies on the segment k found by the search,
   * before the padding point: it is path[k-2] + t * (path[k-1] - path[k-2])
   * with 0 < t <= 1, where t is how far into the segment s(i) falls.
   */
  lemma NewPointInterpolates(sqrt: real -> real, path: Path, i: int)
    requires IsSqrt(sqrt) && |path| >= 3 && 2 <= i < |path|
    requires L(sqrt, path, |path| - 1) > 0.0
    ensures var s := S(sqrt, path, i);
      var k := FirstBracket(sqrt, path, s, 2);
      k <= |path| - 1 && NewPoint(sqrt, path, i).Ok? && 0.0 < Fraction(sqrt, path, s, k) <= 1.0 &&
      OnSegment(NewPoint(sqrt, path, i).value, path[k - 2], path[k - 1], Fraction(sqrt, path, s, k))
  {
    var s := S(sqrt, path, i);
    SRange(sqrt, path, i);
    AdvanceInRange(sqrt, path, s);
    AdvanceOnSegment(sqrt, path, s);
  }

  /** With a positive path length every iteration of the loop succeeds. */
  lemma NewPointsOk(sqrt: real -> real, path: Path)
    requires IsSqrt(sqrt) && |path| >= 3 && L(sqrt, path, |path| - 1) > 0.0
    ensures Collect(NewPoints(sqrt, path)).Ok?
  {
    var rs := NewPoints(sqrt, path);
    forall j | 0 <= j < |rs|
      ensures rs[j].Ok?
    {
      NewPointsAt(sqrt, path, j);
      NewPointOk(sqrt, path, j + 2);
    }
    CollectAllOk(rs);
  }

  /** With zero path length the first iteration already runs off the end. */
  lemma NewPointsZero(sqrt: real -> real, path: Path)
    requires IsSqrt(sqrt) && |path| >= 3 && L(sqrt, path, |path| - 1) == 0.0
    ensures Collect(NewPoints(sqrt, path)) == Err(IndexError)
  {
    var rs := NewPoints(sqrt, path);
    SRange(sqrt, path, 2);
    AdvanceAtZero(sqrt, path, S(sqrt, path, 2));
    assert rs[0] == Err(IndexError);
    CollectFirstErr(rs, 0);
  }

  /**
   * `rep_pts` fails exactly for the empty path (newpts[0]) and for a path of
   * three or more points whose length L(R) is zero (the k search runs off the
   * end); every failure is an IndexError, never a ZeroDivisionError.
   */
  lemma RepPtsErrors(sqrt: real -> real, path: Path)
    requires IsSqrt(sqrt)
    ensures RepPtsSpec(sqrt, path).Err? <==>
      |path| == 0 || (|path| >= 3 && L(sqrt, path, |path| - 1) == 0.0)
    ensures RepPtsSpec(sqrt, path).Err? ==> RepPtsSpec(sqrt, path).error == IndexError
  {
    if |path| >= 3 {
      if L(sqrt, path, |path| - 1) > 0.0 {
        NewPointsOk(sqrt, path);
      } else {
        NewPointsZero(sqrt, path);
      }
    }
  }

  /** Slot j (1 <= j <= len-2) of the output holds the point computed for i = j + 1. */
  lemma RepPtsAt(sqrt: real -> real, path: Path, j: int)
    requires IsSqrt(sqrt)
    requires RepPtsSpec(sqrt, path).Ok? && |path| >= 3 && 1 <= j <= |path| - 2
    ensures NewPoint(sqrt, path, j + 1).Ok?
    ensures RepPtsSpec(sqrt, path).value[j] == NewPoint(sqrt, path, j + 1).value
  {
    var rs := NewPoints(sqrt, path);
    var ps := Collect(rs).value;
    var out := RepPtsSpec(sqrt, path).value;
    assert out == [path[0]] + ps + [path[|path| - 1]];
    assert out[j] == ps[j - 1];
    CollectAt(rs, j - 1);
    NewPointsAt(sqrt, path, j - 1);
  }

  /** An interior output point has the dimension of the input points. */
  lemma RepPtsDimAt(sqrt: real -> real, path: Path, j: int)
    requires IsSqrt(sqrt) && SameDim(path)
    requires RepPtsSpec(sqrt, path).Ok? && |path| >= 3 && 1 <= j <= |path| - 2
    ensures |RepPtsSpec(sqrt, path).value[j]| == |path[0]|
  {
    RepPtsErrors(sqrt, path);
    RepPtsAt(sqrt, path, j);
    NewPointInterpolates(sqrt, path, j + 1);
    var k := FirstBracket(sqrt, path, S(sqrt, path, j + 1), 2);
    assert |path[k - 2]| == |path[0]| && |path[k - 1]| == |path[0]|;
  }

  /**
   * On success the output has the input's length (two points for a one-point
   * path), keeps both endpoints, and when the input points share a
   * dimension so do the output points.
   */
  lemma RepPtsShape(sqrt: real -> real, path: Path)
    requires IsSqrt(sqrt)
    requires RepPtsSpec(sqrt, path).Ok?
    ensures var out := RepPtsSpec(sqrt, path).value;
      |out| == (if |path| == 1 then 2 else |path|) &&
      out[0] == path[0] && out[|out| - 1] == path[|path| - 1] &&
      (SameDim(path) ==> SameDim(out))
  {
    var out := RepPtsSpec(sqrt, path).value;
    if |path| >= 3 && SameDim(path) {
      forall j | 1 <= j <= |path| - 2
        ensures |out[j]| == |path[0]|
      {
        RepPtsDimAt(sqrt, path, j);
      }
    }
  }

  /**
   * Past a segment k whose end already has the whole length L(R), every
   * later segment has length zero, so the points up to the (R-1)-th, 0-based,
   * all coincide with path[k - 1].
   */
  lemma {:induction false} FlatTail(sqrt: real -> real, path: Path, k: nat, j: nat)
    requires IsSqrt(sqrt) && SameDim(path)
    requires 2 <= k <= j <= |path| - 1
    requires L(sqrt, path, k) == L(sqrt, path, |path| - 1)
    ensures path[j - 1] == path[k - 1]
    decreases j - k
  {
    if j > k {
      FlatTail(sqrt, path, k, j - 1);
      LMonotone(sqrt, path, k, j - 1);
      LMonotone(sqrt, path, j, |path| - 1);
      LStep(sqrt, path, j);
      SqDistZero(path[j - 2], path[j - 1]);
    }
  }

  /** A point the whole way along a segment between points of equal dimension is its end. */
  lemma OnSegmentEnd(np: Point, p: Point, q: Point)
    requires |p| == |q| && OnSegment(np, p, q, 1.0)
    ensures np == q
  {
    assert forall x :: 0 <= x < |np| ==> np[x] == q[x];
  }

  lemma DivSelf(d: real)
    requires d != 0.0
    ensures d / d == 1.0
  {
  }

  /** An arc length at the very end of a bracketing segment is the whole way along it. */
  lemma FractionAtEnd(sqrt: real -> real, path: Path, s: real, k: nat)
    requires IsSqrt(sqrt) && 2 <= k <= |path| && Brackets(sqrt, path, s, k)
    requires s == L(sqrt, path, k)
    ensures Fraction(sqrt, path, s, k) == 1.0
  {
    LStep(sqrt, path, k);
    BracketPositive(sqrt, path, s, k);
    DivSelf(Dist(sqrt, path[k - 2], path[k - 1]));
  }

  /** The search for s(R) = L(R) stops at the first segment k whose end has the whole length, at its end. */
  lemma LastTargetAtEnd(sqrt: real -> real, path: Path)
    requires IsSqrt(sqrt) && |path| >= 3 && L(sqrt, path, |path| - 1) > 0.0
    ensures var k := FirstBracket(sqrt, path, S(sqrt, path, |path| - 1), 2);
      2 <= k <= |path| - 1 && L(sqrt, path, k) == L(sqrt, path, |path| - 1) &&
      Fraction(sqrt, path, S(sqrt, path, |path| - 1), k) == 1.0
  {
    var R := |path| - 1;
    STargets(sqrt, path);
    var s := S(sqrt, path, R);
    AdvanceInRange(sqrt, path, s);
    var k := FirstBracket(sqrt, path, s, 2);
    LMonotone(sqrt, path, k, R);
    FractionAtEnd(sqrt, path, s, k);
  }

  /**
   * The point rep_pts computes for the last index, i = R, sits at arc length
   * s(R) = L(R), the end of the path before the padding point: it is the
   * fixed point path[R - 1] itself.
   */
  lemma RepPtsKeepsLastInterior(sqrt: real -> real, path: Path)
    requires IsSqrt(sqrt) && SameDim(path) && |path| >= 3
    requires RepPtsSpec(sqrt, path).Ok?
    ensures RepPtsSpec(sqrt, path).value[|path| - 2] == path[|path| - 2]
  {
    var R := |path| - 1;
    RepPtsErrors(sqrt, path);
    RepPtsAt(sqrt, path, R - 1);
    var s := S(sqrt, path, R);
    var k := FirstBracket(sqrt, path, s, 2);
    LastTargetAtEnd(sqrt, path);
    NewPointInterpolates(sqrt, path, R);
    assert |path[k - 2]| == |path[0]| && |path[k - 1]| == |path[0]|;
    OnSegmentEnd(NewPoint(sqrt, path, R).value, path[k - 2], path[k - 1]);
    FlatTail(sqrt, path, k, R);
  }

  // ---------------------------------------------------------------- reparametrize()

  /** The path after n applications of rep_pts. */
  function Iterated(sqrt: real -> real, path: Path, n: nat): (r: Result<Path, PyError>)
    requires IsSqrt(sqrt)
    ensures r.Ok? && SameDim(path) ==> SameDim(r.value)
    ensures r.Ok? && |path| >= 2 ==>
      |r.value| == |path| && r.value[0] == path[0] && r.value[|path| - 1] == path[|path| - 1]
    ensures r.Ok? && |path| >= 3 && SameDim(path) ==> r.value[|path| - 2] == path[|path| - 2]
  {
    if n == 0 then Ok(path)
    else
      match Iterated(sqrt, path, n - 1)
      case Err(e) => Err(e)
      case Ok(p) =>
        var next := RepPtsSpec(sqrt, p);
        if next.Ok? then
          RepPtsShape(sqrt, p);
          if |path| >= 3 && SameDim(path) then RepPtsKeepsLastInterior(sqrt, p); next else next
        else next
  }

  /** Once an iteration fails, every later one fails with the same error. */
  lemma {:induction false} IteratedErrStays(sqrt: real -> real, path: Path, n: nat, m: nat)
    requires IsSqrt(sqrt) && n <= m && Iterated(sqrt, path, n).Err?
    ensures Iterated(sqrt, path, m) == Iterated(sqrt, path, n)
    decreases m - n
  {
    if n < m {
      IteratedErrStays(sqrt, path, n, m - 1);
    }
  }

  function Zeros(n: nat): (r: Point)
    ensures |r| == n && forall i :: 0 <= i < n ==> r[i] == 0.0
  {
    seq(n, _ => 0.0)
  }

  /** The path `reparametrize` builds: start, swarm averages, target and a zero padding point. */
  function PaddedPath(initpt: Point, avgs: Path, targetpt: Point): (r: Path)
    ensures |r| == |avgs| + 3 && r[0] == initpt && r[|r| - 2] == targetpt && r[|r| - 1] == Zeros(|initpt|)
    ensures r[1..|r| - 2] == avgs
  {
    [initpt] + avgs + [targetpt, Zeros(|initpt|)]
  }

  /** Padding with a zero point of the start's dimension keeps all points the same dimension. */
  lemma PaddedSameDim(initpt: Point, avgs: Path, targetpt: Point)
    requires SameDim([initpt] + avgs + [targetpt])
    ensures SameDim(PaddedPath(initpt, avgs, targetpt))
  {
    var newpts := PaddedPath(initpt, avgs, targetpt);
    var core := [initpt] + avgs + [targetpt];
    assert newpts == core + [Zeros(|initpt|)];
    forall i | 0 <= i < |newpts|
      ensures |newpts[i]| == |newpts[0]|
    {
      if i < |newpts| - 1 {
        assert newpts[i] == core[i];
      }
    }
  }

  /**
   * Lines 143-168 of `reparametrize`: pad, apply rep_pts once and then 35 more
   * times, drop the padding point.  The result has one point per swarm
   * average plus the two endpoints, starts at initpt and ends at targetpt.
   */
  method RunReparametrize(sqrt: real -> real, initpt: Point, avgs: Path, targetpt: Point)
    returns (r: Result<Path, PyError>)
    requires IsSqrt(sqrt) && SameDim([initpt] + avgs + [targetpt])
    ensures match Iterated(sqrt, PaddedPath(initpt, avgs, targetpt), 36)
      case Err(e) => r == Err(e)
      case Ok(last) => r == Ok(last[..|last| - 1])
    ensures r.Ok? ==> |r.value| == |avgs| + 2 && r.value[0] == initpt && r.value[|r.value| - 1] == targetpt
  {
    var newpts := PaddedPath(initpt, avgs, targetpt);
    PaddedSameDim(initpt, avgs, targetpt);
    var adjusted := RepPts(sqrt, newpts);
    assert Iterated(sqrt, newpts, 1) == adjusted;
    if adjusted.Err? {
      IteratedErrStays(sqrt, newpts, 1, 36);
      return Err(adjusted.error);
    }
    var iters := [adjusted.value];
    for i := 0 to 35
      invariant |iters| == i + 1
      invariant Iterated(sqrt, newpts, i + 1) == Ok(iters[i])
    {
      var next := RepPts(sqrt, iters[i]);
      assert Iterated(sqrt, newpts, i + 2) == next;
      if next.Err? {
        IteratedErrStays(sqrt, newpts, i + 2, 36);
        return Err(next.error);
      }
      iters := iters + [next.value];
    }
    var last := iters[|iters| - 1];
    return Ok(last[..|last| - 1]);
  }

  /** Every iterate ends in the zero padding point, so the point reparametrize drops is the padding. */
  lemma DropsPadding(sqrt: real -> real, initpt: Point, avgs: Path, targetpt: Point, n: nat)
    requires IsSqrt(sqrt)
    requires Iterated(sqrt, PaddedPath(initpt, avgs, targetpt), n).Ok?
    ensures var last := Iterated(sqrt, PaddedPath(initpt, avgs, targetpt), n).value;
      |last| == |avgs| + 3 && last[|last| - 1] == Zeros(|initpt|)
  {
  }
}
