/**
 * cpc/lib/swarms/rep.cc: the C port of `rep_pts`.  The program reads a header
 * line "numpoints numcvs", then one coordinate per line, reparametrizes the
 * path and prints every coordinate of the result on its own line.
 *
 * stdin is the sequence of strings the successive `fgets` calls return;
 * stdout is the sequence of printed values and stderr the sequence of
 * diagnostics.  Behaviour the C standard leaves undefined (reading an
 * uninitialised buffer, indexing past an allocation) is the outcome
 * `Undefined`.  Memory that `malloc` returns and the program never writes
 * holds whatever `garbage(p, c)` says.
 */
module RepC {
  import opened Wrappers
  import opened Text
  import opened Reparametrize

  datatype Outcome = Exit(code: int, stdout: seq<real>, stderr: seq<String>) | Undefined

  const HeaderError: String := "Couldn't read number of points or CVs from the main process\n"
  const DirWarning: String := "Rep dir had a dist = 0.0. This should not be possible.\n"
  /** The distance `dir` divides by when its two points coincide. */
  const ZeroDistance: real := 0.0001

  /** Loops `for (c = 0; c < numcvs; c++)` run max(numcvs, 0) times. */
  function Width(nc: int): nat { if nc < 0 then 0 else nc }

  // ---------------------------------------------------------------- input

  /**
   * The buffer after fgets call number j (0 is the header).  At end of file
   * fgets leaves the buffer as it was, so the last line is scanned again.
   */
  function Fgets(lines: seq<String>, j: nat): String
    requires |lines| > 0
  {
    if j < |lines| then lines[j] else lines[|lines| - 1]
  }

  /** Coordinate c of point p: the `%f` value of its line, or the untouched allocation. */
  function Coord(lines: seq<String>, garbage: (int, int) -> real, nc: nat, p: nat, c: nat): real
    requires |lines| > 0
  {
    match ScanFloat(Fgets(lines, 1 + p * nc + c))
    case Some(v) => v
    case None => garbage(p, c)
  }

  /** Coordinate c of point p comes from fgets call number j. */
  lemma CoordLine(lines: seq<String>, garbage: (int, int) -> real, nc: nat, p: nat, c: nat, j: nat)
    requires |lines| > 0 && j == 1 + p * nc + c
    ensures Coord(lines, garbage, nc, p, c) == ScanFloat(Fgets(lines, j)).GetOr(garbage(p, c))
  {
  }

  function InputRow(lines: seq<String>, garbage: (int, int) -> real, nc: nat, p: nat): (r: Point)
    requires |lines| > 0
    ensures |r| == nc && forall c :: 0 <= c < nc ==> r[c] == Coord(lines, garbage, nc, p, c)
  {
    seq(nc, c => if 0 <= c then Coord(lines, garbage, nc, p, c) else 0.0)
  }

  /** The path as read: numpoints rows of max(numcvs, 0) coordinates. */
  function InputPoints(lines: seq<String>, garbage: (int, int) -> real, np: nat, nc: nat): (P: Path)
    requires |lines| > 0
    ensures |P| == np && forall p :: 0 <= p < np ==> P[p] == InputRow(lines, garbage, nc, p)
  {
    seq(np, p => if 0 <= p then InputRow(lines, garbage, nc, p) else [])
  }

  // ---------------------------------------------------------------- specification

  /**
   * `dir` of rep.cc: (v2 - v1) / dist(v1, v2), except that a zero distance is
   * replaced by 0.0001; the flag says whether the diagnostic is printed.
   */
  function DirC(sqrt: real -> real, v1: Point, v2: Point): (r: (Point, bool))
    requires IsSqrt(sqrt)
  {
    var d0 := Dist(sqrt, v1, v2);
    var d := if d0 == 0.0 then ZeroDistance else d0;
    var n := Min(|v1|, |v2|);
    (seq(n, i => if 0 <= i < n then (v2[i] - v1[i]) / d else 0.0), d0 == 0.0)
  }

  /** The segment k the do-while loop settles on for target s(i). */
  function SegmentC(sqrt: real -> real, P: Path, i: int): nat
    requires IsSqrt(sqrt) && |P| >= 3
  {
    FirstBracket(sqrt, P, S(sqrt, P, i), 2)
  }

  /**
   * The point the loop body computes for index i, or None when the k search
   * calls rep_L past the end of the path.
   */
  function NewPointC(sqrt: real -> real, P: Path, i: int): Option<Point>
    requires IsSqrt(sqrt) && |P| >= 3
  {
    var s := S(sqrt, P, i);
    var k := SegmentC(sqrt, P, i);
    if k > |P| then None
    else Some(MapAdd(P[k - 2], Scale(s - L(sqrt, P, k - 1), DirC(sqrt, P[k - 2], P[k - 1]).0)))
  }

  /** The point computed for index i, once its segment k and the step length are known. */
  lemma NewPointCAt(sqrt: real -> real, P: Path, i: int, k: int, a: real, v: Point)
    requires IsSqrt(sqrt) && |P| >= 3 && k == SegmentC(sqrt, P, i) && k <= |P|
    requires a == S(sqrt, P, i) - L(sqrt, P, k - 1) && v == DirC(sqrt, P[k - 2], P[k - 1]).0
    ensures NewPointC(sqrt, P, i) == Some(MapAdd(P[k - 2], Scale(a, v)))
    ensures WarnsC(sqrt, P, i) == DirC(sqrt, P[k - 2], P[k - 1]).1
  {
  }

  /** Whether the loop body for index i prints the zero-distance diagnostic. */
  predicate WarnsC(sqrt: real -> real, P: Path, i: int)
    requires IsSqrt(sqrt) && |P| >= 3
  {
    var k := SegmentC(sqrt, P, i);
    k <= |P| && DirC(sqrt, P[k - 2], P[k - 1]).1
  }

  /** Slots 1 .. n of `adjusted`: the points computed for indices 2 .. n + 1. */
  function InteriorC(sqrt: real -> real, P: Path, n: nat): (r: seq<Point>)
    requires IsSqrt(sqrt) && |P| >= 3 && n <= |P| - 2
    ensures |r| == n
  {
    if n == 0 then [] else InteriorC(sqrt, P, n - 1) + [NewPointC(sqrt, P, n + 1).GetOr([])]
  }

  /**
   * The points rep.cc prints: the endpoints as read and the recomputed
   * interior, or None when the loop has undefined behaviour, which is exactly
   * when a path of three or more points has length zero.
   */
  function OutputPoints(sqrt: real -> real, P: Path): Option<seq<Point>>
    requires IsSqrt(sqrt) && |P| >= 1
  {
    if |P| == 1 then Some([P[0]])
    else if |P| == 2 then Some(P)
    else if L(sqrt, P, |P| - 1) == 0.0 then None
    else Some([P[0]] + InteriorC(sqrt, P, |P| - 2) + [P[|P| - 1]])
  }

  /** The values printed, point-major. */
  function Flatten(ps: seq<Point>): seq<real> {
    if |ps| == 0 then [] else Flatten(ps[..|ps| - 1]) + ps[|ps| - 1]
  }

  /** What running rep.cc on `lines` does. */
  function RepOutcome(sqrt: real -> real, garbage: (int, int) -> real, lines: seq<String>): Outcome
    requires IsSqrt(sqrt)
  {
    if |lines| == 0 then Undefined
    else
      var hdr := ScanTwoInts(lines[0]);
      if hdr.0 != 2 then Exit(1, [], [HeaderError])
      else if hdr.1 <= 0 then Undefined
      else
        var P := InputPoints(lines, garbage, hdr.1, Width(hdr.2));
        match OutputPoints(sqrt, P)
        case None => Undefined
        case Some(out) => Exit(0, Flatten(out), [])
  }

  // ---------------------------------------------------------------- properties

  /** With a positive distance rep.cc's dir is Python's dir and prints nothing. */
  lemma DirCAgrees(sqrt: real -> real, v1: Point, v2: Point)
    requires IsSqrt(sqrt) && Dist(sqrt, v1, v2) > 0.0
    ensures Dir(sqrt, v1, v2).Ok?
    ensures DirC(sqrt, v1, v2).0 == Dir(sqrt, v1, v2).value && !DirC(sqrt, v1, v2).1
  {
    var v := Dir(sqrt, v1, v2).value;
    var w := DirC(sqrt, v1, v2).0;
    forall i | 0 <= i < |w|
      ensures w[i] == v[i]
    {
      assert v[i] == Sub(v1[i], v2[i]) / Dist(sqrt, v1, v2);
    }
  }

  /** Coincident points: the guard prints the diagnostic and the direction is zero. */
  lemma DirCZero(sqrt: real -> real, v1: Point, v2: Point)
    requires IsSqrt(sqrt) && |v1| == |v2| && Dist(sqrt, v1, v2) == 0.0
    ensures DirC(sqrt, v1, v2).1
    ensures |DirC(sqrt, v1, v2).0| == |v1|
    ensures forall i :: 0 <= i < |v1| ==> DirC(sqrt, v1, v2).0[i] == 0.0
  {
    assert v1 == v2;
  }

  /** On a path of positive length the C point for i comes from a bracketing segment with a nonzero direction. */
  lemma NewPointCSegment(sqrt: real -> real, P: Path, i: int)
    requires IsSqrt(sqrt) && |P| >= 3 && 2 <= i < |P| && L(sqrt, P, |P| - 1) > 0.0
    ensures SegmentC(sqrt, P, i) <= |P| - 1
    ensures Dist(sqrt, P[SegmentC(sqrt, P, i) - 2], P[SegmentC(sqrt, P, i) - 1]) > 0.0
  {
    var s := S(sqrt, P, i);
    SRange(sqrt, P, i);
    AdvanceInRange(sqrt, P, s);
    BracketPositive(sqrt, P, s, FirstBracket(sqrt, P, s, 2));
  }

  /**
   * On a path of positive length the search stays inside the path, the
   * diagnostic is never printed, and the C point is the Python point.
   */
  lemma NewPointCFound(sqrt: real -> real, P: Path, i: int)
    requires IsSqrt(sqrt) && |P| >= 3 && 2 <= i < |P| && L(sqrt, P, |P| - 1) > 0.0
    ensures SegmentC(sqrt, P, i) <= |P| - 1
    ensures NewPointC(sqrt, P, i).Some? && !WarnsC(sqrt, P, i)
    ensures NewPoint(sqrt, P, i).Ok? && NewPointC(sqrt, P, i).value == NewPoint(sqrt, P, i).value
  {
    NewPointCSegment(sqrt, P, i);
    var s := S(sqrt, P, i);
    var k := SegmentC(sqrt, P, i);
    DirCAgrees(sqrt, P[k - 2], P[k - 1]);
    var a := s - L(sqrt, P, k - 1);
    var d := DirC(sqrt, P[k - 2], P[k - 1]).0;
    AdvanceFound(sqrt, P, s, k);
    assert NewPoint(sqrt, P, i) == Ok(MapAdd(P[k - 2], Scale(a, d)));
    NewPointCAt(sqrt, P, i, k, a, d);
  }

  /** The loop body for i has undefined behaviour exactly when the path has length zero. */
  lemma NewPointCNone(sqrt: real -> real, P: Path, i: int)
    requires IsSqrt(sqrt) && |P| >= 3 && 2 <= i < |P|
    ensures NewPointC(sqrt, P, i).None? <==> L(sqrt, P, |P| - 1) == 0.0
  {
    if L(sqrt, P, |P| - 1) == 0.0 {
      NewPointCUndefined(sqrt, P, i);
    } else {
      NewPointCFound(sqrt, P, i);
    }
  }

  /** What one pass of the reparametrization loop needs: defined exactly on paths of positive length, and then silent. */
  lemma StepFacts(sqrt: real -> real, P: Path, i: int)
    requires IsSqrt(sqrt) && |P| >= 3 && 2 <= i < |P|
    ensures NewPointC(sqrt, P, i).None? <==> L(sqrt, P, |P| - 1) == 0.0
    ensures NewPointC(sqrt, P, i).Some? ==> !WarnsC(sqrt, P, i)
  {
    NewPointCNone(sqrt, P, i);
    if L(sqrt, P, |P| - 1) > 0.0 {
      NewPointCFound(sqrt, P, i);
    }
  }

  /** On a path of length zero the search for i runs past the end of the path. */
  lemma NewPointCUndefined(sqrt: real -> real, P: Path, i: int)
    requires IsSqrt(sqrt) && |P| >= 3 && 2 <= i < |P| && L(sqrt, P, |P| - 1) == 0.0
    ensures NewPointC(sqrt, P, i).None?
  {
    SRange(sqrt, P, i);
    NoBracketAtZero(sqrt, P, S(sqrt, P, i), 2);
  }

  lemma {:induction false} FlattenLength(ps: seq<Point>, nc: nat)
    requires forall p :: 0 <= p < |ps| ==> |ps[p]| == nc
    ensures |Flatten(ps)| == |ps| * nc
  {
    if |ps| > 0 {
      FlattenLength(ps[..|ps| - 1], nc);
    }
  }

  /** The first nc values are the first point. */
  lemma {:induction false} FlattenFirst(ps: seq<Point>, nc: nat)
    requires |ps| >= 1 && forall p :: 0 <= p < |ps| ==> |ps[p]| == nc
    ensures |Flatten(ps)| >= nc && Flatten(ps)[..nc] == ps[0]
  {
    var init := ps[..|ps| - 1];
    if |ps| > 1 {
      FlattenFirst(init, nc);
      assert init[0] == ps[0];
    }
  }

  /** The last nc values are the last point. */
  lemma FlattenLast(ps: seq<Point>, nc: nat)
    requires |ps| >= 1 && forall p :: 0 <= p < |ps| ==> |ps[p]| == nc
    ensures |Flatten(ps)| == |ps| * nc == (|ps| - 1) * nc + nc
    ensures Flatten(ps)[(|ps| - 1) * nc..] == ps[|ps| - 1]
  {
    var n := |ps|;
    var init := ps[..n - 1];
    FlattenLength(init, nc);
    MulSucc(n - 1, nc);
    assert Flatten(ps) == Flatten(init) + ps[n - 1];
  }

  lemma MulSucc(a: int, b: int)
    ensures (a + 1) * b == a * b + b
  {
  }

  /** Value number p * nc + c of the output is coordinate c of point p. */
  lemma {:induction false} FlattenAt(ps: seq<Point>, nc: nat, p: nat, c: nat)
    requires forall q :: 0 <= q < |ps| ==> |ps[q]| == nc
    requires p < |ps| && c < nc
    ensures p * nc + c < |Flatten(ps)| && Flatten(ps)[p * nc + c] == ps[p][c]
  {
    var n := |ps|;
    var init := ps[..n - 1];
    FlattenLength(init, nc);
    FlattenLength(ps, nc);
    if p < n - 1 {
      FlattenAt(init, nc, p, c);
      assert init[p] == ps[p];
    } else {
      assert |Flatten(init)| == p * nc;
    }
  }

  /** Reparametrized points have the dimension of the input points. */
  lemma NewPointDim(sqrt: real -> real, P: Path, i: int, nc: nat)
    requires IsSqrt(sqrt) && |P| >= 3 && 2 <= i < |P| && L(sqrt, P, |P| - 1) > 0.0
    requires forall p :: 0 <= p < |P| ==> |P[p]| == nc
    ensures NewPointC(sqrt, P, i).Some? && |NewPointC(sqrt, P, i).value| == nc
  {
    NewPointCFound(sqrt, P, i);
    NewPointInterpolates(sqrt, P, i);
    var k := FirstBracket(sqrt, P, S(sqrt, P, i), 2);
    assert |P[k - 2]| == nc && |P[k - 1]| == nc;
  }

  /** Entry j of the interior is the point computed for index j + 2. */
  lemma {:induction false} InteriorAt(sqrt: real -> real, P: Path, n: nat, j: int)
    requires IsSqrt(sqrt) && |P| >= 3 && n <= |P| - 2 && 0 <= j < n
    ensures InteriorC(sqrt, P, n)[j] == NewPointC(sqrt, P, j + 2).GetOr([])
  {
    if j < n - 1 {
      InteriorAt(sqrt, P, n - 1, j);
    }
  }

  /** Slot q of the printed points, for an interior q, is the point computed for index q + 1. */
  lemma OutputInteriorAt(sqrt: real -> real, P: Path, q: int)
    requires IsSqrt(sqrt) && |P| >= 3 && L(sqrt, P, |P| - 1) > 0.0 && 0 < q < |P| - 1
    ensures OutputPoints(sqrt, P).Some? && |OutputPoints(sqrt, P).value| == |P|
    ensures OutputPoints(sqrt, P).value[q] == NewPointC(sqrt, P, q + 1).GetOr([])
  {
    InteriorAt(sqrt, P, |P| - 2, q - 1);
  }

  /** The dimension of one printed point. */
  lemma OutputRowDim(sqrt: real -> real, P: Path, nc: nat, q: int)
    requires IsSqrt(sqrt) && |P| >= 1 && OutputPoints(sqrt, P).Some? && 0 <= q < |P|
    requires forall p :: 0 <= p < |P| ==> |P[p]| == nc
    ensures |OutputPoints(sqrt, P).value| == |P| && |OutputPoints(sqrt, P).value[q]| == nc
  {
    if |P| >= 3 && 0 < q < |P| - 1 {
      OutputInteriorAt(sqrt, P, q);
      NewPointDim(sqrt, P, q + 1, nc);
    }
  }

  /** The printed points are the endpoints around the interior, all of the input dimension. */
  lemma OutputAssembled(sqrt: real -> real, P: Path, nc: nat, done: seq<Point>)
    requires IsSqrt(sqrt) && |P| >= 3 && L(sqrt, P, |P| - 1) > 0.0
    requires forall p :: 0 <= p < |P| ==> |P[p]| == nc
    requires done == InteriorC(sqrt, P, |P| - 2)
    ensures OutputPoints(sqrt, P) == Some([P[0]] + done + [P[|P| - 1]])
    ensures forall j :: 0 <= j < |done| ==> |done[j]| == nc
  {
    forall j | 0 <= j < |done|
      ensures |done[j]| == nc
    {
      InteriorAt(sqrt, P, |P| - 2, j);
      NewPointDim(sqrt, P, j + 2, nc);
    }
  }

  /**
   * The printed points: as many as were read, the first and the last exactly
   * as read, all of the input dimension.
   */
  lemma OutputDims(sqrt: real -> real, P: Path, nc: nat)
    requires IsSqrt(sqrt) && |P| >= 1 && OutputPoints(sqrt, P).Some?
    requires forall p :: 0 <= p < |P| ==> |P[p]| == nc
    ensures var out := OutputPoints(sqrt, P).value;
      |out| == |P| && out[0] == P[0] && out[|P| - 1] == P[|P| - 1] &&
      forall q :: 0 <= q < |out| ==> |out[q]| == nc
  {
    var out := OutputPoints(sqrt, P).value;
    forall q | 0 <= q < |out|
      ensures |out[q]| == nc
    {
      OutputRowDim(sqrt, P, nc, q);
    }
  }

  /** A header without two integers: exit code 1, one diagnostic, nothing printed. */
  lemma HeaderFailure(sqrt: real -> real, garbage: (int, int) -> real, lines: seq<String>)
    requires IsSqrt(sqrt) && |lines| > 0 && ScanTwoInts(lines[0]).0 != 2
    ensures RepOutcome(sqrt, garbage, lines) == Exit(1, [], [HeaderError])
  {
  }

  /**
   * A run that gets past the header and exits normally prints numpoints *
   * max(numcvs, 0) values, point-major, no diagnostic, with both endpoints as
   * read from their lines.
   */
  lemma ExitShape(sqrt: real -> real, garbage: (int, int) -> real, lines: seq<String>, np: nat, nc: nat)
    requires IsSqrt(sqrt) && |lines| > 0
    requires ScanTwoInts(lines[0]).0 == 2 && ScanTwoInts(lines[0]).1 == np && Width(ScanTwoInts(lines[0]).2) == nc
    requires RepOutcome(sqrt, garbage, lines).Exit?
    ensures RepOutcome(sqrt, garbage, lines).code == 0 && RepOutcome(sqrt, garbage, lines).stderr == []
    ensures np >= 1 && |RepOutcome(sqrt, garbage, lines).stdout| == np * nc
    ensures nc <= (np - 1) * nc + nc == |RepOutcome(sqrt, garbage, lines).stdout|
    ensures RepOutcome(sqrt, garbage, lines).stdout[..nc] == InputRow(lines, garbage, nc, 0)
    ensures RepOutcome(sqrt, garbage, lines).stdout[(np - 1) * nc..] == InputRow(lines, garbage, nc, np - 1)
  {
    var P := InputPoints(lines, garbage, np, nc);
    var out := OutputPoints(sqrt, P).value;
    var o := RepOutcome(sqrt, garbage, lines);
    assert o.stdout == Flatten(out);
    OutputDims(sqrt, P, nc);
    FlattenFirst(out, nc);
    FlattenLast(out, nc);
  }

  /** Slot j of the C output is slot j of the Python output. */
  lemma AgreesAt(sqrt: real -> real, P: Path, j: int)
    requires IsSqrt(sqrt) && |P| >= 3 && L(sqrt, P, |P| - 1) > 0.0 && 0 <= j < |P|
    requires RepPtsSpec(sqrt, P).Ok?
    ensures |RepPtsSpec(sqrt, P).value| == |P|
    ensures OutputPoints(sqrt, P).value[j] == RepPtsSpec(sqrt, P).value[j]
  {
    RepPtsShape(sqrt, P);
    if 1 <= j <= |P| - 2 {
      AgreesInside(sqrt, P, j);
    }
  }

  /** An interior printed point is the point `rep_pts` computes there. */
  lemma AgreesInside(sqrt: real -> real, P: Path, j: int)
    requires IsSqrt(sqrt) && |P| >= 3 && L(sqrt, P, |P| - 1) > 0.0 && 1 <= j <= |P| - 2
    requires RepPtsSpec(sqrt, P).Ok?
    ensures OutputPoints(sqrt, P).Some? && |OutputPoints(sqrt, P).value| == |P|
    ensures OutputPoints(sqrt, P).value[j] == RepPtsSpec(sqrt, P).value[j]
  {
    RepPtsAt(sqrt, P, j);
    NewPointCFound(sqrt, P, j + 1);
    OutputInteriorAt(sqrt, P, j);
  }

  /**
   * rep.cc and `rep_pts` agree on every path of two or more points: the C
   * program has undefined behaviour exactly where Python raises, and
   * otherwise prints the points Python returns.
   */
  lemma AgreesWithPython(sqrt: real -> real, P: Path)
    requires IsSqrt(sqrt) && |P| >= 2
    ensures OutputPoints(sqrt, P).None? <==> RepPtsSpec(sqrt, P).Err?
    ensures OutputPoints(sqrt, P).Some? ==> OutputPoints(sqrt, P).value == RepPtsSpec(sqrt, P).value
  {
    RepPtsErrors(sqrt, P);
    if |P| >= 3 && L(sqrt, P, |P| - 1) > 0.0 {
      var c := OutputPoints(sqrt, P).value;
      var py := RepPtsSpec(sqrt, P).value;
      RepPtsShape(sqrt, P);
      forall j | 0 <= j < |P|
        ensures c[j] == py[j]
      {
        AgreesAt(sqrt, P, j);
      }
    }
  }

  // ---------------------------------------------------------------- the program

  lemma MiddleAt<T>(first: T, middle: seq<T>, last: T, p: int)
    requires 0 < p <= |middle|
    ensures ([first] + middle + [last])[p] == middle[p - 1]
  {
  }

  /** Rows holding the endpoints of P around the interior rows done hold the assembled path. */
  lemma RowsAssembled(a: array<array<real>>, P: Path, done: seq<Point>, nc: nat)
    requires a.Length == |P| >= 3 && |done| == |P| - 2
    requires a[0].Length == nc && a[0][..] == P[0]
    requires a[|P| - 1].Length == nc && a[|P| - 1][..] == P[|P| - 1]
    requires forall j :: 0 <= j < |done| ==> |done[j]| == nc
    requires forall j :: 1 <= j < |P| - 1 ==> a[j][..] == done[j - 1]
    ensures RowsAre(a, [P[0]] + done + [P[|P| - 1]], nc)
  {
    var out := [P[0]] + done + [P[|P| - 1]];
    forall p | 0 <= p < |P|
      ensures a[p].Length == nc && a[p][..] == out[p]
    {
      if 0 < p < |P| - 1 {
        MiddleAt(P[0], done, P[|P| - 1], p);
        assert |a[p][..]| == nc;
      }
    }
  }

  /** `a` holds the rows of P, each of length nc. */
  predicate RowsAre(a: array<array<real>>, P: Path, nc: nat)
    reads a, a[..]
  {
    a.Length == |P| && forall p :: 0 <= p < |P| ==> a[p].Length == nc && a[p][..] == P[p]
  }

  /** `dist`: the square root of the summed squared differences over numcvs coordinates. */
  method DistC(sqrt: real -> real, v1: array<real>, v2: array<real>, nc: nat) returns (d: real)
    requires IsSqrt(sqrt) && v1.Length == nc && v2.Length == nc
    ensures d == Dist(sqrt, v1[..], v2[..])
  {
    var sum2 := 0.0;
    for x := 0 to nc
      invariant sum2 == SqDistUpTo(v1[..], v2[..], x)
    {
      var s := v2[x] - v1[x];
      sum2 := sum2 + s * s;
    }
    return sqrt(sum2);
  }

  /** `rep_L(n, path)`: the sentinel 1 for n == 0, else the first n - 1 segment lengths. */
  method RepL(sqrt: real -> real, n: int, path: array<array<real>>, ghost P: Path, nc: nat)
    returns (len: real)
    requires IsSqrt(sqrt) && RowsAre(path, P, nc) && 0 <= n <= |P|
    ensures len == L(sqrt, P, n)
  {
    if n == 0 {
      return 1.0;
    }
    len := 0.0;
    for i := 0 to n - 1
      invariant len == Segments(sqrt, P, i)
    {
      var d := DistC(sqrt, path[i], path[i + 1], nc);
      len := len + d;
    }
  }

  /** `rep_s(m, path)`: (m - 1) * rep_L(R) / (R - 1) with R = numpoints - 1. */
  method RepS(sqrt: real -> real, m: int, path: array<array<real>>, ghost P: Path, nc: nat)
    returns (s: real)
    requires IsSqrt(sqrt) && RowsAre(path, P, nc) && |P| >= 3
    ensures s == S(sqrt, P, m)
  {
    var R := path.Length - 1;
    var l := RepL(sqrt, R, path, P, nc);
    s := (m - 1) as real * l / (R - 1) as real;
  }

  /** `dir(v1, v2, normed)`: writes the direction into `normed`; says whether it printed the diagnostic. */
  method DirM(sqrt: real -> real, v1: array<real>, v2: array<real>, normed: array<real>, nc: nat)
    returns (warned: bool)
    requires IsSqrt(sqrt) && v1.Length == nc && v2.Length == nc && normed.Length == nc
    requires normed != v1 && normed != v2
    modifies normed
    ensures normed[..] == DirC(sqrt, v1[..], v2[..]).0 && warned == DirC(sqrt, v1[..], v2[..]).1
  {
    var d := DistC(sqrt, v1, v2, nc);
    warned := false;
    if d == 0.0 {
      warned := true;
      d := ZeroDistance;
    }
    for i := 0 to nc
      invariant forall j :: 0 <= j < i ==> normed[j] == (v2[j] - v1[j]) / d
    {
      normed[i] := (v2[i] - v1[i]) / d;
    }
  }

  /**
   * The do-while loop: k goes up from 2 while `rep_L(k-1) >= s(i) || s(i) > rep_L(k)`.
   * Returns numpoints + 1 where the next rep_L call would index past the path.
   */
  method SearchKC(sqrt: real -> real, points: array<array<real>>, ghost P: Path, nc: nat, i: int)
    returns (k: int, lkm1: real, si: real)
    requires IsSqrt(sqrt) && RowsAre(points, P, nc) && |P| >= 3 && 2 <= i < |P|
    ensures k == SegmentC(sqrt, P, i) && si == S(sqrt, P, i)
    ensures k <= |P| ==> lkm1 == L(sqrt, P, k - 1)
  {
    lkm1, si := 0.0, 0.0;
    k := 1;
    ghost var s := S(sqrt, P, i);
    while true
      invariant 1 <= k <= |P|
      invariant FirstBracket(sqrt, P, s, 2) == FirstBracket(sqrt, P, s, k + 1)
      decreases |P| - k
    {
      k := k + 1;
      var stop;
      stop, lkm1, si := SearchStepC(sqrt, points, P, nc, i, k);
      if stop {
        break;
      }
      FirstBracketSkip(sqrt, P, s, k);
    }
  }

  /**
   * One pass of the do-while body for candidate k: whether the loop stops
   * there, because segment k brackets s(i) or because the next rep_L call
   * would index past the path.
   */
  method SearchStepC(sqrt: real -> real, points: array<array<real>>, ghost P: Path, nc: nat, i: int, k: int)
    returns (stop: bool, lkm1: real, si: real)
    requires IsSqrt(sqrt) && RowsAre(points, P, nc) && |P| >= 3 && 2 <= k <= |P| + 1
    ensures stop <==> k > |P| || Brackets(sqrt, P, S(sqrt, P, i), k)
    ensures lkm1 == L(sqrt, P, k - 1) && si == S(sqrt, P, i)
  {
    lkm1 := RepL(sqrt, k - 1, points, P, nc);
    si := RepS(sqrt, i, points, P, nc);
    if lkm1 < si {
      if k > points.Length {
        // rep_L(k) indexes past the path
        return true, lkm1, si;
      }
      var lk := RepL(sqrt, k, points, P, nc);
      stop := si <= lk;
    } else {
      // past the path the next rep_L(k - 1) would index out of bounds
      stop := k > points.Length;
    }
  }

  /** `reppt[x] = inppt[x] + v[x] * scalefactor` for every coordinate, into a fresh row. */
  method AddScaled(inppt: array<real>, v: array<real>, scalefactor: real) returns (reppt: array<real>)
    requires inppt.Length == v.Length
    ensures fresh(reppt) && reppt[..] == MapAdd(inppt[..], Scale(scalefactor, v[..]))
  {
    var nc := v.Length;
    reppt := new real[nc];
    for x := 0 to nc
      invariant forall y :: 0 <= y < x ==> reppt[y] == inppt[y] + v[y] * scalefactor
      modifies reppt
    {
      reppt[x] := inppt[x] + v[x] * scalefactor;
    }
    ghost var np := MapAdd(inppt[..], Scale(scalefactor, v[..]));
    forall y | 0 <= y < nc
      ensures reppt[y] == np[y]
    {
      assert v[y] * scalefactor == scalefactor * v[y];
    }
  }

  /** The loop body for index i: search, `dir`, then the new point on a fresh row. */
  method InterpolateC(sqrt: real -> real, points: array<array<real>>, ghost P: Path, nc: nat, i: int)
    returns (ub: bool, reppt: array<real>, warned: bool)
    requires IsSqrt(sqrt) && RowsAre(points, P, nc) && |P| >= 3 && 2 <= i < |P|
    ensures ub <==> NewPointC(sqrt, P, i).None?
    ensures !ub ==> fresh(reppt) && reppt[..] == NewPointC(sqrt, P, i).value
    ensures !ub ==> warned == WarnsC(sqrt, P, i)
  {
    var k, lkm1, si := SearchKC(sqrt, points, P, nc, i);
    if k > points.Length {
      return true, points[0], false;
    }
    ghost var p, q := P[k - 2], P[k - 1];
    assert points[k - 2][..] == p && points[k - 1][..] == q;
    var v := new real[nc];
    warned := DirM(sqrt, points[k - 2], points[k - 1], v, nc);
    var scalefactor := si - lkm1;
    reppt := AddScaled(points[k - 2], v, scalefactor);
    NewPointCAt(sqrt, P, i, k, scalefactor, v[..]);
    return false, reppt, warned;
  }

  /** Reading the coordinates: numpoints rows, one `fgets` and `sscanf("%f")` per coordinate. */
  method ReadPoints(lines: seq<String>, garbage: (int, int) -> real, np: nat, nc: nat)
    returns (points: array<array<real>>)
    requires |lines| > 0
    ensures fresh(points) && RowsAre(points, InputPoints(lines, garbage, np, nc), nc)
  {
    var none := new real[0];
    points := new array<real>[np](_ => none);
    // the number of fgets calls made so far, the header included
    var next := 1;
    for p := 0 to np
      invariant next == 1 + p * nc
      invariant forall q :: 0 <= q < p ==> points[q].Length == nc && points[q][..] == InputRow(lines, garbage, nc, q)
      invariant forall q :: 0 <= q < p ==> fresh(points[q])
    {
      var row := ReadRow(lines, garbage, nc, p, next);
      points[p] := row;
      next := next + nc;
    }
  }

  /** Point p: numcvs lines, each scanned into a fresh row. */
  method ReadRow(lines: seq<String>, garbage: (int, int) -> real, nc: nat, p: nat, next: nat)
    returns (row: array<real>)
    requires |lines| > 0 && next == 1 + p * nc
    ensures fresh(row) && row[..] == InputRow(lines, garbage, nc, p)
  {
    // the row comes from malloc: a slot no line sets keeps what the allocation held
    row := new real[nc](c => garbage(p, c));
    ghost var expected := InputRow(lines, garbage, nc, p);
    for c := 0 to nc
      invariant row[..c] == expected[..c]
      invariant forall d :: c <= d < nc ==> row[d] == garbage(p, d)
    {
      var j := next + c;
      CoordLine(lines, garbage, nc, p, c, j);
      var buf := Fgets(lines, j);
      var scanned := ScanFloat(buf);
      if scanned.Some? {
        row[c] := scanned.value;
      }
      assert row[c] == expected[c];
      assert row[..c + 1] == row[..c] + [row[c]];
    }
    assert row[..] == row[..nc];
  }

  /**
   * The reparametrization loop.  `adjusted[0]` and `adjusted[numpoints-1]`
   * are the input rows themselves; each slot 1 .. numpoints-2 receives one
   * freshly allocated row; no diagnostic is printed.
   */
  method AdjustPoints(sqrt: real -> real, points: array<array<real>>, ghost P: Path, nc: nat)
    returns (ub: bool, adjusted: array<array<real>>, stderr: seq<String>)
    requires IsSqrt(sqrt) && RowsAre(points, P, nc) && |P| >= 1
    ensures ub <==> OutputPoints(sqrt, P).None?
    ensures !ub ==> fresh(adjusted) && RowsAre(adjusted, OutputPoints(sqrt, P).value, nc) && stderr == []
    ensures !ub ==> adjusted[0] == points[0] && adjusted[adjusted.Length - 1] == points[points.Length - 1]
  {
    var np := points.Length;
    var p0 := points[0];
    adjusted := new array<real>[np](_ => p0);
    adjusted[0] := points[0];
    adjusted[np - 1] := points[np - 1];
    stderr := [];
    if np < 3 {
      // the loop `for (i = 2; i < numpoints; i++)` does not run
      ShortPathRows(sqrt, adjusted, points, P, nc);
      return false, adjusted, stderr;
    }
    ghost var done;
    ub, stderr, done := InteriorLoop(sqrt, points, P, nc, adjusted);
    if ub {
      return true, adjusted, stderr;
    }
    LongPathRows(sqrt, adjusted, points, P, nc, done);
    return false, adjusted, stderr;
  }

  /** With fewer than three points the output rows are the input rows. */
  lemma ShortPathRows(sqrt: real -> real, a: array<array<real>>, points: array<array<real>>, P: Path, nc: nat)
    requires IsSqrt(sqrt) && RowsAre(points, P, nc) && 1 <= |P| < 3
    requires a.Length == |P| && a[0] == points[0] && a[|P| - 1] == points[|P| - 1]
    ensures OutputPoints(sqrt, P) == Some(P) && RowsAre(a, P, nc)
  {
    if |P| == 1 {
      assert [P[0]] == P;
    }
  }

  /** The endpoint rows and the interior rows the loop filled hold the output path. */
  lemma LongPathRows(sqrt: real -> real, a: array<array<real>>, points: array<array<real>>, P: Path, nc: nat,
                     done: seq<Point>)
    requires IsSqrt(sqrt) && RowsAre(points, P, nc) && |P| >= 3 && L(sqrt, P, |P| - 1) > 0.0
    requires done == InteriorC(sqrt, P, |P| - 2)
    requires a.Length == |P| && a[0] == points[0] && a[|P| - 1] == points[|P| - 1]
    requires forall j :: 1 <= j < |P| - 1 ==> a[j][..] == done[j - 1]
    ensures OutputPoints(sqrt, P).Some? && RowsAre(a, OutputPoints(sqrt, P).value, nc)
  {
    OutputAssembled(sqrt, P, nc, done);
    RowsAssembled(a, P, done, nc);
  }

  /**
   * `for (i = 2; i < numpoints; i++)`: slot i - 1 of `adjusted` receives the
   * point computed for i, until a search runs past the path.
   */
  method InteriorLoop(sqrt: real -> real, points: array<array<real>>, ghost P: Path, nc: nat,
                      adjusted: array<array<real>>)
    returns (ub: bool, stderr: seq<String>, ghost done: seq<Point>)
    requires IsSqrt(sqrt) && RowsAre(points, P, nc) && |P| >= 3
    requires adjusted.Length == |P| && adjusted != points
    modifies adjusted
    ensures ub <==> L(sqrt, P, |P| - 1) == 0.0
    ensures adjusted[0] == old(adjusted[0]) && adjusted[|P| - 1] == old(adjusted[|P| - 1])
    ensures !ub ==> stderr == [] && done == InteriorC(sqrt, P, |P| - 2)
    ensures !ub ==> forall j :: 1 <= j < |P| - 1 ==> adjusted[j][..] == done[j - 1]
  {
    var np := points.Length;
    stderr := [];
    done := InteriorC(sqrt, P, np - 2);
    var i := 2;
    while i < np
      invariant 2 <= i <= np
      invariant adjusted[0] == old(adjusted[0]) && adjusted[np - 1] == old(adjusted[np - 1])
      invariant RowsAre(points, P, nc)
      invariant i > 2 ==> L(sqrt, P, np - 1) > 0.0
      invariant forall j :: 1 <= j < i - 1 ==> adjusted[j][..] == done[j - 1]
      invariant stderr == []
      modifies adjusted
    {
      var u, warned := InteriorStep(sqrt, points, P, nc, adjusted, i, done);
      if u {
        return true, stderr, done;
      }
      if warned {
        stderr := stderr + [DirWarning];
      }
      i := i + 1;
    }
    return false, stderr, done;
  }

  /** One pass of the loop body: slot i - 1 receives the point computed for i, unless the search runs past the path. */
  method InteriorStep(sqrt: real -> real, points: array<array<real>>, ghost P: Path, nc: nat,
                      adjusted: array<array<real>>, i: int, ghost done: seq<Point>)
    returns (ub: bool, warned: bool)
    requires IsSqrt(sqrt) && RowsAre(points, P, nc) && |P| >= 3 && 2 <= i < |P|
    requires adjusted.Length == |P| && adjusted != points
    requires done == InteriorC(sqrt, P, |P| - 2)
    modifies adjusted
    ensures ub <==> L(sqrt, P, |P| - 1) == 0.0
    ensures ub ==> adjusted[..] == old(adjusted[..])
    ensures !ub ==> !warned && adjusted[..] == old(adjusted[..])[i - 1 := adjusted[i - 1]]
    ensures !ub ==> adjusted[i - 1][..] == done[i - 2]
  {
    var reppt;
    ub, reppt, warned := InterpolateC(sqrt, points, P, nc, i);
    StepFacts(sqrt, P, i);
    if !ub {
      InteriorAt(sqrt, P, |P| - 2, i - 2);
      adjusted[i - 1] := reppt;
    }
  }

  /** The output loops: `printf("%f\n")` for every coordinate, point-major. */
  method WriteOutput(adjusted: array<array<real>>, ghost out: seq<Point>, nc: nat) returns (stdout: seq<real>)
    requires RowsAre(adjusted, out, nc)
    ensures stdout == Flatten(out)
  {
    stdout := [];
    for p := 0 to adjusted.Length
      invariant stdout == Flatten(out[..p])
    {
      var adjpoint := adjusted[p];
      for c := 0 to nc
        invariant stdout == Flatten(out[..p]) + adjpoint[..c]
      {
        stdout := stdout + [adjpoint[c]];
      }
      assert out[..p + 1][..p] == out[..p];
      assert adjpoint[..nc] == out[p];
    }
    assert out[..adjusted.Length] == out;
  }

  /** `main`: header, points, reparametrization, output. */
  method Run(sqrt: real -> real, garbage: (int, int) -> real, lines: seq<String>) returns (o: Outcome)
    requires IsSqrt(sqrt)
    ensures o == RepOutcome(sqrt, garbage, lines)
  {
    if |lines| == 0 {
      // fgets fails and sscanf reads the uninitialised buffer
      return Undefined;
    }
    var hdr := ScanTwoInts(lines[0]);
    if hdr.0 != 2 {
      return Exit(1, [], [HeaderError]);
    }
    var numpoints, numcvs := hdr.1, hdr.2;
    if numpoints <= 0 {
      // adjusted[0] = points[0] reads past an empty allocation
      return Undefined;
    }
    var nc := Width(numcvs);
    var points := ReadPoints(lines, garbage, numpoints, nc);
    ghost var P := InputPoints(lines, garbage, numpoints, nc);
    var ub, adjusted, stderr := AdjustPoints(sqrt, points, P, nc);
    if ub {
      return Undefined;
    }
    var stdout := WriteOutput(adjusted, OutputPoints(sqrt, P).value, nc);
    return Exit(0, stdout, stderr);
  }
}
