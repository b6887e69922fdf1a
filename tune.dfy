/**
 * The integer part of the GROMACS run tuner (cpc/lib/gromacs/tune.py):
 * trial-division factorisation, and the search for a core count that is
 * at most 4, equal to 6, or below 32 with at least three prime factors.
 */
module Tune {

  // ---------------------------------------------------------------- primes

  /** `e` divides `x`. */
  predicate Divides(e: int, x: int) {
    e != 0 && x % e == 0
  }

  predicate IsPrime(p: int) {
    p >= 2 && forall e :: 2 <= e < p ==> !Divides(e, p)
  }

  /** No number in [2, d) divides x. */
  predicate NoFactorBelow(x: int, d: int) {
    forall e :: 2 <= e < d ==> !Divides(e, x)
  }

  function Product(s: seq<int>): int {
    if |s| == 0 then 1 else s[0] * Product(s[1..])
  }

  predicate NonDecreasing(s: seq<int>) {
    forall i, j :: 0 <= i < j < |s| ==> s[i] <= s[j]
  }

  lemma DivideBelow(x: int, d: int)
    requires 2 <= d <= x
    ensures 1 <= x / d < x
  {
    assert x / d * d + x % d == x;
    assert x / d * 2 <= x / d * d;
  }

  lemma MulAtLeast(e: int, a: int)
    requires e > 0 && a >= 1
    ensures e * a >= e
  {
    assert e * a == e * (a - 1) + e;
    assert e * (a - 1) >= 0;
  }

  /** Quotient and remainder are determined by x == e * q + r with 0 <= r < e. */
  lemma DivModUnique(x: int, e: int, q: int, r: int)
    requires e > 0 && x == e * q + r && 0 <= r < e
    ensures x % e == r && x / e == q
  {
    var q', r' := x / e, x % e;
    assert e * q' + r' == x;
    assert e * (q' - q) == r - r';
    if q' - q >= 1 {
      MulAtLeast(e, q' - q);
    } else if q - q' >= 1 {
      MulAtLeast(e, q - q');
    }
  }

  /** Divisibility is transitive. */
  lemma DividesTrans(e: int, d: int, x: int)
    requires e > 0 && d > 0 && Divides(d, x) && Divides(e, d)
    ensures Divides(e, x)
  {
    var q, r := x / d, d / e;
    assert x == d * q;
    assert d == e * r;
    assert x == e * (r * q);
    DivModUnique(x, e, r * q, 0);
  }

  /** A divisor of x/d divides x. */
  lemma DividesQuotient(e: int, d: int, x: int)
    requires e > 0 && d > 0 && Divides(d, x) && Divides(e, x / d)
    ensures Divides(e, x)
  {
    var q := x / d;
    var t := q / e;
    assert x == d * q;
    assert q == e * t;
    assert x == e * (d * t);
    DivModUnique(x, e, d * t, 0);
  }

  /**
   * What the trial division loop produces from the state (x, d): each step
   * either takes out the factor d or moves on to d + 1.
   */
  function FactorsFrom(x: int, d: int): (r: seq<int>)
    requires d >= 2
    decreases x - d
  {
    if d > x then []
    else if x % d == 0 then
      DivideBelow(x, d);
      [d] + FactorsFrom(x / d, d)
    else FactorsFrom(x, d + 1)
  }

  /** Primes, all at least d, in non-decreasing order. */
  predicate PrimesFrom(s: seq<int>, d: int) {
    NonDecreasing(s) && forall i :: 0 <= i < |s| ==> IsPrime(s[i]) && s[i] >= d
  }

  /**
   * The smallest divisor of x that is at least 2 is prime, and no number
   * below it divides the quotient either.
   */
  lemma SmallestDivisor(x: int, d: int)
    requires 2 <= d <= x && x % d == 0 && NoFactorBelow(x, d)
    ensures IsPrime(d) && x / d >= 1 && NoFactorBelow(x / d, d) && x == d * (x / d)
  {
    DivideBelow(x, d);
    forall e | 2 <= e < d ensures !Divides(e, x / d) {
      if Divides(e, x / d) {
        DividesQuotient(e, d, x);
      }
    }
    forall e | 2 <= e < d ensures !Divides(e, d) {
      if Divides(e, d) {
        DividesTrans(e, d, x);
      }
    }
  }

  lemma ConsPrime(d: int, rest: seq<int>)
    requires IsPrime(d) && PrimesFrom(rest, d)
    ensures PrimesFrom([d] + rest, d) && Product([d] + rest) == d * Product(rest)
  {
    var r := [d] + rest;
    assert r[1..] == rest;
    forall i, j | 0 <= i < j < |r| ensures r[i] <= r[j] {
      assert r[j] == rest[j - 1];
      if i > 0 {
        assert r[i] == rest[i - 1];
      }
    }
    forall i | 0 <= i < |r| ensures IsPrime(r[i]) && r[i] >= d {
      if i > 0 {
        assert r[i] == rest[i - 1];
      }
    }
  }

  /**
   * From a state where no number below d divides x, the loop produces
   * non-decreasing primes, all at least d, whose product is x.
   */
  lemma {:induction false} FactorsFromCorrect(x: int, d: int)
    requires d >= 2 && x >= 1 && NoFactorBelow(x, d)
    ensures Product(FactorsFrom(x, d)) == x
    ensures PrimesFrom(FactorsFrom(x, d), d)
    decreases x - d
  {
    if d > x {
      if x >= 2 {
        assert Divides(x, x);
        assert false;
      }
    } else if x % d == 0 {
      SmallestDivisor(x, d);
      FactorsFromCorrect(x / d, d);
      ConsPrime(d, FactorsFrom(x / d, d));
    } else {
      assert !Divides(d, x);
      FactorsFromCorrect(x, d + 1);
      var r := FactorsFrom(x, d + 1);
      assert forall i :: 0 <= i < |r| ==> r[i] >= d + 1;
    }
  }

  /**
   * primefactors(x): the prime factors of x with multiplicity, smallest
   * first, whose product is x; nothing for x < 2.
   */
  method PrimeFactors(x: int) returns (factorlist: seq<int>)
    ensures factorlist == FactorsFrom(x, 2)
    ensures x < 2 ==> factorlist == []
    ensures x >= 2 ==> Product(factorlist) == x
    ensures PrimesFrom(factorlist, 2)
  {
    if x >= 1 {
      FactorsFromCorrect(x, 2);
    }
    factorlist := [];
    var y, loop := x, 2;
    while loop <= y
      invariant loop >= 2
      invariant factorlist + FactorsFrom(y, loop) == FactorsFrom(x, 2)
      decreases y - loop
    {
      if y % loop == 0 {
        TakeFactor(y, loop);
        y := y / loop;
        factorlist := factorlist + [loop];
      } else {
        SkipCandidate(y, loop);
        loop := loop + 1;
      }
    }
    assert factorlist + [] == factorlist;
  }

  lemma TakeFactor(y: int, d: int)
    requires 2 <= d <= y && y % d == 0
    ensures FactorsFrom(y, d) == [d] + FactorsFrom(y / d, d) && 1 <= y / d < y
  {
    DivideBelow(y, d);
  }

  lemma SkipCandidate(y: int, d: int)
    requires 2 <= d <= y && y % d != 0
    ensures FactorsFrom(y, d) == FactorsFrom(y, d + 1)
  {
  }

  // ---------------------------------------------------------------- core count

  /**
   * The values the search accepts: at most 4, exactly 6, or below 32 with
   * more than two prime factors counted with multiplicity.  The source's
   * further clause "below 32 with more than three" adds nothing.
   */
  ghost predicate Acceptable(n: int) {
    n < 5 || n == 6 || (n < 32 && |FactorsFrom(n, 2)| > 2)
  }

  /**
   * The loop of tune (lines 84-91): counting down from `start`, the first
   * acceptable value.
   */
  method SearchCores(start: int) returns (nmax: int)
    ensures nmax <= start && Acceptable(nmax)
    ensures forall v :: nmax < v <= start ==> !Acceptable(v)
    ensures nmax < 32
    ensures start >= 6 ==> nmax >= 6
  {
    nmax := start;
    while true
      invariant nmax <= start
      invariant forall v :: nmax < v <= start ==> !Acceptable(v)
      invariant start >= 6 ==> nmax >= 6
      decreases nmax
    {
      var f := PrimeFactors(nmax);
      if nmax < 5 || nmax == 6 || (nmax < 32 && |f| > 2) || (nmax < 32 && |f| > 3) {
        break;
      }
      nmax := nmax - 1;
    }
  }

  /** Python 2 `int(r)` on a float: truncation toward zero. */
  function Trunc(r: real): (n: int)
    ensures r >= 0.0 ==> n as real <= r < n as real + 1.0
    ensures r < 0.0 ==> n as real - 1.0 < r <= n as real
  {
    if r >= 0.0 then r.Floor else -((-r).Floor)
  }

  /** The smallest cell edge, in nm. */
  const MinCellSize: real := 1.2

  /** The number of cells of the box `sx` x `sy` x `sz`: one per cell edge in each direction. */
  function Cells(sx: real, sy: real, sz: real): int {
    Trunc(sx / MinCellSize) * Trunc(sy / MinCellSize) * Trunc(sz / MinCellSize)
  }

  /**
   * The cell count as tune.py computes it from the split last line of the
   * configuration file: all three edges are read from its first field.
   */
  function CellsAsWritten(lastFields: seq<real>): int
    requires |lastFields| >= 1
  {
    Cells(lastFields[0], lastFields[0], lastFields[0])
  }

  /** The cell count from the three box edges of the last line. */
  function BoxCells(lastFields: seq<real>): int
    requires |lastFields| >= 3
  {
    Cells(lastFields[0], lastFields[1], lastFields[2])
  }

  /** The volume of one cell. */
  const CellVolume: real := MinCellSize * MinCellSize * MinCellSize

  lemma MulLe(p: real, q: real, r: real, t: real)
    requires 0.0 <= p <= q && 0.0 <= r <= t
    ensures p * r <= q * t
  {
    assert p * r <= q * r;
    assert q * r <= q * t;
  }

  /** The cells counted along the three edges fit in the box: count times cell volume is at most its volume. */
  lemma CellsFitInBox(sx: real, sy: real, sz: real)
    requires sx >= 0.0 && sy >= 0.0 && sz >= 0.0
    ensures (Cells(sx, sy, sz) as real) * CellVolume <= sx * sy * sz
  {
    var a, b, c := Trunc(sx / MinCellSize), Trunc(sy / MinCellSize), Trunc(sz / MinCellSize);
    var ea, eb, ec := a as real * MinCellSize, b as real * MinCellSize, c as real * MinCellSize;
    assert 0.0 <= ea <= sx && 0.0 <= eb <= sy && 0.0 <= ec <= sz;
    MulLe(ea, sx, eb, sy);
    MulLe(ea * eb, sx * sy, ec, sz);
    assert (a * b * c) as real == a as real * b as real * c as real;
    assert (Cells(sx, sy, sz) as real) * CellVolume == ea * eb * ec;
  }

  /** The box cell count keeps that property for every box. */
  lemma BoxCellsFit(lastFields: seq<real>)
    requires |lastFields| >= 3 && lastFields[0] >= 0.0 && lastFields[1] >= 0.0 && lastFields[2] >= 0.0
    ensures (BoxCells(lastFields) as real) * CellVolume <= lastFields[0] * lastFields[1] * lastFields[2]
  {
    CellsFitInBox(lastFields[0], lastFields[1], lastFields[2]);
  }

  /**
   * A 13 x 3 x 3 nm box: the code counts 10 x 10 x 10 cells where the box
   * holds 10 x 2 x 2, more cells than fit in the box.
   */
  lemma CellsAsWrittenExample()
    ensures CellsAsWritten([13.0, 3.0, 3.0]) == 1000
    ensures (CellsAsWritten([13.0, 3.0, 3.0]) as real) * CellVolume > 13.0 * 3.0 * 3.0
    ensures BoxCells([13.0, 3.0, 3.0]) == 40
  {
    assert Trunc(13.0 / MinCellSize) == 10 by {
      assert 13.0 / MinCellSize == 130.0 / 12.0;
    }
    assert Trunc(3.0 / MinCellSize) == 2 by {
      assert 3.0 / MinCellSize == 2.5;
    }
  }

  /** The two settings tune makes on its resources argument: min cores and max cores. */
  datatype CoreLimits = CoreLimits(minCores: int, maxCores: int)

  /**
   * tune from the particle count `n` (second line of the configuration
   * file) and the fields of its last line, as written: the cell count takes
   * all three edges from the first field, then at most one core per cell and
   * one per 250 particles, reduced to the first acceptable value.
   */
  method TuneCores(n: int, lastFields: seq<real>) returns (r: CoreLimits)
    requires |lastFields| >= 1
    ensures r.minCores == 1
    ensures r.maxCores <= CellsAsWritten(lastFields) && r.maxCores <= n / 250
    ensures Acceptable(r.maxCores)
    ensures forall v :: r.maxCores < v <= CellsAsWritten(lastFields) && v <= n / 250 ==> !Acceptable(v)
  {
    var nsize := CellsAsWritten(lastFields);
    var nn := n / 250;
    var start := if nsize < nn then nsize else nn;
    var nmax := SearchCores(start);
    r := CoreLimits(1, nmax);
  }

  /**
   * tune with the cell count taken from the three box edges of the last
   * line, so that the cores it allows fit in the box (BoxCellsFit).
   */
  method TuneCoresCorrected(n: int, lastFields: seq<real>) returns (r: CoreLimits)
    requires |lastFields| >= 3
    ensures r.minCores == 1
    ensures r.maxCores <= BoxCells(lastFields) && r.maxCores <= n / 250
    ensures Acceptable(r.maxCores)
    ensures forall v :: r.maxCores < v <= BoxCells(lastFields) && v <= n / 250 ==> !Acceptable(v)
  {
    var nsize := BoxCells(lastFields);
    var nn := n / 250;
    var start := if nsize < nn then nsize else nn;
    var nmax := SearchCores(start);
    r := CoreLimits(1, nmax);
  }
}
