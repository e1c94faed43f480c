/**
 * Integer geometry shared by the two grid sources (MergedGridSource and
 * FRAGridSource carry identical copies of it): the per-level cell
 * dimension planner, the centring translation of a source inside its
 * cell, the extent of the mosaic, and the decomposition of a mosaic
 * location into a cell index and a local coordinate.
 */
module GridGeometry {
  import opened Common

  function Abs(a: int): nat { if a < 0 then -a else a }

  /** Java's integer `/`, and `(long)` of a double quotient: rounds toward zero. */
  function TruncDiv(a: int, b: int): int
    requires b != 0
  {
    if (a >= 0) == (b > 0) then Abs(a) / Abs(b) else -(Abs(a) / Abs(b))
  }

  /** Java's integer `%`: the remainder that goes with TruncDiv. */
  function TruncRem(a: int, b: int): int
    requires b != 0
  {
    a - b * TruncDiv(a, b)
  }

  lemma TruncDivOfMultiple(q: int, b: int)
    requires b > 0
    ensures TruncDiv(q * b, b) == q
  {
    if q >= 0 {
      DivUnique(q * b, b, q, 0);
    } else {
      assert Abs(q * b) == (-q) * b;
      DivUnique((-q) * b, b, -q, 0);
    }
  }

  /** `Math.ceil(a / p)` for a positive integer divisor. */
  function CeilDiv(a: int, p: int): int
    requires p > 0
  {
    -((-a) / p)
  }

  /** `p * Math.ceil(a / p)`: the least multiple of p that is at least a. */
  function RoundUpToMultiple(a: int, p: int): (r: int)
    requires p > 0
    ensures r % p == 0
    ensures a <= r < a + p
  {
    var q := (-a) / p;
    assert -a == q * p + (-a) % p;
    DivUnique(p * -q, p, -q, 0);
    p * -q
  }

  /**
   * A relative cell margin `num / den`. The Java field is a double; every
   * double is such a fraction.
   */
  datatype Margin = Margin(num: int, den: int)

  const NoMargin := Margin(0, 1)

  /** `(int) (n * (1 + 2.0 * margin))`: the cell size inflated by the margin on both sides. */
  function Inflate(n: int, margin: Margin): int
    requires margin.den > 0
  {
    TruncDiv(n * (margin.den + 2 * margin.num), margin.den)
  }

  /** A non-negative margin never shrinks a non-negative size. */
  lemma InflateCovers(n: int, margin: Margin)
    requires margin.den > 0 && margin.num >= 0 && n >= 0
    ensures Inflate(n, margin) >= n
  {
    var den := margin.den;
    var extra := n * (2 * margin.num);
    assert n * (den + 2 * margin.num) == n * den + extra;
    assert extra >= 0;
    assert extra == (extra / den) * den + extra % den;
    assert n * den + extra == (n + extra / den) * den + extra % den;
    DivUnique(n * den + extra, den, n + extra / den, extra % den);
  }

  /** Every downsampling factor of levels 1.. is a positive integer on every axis. */
  predicate ValidFactors(factors: seq<Vec3>)
  {
    forall l :: 1 <= l < |factors| ==> factors[l].x > 0 && factors[l].y > 0 && factors[l].z > 0
  }

  /** Product of the axis-`d` downsampling factors of levels lo .. hi - 1. */
  function FactorProduct(factors: seq<Vec3>, lo: nat, hi: nat, d: nat): (p: int)
    requires hi <= |factors| && d < 3
    ensures lo >= 1 && ValidFactors(factors) ==> p > 0
    decreases hi
  {
    if hi <= lo then 1 else FactorProduct(factors, lo, hi - 1, d) * factors[hi - 1].At(d)
  }

  lemma {:induction false} FactorProductSplit(factors: seq<Vec3>, lo: nat, hi: nat, d: nat)
    requires lo < hi <= |factors| && d < 3
    ensures FactorProduct(factors, lo, hi, d) == factors[lo].At(d) * FactorProduct(factors, lo + 1, hi, d)
    decreases hi
  {
    if hi - 1 > lo {
      FactorProductSplit(factors, lo, hi - 1, d);
      calc {
        FactorProduct(factors, lo, hi, d);
        FactorProduct(factors, lo, hi - 1, d) * factors[hi - 1].At(d);
        factors[lo].At(d) * FactorProduct(factors, lo + 1, hi - 1, d) * factors[hi - 1].At(d);
        factors[lo].At(d) * FactorProduct(factors, lo + 1, hi, d);
      }
    }
  }

  /** The product of the factors of all levels: the stride every level-0 x/y cell size is rounded to. */
  function TotalFactor(factors: seq<Vec3>, d: nat): int
    requires d < 3
  {
    FactorProduct(factors, 1, |factors|, d)
  }

  /**
   * Level-0 cell dimensions: the reference size inflated by the margin and
   * rounded up to a multiple of the total factor, in x and y only; z is the
   * reference depth unchanged.
   */
  function Level0CellDimensions(refDims: Vec3, factors: seq<Vec3>, margin: Margin): Vec3
    requires margin.den > 0 && ValidFactors(factors)
  {
    Vec3(
      RoundUpToMultiple(Inflate(refDims.x, margin), TotalFactor(factors, 0)),
      RoundUpToMultiple(Inflate(refDims.y, margin), TotalFactor(factors, 1)),
      refDims.z)
  }

  /** `(int) (previous / factor)` on every axis, z included. */
  function Coarsen(previous: Vec3, factor: Vec3): Vec3
    requires factor.x > 0 && factor.y > 0 && factor.z > 0
  {
    Vec3(TruncDiv(previous.x, factor.x), TruncDiv(previous.y, factor.y), TruncDiv(previous.z, factor.z))
  }

  /** The cell dimensions of the first n levels, as `setCellDimensions` fills them. */
  function PlannedCellDimensions(refDims: Vec3, factors: seq<Vec3>, margin: Margin, n: nat): (cells: seq<Vec3>)
    requires margin.den > 0 && ValidFactors(factors)
    requires 1 <= n <= |factors|
    ensures |cells| == n
    decreases n
  {
    if n == 1 then [Level0CellDimensions(refDims, factors, margin)]
    else
      var previous := PlannedCellDimensions(refDims, factors, margin, n - 1);
      previous + [Coarsen(previous[n - 2], factors[n - 1])]
  }

  /**
   * `setCellDimensions`: multiply up the factors of levels 1.. per axis,
   * round the inflated reference size in x and y, then divide level by level.
   */
  method ComputeCellDimensions(refDims: Vec3, factors: seq<Vec3>, margin: Margin) returns (cells: seq<Vec3>)
    requires |factors| >= 1 && ValidFactors(factors) && margin.den > 0
    ensures cells == PlannedCellDimensions(refDims, factors, margin, |factors|)
  {
    var productX, productY := 1, 1;
    var level := 1;
    while level < |factors|
      invariant 1 <= level <= |factors|
      invariant productX == FactorProduct(factors, 1, level, 0)
      invariant productY == FactorProduct(factors, 1, level, 1)
    {
      productX := productX * factors[level].x;
      productY := productY * factors[level].y;
      level := level + 1;
    }
    var x0 := RoundUpToMultiple(Inflate(refDims.x, margin), productX);
    var y0 := RoundUpToMultiple(Inflate(refDims.y, margin), productY);
    cells := [Vec3(x0, y0, refDims.z)];
    level := 1;
    while level < |factors|
      invariant 1 <= level <= |factors|
      invariant cells == PlannedCellDimensions(refDims, factors, margin, level)
    {
      cells := cells + [Coarsen(cells[level - 1], factors[level])];
      level := level + 1;
    }
  }

  /**
   * In x and y the cell size of level l is k times the product of the
   * factors of the levels after l, where k is the level-0 rounding quotient.
   */
  lemma {:induction false} PlannedXYIsMultiple(refDims: Vec3, factors: seq<Vec3>, margin: Margin, n: nat, l: nat, d: nat)
    requires margin.den > 0 && ValidFactors(factors)
    requires 1 <= n <= |factors| && l < n && d < 2
    ensures PlannedCellDimensions(refDims, factors, margin, n)[l].At(d)
         == CeilDiv(Inflate(refDims.At(d), margin), TotalFactor(factors, d)) * FactorProduct(factors, l + 1, |factors|, d)
    decreases n
  {
    var k := CeilDiv(Inflate(refDims.At(d), margin), TotalFactor(factors, d));
    if n == 1 {
      Level0IsMultiple(refDims, factors, margin, d);
    } else {
      var previous := PlannedCellDimensions(refDims, factors, margin, n - 1);
      var cells := PlannedCellDimensions(refDims, factors, margin, n);
      assert cells == previous + [Coarsen(previous[n - 2], factors[n - 1])];
      if l < n - 1 {
        assert cells[l] == previous[l];
        PlannedXYIsMultiple(refDims, factors, margin, n - 1, l, d);
      } else {
        PlannedXYIsMultiple(refDims, factors, margin, n - 1, l - 1, d);
        FactorProductSplit(factors, l, |factors|, d);
        CoarsenExact(previous[l - 1], factors[l], k, FactorProduct(factors, l + 1, |factors|, d), d);
      }
    }
  }

  lemma Level0IsMultiple(refDims: Vec3, factors: seq<Vec3>, margin: Margin, d: nat)
    requires margin.den > 0 && ValidFactors(factors) && 1 <= |factors| && d < 2
    ensures PlannedCellDimensions(refDims, factors, margin, 1)[0].At(d)
         == CeilDiv(Inflate(refDims.At(d), margin), TotalFactor(factors, d)) * FactorProduct(factors, 1, |factors|, d)
  {
    var cell := Level0CellDimensions(refDims, factors, margin);
    var a, p := Inflate(refDims.At(d), margin), TotalFactor(factors, d);
    assert cell.At(d) == RoundUpToMultiple(a, p);
    RoundUpIsCeilTimes(a, p);
  }

  lemma RoundUpIsCeilTimes(a: int, p: int)
    requires p > 0
    ensures RoundUpToMultiple(a, p) == CeilDiv(a, p) * p
  {
    var q := (-a) / p;
    assert RoundUpToMultiple(a, p) == p * -q;
    assert CeilDiv(a, p) == -q;
  }

  lemma CoarsenExact(previous: Vec3, factor: Vec3, k: int, rest: int, d: nat)
    requires factor.x > 0 && factor.y > 0 && factor.z > 0 && d < 2
    requires previous.At(d) == k * (factor.At(d) * rest)
    ensures Coarsen(previous, factor).At(d) == k * rest
  {
    assert Coarsen(previous, factor).At(d) == TruncDiv(previous.At(d), factor.At(d));
    ExactQuotient(k, factor.At(d), rest);
  }

  lemma ExactQuotient(k: int, f: int, rest: int)
    requires f > 0
    ensures TruncDiv(k * (f * rest), f) == k * rest
  {
    Regroup(k, f, rest);
    TruncDivOfMultiple(k * rest, f);
  }

  /**
   * Level 0 of the plan: in x and y the least multiple of the total
   * factor that covers the margin-inflated reference size; in z the
   * reference depth, neither inflated nor rounded.
   */
  lemma PlannedLevel0(refDims: Vec3, factors: seq<Vec3>, margin: Margin)
    requires |factors| >= 1 && ValidFactors(factors) && margin.den > 0
    ensures var cells := PlannedCellDimensions(refDims, factors, margin, |factors|);
      && (forall d :: 0 <= d < 2 ==>
            && cells[0].At(d) % TotalFactor(factors, d) == 0
            && Inflate(refDims.At(d), margin) <= cells[0].At(d) < Inflate(refDims.At(d), margin) + TotalFactor(factors, d))
      && cells[0].z == refDims.z
  {
    PlannedPrefix(refDims, factors, margin, |factors|, 1);
    var cell := Level0CellDimensions(refDims, factors, margin);
    assert forall d :: 0 <= d < 2 ==>
      cell.At(d) == RoundUpToMultiple(Inflate(refDims.At(d), margin), TotalFactor(factors, d));
  }

  /** Every coarser level of the plan is the previous level divided by its factor, on every axis. */
  lemma PlannedCoarsening(refDims: Vec3, factors: seq<Vec3>, margin: Margin)
    requires |factors| >= 1 && ValidFactors(factors) && margin.den > 0
    ensures var cells := PlannedCellDimensions(refDims, factors, margin, |factors|);
      forall l :: 1 <= l < |cells| ==> cells[l] == Coarsen(cells[l - 1], factors[l])
  {
    var n := |factors|;
    var cells := PlannedCellDimensions(refDims, factors, margin, n);
    forall l | 1 <= l < n
      ensures cells[l] == Coarsen(cells[l - 1], factors[l])
    {
      PlannedPrefix(refDims, factors, margin, n, l + 1);
    }
  }

  /**
   * In x and y the division from one level to the next is exact, so every
   * level's cell size is divisible by the next level's factor: cell
   * boundaries fall on voxel boundaries at every resolution.
   */
  lemma PlannedXYAligned(refDims: Vec3, factors: seq<Vec3>, margin: Margin)
    requires |factors| >= 1 && ValidFactors(factors) && margin.den > 0
    ensures var cells := PlannedCellDimensions(refDims, factors, margin, |factors|);
      && (forall l, d :: 1 <= l < |cells| && 0 <= d < 2 ==> cells[l].At(d) * factors[l].At(d) == cells[l - 1].At(d))
      && (forall l, d :: 0 <= l < |cells| - 1 && 0 <= d < 2 ==> cells[l].At(d) % factors[l + 1].At(d) == 0)
  {
    var n := |factors|;
    var cells := PlannedCellDimensions(refDims, factors, margin, n);
    forall l, d | 1 <= l < n && 0 <= d < 2
      ensures cells[l].At(d) * factors[l].At(d) == cells[l - 1].At(d)
    {
      PlannedXYIsMultiple(refDims, factors, margin, n, l, d);
      PlannedXYIsMultiple(refDims, factors, margin, n, l - 1, d);
      FactorProductSplit(factors, l, n, d);
      Regroup(CeilDiv(Inflate(refDims.At(d), margin), TotalFactor(factors, d)),
        factors[l].At(d), FactorProduct(factors, l + 1, n, d));
    }
    forall l, d | 0 <= l < n - 1 && 0 <= d < 2
      ensures cells[l].At(d) % factors[l + 1].At(d) == 0
    {
      PlannedXYIsMultiple(refDims, factors, margin, n, l, d);
      FactorProductSplit(factors, l + 1, n, d);
      var k := CeilDiv(Inflate(refDims.At(d), margin), TotalFactor(factors, d));
      var f := factors[l + 1].At(d);
      var rest := FactorProduct(factors, l + 2, n, d);
      Regroup(k, f, rest);
      DivUnique(cells[l].At(d), f, k * rest, 0);
    }
  }

  /**
   * z is divided but never rounded: whenever the reference depth is not a
   * multiple of the level-1 z factor, the level-1 cell depth times that
   * factor falls short of the level-0 depth.
   */
  lemma ZNotAligned(refDims: Vec3, factors: seq<Vec3>, margin: Margin)
    requires |factors| >= 2 && ValidFactors(factors) && margin.den > 0
    requires refDims.z >= 0 && refDims.z % factors[1].z != 0
    ensures var cells := PlannedCellDimensions(refDims, factors, margin, |factors|);
      cells[1].z * factors[1].z < cells[0].z
  {
    var cells := PlannedCellDimensions(refDims, factors, margin, |factors|);
    PlannedLevel0(refDims, factors, margin);
    PlannedCoarsening(refDims, factors, margin);
    var f := factors[1].z;
    assert cells[1].z == TruncDiv(refDims.z, f);
    assert refDims.z == (refDims.z / f) * f + refDims.z % f;
  }

  lemma Regroup(k: int, f: int, rest: int)
    ensures k * (f * rest) == (k * rest) * f
  {
  }

  /** The planned dimensions of the first m levels do not depend on how many levels follow. */
  lemma {:induction false} PlannedPrefix(refDims: Vec3, factors: seq<Vec3>, margin: Margin, n: nat, m: nat)
    requires margin.den > 0 && ValidFactors(factors)
    requires 1 <= m <= n <= |factors|
    ensures PlannedCellDimensions(refDims, factors, margin, m) == PlannedCellDimensions(refDims, factors, margin, n)[..m]
    decreases n
  {
    if m < n {
      PlannedPrefix(refDims, factors, margin, n - 1, m);
    }
  }

  /**
   * Halving toward zero: `off` is `diff / 2` truncated, so twice it is
   * diff itself or one step closer to zero.
   */
  predicate HalfTowardZero(off: int, diff: int)
  {
    if diff >= 0 then 0 <= diff - 2 * off <= 1 else -1 <= diff - 2 * off <= 0
  }

  /**
   * `computeTranslation`: the cell minimum plus half the size difference
   * (rounded toward zero) in x and y; z stays 0.
   */
  function Translation(cellDims: Vec3, cellMin: Vec3, dataDims: Vec3): (t: Vec3)
    ensures HalfTowardZero(t.x - cellMin.x, cellDims.x - dataDims.x)
    ensures HalfTowardZero(t.y - cellMin.y, cellDims.y - dataDims.y)
    ensures t.z == 0
    ensures 0 <= dataDims.x <= cellDims.x ==> cellMin.x <= t.x && t.x + dataDims.x <= cellMin.x + cellDims.x
    ensures 0 <= dataDims.y <= cellDims.y ==> cellMin.y <= t.y && t.y + dataDims.y <= cellMin.y + cellDims.y
  {
    Vec3(
      cellMin.x + TruncDiv(cellDims.x - dataDims.x, 2),
      cellMin.y + TruncDiv(cellDims.y - dataDims.y, 2),
      0)
  }

  /** The largest axis-`d` component of a non-empty position list (`stream().max()`). */
  function MaxPosition(positions: seq<GridPosition>, d: nat): (m: int)
    requires |positions| > 0 && d < 2
    ensures forall i :: 0 <= i < |positions| ==> positions[i].At(d) <= m
    ensures exists i :: 0 <= i < |positions| && positions[i].At(d) == m
  {
    if |positions| == 1 then positions[0].At(d)
    else
      var rest := MaxPosition(positions[1..], d);
      assert forall i :: 1 <= i < |positions| ==> positions[i] == positions[1..][i - 1];
      if positions[0].At(d) >= rest then positions[0].At(d) else rest
  }

  /**
   * `getDimensions`: `(max position + 1) * cell dimension` in x and y and
   * the cell depth in z; an empty position list has no maximum.
   */
  function GridDimensions(positions: seq<GridPosition>, cellDims: Vec3): (r: Result<Vec3>)
    ensures r.Err? <==> |positions| == 0
    ensures r.Err? ==> r.error == NoSuchElement
    ensures r.Ok? ==> r.value.z == cellDims.z
  {
    if |positions| == 0 then Err(NoSuchElement)
    else Ok(Vec3(
      (MaxPosition(positions, 0) + 1) * cellDims.x,
      (MaxPosition(positions, 1) + 1) * cellDims.y,
      cellDims.z))
  }

  /**
   * The mosaic extent covers the cell of every position, and in each of x
   * and y some position's cell ends exactly at the extent.
   */
  lemma GridDimensionsCoverCells(positions: seq<GridPosition>, cellDims: Vec3, d: nat)
    requires |positions| > 0 && d < 2 && cellDims.At(d) >= 0
    ensures GridDimensions(positions, cellDims).Ok?
    ensures forall i :: 0 <= i < |positions| ==>
      (positions[i].At(d) + 1) * cellDims.At(d) <= GridDimensions(positions, cellDims).value.At(d)
    ensures exists i :: (0 <= i < |positions| &&
      (positions[i].At(d) + 1) * cellDims.At(d) == GridDimensions(positions, cellDims).value.At(d))
  {
    var m := MaxPosition(positions, d);
    var c := cellDims.At(d);
    assert GridDimensions(positions, cellDims).value.At(d) == (m + 1) * c;
    forall i | 0 <= i < |positions|
      ensures (positions[i].At(d) + 1) * c <= (m + 1) * c
    {
      MultiplyMonotonic(positions[i].At(d) + 1, m + 1, c);
    }
  }

  /** The FRA lookup's cell index on one axis: Java's `location / cellDimension`. */
  function CellIndex(location: int, cellDim: int): int
    requires cellDim != 0
  {
    TruncDiv(location, cellDim)
  }

  /**
   * The FRA lookup's local coordinate AS WRITTEN: both x and y are taken
   * modulo the x cell index, not modulo the cell dimensions.
   */
  function LocalCoordinatesAsWritten(location: Vec3, cellDims: Vec3): Vec3
    requires cellDims.x != 0 && cellDims.y != 0
    requires CellIndex(location.x, cellDims.x) != 0
  {
    var xCellIndex := CellIndex(location.x, cellDims.x);
    Vec3(TruncRem(location.x, xCellIndex), TruncRem(location.y, xCellIndex), location.z)
  }

  /**
   * The as-written expression cannot be evaluated anywhere in the first
   * column of the mosaic: its divisor, the x cell index, is 0 there.
   */
  lemma AsWrittenDividesByZeroInFirstColumn(location: Vec3, cellDims: Vec3)
    requires 0 <= location.x < cellDims.x
    ensures CellIndex(location.x, cellDims.x) == 0
  {
  }

  /**
   * In the second column the as-written x coordinate is always 0 (anything
   * modulo 1), whereas the voxel lies location.x - cellDim.x into its cell.
   */
  lemma AsWrittenCollapsesSecondColumn(location: Vec3, cellDims: Vec3)
    requires cellDims.x > 0 && cellDims.y > 0
    requires cellDims.x <= location.x < 2 * cellDims.x && location.y >= 0
    ensures CellIndex(location.x, cellDims.x) == 1
    ensures LocalCoordinatesAsWritten(location, cellDims).x == 0
    ensures LocalCoordinates(location, cellDims).x == location.x - cellDims.x
  {
    assert location.x / cellDims.x == 1 by {
      assert location.x == 1 * cellDims.x + (location.x - cellDims.x);
    }
  }

  /**
   * The evidently intended local coordinate: the location modulo the cell
   * dimension on each axis. Cell index and local coordinate together give
   * back the location, and the local coordinate lies inside the cell.
   */
  function LocalCoordinates(location: Vec3, cellDims: Vec3): (local: Vec3)
    requires cellDims.x > 0 && cellDims.y > 0
    requires location.x >= 0 && location.y >= 0
    ensures CellIndex(location.x, cellDims.x) * cellDims.x + local.x == location.x
    ensures CellIndex(location.y, cellDims.y) * cellDims.y + local.y == location.y
    ensures 0 <= local.x < cellDims.x && 0 <= local.y < cellDims.y
    ensures local.z == location.z
  {
    Vec3(TruncRem(location.x, cellDims.x), TruncRem(location.y, cellDims.y), location.z)
  }
}
