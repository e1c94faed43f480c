/**
 * The function-backed grid source (FRAGridSource): the same grid of cells
 * as the merged grid source, but every voxel is looked up on demand in a
 * dense two-dimensional array of images instead of being copied into
 * cached cells. Its cells carry no margin.
 */
module FRAGrid {
  import opened Common
  import opened GridGeometry
  import opened MergedGrid

  /**
   * The running maximum of axis d over the first n positions, starting
   * from 0 as `createSourceGrid` does.
   */
  function MaxFromZero(positions: seq<GridPosition>, d: nat, n: nat): (m: int)
    requires d < 2 && n <= |positions|
    ensures m >= 0
    ensures forall i :: 0 <= i < n ==> positions[i].At(d) <= m
    ensures m == 0 || exists i :: 0 <= i < n && positions[i].At(d) == m
  {
    if n == 0 then 0
    else
      var previous := MaxFromZero(positions, d, n - 1);
      if positions[n - 1].At(d) > previous then positions[n - 1].At(d) else previous
  }

  /** The first loop of `createSourceGrid`: the largest x and y, each starting from 0. */
  method GridMaxima(positions: seq<GridPosition>) returns (maxX: int, maxY: int)
    ensures maxX == MaxFromZero(positions, 0, |positions|)
    ensures maxY == MaxFromZero(positions, 1, |positions|)
  {
    maxX, maxY := 0, 0;
    for positionIndex := 0 to |positions|
      invariant maxX == MaxFromZero(positions, 0, positionIndex)
      invariant maxY == MaxFromZero(positions, 1, positionIndex)
    {
      var position := positions[positionIndex];
      if position.x > maxX {
        maxX := position.x;
      }
      if position.y > maxY {
        maxY := position.y;
      }
    }
  }

  /**
   * `createSourceGrid`: an array of (max x + 1) by (max y + 1) entries, the
   * maxima taken from 0; entry [x, y] holds the index of the last image
   * listed at position (x, y) and is empty where no image is. A negative
   * position, or a position without an image, is an index out of bounds.
   */
  method CreateSourceGrid(positions: seq<GridPosition>, numSources: nat) returns (r: Result<array2<Option<nat>>>)
    ensures r.Err? <==> (|| |positions| > numSources
                          || exists i :: 0 <= i < |positions| && (positions[i].x < 0 || positions[i].y < 0))
    ensures r.Err? ==> r.error == IndexOutOfBounds
    ensures r.Ok? ==>
      && fresh(r.value)
      && r.value.Length0 == MaxFromZero(positions, 0, |positions|) + 1
      && r.value.Length1 == MaxFromZero(positions, 1, |positions|) + 1
      && forall x, y :: 0 <= x < r.value.Length0 && 0 <= y < r.value.Length1 ==>
           r.value[x, y] == LastIndexOf(positions, GridPosition(x, y), |positions|)
  {
    var maxX, maxY := GridMaxima(positions);
    var sourceGrid := new Option<nat>[maxX + 1, maxY + 1]((x, y) => None);
    var placed := PlaceSources(sourceGrid, positions, numSources);
    if !placed {
      return Err(IndexOutOfBounds);
    }
    return Ok(sourceGrid);
  }

  /**
   * The second loop of `createSourceGrid`: store each position's index at
   * that position, later indices overwriting earlier ones; stop at the
   * first position that is negative or has no image.
   */
  method PlaceSources(sourceGrid: array2<Option<nat>>, positions: seq<GridPosition>, numSources: nat) returns (placed: bool)
    requires forall i :: 0 <= i < |positions| ==> positions[i].x < sourceGrid.Length0 && positions[i].y < sourceGrid.Length1
    requires forall x, y :: 0 <= x < sourceGrid.Length0 && 0 <= y < sourceGrid.Length1 ==> sourceGrid[x, y] == None
    modifies sourceGrid
    ensures placed <==> (&& |positions| <= numSources
                         && forall i :: 0 <= i < |positions| ==> positions[i].x >= 0 && positions[i].y >= 0)
    ensures placed ==> forall x, y :: 0 <= x < sourceGrid.Length0 && 0 <= y < sourceGrid.Length1 ==>
      sourceGrid[x, y] == LastIndexOf(positions, GridPosition(x, y), |positions|)
  {
    for positionIndex := 0 to |positions|
      invariant forall i :: 0 <= i < positionIndex ==> positions[i].x >= 0 && positions[i].y >= 0
      invariant positionIndex <= numSources
      invariant forall x, y :: 0 <= x < sourceGrid.Length0 && 0 <= y < sourceGrid.Length1 ==>
        sourceGrid[x, y] == LastIndexOf(positions, GridPosition(x, y), positionIndex)
    {
      var position := positions[positionIndex];
      if position.x < 0 || position.y < 0 || positionIndex >= numSources {
        return false;
      }
      sourceGrid[position.x, position.y] := Some(positionIndex);
    }
    return true;
  }

  /** `createMergedRAIs`' intervals: the grid extent at each level's cell size. */
  method CreateLevelIntervals(positions: seq<GridPosition>, cells: seq<Vec3>) returns (intervals: seq<Vec3>)
    requires |positions| >= 1
    ensures |intervals| == |cells|
    ensures forall l :: 0 <= l < |cells| ==> GridDimensions(positions, cells[l]) == Ok(intervals[l])
  {
    intervals := [];
    for level := 0 to |cells|
      invariant |intervals| == level
      invariant forall l :: 0 <= l < level ==> GridDimensions(positions, cells[l]) == Ok(intervals[l])
    {
      intervals := intervals + [GridDimensions(positions, cells[level]).value];
    }
  }

  /** The location lies in an interval of size dims starting at the origin. */
  predicate InInterval(location: Vec3, dims: Vec3)
  {
    0 <= location.x < dims.x && 0 <= location.y < dims.y && 0 <= location.z < dims.z
  }

  /**
   * Without a margin the level-0 cell is the reference size rounded up to
   * a multiple of the product of all downsampling factors, in x and y.
   */
  lemma UnmarginedLevel0(refDims: Vec3, factors: seq<Vec3>)
    requires |factors| >= 1 && ValidFactors(factors)
    ensures var cells := PlannedCellDimensions(refDims, factors, NoMargin, |factors|);
      forall d :: 0 <= d < 2 ==>
        && cells[0].At(d) % TotalFactor(factors, d) == 0
        && refDims.At(d) <= cells[0].At(d) < refDims.At(d) + TotalFactor(factors, d)
  {
    PlannedLevel0(refDims, factors, NoMargin);
    assert forall d :: 0 <= d < 2 ==> Inflate(refDims.At(d), NoMargin) == refDims.At(d);
  }

  /**
   * A location inside the extent of a grid of non-negative positions falls
   * in a cell whose index is between 0 and the largest position.
   */
  lemma CellIndexWithinGrid(positions: seq<GridPosition>, cellDims: Vec3, location: Vec3, d: nat)
    requires |positions| >= 1 && d < 2 && cellDims.At(d) > 0
    requires forall i :: 0 <= i < |positions| ==> positions[i].At(d) >= 0
    requires 0 <= location.At(d) < GridDimensions(positions, cellDims).value.At(d)
    ensures 0 <= CellIndex(location.At(d), cellDims.At(d)) <= MaxPosition(positions, d)
  {
    var c := cellDims.At(d);
    var m := MaxPosition(positions, d);
    var loc := location.At(d);
    assert GridDimensions(positions, cellDims).value.At(d) == (m + 1) * c;
    assert CellIndex(loc, c) == loc / c;
    QuotientBelow(loc, c, m + 1);
  }

  /** A non-negative number below k * c has a quotient by c between 0 and k - 1. */
  lemma QuotientBelow(a: int, c: int, k: int)
    requires c > 0 && 0 <= a < k * c
    ensures 0 <= a / c < k
  {
    var q := a / c;
    assert a == q * c + a % c;
    if q >= k {
      MultiplyMonotonic(k, q, c);
    }
  }

  class FRAGridSource {
    const gridSources: seq<Pyramid>
    const positions: seq<GridPosition>
    const name: string
    const relativeCellMargin: Margin
    const encodeSource: bool
    const referenceSource: Pyramid
    const numMipmapLevels: nat
    const cellDimensions: seq<Vec3>
    const levelIntervals: seq<Vec3>
    const sourceGrid: array2<Option<nat>>

    /**
     * The source grid matches the positions, the cells follow the plan
     * without margin, and each level's interval is the grid extent.
     */
    ghost predicate Valid()
      reads sourceGrid
    {
      && |gridSources| >= 1 && 1 <= |positions| <= |gridSources|
      && (forall i :: 0 <= i < |positions| ==> positions[i].x >= 0 && positions[i].y >= 0)
      && referenceSource == gridSources[0]
      && numMipmapLevels == referenceSource.NumLevels() >= 1
      && ValidFactors(referenceSource.factors)
      && cellDimensions == PlannedCellDimensions(referenceSource.volume(0, 0).dims, referenceSource.factors,
                                                 NoMargin, numMipmapLevels)
      && |levelIntervals| == numMipmapLevels
      && (forall l :: 0 <= l < numMipmapLevels ==> GridDimensions(positions, cellDimensions[l]) == Ok(levelIntervals[l]))
      && sourceGrid.Length0 == MaxFromZero(positions, 0, |positions|) + 1
      && sourceGrid.Length1 == MaxFromZero(positions, 1, |positions|) + 1
      && (forall x, y :: 0 <= x < sourceGrid.Length0 && 0 <= y < sourceGrid.Length1 ==>
            sourceGrid[x, y] == LastIndexOf(positions, GridPosition(x, y), |positions|))
    }

    /**
     * The constructor ignores the margin it is given: the cells are planned
     * with no margin at all.
     */
    constructor (gridSources: seq<Pyramid>, positions: seq<GridPosition>, name: string,
                 relativeCellMargin: Margin, encodeSource: bool)
      requires |gridSources| >= 1 && 1 <= |positions| <= |gridSources|
      requires forall i :: 0 <= i < |positions| ==> positions[i].x >= 0 && positions[i].y >= 0
      requires gridSources[0].NumLevels() >= 1 && ValidFactors(gridSources[0].factors)
      ensures Valid() && fresh(sourceGrid)
      ensures this.gridSources == gridSources && this.positions == positions && this.name == name
      ensures this.relativeCellMargin == NoMargin && this.encodeSource == encodeSource
    {
      this.gridSources := gridSources;
      this.positions := positions;
      this.relativeCellMargin := NoMargin;
      this.encodeSource := encodeSource;
      referenceSource := gridSources[0];
      this.name := name;
      numMipmapLevels := gridSources[0].NumLevels();
      var cells := ComputeCellDimensions(gridSources[0].volume(0, 0).dims, gridSources[0].factors, NoMargin);
      cellDimensions := cells;
      var grid := CreateSourceGrid(positions, |gridSources|);
      sourceGrid := grid.value;
      var intervals := CreateLevelIntervals(positions, cells);
      levelIntervals := intervals;
    }

    /** The cell of the grid that a location of the level's interval falls in. */
    function CellOf(level: nat, location: Vec3): (p: GridPosition)
      requires level < |cellDimensions| && cellDimensions[level].x > 0 && cellDimensions[level].y > 0
    {
      GridPosition(CellIndex(location.x, cellDimensions[level].x), CellIndex(location.y, cellDimensions[level].y))
    }

    /** A location of a level's interval falls in a cell of the source grid, which holds its owner. */
    lemma GridEntryOf(level: nat, location: Vec3)
      requires Valid() && level < numMipmapLevels
      requires cellDimensions[level].x > 0 && cellDimensions[level].y > 0
      requires InInterval(location, levelIntervals[level])
      ensures var p := CellOf(level, location);
        && 0 <= p.x < sourceGrid.Length0 && 0 <= p.y < sourceGrid.Length1
        && sourceGrid[p.x, p.y] == LastIndexOf(positions, p, |positions|)
    {
      var cellDims := cellDimensions[level];
      CellIndexWithinGrid(positions, cellDims, location, 0);
      CellIndexWithinGrid(positions, cellDims, location, 1);
    }

    /**
     * The lookup, with the local coordinate taken modulo the cell size: a
     * location of a level's interval reads the voxel of the last image
     * listed at its cell, at the location's offset inside that cell; a cell
     * without an image fails with a null dereference.
     */
    function Sample(level: nat, location: Vec3): (r: Result<int>)
      reads sourceGrid
      requires Valid() && level < numMipmapLevels
      requires cellDimensions[level].x > 0 && cellDimensions[level].y > 0
      requires InInterval(location, levelIntervals[level])
      ensures var owner := LastIndexOf(positions, CellOf(level, location), |positions|);
        && (r.Ok? <==> owner.Some?)
        && (r.Err? ==> r.error == NullPointer)
        && (r.Ok? ==> r.value == gridSources[owner.value].volume(0, level).at(LocalCoordinates(location, cellDimensions[level])))
    {
      var cellDims := cellDimensions[level];
      var xCellIndex := CellIndex(location.x, cellDims.x);
      var yCellIndex := CellIndex(location.y, cellDims.y);
      GridEntryOf(level, location);
      match sourceGrid[xCellIndex, yCellIndex]
      case None => Err(NullPointer)
      case Some(k) => Ok(gridSources[k].volume(0, level).at(LocalCoordinates(location, cellDims)))
    }

    /**
     * The lookup as written: both local coordinates are taken modulo the x
     * cell index before the cell's image is dereferenced, so the first
     * column divides by zero whether or not an image is placed there.
     */
    function SampleAsWritten(level: nat, location: Vec3): (r: Result<int>)
      reads sourceGrid
      requires Valid() && level < numMipmapLevels
      requires cellDimensions[level].x > 0 && cellDimensions[level].y > 0
      requires InInterval(location, levelIntervals[level])
      ensures CellOf(level, location).x == 0 ==> r == Err(Arithmetic)
      ensures CellOf(level, location).x != 0 ==>
        var owner := LastIndexOf(positions, CellOf(level, location), |positions|);
        && (r.Ok? <==> owner.Some?)
        && (r.Err? ==> r.error == NullPointer)
        && (r.Ok? ==> r.value == gridSources[owner.value].volume(0, level).at(LocalCoordinatesAsWritten(location, cellDimensions[level])))
    {
      var cellDims := cellDimensions[level];
      var xCellIndex := CellIndex(location.x, cellDims.x);
      var yCellIndex := CellIndex(location.y, cellDims.y);
      GridEntryOf(level, location);
      if xCellIndex == 0 then Err(Arithmetic)
      else match sourceGrid[xCellIndex, yCellIndex]
        case None => Err(NullPointer)
        case Some(k) => Ok(gridSources[k].volume(0, level).at(LocalCoordinatesAsWritten(location, cellDims)))
    }

    /**
     * Throughout the first column of the grid the as-written lookup fails,
     * even where an image is placed and the corrected lookup reads it.
     */
    lemma FirstColumnFailsAsWritten(level: nat, location: Vec3)
      requires Valid() && level < numMipmapLevels
      requires cellDimensions[level].x > 0 && cellDimensions[level].y > 0
      requires InInterval(location, levelIntervals[level])
      requires location.x < cellDimensions[level].x
      ensures SampleAsWritten(level, location) == Err(Arithmetic)
      ensures LastIndexOf(positions, CellOf(level, location), |positions|).Some? ==> Sample(level, location).Ok?
    {
      AsWrittenDividesByZeroInFirstColumn(location, cellDimensions[level]);
    }

    /** `getSource`: only time point 0 exists; a level past the last one is out of bounds. */
    function GetSource(t: int, level: int): (r: Result<Vec3>)
      ensures r.Ok? <==> t == 0 && 0 <= level < |levelIntervals|
      ensures t != 0 ==> r.Err? && r.error == UnsupportedOperation
      ensures t == 0 && r.Err? ==> r.error == IndexOutOfBounds
      ensures r.Ok? ==> r.value == levelIntervals[level]
    {
      if t != 0 then Err(UnsupportedOperation)
      else if 0 <= level < |levelIntervals| then Ok(levelIntervals[level])
      else Err(IndexOutOfBounds)
    }

    /** `isPresent`: delegated to the reference image. */
    function IsPresent(t: int): (r: bool)
      ensures r == referenceSource.present(t)
    {
      referenceSource.present(t)
    }

    /**
     * `getNumMipmapLevels`: delegated to the reference image; in a valid
     * grid source these are exactly the levels `getSource` serves.
     */
    function GetNumMipmapLevels(): (r: nat)
      reads sourceGrid
      ensures r == referenceSource.NumLevels()
      ensures Valid() ==> forall l :: 0 <= l < r <==> GetSource(0, l).Ok?
    {
      referenceSource.NumLevels()
    }
  }
}
