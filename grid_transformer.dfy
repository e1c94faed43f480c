/**
 * The merged-grid transformer of a view: it gathers the named images,
 * lays them out on a grid (generating a near-square row-major layout when
 * the view gives no positions), builds the function-backed grid source
 * over them and files it in the name-to-source map under the grid's name.
 */
module GridTransformer {
  import opened Common
  import opened GridGeometry
  import opened FRAGrid

  /** The least k with k * k >= n: `(int) Math.ceil(Math.sqrt(n))`. */
  function CeilSqrt(n: nat): (k: nat)
    ensures k * k >= n
    ensures k == 0 || (k - 1) * (k - 1) < n
  {
    RootFrom(n, 0)
  }

  function RootFrom(n: nat, k: nat): (r: nat)
    requires k == 0 || (k - 1) * (k - 1) < n
    ensures r * r >= n
    ensures r == 0 || (r - 1) * (r - 1) < n
    decreases n - k * k
  {
    if k * k >= n then k else RootFrom(n, k + 1)
  }

  /** The layout `createPositions` produces: index i at column i mod numX, row i div numX. */
  function AutoPositions(size: nat): (positions: seq<GridPosition>)
    ensures |positions| == size
  {
    var numX := CeilSqrt(size);
    seq(size, i requires 0 <= i < size => GridPosition(i % numX, i / numX))
  }

  /**
   * `createPositions`: walk the grid row by row, numX cells to a row,
   * starting a new row when the column counter reaches numX.
   */
  method CreatePositions(size: nat) returns (positions: seq<GridPosition>)
    ensures positions == AutoPositions(size)
  {
    var numPositions := size;
    var numX := CeilSqrt(numPositions);
    positions := [];
    var xPositionIndex, yPositionIndex := 0, 0;
    for gridIndex := 0 to numPositions
      invariant |positions| == gridIndex
      invariant 0 <= xPositionIndex <= numX && 0 <= yPositionIndex
      invariant gridIndex == yPositionIndex * numX + xPositionIndex
      invariant forall i :: 0 <= i < gridIndex ==> positions[i] == GridPosition(i % numX, i / numX)
    {
      if xPositionIndex == numX {
        xPositionIndex := 0;
        yPositionIndex := yPositionIndex + 1;
      }
      DivUnique(gridIndex, numX, yPositionIndex, xPositionIndex);
      positions := positions + [GridPosition(xPositionIndex, yPositionIndex)];
      xPositionIndex := xPositionIndex + 1;
    }
  }

  /**
   * The generated layout puts every image in its own cell, inside a square
   * of numX by numX cells: columns below numX, rows below numX, all
   * coordinates non-negative.
   */
  lemma {:induction false} AutoPositionsLayout(size: nat)
    ensures var positions := AutoPositions(size); var numX := CeilSqrt(size);
      && (forall i :: 0 <= i < size ==> 0 <= positions[i].x < numX && 0 <= positions[i].y < numX)
      && (forall i, j :: 0 <= i < j < size ==> positions[i] != positions[j])
  {
    var positions := AutoPositions(size);
    var numX := CeilSqrt(size);
    forall i | 0 <= i < size
      ensures 0 <= positions[i].x < numX && 0 <= positions[i].y < numX
    {
      RowBelowWidth(i, numX, size);
    }
    forall i, j | 0 <= i < j < size
      ensures positions[i] != positions[j]
    {
      RowBelowWidth(i, numX, size);
      CellsOfDistinctIndices(i, j, numX);
    }
  }

  lemma CellsOfDistinctIndices(i: nat, j: nat, numX: nat)
    requires numX > 0 && i != j
    ensures i % numX != j % numX || i / numX != j / numX
  {
    assert i == (i / numX) * numX + i % numX;
    assert j == (j / numX) * numX + j % numX;
  }

  lemma RowBelowWidth(i: nat, numX: nat, size: nat)
    requires i < size <= numX * numX
    ensures numX > 0 && i / numX < numX
  {
    QuotientBelowSquare(i, numX);
  }

  lemma QuotientBelowSquare(i: nat, numX: nat)
    requires i < numX * numX
    ensures numX > 0 && i / numX < numX
  {
    var q := i / numX;
    assert i == q * numX + i % numX;
    if q >= numX {
      MultiplyMonotonic(numX, q, numX);
    }
  }

  /** Five images are laid out three to a row: three in row 0, two in row 1. */
  lemma FivePositions()
    ensures AutoPositions(5) == [GridPosition(0, 0), GridPosition(1, 0), GridPosition(2, 0),
                                 GridPosition(0, 1), GridPosition(1, 1)]
  {
    assert CeilSqrt(5) == 3 by {
      assert RootFrom(5, 2) == 3;
    }
  }

  /** What the name-to-source map holds: an image, or a grid source built by this transformer. */
  datatype SourceEntry = Image(pyramid: Pyramid) | Grid(grid: FRAGridSource)

  function Lookup(sourceNameToSource: map<string, SourceEntry>, name: string): Option<SourceEntry>
  {
    if name in sourceNameToSource then Some(sourceNameToSource[name]) else None
  }

  /** `getGridSources`: the entry of each listed name, in list order; null for a missing name. */
  method GetGridSources(sources: seq<string>, sourceNameToSource: map<string, SourceEntry>)
    returns (gridSources: seq<Option<SourceEntry>>)
    ensures |gridSources| == |sources|
    ensures forall i :: 0 <= i < |sources| ==> gridSources[i] == Lookup(sourceNameToSource, sources[i])
  {
    gridSources := [];
    for i := 0 to |sources|
      invariant |gridSources| == i
      invariant forall j :: 0 <= j < i ==> gridSources[j] == Lookup(sourceNameToSource, sources[j])
    {
      gridSources := gridSources + [Lookup(sourceNameToSource, sources[i])];
    }
  }

  /**
   * The stream of `getSpimSource` over the entries: the images in order,
   * or a null dereference at the first missing name.
   */
  method CollectImages(sources: seq<string>, sourceNameToSource: map<string, SourceEntry>, gridSacs: seq<Option<SourceEntry>>)
    returns (r: Result<seq<Pyramid>>)
    requires |gridSacs| == |sources|
    requires forall i :: 0 <= i < |sources| ==> gridSacs[i] == Lookup(sourceNameToSource, sources[i])
    requires forall i :: 0 <= i < |sources| && sources[i] in sourceNameToSource ==> sourceNameToSource[sources[i]].Image?
    ensures r.Err? <==> exists i :: 0 <= i < |sources| && sources[i] !in sourceNameToSource
    ensures r.Err? ==> r.error == NullPointer
    ensures r.Ok? ==> r.value == Images(sourceNameToSource, sources)
  {
    var images: seq<Pyramid> := [];
    for i := 0 to |gridSacs|
      invariant |images| == i
      invariant forall j :: 0 <= j < i ==> sources[j] in sourceNameToSource && images[j] == sourceNameToSource[sources[j]].pyramid
    {
      if gridSacs[i].None? {
        return Err(NullPointer);
      }
      images := images + [gridSacs[i].value.pyramid];
    }
    return Ok(images);
  }

  predicate AllNonNegative(positions: seq<GridPosition>)
  {
    forall i :: 0 <= i < |positions| ==> positions[i].x >= 0 && positions[i].y >= 0
  }

  /**
   * Which exception `transform` ends in, in the order the Java code meets
   * them: no names at all, then a name without an entry, then an empty
   * layout, then a position that is negative or has no image.
   */
  function TransformFailure(sourceNameToSource: map<string, SourceEntry>, sources: seq<string>, positions: seq<GridPosition>): Option<Error>
  {
    if |sources| == 0 then Some(IndexOutOfBounds)
    else if exists i :: 0 <= i < |sources| && sources[i] !in sourceNameToSource then Some(NullPointer)
    else if |positions| == 0 then Some(NoSuchElement)
    else if !AllNonNegative(positions) || |positions| > |sources| then Some(IndexOutOfBounds)
    else None
  }

  /** The images of the listed names, in list order. */
  function Images(sourceNameToSource: map<string, SourceEntry>, sources: seq<string>): (images: seq<Pyramid>)
    requires forall i :: 0 <= i < |sources| ==> sources[i] in sourceNameToSource && sourceNameToSource[sources[i]].Image?
    ensures |images| == |sources|
  {
    seq(|sources|, i requires 0 <= i < |sources| => sourceNameToSource[sources[i]].pyramid)
  }

  /**
   * With a generated layout only a missing or absent name can make
   * `transform` fail: the generated positions always fit the images.
   */
  lemma GeneratedLayoutAccepted(sourceNameToSource: map<string, SourceEntry>, sources: seq<string>)
    requires |sources| >= 1 && forall i :: 0 <= i < |sources| ==> sources[i] in sourceNameToSource
    ensures TransformFailure(sourceNameToSource, sources, AutoPositions(|sources|)) == None
  {
    AutoPositionsLayout(|sources|);
  }

  /**
   * The rest of `transform` once the layout is known: fetch the images,
   * build the grid source over them and put it under the grid's name.
   */
  method CreateMergedGrid(sourceNameToSource: map<string, SourceEntry>, sources: seq<string>,
                          gridSacs: seq<Option<SourceEntry>>, layout: seq<GridPosition>,
                          gridName: string, encodeSource: bool)
    returns (r: Result<map<string, SourceEntry>>)
    requires |gridSacs| == |sources|
    requires forall i :: 0 <= i < |sources| ==> gridSacs[i] == Lookup(sourceNameToSource, sources[i])
    requires forall i :: 0 <= i < |sources| && sources[i] in sourceNameToSource ==>
      && sourceNameToSource[sources[i]].Image?
      && sourceNameToSource[sources[i]].pyramid.NumLevels() >= 1
      && ValidFactors(sourceNameToSource[sources[i]].pyramid.factors)
    ensures r.Err? <==> TransformFailure(sourceNameToSource, sources, layout).Some?
    ensures r.Err? ==> r.error == TransformFailure(sourceNameToSource, sources, layout).value
    ensures r.Ok? ==>
      && gridName in r.value && r.value[gridName].Grid?
      && r.value.Keys == sourceNameToSource.Keys + {gridName}
      && (forall name :: name in sourceNameToSource && name != gridName ==> r.value[name] == sourceNameToSource[name])
      && var grid := r.value[gridName].grid;
         && fresh(grid) && grid.Valid()
         && grid.gridSources == Images(sourceNameToSource, sources)
         && grid.positions == layout
         && grid.name == gridName
         && grid.encodeSource == encodeSource
  {
    if |gridSacs| == 0 {
      return Err(IndexOutOfBounds);
    }
    var collected := CollectImages(sources, sourceNameToSource, gridSacs);
    if collected.Err? {
      return Err(collected.error);
    }
    var images := collected.value;
    if |layout| == 0 {
      return Err(NoSuchElement);
    }
    if !AllNonNegative(layout) || |layout| > |images| {
      return Err(IndexOutOfBounds);
    }
    var grid := new FRAGridSource(images, layout, gridName, NoMargin, encodeSource);
    return Ok(sourceNameToSource[gridName := Grid(grid)]);
  }

  /**
   * The serialized transformer: the image names to merge, the grid's
   * name, the optional layout, and two flags.
   */
  class MergedGridSourceTransformer {
    var sources: seq<string>
    var mergedGridSourceName: string
    var positions: Option<seq<GridPosition>>
    var centerAtOrigin: bool
    var encodeSource: bool

    constructor (sources: seq<string>, mergedGridSourceName: string, positions: Option<seq<GridPosition>>,
                 centerAtOrigin: bool, encodeSource: bool)
      ensures this.sources == sources && this.mergedGridSourceName == mergedGridSourceName
      ensures this.positions == positions && this.centerAtOrigin == centerAtOrigin && this.encodeSource == encodeSource
    {
      this.sources := sources;
      this.mergedGridSourceName := mergedGridSourceName;
      this.positions := positions;
      this.centerAtOrigin := centerAtOrigin;
      this.encodeSource := encodeSource;
    }

    /**
     * `transform`: switch centring off, generate a layout if none was
     * given, build the grid source over the named images and put it into
     * the map under the grid's name; every other entry stays as it was.
     * The map is passed in and the updated map handed back.
     */
    method Transform(sourceNameToSource: map<string, SourceEntry>) returns (r: Result<map<string, SourceEntry>>)
      requires forall i :: 0 <= i < |sources| && sources[i] in sourceNameToSource ==>
        && sourceNameToSource[sources[i]].Image?
        && sourceNameToSource[sources[i]].pyramid.NumLevels() >= 1
        && ValidFactors(sourceNameToSource[sources[i]].pyramid.factors)
      modifies this
      ensures !centerAtOrigin
      ensures sources == old(sources) && mergedGridSourceName == old(mergedGridSourceName) && encodeSource == old(encodeSource)
      ensures positions == if old(positions).Some? then old(positions) else Some(AutoPositions(|sources|))
      ensures r.Err? <==> TransformFailure(sourceNameToSource, sources, positions.value).Some?
      ensures r.Err? ==> r.error == TransformFailure(sourceNameToSource, sources, positions.value).value
      ensures r.Ok? ==>
        && mergedGridSourceName in r.value && r.value[mergedGridSourceName].Grid?
        && r.value.Keys == sourceNameToSource.Keys + {mergedGridSourceName}
        && (forall name :: name in sourceNameToSource && name != mergedGridSourceName ==>
              r.value[name] == sourceNameToSource[name])
        && var grid := r.value[mergedGridSourceName].grid;
           && fresh(grid) && grid.Valid()
           && grid.gridSources == Images(sourceNameToSource, sources)
           && grid.positions == positions.value
           && grid.name == mergedGridSourceName
           && grid.encodeSource == encodeSource
    {
      if centerAtOrigin {
        centerAtOrigin := false;
      }
      var gridSacs := GetGridSources(sources, sourceNameToSource);
      if positions.None? {
        var created := CreatePositions(|gridSacs|);
        positions := Some(created);
      }
      r := CreateMergedGrid(sourceNameToSource, sources, gridSacs, positions.value, mergedGridSourceName, encodeSource);
    }
  }
}
