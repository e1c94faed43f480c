/**
 * The merged grid source: many image pyramids laid out on a planar grid of
 * equally sized cells and exposed as one multi-resolution image whose
 * cells are filled on demand, each from the image placed at that cell.
 */
module MergedGrid {
  import opened Common
  import opened GridGeometry
  import opened CellKeys
  import opened SourceNames

  /** The minimum of the cell at grid position p: position times cell size in x and y, 0 in z. */
  function CellMin(p: GridPosition, cellDims: Vec3): Vec3
  {
    Vec3(p.x * cellDims.x, p.y * cellDims.y, 0)
  }

  /** The key of the cell at grid position p. */
  function PositionKey(p: GridPosition, cellDims: Vec3): string
  {
    CellKey(CellMin(p, cellDims).x, CellMin(p, cellDims).y)
  }

  /** The last index below n holding x, if any. */
  function LastIndexOf<T(==)>(s: seq<T>, x: T, n: nat): (r: Option<nat>)
    requires n <= |s|
    ensures r.Some? ==> r.value < n && s[r.value] == x
    ensures r.Some? ==> forall j :: r.value < j < n ==> s[j] != x
    ensures r.None? ==> forall j :: 0 <= j < n ==> s[j] != x
  {
    if n == 0 then None
    else if s[n - 1] == x then Some(n - 1)
    else LastIndexOf(s, x, n - 1)
  }

  /** `put(keys[i], values[i])` for i from 0 to n - 1, in order. */
  function IndexedPuts<K(==), V>(keys: seq<K>, values: seq<V>, n: nat): map<K, V>
    requires n <= |keys| <= |values|
  {
    if n == 0 then map[] else IndexedPuts(keys, values, n - 1)[keys[n - 1] := values[n - 1]]
  }

  /** After the puts, a key is present exactly when it was put, holding the value of its last put. */
  lemma {:induction false} IndexedPutsLookup<K, V>(keys: seq<K>, values: seq<V>, n: nat, k: K)
    requires n <= |keys| <= |values|
    ensures k in IndexedPuts(keys, values, n) <==> LastIndexOf(keys, k, n).Some?
    ensures k in IndexedPuts(keys, values, n) ==> IndexedPuts(keys, values, n)[k] == values[LastIndexOf(keys, k, n).value]
  {
    if n > 0 {
      IndexedPutsLookup(keys, values, n - 1, k);
    }
  }

  /** The key of every listed position, in list order. */
  function PositionKeys(positions: seq<GridPosition>, cellDims: Vec3): (keys: seq<string>)
    ensures |keys| == |positions|
    decreases |positions|
  {
    if |positions| == 0 then []
    else PositionKeys(positions[..|positions| - 1], cellDims) + [PositionKey(positions[|positions| - 1], cellDims)]
  }

  lemma {:induction false} PositionKeysAt(positions: seq<GridPosition>, cellDims: Vec3, i: nat)
    requires i < |positions|
    ensures PositionKeys(positions, cellDims)[i] == PositionKey(positions[i], cellDims)
    decreases |positions|
  {
    var n := |positions|;
    if i < n - 1 {
      PositionKeysAt(positions[..n - 1], cellDims, i);
      assert positions[..n - 1][i] == positions[i];
    }
  }

  /** `createCellKeyToSource` over the first n positions: later puts override earlier ones. */
  function CellKeyMap(positions: seq<GridPosition>, gridSources: seq<Pyramid>, cellDims: Vec3, n: nat): map<string, Pyramid>
    requires n <= |positions| <= |gridSources|
  {
    IndexedPuts(PositionKeys(positions, cellDims), gridSources, n)
  }

  /** `createCellKeyToSource`: the image at list index i owns the cell at positions[i]. */
  method CreateCellKeyToSource(positions: seq<GridPosition>, gridSources: seq<Pyramid>, cellDims: Vec3)
    returns (cellKeyToSource: map<string, Pyramid>)
    requires |positions| <= |gridSources|
    ensures cellKeyToSource == CellKeyMap(positions, gridSources, cellDims, |positions|)
  {
    cellKeyToSource := map[];
    for positionIndex := 0 to |positions|
      invariant cellKeyToSource == CellKeyMap(positions, gridSources, cellDims, positionIndex)
    {
      var position := positions[positionIndex];
      var cellMins := Vec3(position.x * cellDims.x, position.y * cellDims.y, 0);
      var key := GetCellKey(cellMins);
      PositionKeysAt(positions, cellDims, positionIndex);
      cellKeyToSource := cellKeyToSource[key := gridSources[positionIndex]];
    }
  }

  /** With positive cell sizes the cell minimum determines the grid position. */
  lemma CellMinInjective(p: GridPosition, q: GridPosition, cellDims: Vec3)
    requires cellDims.x > 0 && cellDims.y > 0
    ensures PositionKey(p, cellDims) == PositionKey(q, cellDims) <==> p == q
  {
    CellKeyInjective(p.x * cellDims.x, p.y * cellDims.y, q.x * cellDims.x, q.y * cellDims.y);
    if p.x * cellDims.x == q.x * cellDims.x {
      ScaleCancels(p.x, q.x, cellDims.x);
    }
    if p.y * cellDims.y == q.y * cellDims.y {
      ScaleCancels(p.y, q.y, cellDims.y);
    }
  }

  lemma ScaleCancels(a: int, b: int, c: int)
    requires c > 0 && a * c == b * c
    ensures a == b
  {
    DivUnique(a * c, c, a, 0);
    DivUnique(b * c, c, b, 0);
  }

  /**
   * The keys in the map are exactly the keys of the listed positions,
   * whatever the cell size.
   */
  lemma {:induction false} CellKeyMapDomain(positions: seq<GridPosition>, gridSources: seq<Pyramid>, cellDims: Vec3, n: nat, key: string)
    requires n <= |positions| <= |gridSources|
    ensures key in CellKeyMap(positions, gridSources, cellDims, n)
            <==> exists i :: 0 <= i < n && key == PositionKey(positions[i], cellDims)
  {
    var keys := PositionKeys(positions, cellDims);
    IndexedPutsLookup(keys, gridSources, n, key);
    var last := LastIndexOf(keys, key, n);
    if last.Some? {
      PositionKeysAt(positions, cellDims, last.value);
    }
    forall i | 0 <= i < n
      ensures keys[i] == PositionKey(positions[i], cellDims)
    {
      PositionKeysAt(positions, cellDims, i);
    }
  }

  /**
   * With positive cell sizes, the cell at grid position p is owned exactly
   * when p is listed, and then by the image at the last index listing p:
   * distinct positions never share a cell and a repeated position keeps its
   * last image.
   */
  lemma {:induction false} CellKeyMapLookup(positions: seq<GridPosition>, gridSources: seq<Pyramid>, cellDims: Vec3, n: nat, p: GridPosition)
    requires n <= |positions| <= |gridSources|
    requires cellDims.x > 0 && cellDims.y > 0
    ensures var m := CellKeyMap(positions, gridSources, cellDims, n);
      && (PositionKey(p, cellDims) in m <==> LastIndexOf(positions, p, n).Some?)
      && (PositionKey(p, cellDims) in m ==> m[PositionKey(p, cellDims)] == gridSources[LastIndexOf(positions, p, n).value])
  {
    IndexedPutsLookup(PositionKeys(positions, cellDims), gridSources, n, PositionKey(p, cellDims));
    SameLastIndex(positions, cellDims, n, p);
  }

  /** Keys of distinct positions differ, so a position and its key are last listed at the same index. */
  lemma SameLastIndex(positions: seq<GridPosition>, cellDims: Vec3, n: nat, p: GridPosition)
    requires n <= |positions|
    requires cellDims.x > 0 && cellDims.y > 0
    ensures LastIndexOf(PositionKeys(positions, cellDims), PositionKey(p, cellDims), n) == LastIndexOf(positions, p, n)
  {
    var keys := PositionKeys(positions, cellDims);
    forall i | 0 <= i < n
      ensures keys[i] == PositionKey(p, cellDims) <==> positions[i] == p
    {
      PositionKeysAt(positions, cellDims, i);
      CellMinInjective(positions[i], p, cellDims);
    }
    LastIndexOfMatches(keys, PositionKey(p, cellDims), positions, p, n);
  }

  /** Two lists that match x and y at the same indices last list them at the same index. */
  lemma {:induction false} LastIndexOfMatches<A, B>(s: seq<A>, x: A, t: seq<B>, y: B, n: nat)
    requires n <= |s| && n <= |t|
    requires forall i :: 0 <= i < n ==> (s[i] == x <==> t[i] == y)
    ensures LastIndexOf(s, x, n) == LastIndexOf(t, y, n)
  {
    if n > 0 {
      LastIndexOfMatches(s, x, t, y, n - 1);
    }
  }

  /** `createSourceNameToTranslation` over the first n positions, keyed by image name. */
  function TranslationMap(positions: seq<GridPosition>, gridSources: seq<Pyramid>, cellDims: Vec3, dataDims: Vec3, n: nat): map<string, Vec3>
    requires n <= |positions| <= |gridSources|
  {
    if n == 0 then map[]
    else TranslationMap(positions, gridSources, cellDims, dataDims, n - 1)
           [gridSources[n - 1].name := Translation(cellDims, CellMin(positions[n - 1], cellDims), dataDims)]
  }

  /** The image names in list order. */
  function Names(gridSources: seq<Pyramid>): (names: seq<string>)
    ensures |names| == |gridSources|
    ensures forall i :: 0 <= i < |gridSources| ==> names[i] == gridSources[i].name
  {
    seq(|gridSources|, i requires 0 <= i < |gridSources| => gridSources[i].name)
  }

  /**
   * `createSourceNameToTranslation`: every image name maps to the offset
   * that centres data of the given size in the cell of the image's position.
   */
  method CreateSourceNameToTranslation(positions: seq<GridPosition>, gridSources: seq<Pyramid>, cellDims: Vec3, dataDims: Vec3)
    returns (sourceNameToTranslation: map<string, Vec3>)
    requires |positions| <= |gridSources|
    ensures sourceNameToTranslation == TranslationMap(positions, gridSources, cellDims, dataDims, |positions|)
  {
    sourceNameToTranslation := map[];
    for positionIndex := 0 to |positions|
      invariant sourceNameToTranslation == TranslationMap(positions, gridSources, cellDims, dataDims, positionIndex)
    {
      var position := positions[positionIndex];
      var cellMin := Vec3(position.x * cellDims.x, position.y * cellDims.y, 0);
      var translation := Translation(cellDims, cellMin, dataDims);
      sourceNameToTranslation := sourceNameToTranslation[gridSources[positionIndex].name := translation];
    }
  }

  /**
   * An image name is in the translation map exactly when one of the first n
   * images carries it, and then maps to the centring offset in the cell of
   * the last such image's position, computed from the one data size given
   * (the reference image's) whatever that image's own size is.
   */
  lemma {:induction false} TranslationMapLookup(positions: seq<GridPosition>, gridSources: seq<Pyramid>, cellDims: Vec3, dataDims: Vec3, n: nat, name: string)
    requires n <= |positions| <= |gridSources|
    ensures var m := TranslationMap(positions, gridSources, cellDims, dataDims, n);
      var last := LastIndexOf(Names(gridSources), name, n);
      && (name in m <==> last.Some?)
      && (name in m ==> m[name] == Translation(cellDims, CellMin(positions[last.value], cellDims), dataDims))
  {
    if n > 0 {
      TranslationMapLookup(positions, gridSources, cellDims, dataDims, n - 1, name);
    }
  }

  /** One cell of the cached image: its minimum and its voxel buffer. */
  class Cell {
    const min: Vec3
    const data: array3<int>

    /** A fresh zero-filled buffer, as the cache hands it to the loader. */
    constructor (min: Vec3, dims: Vec3)
      requires dims.x >= 0 && dims.y >= 0 && dims.z >= 0
      ensures this.min == min && fresh(data)
      ensures data.Length0 == dims.x && data.Length1 == dims.y && data.Length2 == dims.z
      ensures forall a, b, c :: 0 <= a < dims.x && 0 <= b < dims.y && 0 <= c < dims.z ==> data[a, b, c] == 0
    {
      this.min := min;
      data := new int[dims.x, dims.y, dims.z]((a, b, c) => 0);
    }

    function Dims(): Vec3
    {
      Vec3(data.Length0, data.Length1, data.Length2)
    }
  }

  /** Where the first voxel of the data lands, in the cell's own coordinates. */
  function DataStart(cellMin: Vec3, cellDims: Vec3, dataDims: Vec3): Vec3
  {
    var offset := Translation(cellDims, cellMin, dataDims);
    Vec3(offset.x - cellMin.x, offset.y - cellMin.y, offset.z - cellMin.z)
  }

  /** The data box, shifted to start, lies inside a cell of size cellDims. */
  predicate FitsInCell(start: Vec3, dataDims: Vec3, cellDims: Vec3)
  {
    && 0 <= start.x && 0 <= dataDims.x && start.x + dataDims.x <= cellDims.x
    && 0 <= start.y && 0 <= dataDims.y && start.y + dataDims.y <= cellDims.y
    && 0 <= start.z && 0 <= dataDims.z && start.z + dataDims.z <= cellDims.z
  }

  /** A box with at least one voxel: positive on every axis. */
  predicate NonEmpty(dims: Vec3)
  {
    dims.x > 0 && dims.y > 0 && dims.z > 0
  }

  /** Cell-local (a, b, c) is covered by the data box starting at start. */
  predicate InBox(start: Vec3, dims: Vec3, a: int, b: int, c: int)
  {
    && start.x <= a < start.x + dims.x
    && start.y <= b < start.y + dims.y
    && start.z <= c < start.z + dims.z
  }

  /**
   * The data voxel at (a, b, c) - start precedes the cursor position q in
   * flat iteration order (x fastest, then y, then z).
   */
  predicate Precedes(start: Vec3, q: Vec3, a: int, b: int, c: int)
  {
    || c - start.z < q.z
    || (c - start.z == q.z && (b - start.y < q.y || (b - start.y == q.y && a - start.x < q.x)))
  }

  /**
   * With a non-negative margin, data of the reference image's level-0 size
   * placed by the loader lies wholly inside any level-0 cell of the grid:
   * the planned cell covers it in x and y, and in z the cell is exactly as
   * deep as the data and starts at 0.
   */
  lemma ReferenceDataFits(refDims: Vec3, factors: seq<Vec3>, margin: Margin, p: GridPosition)
    requires |factors| >= 1 && ValidFactors(factors) && margin.den > 0 && margin.num >= 0
    requires refDims.x >= 0 && refDims.y >= 0 && refDims.z >= 0
    ensures var cells := PlannedCellDimensions(refDims, factors, margin, |factors|);
      FitsInCell(DataStart(CellMin(p, cells[0]), cells[0], refDims), refDims, cells[0])
  {
    PlannedLevel0(refDims, factors, margin);
    InflateCovers(refDims.x, margin);
    InflateCovers(refDims.y, margin);
    var cells := PlannedCellDimensions(refDims, factors, margin, |factors|);
    assert refDims.x <= cells[0].At(0) && refDims.y <= cells[0].At(1);
  }

  /** The data voxel whose position relative to the data's minimum is r. */
  function Voxel(volume: Volume, r: Vec3): int
  {
    volume.at(Vec3(volume.min.x + r.x, volume.min.y + r.y, volume.min.z + r.z))
  }

  /** `RandomAccessibleIntervalCellLoader`: fills the cells of one level. */
  class CellLoader {
    const cellKeyToSource: map<string, Pyramid>
    const level: nat
    const timepoint: int
    const encodeSource: bool
    const encoder: SourceNameEncoder

    constructor (cellKeyToSource: map<string, Pyramid>, level: nat, timepoint: int, encodeSource: bool, encoder: SourceNameEncoder)
      ensures this.cellKeyToSource == cellKeyToSource && this.level == level && this.timepoint == timepoint
      ensures this.encodeSource == encodeSource && this.encoder == encoder
    {
      this.cellKeyToSource := cellKeyToSource;
      this.level := level;
      this.timepoint := timepoint;
      this.encodeSource := encodeSource;
      this.encoder := encoder;
    }

    /** The data the loader copies for a cell owned by source. */
    function DataOf(source: Pyramid): Volume
    {
      source.volume(timepoint, level)
    }

    /**
     * The value stored at cell-local (a, b, c) inside the data box: the raw
     * voxel, or with encodeSource that voxel packed with the image's id.
     */
    function LoadedValue(source: Pyramid, start: Vec3, a: int, b: int, c: int): int
      reads encoder
      requires !encodeSource || source.name in encoder.nameToLong
    {
      var raw := Voxel(DataOf(source), Vec3(a - start.x, b - start.y, c - start.z));
      if encodeSource then Encode(raw, encoder.nameToLong[source.name], encoder.valueBits) else raw
    }

    /**
     * `load`. A cell whose key has no image is left as it is. Otherwise the
     * owning image's data, centred in the cell, is copied voxel by voxel in
     * flat order; every voxel outside the data box keeps its value. With
     * encodeSource and an image name that was never registered, the first
     * voxel is written raw and then the encoding fails; if the data is empty
     * the copy loop never runs, so nothing is encoded and nothing fails.
     */
    method Load(cell: Cell) returns (failure: Option<Error>)
      requires CellKey(cell.min.x, cell.min.y) in cellKeyToSource ==>
        var data := DataOf(cellKeyToSource[CellKey(cell.min.x, cell.min.y)]);
        FitsInCell(DataStart(cell.min, cell.Dims(), data.dims), data.dims, cell.Dims())
      modifies cell.data
      ensures CellKey(cell.min.x, cell.min.y) !in cellKeyToSource ==> failure == None && unchanged(cell.data)
      ensures CellKey(cell.min.x, cell.min.y) in cellKeyToSource ==>
        var source := cellKeyToSource[CellKey(cell.min.x, cell.min.y)];
        var dims := DataOf(source).dims;
        var start := DataStart(cell.min, cell.Dims(), dims);
        && (encodeSource && source.name !in encoder.nameToLong && !NonEmpty(dims) ==>
             failure == None && unchanged(cell.data))
        && (encodeSource && source.name !in encoder.nameToLong && NonEmpty(dims) ==>
             && failure == Some(NullPointer)
             && forall a, b, c :: 0 <= a < cell.data.Length0 && 0 <= b < cell.data.Length1 && 0 <= c < cell.data.Length2 ==>
                  cell.data[a, b, c] == if InBox(start, dims, a, b, c) && Precedes(start, Vec3(1, 0, 0), a, b, c)
                                        then Voxel(DataOf(source), Vec3(0, 0, 0)) else old(cell.data[a, b, c]))
        && (!encodeSource || source.name in encoder.nameToLong ==>
             && failure == None
             && forall a, b, c :: 0 <= a < cell.data.Length0 && 0 <= b < cell.data.Length1 && 0 <= c < cell.data.Length2 ==>
                  cell.data[a, b, c] == if InBox(start, dims, a, b, c)
                                        then LoadedValue(source, start, a, b, c) else old(cell.data[a, b, c]))
    {
      var cellKey := GetCellKey(cell.min);
      if cellKey !in cellKeyToSource {
        return None;
      }
      var source := cellKeyToSource[cellKey];
      var data := DataOf(source);
      var dims := data.dims;
      var start := DataStart(cell.min, cell.Dims(), dims);
      if encodeSource && source.name !in encoder.nameToLong {
        if NonEmpty(dims) {
          cell.data[start.x, start.y, start.z] := Voxel(data, Vec3(0, 0, 0));
          return Some(NullPointer);
        }
        return None;
      }
      CopyData(cell, source, start);
      return None;
    }

    /** The copy loops of `load`: every voxel of the data box, in flat order. */
    method CopyData(cell: Cell, source: Pyramid, start: Vec3)
      requires FitsInCell(start, DataOf(source).dims, cell.Dims())
      requires !encodeSource || source.name in encoder.nameToLong
      modifies cell.data
      ensures var dims := DataOf(source).dims;
        forall a, b, c :: 0 <= a < cell.data.Length0 && 0 <= b < cell.data.Length1 && 0 <= c < cell.data.Length2 ==>
          cell.data[a, b, c] == if InBox(start, dims, a, b, c) then LoadedValue(source, start, a, b, c) else old(cell.data[a, b, c])
    {
      var data := DataOf(source);
      var dims := data.dims;
      var id := if encodeSource then encoder.nameToLong[source.name] else 0;
      var qz := 0;
      while qz < dims.z
        invariant 0 <= qz <= dims.z
        invariant forall a, b, c :: 0 <= a < cell.data.Length0 && 0 <= b < cell.data.Length1 && 0 <= c < cell.data.Length2 ==>
          cell.data[a, b, c] == if InBox(start, dims, a, b, c) && Precedes(start, Vec3(0, 0, qz), a, b, c)
                                then LoadedValue(source, start, a, b, c) else old(cell.data[a, b, c])
      {
        var qy := 0;
        while qy < dims.y
          invariant 0 <= qy <= dims.y
          invariant forall a, b, c :: 0 <= a < cell.data.Length0 && 0 <= b < cell.data.Length1 && 0 <= c < cell.data.Length2 ==>
            cell.data[a, b, c] == if InBox(start, dims, a, b, c) && Precedes(start, Vec3(0, qy, qz), a, b, c)
                                  then LoadedValue(source, start, a, b, c) else old(cell.data[a, b, c])
        {
          var qx := 0;
          while qx < dims.x
            invariant 0 <= qx <= dims.x
            invariant forall a, b, c :: 0 <= a < cell.data.Length0 && 0 <= b < cell.data.Length1 && 0 <= c < cell.data.Length2 ==>
              cell.data[a, b, c] == if InBox(start, dims, a, b, c) && Precedes(start, Vec3(qx, qy, qz), a, b, c)
                                    then LoadedValue(source, start, a, b, c) else old(cell.data[a, b, c])
          {
            var raw := Voxel(data, Vec3(qx, qy, qz));
            var value := if encodeSource then Encode(raw, id, encoder.valueBits) else raw;
            cell.data[start.x + qx, start.y + qy, start.z + qz] := value;
            qx := qx + 1;
          }
          qy := qy + 1;
        }
        qz := qz + 1;
      }
    }
  }

  /** One resolution level of the merged image: its extent, its cell size and the loader of its cells. */
  datatype MergedLevel = MergedLevel(dimensions: Vec3, cellDimensions: Vec3, loader: CellLoader)

  class MergedGridSource {
    const gridSources: seq<Pyramid>
    const positions: seq<GridPosition>
    const name: string
    const relativeCellMargin: Margin
    const encodeSource: bool
    const encoder: SourceNameEncoder
    const referenceSource: Pyramid
    const currentTimepoint: int
    var cellDimensions: seq<Vec3>
    var sourceNameToVoxelTranslation: map<string, Vec3>
    var mergedLevels: seq<MergedLevel>

    /** The cell size of every level, planned from the reference image's level-0 size. */
    ghost predicate PlannedCells()
      reads this
      requires |gridSources| >= 1 && referenceSource == gridSources[0]
      requires ValidFactors(referenceSource.factors) && relativeCellMargin.den > 0
      requires referenceSource.NumLevels() >= 1
    {
      cellDimensions == PlannedCellDimensions(referenceSource.volume(0, 0).dims, referenceSource.factors,
                                              relativeCellMargin, referenceSource.NumLevels())
    }

    /**
     * The constructor: plan the cell sizes from the reference (first) image,
     * then for each level build the extent, the cell-key map and a loader
     * reading that level at time point 0; the name-to-translation map is
     * built once, at level 0, from the reference image's data size.
     */
    constructor (gridSources: seq<Pyramid>, positions: seq<GridPosition>, name: string,
                 relativeCellMargin: Margin, encodeSource: bool, encoder: SourceNameEncoder)
      requires |gridSources| >= 1 && 1 <= |positions| <= |gridSources|
      requires gridSources[0].NumLevels() >= 1 && ValidFactors(gridSources[0].factors)
      requires relativeCellMargin.den > 0
      ensures this.gridSources == gridSources && this.positions == positions && this.name == name
      ensures this.relativeCellMargin == relativeCellMargin && this.encodeSource == encodeSource && this.encoder == encoder
      ensures referenceSource == gridSources[0] && currentTimepoint == 0
      ensures PlannedCells()
      ensures |mergedLevels| == |cellDimensions| == gridSources[0].NumLevels()
      ensures forall l :: 0 <= l < |mergedLevels| ==> LevelBuilt(mergedLevels[l], l, cellDimensions[l])
      ensures sourceNameToVoxelTranslation
        == TranslationMap(positions, gridSources, cellDimensions[0], gridSources[0].volume(0, 0).dims, |positions|)
    {
      this.gridSources := gridSources;
      this.positions := positions;
      this.name := name;
      this.relativeCellMargin := relativeCellMargin;
      this.encodeSource := encodeSource;
      this.encoder := encoder;
      referenceSource := gridSources[0];
      currentTimepoint := 0;
      new;
      var cells := ComputeCellDimensions(referenceSource.volume(0, 0).dims, referenceSource.factors, relativeCellMargin);
      cellDimensions := cells;
      mergedLevels, sourceNameToVoxelTranslation := CreateMergedLevels(cells);
      forall l | 0 <= l < |mergedLevels|
        ensures LevelBuilt(mergedLevels[l], l, cellDimensions[l])
      {
        LevelsBuiltAt(mergedLevels, cellDimensions, l);
      }
    }

    /**
     * Level l of the merged image: the grid extent at the level's cell
     * size, the cells of that size, and a loader for level l at time point
     * 0 whose key map places the images at their positions.
     */
    ghost predicate LevelBuilt(level: MergedLevel, l: nat, cellDims: Vec3)
      requires |positions| <= |gridSources|
    {
      && level.cellDimensions == cellDims
      && GridDimensions(positions, cellDims) == Ok(level.dimensions)
      && level.loader.cellKeyToSource == CellKeyMap(positions, gridSources, cellDims, |positions|)
      && level.loader.level == l
      && level.loader.timepoint == currentTimepoint
      && level.loader.encodeSource == encodeSource
      && level.loader.encoder == encoder
    }

    /** Level l of `levels` is built for cell size `cells[l]`, for every l. */
    ghost predicate LevelsBuilt(levels: seq<MergedLevel>, cells: seq<Vec3>)
      requires |positions| <= |gridSources|
      decreases |levels|
    {
      && |levels| == |cells|
      && (|levels| > 0 ==>
            LevelsBuilt(levels[..|levels| - 1], cells[..|cells| - 1])
            && LevelBuilt(levels[|levels| - 1], |levels| - 1, cells[|cells| - 1]))
    }

    lemma {:induction false} LevelsBuiltAt(levels: seq<MergedLevel>, cells: seq<Vec3>, l: nat)
      requires |positions| <= |gridSources|
      requires LevelsBuilt(levels, cells) && l < |levels|
      ensures LevelBuilt(levels[l], l, cells[l])
      decreases |levels|
    {
      var n := |levels|;
      if l < n - 1 {
        LevelsBuiltAt(levels[..n - 1], cells[..n - 1], l);
        assert levels[..n - 1][l] == levels[l] && cells[..n - 1][l] == cells[l];
      }
    }

    /**
     * `createMergedRAIs`: one level per planned cell size; the translation
     * map comes from level 0 and the reference image's data size.
     */
    method CreateMergedLevels(cells: seq<Vec3>) returns (levels: seq<MergedLevel>, translations: map<string, Vec3>)
      requires |cells| >= 1 && 1 <= |positions| <= |gridSources|
      ensures LevelsBuilt(levels, cells)
      ensures translations == TranslationMap(positions, gridSources, cells[0], gridSources[0].volume(0, 0).dims, |positions|)
    {
      translations := CreateSourceNameToTranslation(positions, gridSources, cells[0], gridSources[0].volume(0, 0).dims);
      levels := CreateLevels(cells);
    }

    /** The level loop of `createMergedRAIs`: level l gets cell size `cells[l]`. */
    method CreateLevels(cells: seq<Vec3>) returns (levels: seq<MergedLevel>)
      requires 1 <= |positions| <= |gridSources|
      ensures LevelsBuilt(levels, cells)
    {
      levels := [];
      for level := 0 to |cells|
        invariant LevelsBuilt(levels, cells[..level])
      {
        var mergedLevel := CreateMergedLevel(level, cells[level]);
        ghost var built := levels;
        levels := levels + [mergedLevel];
        assert levels[..level] == built;
        assert cells[..level + 1][..level] == cells[..level];
      }
      assert cells[..|cells|] == cells;
    }

    /** One level of `createMergedRAIs`: its extent, its cell-key map and its loader. */
    method CreateMergedLevel(level: nat, cellDims: Vec3) returns (mergedLevel: MergedLevel)
      requires 1 <= |positions| <= |gridSources|
      ensures LevelBuilt(mergedLevel, level, cellDims)
    {
      var mergedDimensions := GridDimensions(positions, cellDims).value;
      var cellKeyToSource := CreateCellKeyToSource(positions, gridSources, cellDims);
      var cellLoader := new CellLoader(cellKeyToSource, level, currentTimepoint, encodeSource, encoder);
      mergedLevel := MergedLevel(mergedDimensions, cellDims, cellLoader);
    }

    /** `getSource`: only time point 0 exists; a level past the last one is out of bounds. */
    function GetSource(t: int, level: int): (r: Result<MergedLevel>)
      reads this
      ensures r.Ok? <==> t == 0 && 0 <= level < |mergedLevels|
      ensures t != 0 ==> r.Err? && r.error == UnsupportedOperation
      ensures t == 0 && r.Err? ==> r.error == IndexOutOfBounds
      ensures r.Ok? ==> r.value == mergedLevels[level]
    {
      if t != 0 then Err(UnsupportedOperation)
      else if 0 <= level < |mergedLevels| then Ok(mergedLevels[level])
      else Err(IndexOutOfBounds)
    }

    /** `isPresent`: delegated to the reference image. */
    function IsPresent(t: int): (r: bool)
      ensures r == referenceSource.present(t)
    {
      referenceSource.present(t)
    }

    /**
     * `getNumMipmapLevels`: delegated to the reference image; once the
     * constructor has built one level per reference level, these are exactly
     * the levels `getSource` serves.
     */
    function GetNumMipmapLevels(): (r: nat)
      reads this
      ensures r == referenceSource.NumLevels()
      ensures |mergedLevels| == referenceSource.NumLevels() ==> forall l :: 0 <= l < r <==> GetSource(0, l).Ok?
    {
      referenceSource.NumLevels()
    }
  }
}
