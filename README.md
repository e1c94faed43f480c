# MoBIE merged grid sources, crop, source-name codec and view images — a Dafny model

This project models the integer core of the MoBIE Fiji viewer's *virtual grid mosaic*.

- **Tiling.** Many multi-resolution image sources (pyramids) are tiled on a planar grid of equally sized cells. They are exposed as one addressable multi-resolution image.
  - `MergedGridSource` fills cached cells on demand by copying the image placed at each cell.
  - `FRAGridSource` looks every voxel up through a dense 2-D array of images.
- **Per-level cell sizes.** Both classes plan the same cell sizes for each resolution level:
  - the reference image's size, inflated by a relative margin;
  - rounded up in x and y to a multiple of the product of all downsampling factors;
  - then divided level by level.
- **Keys and placement.** Cells are addressed by the string key `"_x_y_"` of their minimum. Each image is centred in its cell by a translation that rounds toward zero.
- **Around the mosaic:**
  - the transformer that lays out the images of a view and builds the grid source;
  - `CroppedSource`, which restricts a source to one voxel interval per level;
  - `SourceNameEncoder`, which packs an image id above the voxel value of label images;
  - `View.getImages`, which decides which display or transformation opens each image.

Modules, one file each:

- `common.dfy` (`Common`): option/result wrappers, one error tag per Java exception, 3-vectors, grid positions, and the pyramid abstraction of a bdv `Source`.
- `grid_geometry.dfy` (`GridGeometry`): the cell planner, centring translation, mosaic extent, and cell index and local coordinate.
- `cell_key.dfy` (`CellKeys`): decimal text of a long, and the cell key.
- `source_kind.dfy` (`SourceKinds`): the wrapper shapes `instanceOf` unwraps.
- `source_name_encoder.dfy` (`SourceNames`): the 32-bit packing and the name table, as a class.
- `merged_grid_source.dfy` (`MergedGrid`): the key and translation maps, the cell loader over a 3-D array, and the merged grid source class.
- `fra_grid_source.dfy` (`FRAGrid`): the dense source grid over a 2-D array, the lookup, and the class.
- `grid_transformer.dfy` (`GridTransformer`): the automatic layout and `transform`.
- `cropped_source.dfy` (`Cropping`): intervals and the cropped source class.
- `view.dfy` (`ViewModel`): the view class and `getImages`.

Java semantics are written out explicitly:

- `/` and `(long)` of a quotient truncate toward zero (`TruncDiv`), and `%` is the matching remainder. Dafny's own operators are Euclidean.
- `UnsignedIntType.set` keeps the low 32 bits.
- A `long` shift uses its distance modulo 64.
- Every exception the modelled code can raise becomes an `Err` with its own tag.

Cells are rounded to the downsampling product only in x and y (the `d < 2` loop of `setCellDimensions`). `GridGeometry.ZNotAligned` proves that z need not be aligned.

## Model

| member | source | states |
|---|---|---|
| GridGeometry.RoundUpToMultiple | src/main/java/org/embl/mobie/viewer/source/MergedGridSource.java:231 | `p * ceil(a / p)` is a multiple of p, at least a and below a + p |
| GridGeometry.InflateCovers | src/main/java/org/embl/mobie/viewer/source/MergedGridSource.java:230 | inflating a size by a non-negative margin never shrinks it |
| GridGeometry.FactorProduct | src/main/java/org/embl/mobie/viewer/source/MergedGridSource.java:211-216 | the product of positive per-level factors is positive |
| GridGeometry.FactorProductSplit | src/main/java/org/embl/mobie/viewer/source/MergedGridSource.java:214-216 | a factor product splits off its first level |
| GridGeometry.PlannedCellDimensions | src/main/java/org/embl/mobie/viewer/source/MergedGridSource.java:218-238 | the plan has exactly one cell size per level |
| GridGeometry.ComputeCellDimensions | src/main/java/org/embl/mobie/viewer/source/MergedGridSource.java:186-239 | the loops of `setCellDimensions` (factor products, then x/y rounding at level 0, then division per level) produce exactly the planned cell sizes |
| GridGeometry.PlannedXYIsMultiple | src/main/java/org/embl/mobie/viewer/source/MergedGridSource.java:225-238 | in x and y, the cell size of level l is the level-0 rounding quotient times the product of the factors of the later levels |
| GridGeometry.PlannedLevel0 | src/main/java/org/embl/mobie/viewer/source/MergedGridSource.java:225-232 | level-0 x/y cell size is a multiple of the product of all factors, at least the margin-inflated reference size, and less than one product above it; z is the reference depth |
| GridGeometry.PlannedCoarsening | src/main/java/org/embl/mobie/viewer/source/MergedGridSource.java:234-238 | each coarser level is the previous level divided (toward zero) by its factor, on every axis |
| GridGeometry.PlannedXYAligned | src/main/java/org/embl/mobie/viewer/source/MergedGridSource.java:220-238 | in x and y every division is exact: level l times its factor gives level l - 1 back, and each level is divisible by the next factor |
| GridGeometry.ZNotAligned | src/main/java/org/embl/mobie/viewer/source/MergedGridSource.java:228-238 | z is never rounded: when the depth is not a multiple of the level-1 z factor, level 1 times that factor falls short of level 0 |
| GridGeometry.PlannedPrefix | src/main/java/org/embl/mobie/viewer/source/MergedGridSource.java:234-238 | the sizes of the first m levels do not depend on how many levels follow |
| GridGeometry.Translation | src/main/java/org/embl/mobie/viewer/source/MergedGridSource.java:331-340 | the offset from the cell minimum is half the size difference rounded toward zero in x/y; z is 0; data no larger than the cell lands inside it |
| GridGeometry.MaxPosition | src/main/java/org/embl/mobie/viewer/source/MergedGridSource.java:282-286 | the stream maximum bounds every position and is attained by one |
| GridGeometry.GridDimensions | src/main/java/org/embl/mobie/viewer/source/MergedGridSource.java:278-292 | an empty position list fails with NoSuchElement; otherwise z is the cell depth |
| GridGeometry.GridDimensionsCoverCells | src/main/java/org/embl/mobie/viewer/source/MergedGridSource.java:278-292 | the extent covers the cell of every position, and some position's cell ends exactly at it, in x and in y |
| GridGeometry.AsWrittenDividesByZeroInFirstColumn | src/main/java/org/embl/mobie/viewer/source/FRAGridSource.java:134-139 | in the first column the x cell index, the divisor of the as-written local coordinate, is 0 |
| GridGeometry.AsWrittenCollapsesSecondColumn | src/main/java/org/embl/mobie/viewer/source/FRAGridSource.java:134-139 | in the second column the as-written local x is always 0 while the voxel lies location.x - cellDim.x into its cell |
| GridGeometry.LocalCoordinates | src/main/java/org/embl/mobie/viewer/source/FRAGridSource.java:134-139 | corrected: cell index times cell size plus local coordinate gives the location back, and the local coordinate lies inside the cell |
| CellKeys.NatToStringRoundTrip | src/main/java/org/embl/mobie/viewer/source/MergedGridSource.java:326 | the decimal digits of a natural number read back as that number |
| CellKeys.LongToStringRoundTrip | src/main/java/org/embl/mobie/viewer/source/MergedGridSource.java:326 | Java's decimal text of a long is well formed, contains no `_`, and reads back as the same number |
| CellKeys.GetCellKey | src/main/java/org/embl/mobie/viewer/source/MergedGridSource.java:322-329 | the loop builds `"_" + x + "_" + y + "_"` from the cell minimum, ignoring z |
| CellKeys.CellKeyText | src/main/java/org/embl/mobie/viewer/source/MergedGridSource.java:322-329 | the key spelled out is `"_" + x + "_" + y + "_"`, each number in Java's decimal form |
| CellKeys.SplitAtSeparator | src/main/java/org/embl/mobie/viewer/source/MergedGridSource.java:322-329 | texts without `_` joined by `_` split back uniquely |
| CellKeys.CellKeyInjective | src/main/java/org/embl/mobie/viewer/source/MergedGridSource.java:322-329 | two cell minima share a key exactly when they agree in x and y |
| SourceKinds.InstanceOf | src/main/java/org/embl/mobie/viewer/source/MergedGridSource.java:104-119 | exactly four shapes pass: the grid, a labelled grid, a transformed grid, a labelled transformed grid (the same test as `FRAGridSource.instanceOf`, lines 98-113) |
| SourceNames.Pow2Add | src/main/java/org/embl/mobie/viewer/SourceNameEncoder.java:65 | shifts compose: 2^(a+b) = 2^a * 2^b |
| SourceNames.Encode | src/main/java/org/embl/mobie/viewer/SourceNameEncoder.java:62-66 | `value + (id << valueBits)` stored as a 32-bit unsigned value lies in [0, 2^32) |
| SourceNames.DecodeValue | src/main/java/org/embl/mobie/viewer/SourceNameEncoder.java:50-54 | `getValue` masks 16 bits, so its result is below 2^16 whatever valueBits is |
| SourceNames.RoundTrip | src/main/java/org/embl/mobie/viewer/SourceNameEncoder.java:36-68 | for valueBits in 16..63, a 16-bit value and an id whose packing fits 32 bits, decoding returns the id and the value |
| SourceNames.DefaultRoundTrip | src/main/java/org/embl/mobie/viewer/SourceNameEncoder.java:36-68 | with the default valueBits 16, every 16-bit value and 16-bit id round-trip |
| SourceNames.NarrowValueBitsBreakGetValue | src/main/java/org/embl/mobie/viewer/SourceNameEncoder.java:52-65 | with valueBits below 16 the hard-coded 16-bit mask picks up id bits: encoding value 0 for id 1 decodes to a non-zero value |
| SourceNames.AddToTableProperties | src/main/java/org/embl/mobie/viewer/SourceNameEncoder.java:26-34 | `addName` keeps ids dense and the two maps mutually inverse; a known name changes nothing (idempotent); a new name gets the count and the count grows by one; no id changes |
| SourceNames.AddAllToTableProperties | src/main/java/org/embl/mobie/viewer/SourceNameEncoder.java:18-24 | `addNames` registers every name, keeps the table valid, never changes an existing id, numbers new names from the old count up |
| SourceNames.SourceNameEncoder.constructor | src/main/java/org/embl/mobie/viewer/SourceNameEncoder.java:12-16 | the static state starts empty with count 0 and valueBits 16 |
| SourceNames.SourceNameEncoder.AddName | src/main/java/org/embl/mobie/viewer/SourceNameEncoder.java:26-34 | the new table is `addName` of the old and stays valid |
| SourceNames.SourceNameEncoder.AddNames | src/main/java/org/embl/mobie/viewer/SourceNameEncoder.java:18-24 | the loop registers the names in iteration order and keeps the table valid |
| SourceNames.SourceNameEncoder.IdOf | src/main/java/org/embl/mobie/viewer/SourceNameEncoder.java:65 | a registered name has an id below count that maps back to it |
| SourceNames.SourceNameEncoder.EncodeName | src/main/java/org/embl/mobie/viewer/SourceNameEncoder.java:62-68 | fails (null unboxing) exactly for an unregistered name; otherwise a 32-bit value |
| SourceNames.SourceNameEncoder.GetName | src/main/java/org/embl/mobie/viewer/SourceNameEncoder.java:36-41 | a name comes back exactly when the shifted-out id is a registered one, and it is the name registered under that id; otherwise null |
| SourceNames.SourceNameEncoder.EncodeNameRoundTrip | src/main/java/org/embl/mobie/viewer/SourceNameEncoder.java:36-68 | a sample encoded for a registered name decodes to that name and to the original value |
| MergedGrid.LastIndexOf | src/main/java/org/embl/mobie/viewer/source/MergedGridSource.java:243-254 | the last index holding a value, or none: later puts override earlier ones |
| MergedGrid.CreateCellKeyToSource | src/main/java/org/embl/mobie/viewer/source/MergedGridSource.java:241-256 | the loop builds the fold of puts "key of position i maps to image i" |
| MergedGrid.CellMinInjective | src/main/java/org/embl/mobie/viewer/source/MergedGridSource.java:246-251 | with positive cell sizes, two positions share a key exactly when they are equal |
| MergedGrid.ScaleCancels | src/main/java/org/embl/mobie/viewer/source/MergedGridSource.java:249 | position times a positive cell size determines the position |
| MergedGrid.CellKeyMapDomain | src/main/java/org/embl/mobie/viewer/source/MergedGridSource.java:241-256 | the keys of the map are exactly the keys of the listed positions |
| MergedGrid.CellKeyMapLookup | src/main/java/org/embl/mobie/viewer/source/MergedGridSource.java:241-256 | a position's cell is owned exactly when the position is listed, by the image at the last index listing it |
| MergedGrid.SameLastIndex | src/main/java/org/embl/mobie/viewer/source/MergedGridSource.java:246-251 | with positive cell sizes, the last index listing a position and the last index listing its key coincide |
| MergedGrid.Names | src/main/java/org/embl/mobie/viewer/source/MergedGridSource.java:272 | the image names in list order |
| MergedGrid.CreateSourceNameToTranslation | src/main/java/org/embl/mobie/viewer/source/MergedGridSource.java:258-276 | the loop builds the fold of puts "name of image i maps to the centring offset in the cell of position i" |
| MergedGrid.TranslationMapLookup | src/main/java/org/embl/mobie/viewer/source/MergedGridSource.java:258-276 | a name is a key exactly when some image carries it, and maps to the offset in the cell of the last such image, computed from the one data size given |
| MergedGrid.ReferenceDataFits | src/main/java/org/embl/mobie/viewer/source/MergedGridSource.java:437-440 | with a non-negative margin, data of the reference image's size placed in any level-0 cell lies wholly inside it |
| MergedGrid.Cell.constructor | src/main/java/org/embl/mobie/viewer/source/MergedGridSource.java:422 | the cell buffer handed to the loader: fresh, of the cell's size, zero-filled |
| MergedGrid.CellLoader.constructor | src/main/java/org/embl/mobie/viewer/source/MergedGridSource.java:415-420 | the loader keeps its key map and level |
| MergedGrid.CellLoader.Load | src/main/java/org/embl/mobie/viewer/source/MergedGridSource.java:422-464 | a cell with no image is left unchanged; otherwise every data voxel lands at its centred position, raw or encoded with the image's id, and every other voxel keeps its value; an unregistered name with encoding writes the first voxel raw and then fails, unless the data is empty, when the copy loop never runs and nothing fails or changes |
| MergedGrid.CellLoader.CopyData | src/main/java/org/embl/mobie/viewer/source/MergedGridSource.java:437-462 | the three copy loops write every voxel of the data box, raw or encoded, and leave every other voxel unchanged |
| MergedGrid.MergedGridSource.constructor | src/main/java/org/embl/mobie/viewer/source/MergedGridSource.java:83-96 | cell sizes follow the plan from the first image; every level has its extent, key map and loader at time point 0; the translations come from level 0 and the reference data size |
| MergedGrid.MergedGridSource.CreateMergedLevels | src/main/java/org/embl/mobie/viewer/source/MergedGridSource.java:134-163 | every level is built for its cell size; the translation map is made once, at level 0, from the reference image's data size |
| MergedGrid.MergedGridSource.CreateLevels | src/main/java/org/embl/mobie/viewer/source/MergedGridSource.java:138-160 | the level loop builds level l for cell size l, for every l |
| MergedGrid.MergedGridSource.LevelsBuiltAt | src/main/java/org/embl/mobie/viewer/source/MergedGridSource.java:138-160 | a list of built levels has level l built for cell size l |
| MergedGrid.MergedGridSource.CreateMergedLevel | src/main/java/org/embl/mobie/viewer/source/MergedGridSource.java:140-159 | one level: the grid extent at its cell size, the key map of the positions at that size, and a loader for that level at time point 0 |
| MergedGrid.MergedGridSource.GetSource | src/main/java/org/embl/mobie/viewer/source/MergedGridSource.java:354-361 | only time point 0 is accepted (UnsupportedOperation otherwise); a level past the last is out of bounds |
| MergedGrid.MergedGridSource.IsPresent | src/main/java/org/embl/mobie/viewer/source/MergedGridSource.java:348-351 | presence is the reference image's |
| MergedGrid.MergedGridSource.GetNumMipmapLevels | src/main/java/org/embl/mobie/viewer/source/MergedGridSource.java:400-403 | the level count is the reference image's, and once every level is built it is exactly the levels `getSource` serves |
| FRAGrid.MaxFromZero | src/main/java/org/embl/mobie/viewer/source/FRAGridSource.java:234-241 | the running maximum starts from 0: non-negative, bounds every position, and is 0 or attained |
| FRAGrid.GridMaxima | src/main/java/org/embl/mobie/viewer/source/FRAGridSource.java:234-241 | the first loop computes both maxima from 0 |
| FRAGrid.CreateSourceGrid | src/main/java/org/embl/mobie/viewer/source/FRAGridSource.java:232-251 | fails exactly when a position is negative or has no image; otherwise a fresh (maxX+1) by (maxY+1) array whose entry [x, y] is the last image listed at (x, y), empty elsewhere |
| FRAGrid.PlaceSources | src/main/java/org/embl/mobie/viewer/source/FRAGridSource.java:244-248 | the second loop stores the last index at each position and stops at the first bad one |
| FRAGrid.CreateLevelIntervals | src/main/java/org/embl/mobie/viewer/source/FRAGridSource.java:147-149 | each level's interval is the grid extent at that level's cell size |
| FRAGrid.UnmarginedLevel0 | src/main/java/org/embl/mobie/viewer/source/FRAGridSource.java:216-223 | with the margin forced to 0, level-0 x/y is the reference size rounded up to a multiple of the factor product |
| FRAGrid.CellIndexWithinGrid | src/main/java/org/embl/mobie/viewer/source/FRAGridSource.java:134-137 | a location inside the extent has a cell index between 0 and the largest position |
| FRAGrid.QuotientBelow | src/main/java/org/embl/mobie/viewer/source/FRAGridSource.java:134-137 | a location below k cells has a cell index below k |
| FRAGrid.FRAGridSource.constructor | src/main/java/org/embl/mobie/viewer/source/FRAGridSource.java:77-90 | the margin argument is ignored (0); the cells follow the unmargined plan; the source grid and the level intervals are built from the positions |
| FRAGrid.FRAGridSource.GridEntryOf | src/main/java/org/embl/mobie/viewer/source/FRAGridSource.java:134-143 | a location inside a level's interval falls in a cell of the source grid, which holds the last image listed there |
| FRAGrid.FRAGridSource.Sample | src/main/java/org/embl/mobie/viewer/source/FRAGridSource.java:132-143 | corrected lookup: succeeds exactly when an image is placed at the location's cell, reading the last such image at the local coordinate; an empty cell fails with a null dereference |
| FRAGrid.FRAGridSource.SampleAsWritten | src/main/java/org/embl/mobie/viewer/source/FRAGridSource.java:132-143 | as written: throughout the first column the remainder by the x cell index divides by zero (ArithmeticException) before the cell's image is dereferenced; elsewhere a null dereference exactly for a cell without an image, otherwise the owner's voxel at the as-written local coordinate |
| FRAGrid.FRAGridSource.FirstColumnFailsAsWritten | src/main/java/org/embl/mobie/viewer/source/FRAGridSource.java:138-139 | in the first column the as-written lookup fails even where the corrected one reads an image |
| FRAGrid.FRAGridSource.GetSource | src/main/java/org/embl/mobie/viewer/source/FRAGridSource.java:349-356 | only time point 0 is accepted; a level past the last is out of bounds; otherwise the level's interval |
| FRAGrid.FRAGridSource.IsPresent | src/main/java/org/embl/mobie/viewer/source/FRAGridSource.java:343-346 | presence is the reference image's |
| FRAGrid.FRAGridSource.GetNumMipmapLevels | src/main/java/org/embl/mobie/viewer/source/FRAGridSource.java:395-398 | the level count is the reference image's, and in a valid grid source it is exactly the levels `getSource` serves |
| GridTransformer.CeilSqrt | src/main/java/org/embl/mobie/viewer/transform/MergedGridSourceTransformer.java:217 | `ceil(sqrt(n))` is the least k with k * k >= n |
| GridTransformer.CreatePositions | src/main/java/org/embl/mobie/viewer/transform/MergedGridSourceTransformer.java:214-233 | the counter loop produces n positions, position i at (i mod numX, i div numX) |
| GridTransformer.AutoPositionsLayout | src/main/java/org/embl/mobie/viewer/transform/MergedGridSourceTransformer.java:221-230 | generated positions are pairwise distinct, with x and y both in [0, numX) |
| GridTransformer.FivePositions | src/main/java/org/embl/mobie/viewer/transform/MergedGridSourceTransformer.java:217-229 | five images give (0,0), (1,0), (2,0), (0,1), (1,1) |
| GridTransformer.GetGridSources | src/main/java/org/embl/mobie/viewer/transform/MergedGridSourceTransformer.java:204-212 | one entry per listed name, in order, null for a missing name |
| GridTransformer.CollectImages | src/main/java/org/embl/mobie/viewer/transform/MergedGridSourceTransformer.java:193 | the images of the names in order, or a null dereference exactly when some name has no entry |
| GridTransformer.Images | src/main/java/org/embl/mobie/viewer/transform/MergedGridSourceTransformer.java:193 | one image per listed name |
| GridTransformer.GeneratedLayoutAccepted | src/main/java/org/embl/mobie/viewer/transform/MergedGridSourceTransformer.java:77-79 | with generated positions, only a missing name can make `transform` fail |
| GridTransformer.MergedGridSourceTransformer.constructor | src/main/java/org/embl/mobie/viewer/transform/MergedGridSourceTransformer.java:56-60 | the serialized fields as given |
| GridTransformer.MergedGridSourceTransformer.Transform | src/main/java/org/embl/mobie/viewer/transform/MergedGridSourceTransformer.java:66-91 | afterwards centerAtOrigin is false; positions are generated only when absent; it fails exactly as the Java code throws; on success only the grid's name is written, with a fresh grid source over the named images |
| GridTransformer.CreateMergedGrid | src/main/java/org/embl/mobie/viewer/transform/MergedGridSourceTransformer.java:79-80 | fails exactly as `transform` throws once the layout is known; on success only the grid's name is written, with a fresh grid source over the named images |
| Cropping.Intersect | src/main/java/de/embl/cba/mobie2/transform/CroppedSource.java:93 | the intersection lies within both intervals or is empty |
| Cropping.DisjointIffEmpty | src/main/java/de/embl/cba/mobie2/transform/CroppedSource.java:89-94 | the intersection is empty exactly when the crop and the extent share no voxel: a disjoint crop gives an empty interval, not an error |
| Cropping.CropIntervals | src/main/java/de/embl/cba/mobie2/transform/CroppedSource.java:84-95 | exactly the levels 0 .. numLevels - 1 get an interval |
| Cropping.StoredIntervals | src/main/java/de/embl/cba/mobie2/transform/CroppedSource.java:85-95 | each level's interval lies within that level's extent at time point 0 (or is empty) and keeps exactly the voxels in both crop and extent |
| Cropping.CroppedSource.constructor | src/main/java/de/embl/cba/mobie2/transform/CroppedSource.java:70-79 | fields as given; the intervals are computed once, at construction |
| Cropping.CroppedSource.Unnamed | src/main/java/de/embl/cba/mobie2/transform/CroppedSource.java:59-68 | no name; the intervals are computed once, at construction |
| Cropping.CroppedSource.InitCropIntervals | src/main/java/de/embl/cba/mobie2/transform/CroppedSource.java:81-96 | the loop stores one intersected interval per level, from time point 0 |
| Cropping.CroppedSource.GetSource | src/main/java/de/embl/cba/mobie2/transform/CroppedSource.java:107-117 | the level's stored interval, whatever t is; with zeroMin the minimum is 0 and the size unchanged, otherwise original coordinates; voxel values are the wrapped source's; a level without an interval fails |
| Cropping.CroppedSource.GetName | src/main/java/de/embl/cba/mobie2/transform/CroppedSource.java:140-145 | the given name if non-null, otherwise the wrapped source's |
| Cropping.CroppedSource.IsPresent | src/main/java/de/embl/cba/mobie2/transform/CroppedSource.java:102-105 | presence is the wrapped source's |
| Cropping.CroppedSource.GetNumMipmapLevels | src/main/java/de/embl/cba/mobie2/transform/CroppedSource.java:152-155 | the level count is the wrapped source's |
| Cropping.CroppedSource.ZeroMinShowsSameData | src/main/java/de/embl/cba/mobie2/transform/CroppedSource.java:108-116 | after construction every level can be read, and the zero-min view shows the same voxels shifted by the interval minimum |
| ViewModel.LastListing | src/main/java/org/embl/mobie/viewer/view/View.java:72-87 | the last list naming a name, or none |
| ViewModel.PutNamesLookup | src/main/java/org/embl/mobie/viewer/view/View.java:74-77 | the inner loop's puts: named keys map to the opener, all else unchanged |
| ViewModel.AssignLookup | src/main/java/org/embl/mobie/viewer/view/View.java:72-87 | after a run of puts the last list naming a name wins; unnamed keys keep their entry |
| ViewModel.ImagesKeys | src/main/java/org/embl/mobie/viewer/view/View.java:68-90 | the keys are exactly the display source names and the transformation target names |
| ViewModel.TransformationWins | src/main/java/org/embl/mobie/viewer/view/View.java:80-87 | a name any transformation targets maps to the last such transformation, overriding displays |
| ViewModel.LastDisplayWins | src/main/java/org/embl/mobie/viewer/view/View.java:72-78 | a name only displays name maps to the last display listing it |
| ViewModel.View.constructor | src/main/java/org/embl/mobie/viewer/view/View.java:49-56 | the five fields as given, name null |
| ViewModel.View.WithoutViewerTransform | src/main/java/org/embl/mobie/viewer/view/View.java:58-64 | the four-argument constructor leaves the viewer transform null |
| ViewModel.View.GetTransformations | src/main/java/org/embl/mobie/viewer/view/View.java:97-103 | a null list reads as empty |
| ViewModel.View.GetSourceDisplays | src/main/java/org/embl/mobie/viewer/view/View.java:105-111 | a null list reads as empty |
| ViewModel.View.SetName | src/main/java/org/embl/mobie/viewer/view/View.java:128-131 | sets the name and nothing else |
| ViewModel.View.GetImages | src/main/java/org/embl/mobie/viewer/view/View.java:68-90 | the nested loops build the map specified by all display puts followed by all transformation puts |
| ViewModel.PutAll | src/main/java/org/embl/mobie/viewer/view/View.java:74-77 | the inner loop equals the put-each-name fold |

## Left out

- Chunk caching, eviction and concurrent cell loading. These live in imglib2's cached cell image; only the body of `load` is modelled.
- Floating point: voxel sizes and downsampling factors from affine column norms, `setCellRealDimensions`, `setMask`, `computeTranslationOffset`, the affine bound estimate of the crop, interpolation, and `getSourceTransform`. Replacements:
  - factors are given as positive integers per level and axis;
  - the margin is a rational `num / den`;
  - the crop is given as its per-level integer interval.
- `ceil(sqrt(n))` is taken as the exact integer ceiling square root. Doubles compute this exactly for every `int` n.
- Java `int` overflow of position × cell size, of the cell-size arithmetic, and of the `asInts` casts: integers are unbounded here.
- The 64-bit width of the encoder's count is not modelled.
- The volatile twin that `createMergedSourceAndConverter` builds next to the grid source, and the converters.
- `Transform`: named entries that are themselves grid sources (nested grids) are excluded by its precondition. The 'every image has valid factors and at least one level' precondition stands in for the floating-point factor derivation.
- `MergedGridSource.constructor` and `FRAGridSource.constructor`: empty positions, more positions than images, and (for the FRA grid) negative positions are preconditions, not modelled exceptions. `Transform` models these failures before it calls the constructor.
- The `RELATIVE_CELL_MARGIN` constant is defined in a class that is not part of this model. `Transform` passes no margin, which the FRA grid source ignores anyway.
- `CellLoader.Load`: data that does not fit inside the cell is a precondition. The Java code would write outside the cell buffer.
- The static `SourceNameEncoder` tables are one object passed to the loader.
- `getName` of the volatile type, `getType`, `getVoxelDimensions`, `getWrappedSource`, `doBoundingBoxCulling`, `getInterpolatedSource`, the getters of `View` that only return a field, `MergedGridSourceTransformer.getSources`, and `toString`. Each only returns a field or delegates to library code.
- `SourceNames.SourceNameEncoder.GetName` takes the id by an arithmetic shift of the stored non-negative value. Negative stored values cannot occur for an unsigned type.
- Every image is taken to have at least as many resolution levels as the reference (first) image: `Pyramid.volume` answers every level, so `CellLoader.Load` and the FRA lookup read level l of an image without the failure Java would meet asking an image with fewer levels for it.
- The FRA lookup is modelled for the image at level `level` and time point 0, as the lambda reads it. The `FunctionRandomAccessible` around it is library code.

## Findings

| source | as written | input that shows it | evidently intended | confidence | as-written member | corrected member |
|---|---|---|---|---|---|---|
| src/main/java/org/embl/mobie/viewer/source/FRAGridSource.java:138-139 | local x and y are `location % xCellIndex`; y also uses the x cell index | any location with x below the cell width (x cell index 0) divides by zero; with x in the second column the local x is always 0 | `location % cellDimension[d]` per axis | high, not executed | GridGeometry.LocalCoordinatesAsWritten, FRAGrid.FRAGridSource.SampleAsWritten, FRAGrid.FRAGridSource.FirstColumnFailsAsWritten, GridGeometry.AsWrittenDividesByZeroInFirstColumn, GridGeometry.AsWrittenCollapsesSecondColumn | GridGeometry.LocalCoordinates, FRAGrid.FRAGridSource.Sample |
