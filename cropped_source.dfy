/**
 * A source restricted to a box. At construction every resolution level
 * gets one voxel interval: the crop box in that level's voxel coordinates,
 * intersected with the level's extent at time point 0. Reading a level
 * returns the wrapped data restricted to that interval, optionally moved
 * so that its minimum is the origin.
 */
module Cropping {
  import opened Common

  /** An imglib2 integer interval: inclusive minimum and maximum per axis. */
  datatype Interval = Interval(min: Vec3, max: Vec3)

  function Max(a: int, b: int): int { if a >= b then a else b }
  function Min(a: int, b: int): int { if a <= b then a else b }

  predicate Contains(interval: Interval, p: Vec3)
  {
    && interval.min.x <= p.x <= interval.max.x
    && interval.min.y <= p.y <= interval.max.y
    && interval.min.z <= p.z <= interval.max.z
  }

  /** Some axis has its maximum below its minimum: no voxel lies inside. */
  predicate IsEmpty(interval: Interval)
  {
    interval.max.x < interval.min.x || interval.max.y < interval.min.y || interval.max.z < interval.min.z
  }

  /** Every voxel of `inner` lies in `outer`, axis by axis. */
  predicate Within(inner: Interval, outer: Interval)
  {
    && outer.min.x <= inner.min.x && inner.max.x <= outer.max.x
    && outer.min.y <= inner.min.y && inner.max.y <= outer.max.y
    && outer.min.z <= inner.min.z && inner.max.z <= outer.max.z
  }

  /** The interval a volume covers: `min` to `min + dims - 1`. */
  function Extent(volume: Volume): Interval
  {
    Interval(volume.min, Vec3(volume.min.x + volume.dims.x - 1,
                              volume.min.y + volume.dims.y - 1,
                              volume.min.z + volume.dims.z - 1))
  }

  /** `Intervals.intersect`: the larger minimum and the smaller maximum on each axis. */
  function Intersect(a: Interval, b: Interval): (r: Interval)
    ensures Within(r, a) || IsEmpty(r)
    ensures Within(r, b) || IsEmpty(r)
  {
    Interval(Vec3(Max(a.min.x, b.min.x), Max(a.min.y, b.min.y), Max(a.min.z, b.min.z)),
             Vec3(Min(a.max.x, b.max.x), Min(a.max.y, b.max.y), Min(a.max.z, b.max.z)))
  }

  /** A voxel is in the intersection exactly when it is in both intervals. */
  lemma IntersectContains(a: Interval, b: Interval, p: Vec3)
    ensures Contains(Intersect(a, b), p) <==> Contains(a, p) && Contains(b, p)
  {
  }

  /**
   * A crop that shares no voxel with the extent yields an empty interval,
   * and an empty intersection means the two share no voxel.
   */
  lemma {:induction false} DisjointIffEmpty(a: Interval, b: Interval)
    ensures IsEmpty(Intersect(a, b)) <==> forall p :: !(Contains(a, p) && Contains(b, p))
  {
    var r := Intersect(a, b);
    if IsEmpty(r) {
      forall p
        ensures !(Contains(a, p) && Contains(b, p))
      {
        IntersectContains(a, b, p);
      }
    } else {
      IntersectContains(a, b, r.min);
    }
  }

  /** The number of voxels per axis, `max - min + 1`, as `Interval.dimension`. */
  function Size(interval: Interval): Vec3
  {
    Vec3(interval.max.x - interval.min.x + 1, interval.max.y - interval.min.y + 1, interval.max.z - interval.min.z + 1)
  }

  function Add(a: Vec3, b: Vec3): Vec3
  {
    Vec3(a.x + b.x, a.y + b.y, a.z + b.z)
  }

  /** The per-level intervals `initCropIntervals` stores, from the extents at time point 0. */
  function CropIntervals(source: Pyramid, crop: nat -> Interval): (r: map<int, Interval>)
    ensures forall level :: level in r <==> 0 <= level < source.NumLevels()
  {
    map level: nat | level < source.NumLevels() :: Intersect(Extent(source.volume(0, level)), crop(level))
  }

  /**
   * Every level gets exactly one interval, it lies inside that level's
   * extent at time point 0 unless it is empty, and it keeps only voxels
   * that are both in the crop and in the extent.
   */
  lemma StoredIntervals(source: Pyramid, crop: nat -> Interval, level: nat, p: Vec3)
    requires level < source.NumLevels()
    ensures level in CropIntervals(source, crop)
    ensures var stored := CropIntervals(source, crop)[level]; var extent := Extent(source.volume(0, level));
      && (Within(stored, extent) || IsEmpty(stored))
      && (Contains(stored, p) <==> Contains(extent, p) && Contains(crop(level), p))
  {
    IntersectContains(Extent(source.volume(0, level)), crop(level), p);
  }

  /**
   * `CroppedSource`. The crop box in each level's voxel coordinates (the
   * smallest interval containing the inverse-transformed real box) is
   * given as `crop`.
   */
  class CroppedSource {
    const source: Pyramid
    const name: Option<string>
    const crop: nat -> Interval
    const zeroMin: bool
    var levelToVoxelInterval: map<int, Interval>

    /** The constructor without a name: the wrapped source's name is used. */
    constructor Unnamed(source: Pyramid, crop: nat -> Interval, zeroMin: bool)
      ensures this.source == source && this.name == None && this.crop == crop && this.zeroMin == zeroMin
      ensures levelToVoxelInterval == CropIntervals(source, crop)
    {
      this.source := source;
      this.name := None;
      this.crop := crop;
      this.zeroMin := zeroMin;
      new;
      InitCropIntervals();
    }

    /** The constructor with a name; a null name falls back to the wrapped source's. */
    constructor (source: Pyramid, name: Option<string>, crop: nat -> Interval, zeroMin: bool)
      ensures this.source == source && this.name == name && this.crop == crop && this.zeroMin == zeroMin
      ensures levelToVoxelInterval == CropIntervals(source, crop)
    {
      this.source := source;
      this.name := name;
      this.crop := crop;
      this.zeroMin := zeroMin;
      new;
      InitCropIntervals();
    }

    /** `initCropIntervals`: one entry per level, the crop intersected with the level's extent. */
    method InitCropIntervals()
      modifies this
      ensures levelToVoxelInterval == CropIntervals(source, crop)
    {
      levelToVoxelInterval := map[];
      for level := 0 to source.NumLevels()
        invariant forall l :: l in levelToVoxelInterval <==> 0 <= l < level
        invariant forall l :: 0 <= l < level ==>
          levelToVoxelInterval[l] == Intersect(Extent(source.volume(0, l)), crop(l))
      {
        var rai := source.volume(0, level);
        var intersect := Intersect(Extent(rai), crop(level));
        levelToVoxelInterval := levelToVoxelInterval[level := intersect];
      }
    }

    /**
     * `getSource`: the wrapped volume at (t, level) restricted to the
     * interval stored for the level (computed at time point 0, whatever t
     * is), with its minimum moved to the origin when `zeroMin` is set. A
     * level without an interval makes `Views.interval` dereference null.
     */
    function GetSource(t: int, level: nat): (r: Result<Volume>)
      reads this
      ensures r.Err? <==> level !in levelToVoxelInterval
      ensures r.Err? ==> r.error == NullPointer
      ensures r.Ok? ==>
        var interval := levelToVoxelInterval[level];
        && r.value.dims == Size(interval)
        && r.value.min == (if zeroMin then Vec3(0, 0, 0) else interval.min)
        && forall p :: r.value.at(p) == source.volume(t, level).at(if zeroMin then Add(p, interval.min) else p)
    {
      if level !in levelToVoxelInterval then Err(NullPointer)
      else
        var rai := source.volume(t, level);
        var interval := levelToVoxelInterval[level];
        var croppedRai := Volume(interval.min, Size(interval), rai.at);
        if zeroMin then Ok(Volume(Vec3(0, 0, 0), croppedRai.dims, p => croppedRai.at(Add(p, interval.min))))
        else Ok(croppedRai)
    }

    /** `getName`: the given name when there is one, else the wrapped source's. */
    function GetName(): (r: string)
      ensures name.Some? ==> r == name.value
      ensures name.None? ==> r == source.name
    {
      if name.Some? then name.value else source.name
    }

    /** `isPresent`: delegated to the wrapped source. */
    function IsPresent(t: int): (r: bool)
      ensures r == source.present(t)
    {
      source.present(t)
    }

    /** `getNumMipmapLevels`: delegated to the wrapped source. */
    function GetNumMipmapLevels(): (r: nat)
      ensures r == source.NumLevels()
    {
      source.NumLevels()
    }

    /**
     * After construction, every level of the wrapped source can be read,
     * and the voxel at `p` of a zero-min view is the voxel at `p + min` of
     * the view in original coordinates: the two modes show the same data.
     */
    lemma ZeroMinShowsSameData(t: int, level: nat, p: Vec3)
      requires levelToVoxelInterval == CropIntervals(source, crop)
      requires level < source.NumLevels()
      ensures GetSource(t, level).Ok?
      ensures var interval := levelToVoxelInterval[level];
        GetSource(t, level).value.at(if zeroMin then p else Add(p, interval.min))
          == source.volume(t, level).at(Add(p, interval.min))
    {
    }
  }
}
