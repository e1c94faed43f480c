/**
 * Shared value types of the mosaic model: option/result wrappers for the
 * Java methods that return null or throw, three-component integer vectors
 * for voxel coordinates and extents, grid positions, and the pyramid
 * (multi-resolution image source) that every grid cell is backed by.
 */
module Common {

  datatype Option<+T> = None | Some(value: T)

  /** The exceptions the modelled Java code can raise, one tag each. */
  datatype Error =
    | NoSuchElement          // stream max/min over an empty position list
    | IndexOutOfBounds       // List.get / array index past the end
    | NullPointer            // unboxing or dereferencing a missing map entry
    | UnsupportedOperation   // a time point other than 0 on a grid source
    | Arithmetic             // integer division or remainder by zero

  datatype Result<+T> = Ok(value: T) | Err(error: Error)

  /** A voxel coordinate or extent: Java's `long[3]` / `int[3]`. */
  datatype Vec3 = Vec3(x: int, y: int, z: int)
  {
    /** The component on axis `d`, as `v[d]` in Java. */
    function At(d: nat): int
      requires d < 3
    {
      if d == 0 then x else if d == 1 then y else z
    }
  }

  /** A cell of the planar mosaic layout: Java's `int[]{x, y}`. */
  datatype GridPosition = GridPosition(x: int, y: int)
  {
    /** The component on grid axis `d`, as `position[d]` in Java. */
    function At(d: nat): int
      requires d < 2
    {
      if d == 0 then x else y
    }
  }

  /**
   * One resolution level of an image at one time point, as imglib2 exposes
   * it: an interval starting at `min` with `dims` voxels per axis, and the
   * voxel values on it.
   */
  datatype Volume = Volume(min: Vec3, dims: Vec3, at: Vec3 -> int)

  /**
   * A multi-resolution source (bdv `Source`). `factors[l]` is the per-axis
   * downsampling factor from level l - 1 to level l, which the Java code
   * derives from affine column norms; `factors[0]` is unused, like the zero
   * row of the Java array. `volume(t, l)` is `getSource(t, l)`.
   */
  datatype Pyramid = Pyramid(
    name: string,
    present: int -> bool,
    factors: seq<Vec3>,
    volume: (int, nat) -> Volume)
  {
    function NumLevels(): nat { |factors| }
  }

  /** Multiplying by a non-negative number keeps the order. */
  lemma MultiplyMonotonic(a: int, b: int, c: int)
    requires a <= b && c >= 0
    ensures a * c <= b * c
  {
    assert b * c - a * c == (b - a) * c;
  }

  /** Euclidean quotient and remainder are unique. */
  lemma DivUnique(x: int, b: int, q: int, r: int)
    requires b > 0 && 0 <= r < b && x == q * b + r
    ensures x / b == q && x % b == r
  {
    var q', r' := x / b, x % b;
    assert (q - q') * b == r' - r;
    if q > q' {
      MultiplyMonotonic(1, q - q', b);
    } else if q < q' {
      MultiplyMonotonic(1, q' - q, b);
    }
  }
}
