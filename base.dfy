/**
 * Shared vocabulary of the curvelet operator model: the errors the Python code
 * raises, numpy element types, complex numbers, and N-dimensional arrays held as
 * a shape plus a flat, row-major data sequence.
 */
module Base {

  datatype Option<+T> = None | Some(value: T)

  datatype Result<+R, +E> = Success(value: R) | Failure(error: E)

  /** Every exception the modelled code can raise, named after its cause. */
  datatype Error =
    | AxisOutOfRange(axis: int, ndim: nat)      // numpy's normalize_axis_index raises AxisError
    | EmptyMinimum                              // min() of an empty sequence: ValueError
    | LogOfZero                                 // int(ceil(log2(0) - 3)) is int(-inf): OverflowError
    | UnsupportedDimension(count: nat)          // "FDCT is only implemented in 2D or 3D"
    | UnsupportedDType(dtype: DType)            // "Only complex types supported"
    | ArityMismatch(expected: nat, given: nat)  // FDCT2D / FDCT3D called with the wrong number of directions
    | MissingTableEntry                         // IndexError while reading nys[i][j] or nzs[i][j]
    | ReshapeMismatch                           // numpy reshape to a shape of a different size
    | EmptyConcatenate                          // np.concatenate of an empty list
    | ScaleCountMismatch(nbscales: int, given: nat) // native inverse: "nbscales != len(c)"
    | IndexOutOfRange                           // IndexError on args[0] or ary.shape[axis]
    | NonPositiveSections                       // np.array_split: "number sections must be larger than 0."
    | UnequalDivision                           // np.split: "array split does not result in an equal division"
    | DivisionByZero                            // np.split computes N % 0
    | NegativeDimensions                        // np.empty with a negative extent
    | EmptyArgmax                               // argmax of an empty array

  /** The numpy element types an operator can be asked for. */
  datatype DType =
    | Bool | Int8 | Int16 | Int32 | Int64 | UInt8 | UInt16 | UInt32 | UInt64
    | Float16 | Float32 | Float64 | LongDouble
    | Complex64 | Complex128 | CLongDouble

  /** np.issubdtype(dtype, np.complexfloating) */
  predicate IsComplexFloating(dt: DType)
  {
    dt == Complex64 || dt == Complex128 || dt == CLongDouble
  }

  /** A complex sample; the model never computes with it, it only moves it. */
  datatype Complex = Complex(re: real, im: real)

  const Zero: Complex := Complex(0.0, 0.0)

  /** Product of extents (np.prod); 1 for the empty shape. */
  function Prod(s: seq<nat>): nat
  {
    if |s| == 0 then 1 else s[0] * Prod(s[1..])
  }

  /** An N-dimensional array: its extents and its elements in row-major order. */
  datatype NdArray<T> = NdArray(shape: seq<nat>, data: seq<T>)

  /** The data holds exactly one element per multi-index of the shape. */
  predicate WellFormed<T>(a: NdArray<T>)
  {
    |a.data| == Prod(a.shape)
  }
}
