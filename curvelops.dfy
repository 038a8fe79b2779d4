/**
 * The FDCT linear operator of curvelops/curvelops.py: construction (direction
 * normalisation, dispatch on the number of directions, dtype check, batch
 * iterator, wedge-shape table, output length and operator shape), `struct`,
 * the forward `_matvec`, the adjoint `_rmatvec` and `inverse`, and the arity
 * checks of FDCT2D and FDCT3D.
 *
 * The native CurveLab wrappers are not modelled: their three entry points for
 * each dimension are opaque functions handed to the operator in `Kernels`.
 */
module Curvelops {
  import opened Base
  import opened RowMajor
  import opened AxisIterator
  import opened Codec

  /** Which pair of native wrappers the operator calls (lines 82-95). */
  datatype Kind = TwoD | ThreeD

  /** A forward wrapper: `(nbscales, nbangles_coarse, allcurvelets, slice)` to `[scale][wedge]` coefficients. */
  type ForwardKernel = (int, int, bool, NdArray<Complex>) -> CStruct<Complex>

  /** An inverse wrapper: `(*input_shape, nbscales, nbangles_coarse, allcurvelets, c)` to a slice. */
  type InverseKernel = (seq<nat>, int, int, bool, CStruct<Complex>) -> NdArray<Complex>

  /**
   * The native entry points, as opaque functions. `fdct2d_param_wrap`
   * returns `(nxs, nys)` and `fdct3d_param_wrap` returns `(nxs, nys, nzs)`;
   * the other outputs of the parameter queries are discarded by the operator.
   * Every entry point receives the slice extents `*_input_shape` as a list.
   */
  datatype Kernels = Kernels(
    param2: (seq<nat>, int, int, bool) -> (seq<seq<nat>>, seq<seq<nat>>),
    forward2: ForwardKernel,
    inverse2: InverseKernel,
    param3: (seq<nat>, int, int, bool) -> (seq<seq<nat>>, seq<seq<nat>>, seq<seq<nat>>),
    forward3: ForwardKernel,
    inverse3: InverseKernel)

  // ---------------------------------------------------------------------------
  // The default number of scales, ceil(log2(min(input_shape)) - 3) (line 79).

  function Pow2(k: nat): (r: nat)
    ensures r >= 1
  {
    if k == 0 then 1 else 2 * Pow2(k - 1)
  }

  /** The least `k` with `m <= 2^k`. */
  function CeilLog2(m: nat): nat
    requires m >= 1
  {
    if m == 1 then 0 else 1 + CeilLog2((m + 1) / 2)
  }

  /** `CeilLog2(m)` is the exponent of the least power of two not below `m`. */
  lemma {:induction false} CeilLog2Spec(m: nat)
    requires m >= 1
    ensures m <= Pow2(CeilLog2(m))
    ensures CeilLog2(m) > 0 ==> Pow2(CeilLog2(m) - 1) < m
  {
    if m > 1 {
      var h := (m + 1) / 2;
      CeilLog2Spec(h);
    }
  }

  /** Smallest extent: Python's `min` of a non-empty list. */
  function Min(s: seq<nat>): (r: nat)
    requires |s| > 0
    ensures r in s && forall k :: 0 <= k < |s| ==> r <= s[k]
  {
    if |s| == 1 then s[0]
    else
      var m := Min(s[1..]);
      assert m in s;
      if s[0] <= m then s[0] else m
  }

  /**
   * `int(np.ceil(np.log2(min(input_shape)) - 3))`: `min` of an empty list
   * raises, `log2(0)` is minus infinity and `int` of it raises, otherwise the
   * ceiling of log2 of the smallest extent, less 3.
   */
  function DefaultScales(inputShape: seq<nat>): (r: Result<int, Error>)
    ensures |inputShape| == 0 ==> r == Failure(EmptyMinimum)
    ensures |inputShape| > 0 && 0 in inputShape ==> r == Failure(LogOfZero)
    ensures |inputShape| > 0 && 0 !in inputShape ==> r.Success?
    ensures r.Success? ==>
      exists k :: 0 <= k < |inputShape| &&
        (forall k' :: 0 <= k' < |inputShape| ==> inputShape[k] <= inputShape[k']) &&
        inputShape[k] >= 1 && r.value + 3 >= 0 &&
        inputShape[k] <= Pow2(r.value + 3) && (r.value + 3 > 0 ==> Pow2(r.value + 2) < inputShape[k])
  {
    if |inputShape| == 0 then Failure(EmptyMinimum)
    else
      var m := Min(inputShape);
      if m == 0 then Failure(LogOfZero)
      else
        CeilLog2Spec(m);
        var k :| 0 <= k < |inputShape| && inputShape[k] == m;
        Success(CeilLog2(m) - 3)
  }

  /** The given number of scales, or the default. */
  function ResolveScales(nbscales: Option<int>, inputShape: seq<nat>): Result<int, Error>
  {
    match nbscales
    case Some(n) => Success(n)
    case None => DefaultScales(inputShape)
  }

  // ---------------------------------------------------------------------------
  // Construction (lines 61-147, 200-227).

  /**
   * The tables the shapes are read from, `sizes` of lines 88 and 95, and the
   * table whose lengths drive the loops (`nxs`).
   */
  function ParamTables(kernels: Kernels, kind: Kind, inputShape: seq<nat>, nbscales: int, nbanglesCoarse: int,
                       allcurvelets: bool): (seq<seq<seq<nat>>>, seq<seq<nat>>)
  {
    if kind == TwoD then
      var (nxs, nys) := kernels.param2(inputShape, nbscales, nbanglesCoarse, allcurvelets);
      ([nys, nxs], nxs)
    else
      var (nxs, nys, nzs) := kernels.param3(inputShape, nbscales, nbanglesCoarse, allcurvelets);
      ([nzs, nys, nxs], nxs)
  }

  /** What a successful construction settles: the normalised directions, the scale count, the dimension and the table. */
  datatype Config = Config(dirs: seq<nat>, nbscales: int, kind: Kind, shapes: Table)

  /**
   * The outcome of `FDCT.__init__`, checks in the order the constructor makes
   * them: direction normalisation, the default scale count, the number of
   * directions, the dtype, and the reads of the shape table.
   */
  function Setup(dims: seq<nat>, dirs: seq<int>, nbscales: Option<int>, nbanglesCoarse: int, allcurvelets: bool,
                 dtype: DType, kernels: Kernels): (r: Result<Config, Error>)
    ensures r.Success? ==> |r.value.dirs| == |dirs| && r.value.kind == (if |dirs| == 2 then TwoD else ThreeD)
    ensures r.Success? ==> forall k :: 0 <= k < |r.value.dirs| ==> r.value.dirs[k] < |dims|
  {
    match NormalizeAll(dirs, |dims|)
    case Failure(e) => Failure(e)
    case Success(ds) =>
      var inputShape := InputShape(dims, ds);
      match ResolveScales(nbscales, inputShape)
      case Failure(e) => Failure(e)
      case Success(nb) =>
        if |ds| != 2 && |ds| != 3 then Failure(UnsupportedDimension(|ds|))
        else
          var kind := if |ds| == 2 then TwoD else ThreeD;
          SetupTables(ds, nb, kind, inputShape, nbanglesCoarse, allcurvelets, dtype, kernels)
  }

  /** The part of `Setup` after the dimension check: the parameter query, the dtype check and the shape table. */
  function SetupTables(ds: seq<nat>, nb: int, kind: Kind, inputShape: seq<nat>, nbanglesCoarse: int, allcurvelets: bool,
                       dtype: DType, kernels: Kernels): (r: Result<Config, Error>)
    ensures r.Success? ==> r.value.dirs == ds && r.value.kind == kind
  {
    var (sizes, nxs) := ParamTables(kernels, kind, inputShape, nb, nbanglesCoarse, allcurvelets);
    if !IsComplexFloating(dtype) then Failure(UnsupportedDType(dtype))
    else if !Covers(sizes, nxs) then Failure(MissingTableEntry)
    else Success(Config(ds, nb, kind, ShapeTable(sizes, nxs)))
  }

  /**
   * What a construction that gets past the directions guarantees: directions
   * out of range are refused; on success there are two or three directions,
   * the normalised ones, the dtype is complex, the scale count is the one
   * given or the default, and the table is read from the parameter query.
   */
  lemma SetupOutcome(dims: seq<nat>, dirs: seq<int>, nbscales: Option<int>, nbanglesCoarse: int, allcurvelets: bool,
                     dtype: DType, kernels: Kernels)
    ensures var r := Setup(dims, dirs, nbscales, nbanglesCoarse, allcurvelets, dtype, kernels);
      NormalizeAll(dirs, |dims|).Failure? ==> r == Failure(NormalizeAll(dirs, |dims|).error)
    ensures var r := Setup(dims, dirs, nbscales, nbanglesCoarse, allcurvelets, dtype, kernels);
      r.Success? ==>
        && NormalizeAll(dirs, |dims|) == Success(r.value.dirs)
        && (|dirs| == 2 || |dirs| == 3)
        && IsComplexFloating(dtype)
        && ResolveScales(nbscales, InputShape(dims, r.value.dirs)) == Success(r.value.nbscales)
    ensures var r := Setup(dims, dirs, nbscales, nbanglesCoarse, allcurvelets, dtype, kernels);
      r.Success? ==>
        var (sizes, nxs) := ParamTables(kernels, r.value.kind, InputShape(dims, r.value.dirs), r.value.nbscales,
                                        nbanglesCoarse, allcurvelets);
        Covers(sizes, nxs) && r.value.shapes == ShapeTable(sizes, nxs)
  {
    var r := Setup(dims, dirs, nbscales, nbanglesCoarse, allcurvelets, dtype, kernels);
    var norm := NormalizeAll(dirs, |dims|);
    if r.Success? {
      assert norm.Success?;
      var ds := norm.value;
      var inputShape := InputShape(dims, ds);
      var nb := ResolveScales(nbscales, inputShape);
      assert nb.Success? && (|ds| == 2 || |ds| == 3);
      var kind := if |ds| == 2 then TwoD else ThreeD;
      assert r == SetupTables(ds, nb.value, kind, inputShape, nbanglesCoarse, allcurvelets, dtype, kernels);
      assert r.value.dirs == ds && r.value.nbscales == nb.value && r.value.kind == kind;
    }
  }

  /**
   * The refusals past the directions: with any direction count but two or
   * three construction fails with NotImplementedError when `nbscales` is
   * given, or else with that or the error of the default scale count
   * (computed first); with a real dtype it fails with NotImplementedError or
   * that same earlier error.
   */
  lemma SetupRefusals(dims: seq<nat>, dirs: seq<int>, nbscales: Option<int>, nbanglesCoarse: int, allcurvelets: bool,
                      dtype: DType, kernels: Kernels)
    ensures var r := Setup(dims, dirs, nbscales, nbanglesCoarse, allcurvelets, dtype, kernels);
      NormalizeAll(dirs, |dims|).Success? && !(|dirs| == 2 || |dirs| == 3) ==>
        r.Failure? && r.error in {EmptyMinimum, LogOfZero, UnsupportedDimension(|dirs|)}
    ensures var r := Setup(dims, dirs, nbscales, nbanglesCoarse, allcurvelets, dtype, kernels);
      NormalizeAll(dirs, |dims|).Success? && !(|dirs| == 2 || |dirs| == 3) && nbscales.Some? ==>
        r == Failure(UnsupportedDimension(|dirs|))
    ensures var r := Setup(dims, dirs, nbscales, nbanglesCoarse, allcurvelets, dtype, kernels);
      NormalizeAll(dirs, |dims|).Success? && (|dirs| == 2 || |dirs| == 3) && !IsComplexFloating(dtype) ==>
        r.Failure? && r.error in {EmptyMinimum, LogOfZero, UnsupportedDType(dtype)}
  {
    var norm := NormalizeAll(dirs, |dims|);
    if norm.Success? {
      var ds := norm.value;
      var inputShape := InputShape(dims, ds);
      var nb := ResolveScales(nbscales, inputShape);
      if nb.Success? && (|ds| == 2 || |ds| == 3) {
        var kind := if |ds| == 2 then TwoD else ThreeD;
        assert Setup(dims, dirs, nbscales, nbanglesCoarse, allcurvelets, dtype, kernels)
            == SetupTables(ds, nb.value, kind, inputShape, nbanglesCoarse, allcurvelets, dtype, kernels);
      }
    }
  }

  /** Wedge `(i, j)` of `shapes` is `(nys[i][j], nxs[i][j])`. */
  predicate Wedges2D(shapes: Table, nxs: seq<seq<nat>>, nys: seq<seq<nat>>)
  {
    && |shapes| == |nxs|
    && forall i, j :: 0 <= i < |nxs| && 0 <= j < |nxs[i]| ==>
         i < |nys| && j < |nys[i]| && j < |shapes[i]| && shapes[i][j] == [nys[i][j], nxs[i][j]]
  }

  /** Wedge `(i, j)` of `shapes` is `(nzs[i][j], nys[i][j], nxs[i][j])`. */
  predicate Wedges3D(shapes: Table, nxs: seq<seq<nat>>, nys: seq<seq<nat>>, nzs: seq<seq<nat>>)
  {
    && |shapes| == |nxs|
    && forall i, j :: 0 <= i < |nxs| && 0 <= j < |nxs[i]| ==>
         i < |nzs| && j < |nzs[i]| && i < |nys| && j < |nys[i]| && j < |shapes[i]| &&
         shapes[i][j] == [nzs[i][j], nys[i][j], nxs[i][j]]
  }

  /** In 2D the wedge `(i, j)` has shape `(nys[i][j], nxs[i][j])`: rows first, as numpy holds the coefficients. */
  lemma {:induction false} Shapes2D(nys: seq<seq<nat>>, nxs: seq<seq<nat>>)
    requires Covers([nys, nxs], nxs)
    ensures |ShapeTable([nys, nxs], nxs)| == |nxs|
    ensures forall i, j :: 0 <= i < |nxs| && 0 <= j < |nxs[i]| ==>
      i < |nys| && j < |nys[i]| && ShapeTable([nys, nxs], nxs)[i][j] == [nys[i][j], nxs[i][j]]
    ensures Wedges2D(ShapeTable([nys, nxs], nxs), nxs, nys)
  {
    var sizes := [nys, nxs];
    var t := ShapeTable(sizes, nxs);
    assert sizes[0] == nys && sizes[1] == nxs && |sizes| == 2;
    forall i, j | 0 <= i < |nxs| && 0 <= j < |nxs[i]|
      ensures i < |nys| && j < |nys[i]| && t[i][j] == [nys[i][j], nxs[i][j]]
    {
      assert |t[i][j]| == 2 && t[i][j][0] == sizes[0][i][j] && t[i][j][1] == sizes[1][i][j];
    }
  }

  /** In 3D the wedge `(i, j)` has shape `(nzs[i][j], nys[i][j], nxs[i][j])`. */
  lemma {:induction false} Shapes3D(nzs: seq<seq<nat>>, nys: seq<seq<nat>>, nxs: seq<seq<nat>>)
    requires Covers([nzs, nys, nxs], nxs)
    ensures |ShapeTable([nzs, nys, nxs], nxs)| == |nxs|
    ensures forall i, j :: 0 <= i < |nxs| && 0 <= j < |nxs[i]| ==>
      i < |nzs| && j < |nzs[i]| && i < |nys| && j < |nys[i]| &&
      ShapeTable([nzs, nys, nxs], nxs)[i][j] == [nzs[i][j], nys[i][j], nxs[i][j]]
    ensures Wedges3D(ShapeTable([nzs, nys, nxs], nxs), nxs, nys, nzs)
  {
    var sizes := [nzs, nys, nxs];
    var t := ShapeTable(sizes, nxs);
    assert sizes[0] == nzs && sizes[1] == nys && sizes[2] == nxs && |sizes| == 3;
    forall i, j | 0 <= i < |nxs| && 0 <= j < |nxs[i]|
      ensures i < |nzs| && j < |nzs[i]| && i < |nys| && j < |nys[i]|
      ensures t[i][j] == [nzs[i][j], nys[i][j], nxs[i][j]]
    {
      assert |t[i][j]| == 3 && t[i][j][0] == sizes[0][i][j] && t[i][j][1] == sizes[1][i][j]
          && t[i][j][2] == sizes[2][i][j];
    }
  }

  /**
   * What a successful construction stores: a given `nbscales` is kept, an
   * omitted one is the default for `_input_shape`, and the wedge `(i, j)` has
   * shape `(nys[i][j], nxs[i][j])` in 2D and `(nzs[i][j], nys[i][j], nxs[i][j])`
   * in 3D, read from the parameter query for `_input_shape` and that scale count.
   */
  lemma SetupShapes(dims: seq<nat>, dirs: seq<int>, nbscales: Option<int>, nbanglesCoarse: int, allcurvelets: bool,
                    dtype: DType, kernels: Kernels)
    ensures var r := Setup(dims, dirs, nbscales, nbanglesCoarse, allcurvelets, dtype, kernels);
      r.Success? ==>
        && (nbscales.Some? ==> r.value.nbscales == nbscales.value)
        && (nbscales.None? ==> DefaultScales(InputShape(dims, r.value.dirs)) == Success(r.value.nbscales))
    ensures var r := Setup(dims, dirs, nbscales, nbanglesCoarse, allcurvelets, dtype, kernels);
      r.Success? && |dirs| == 2 ==>
        var q := kernels.param2(InputShape(dims, r.value.dirs), r.value.nbscales, nbanglesCoarse, allcurvelets);
        Wedges2D(r.value.shapes, q.0, q.1)
    ensures var r := Setup(dims, dirs, nbscales, nbanglesCoarse, allcurvelets, dtype, kernels);
      r.Success? && |dirs| == 3 ==>
        var q := kernels.param3(InputShape(dims, r.value.dirs), r.value.nbscales, nbanglesCoarse, allcurvelets);
        Wedges3D(r.value.shapes, q.0, q.1, q.2)
  {
    var r := Setup(dims, dirs, nbscales, nbanglesCoarse, allcurvelets, dtype, kernels);
    var norm := NormalizeAll(dirs, |dims|);
    if r.Success? {
      assert norm.Success?;
      var ds := norm.value;
      var inputShape := InputShape(dims, ds);
      var nb := ResolveScales(nbscales, inputShape);
      assert nb.Success? && (|ds| == 2 || |ds| == 3);
      var kind := if |ds| == 2 then TwoD else ThreeD;
      assert r == SetupTables(ds, nb.value, kind, inputShape, nbanglesCoarse, allcurvelets, dtype, kernels);
      TablesShapes(ds, nb.value, kind, inputShape, nbanglesCoarse, allcurvelets, dtype, kernels);
      assert r.value.dirs == ds && r.value.nbscales == nb.value;
    }
  }

  /** The shapes `SetupTables` stores, read from the parameter query of its kind. */
  lemma TablesShapes(ds: seq<nat>, nb: int, kind: Kind, inputShape: seq<nat>, nbanglesCoarse: int, allcurvelets: bool,
                     dtype: DType, kernels: Kernels)
    ensures var r := SetupTables(ds, nb, kind, inputShape, nbanglesCoarse, allcurvelets, dtype, kernels);
      r.Success? ==> r.value.nbscales == nb
    ensures var r := SetupTables(ds, nb, kind, inputShape, nbanglesCoarse, allcurvelets, dtype, kernels);
      r.Success? && kind == TwoD ==>
        var q := kernels.param2(inputShape, nb, nbanglesCoarse, allcurvelets);
        Wedges2D(r.value.shapes, q.0, q.1)
    ensures var r := SetupTables(ds, nb, kind, inputShape, nbanglesCoarse, allcurvelets, dtype, kernels);
      r.Success? && kind == ThreeD ==>
        var q := kernels.param3(inputShape, nb, nbanglesCoarse, allcurvelets);
        Wedges3D(r.value.shapes, q.0, q.1, q.2)
  {
    var r := SetupTables(ds, nb, kind, inputShape, nbanglesCoarse, allcurvelets, dtype, kernels);
    if r.Success? {
      assert r.value.nbscales == nb;
      if kind == TwoD {
        var (nxs, nys) := kernels.param2(inputShape, nb, nbanglesCoarse, allcurvelets);
        assert ParamTables(kernels, TwoD, inputShape, nb, nbanglesCoarse, allcurvelets) == ([nys, nxs], nxs);
        assert r.value.shapes == ShapeTable([nys, nxs], nxs);
        Shapes2D(nys, nxs);
      } else {
        var (nxs, nys, nzs) := kernels.param3(inputShape, nb, nbanglesCoarse, allcurvelets);
        assert ParamTables(kernels, ThreeD, inputShape, nb, nbanglesCoarse, allcurvelets) == ([nzs, nys, nxs], nxs);
        assert r.value.shapes == ShapeTable([nzs, nys, nxs], nxs);
        Shapes3D(nzs, nys, nxs);
      }
    }
  }

  /** The normalised directions are ascending and distinct (they are not checked by the source). */
  predicate AscendingDirs(dims: seq<nat>, dirs: seq<int>)
  {
    NormalizeAll(dirs, |dims|).Success? ==> StrictlyAscending(NormalizeAll(dirs, |dims|).value)
  }

  /**
   * The checks and the shape-table loops of `FDCT.__init__`, up to the point
   * where the attributes are stored.
   */
  method Configure(dims: seq<nat>, dirs: seq<int>, nbscales: Option<int>, nbanglesCoarse: int, allcurvelets: bool,
                   dtype: DType, kernels: Kernels) returns (r: Result<Config, Error>)
    ensures r == Setup(dims, dirs, nbscales, nbanglesCoarse, allcurvelets, dtype, kernels)
  {
    var normalised := NormalizeAll(dirs, |dims|);
    if normalised.Failure? {
      return Failure(normalised.error);
    }
    var ds := normalised.value;
    var inputShape := InputShape(dims, ds);
    var nb := ResolveScales(nbscales, inputShape);
    if nb.Failure? {
      return Failure(nb.error);
    }
    if |ds| != 2 && |ds| != 3 {
      return Failure(UnsupportedDimension(|ds|));
    }
    var kind := if |ds| == 2 then TwoD else ThreeD;
    r := ConfigureTables(ds, nb.value, kind, inputShape, nbanglesCoarse, allcurvelets, dtype, kernels);
  }

  /** The parameter query, the dtype check and the shape-table loops of `FDCT.__init__`. */
  method ConfigureTables(ds: seq<nat>, nb: int, kind: Kind, inputShape: seq<nat>, nbanglesCoarse: int, allcurvelets: bool,
                         dtype: DType, kernels: Kernels) returns (r: Result<Config, Error>)
    ensures r == SetupTables(ds, nb, kind, inputShape, nbanglesCoarse, allcurvelets, dtype, kernels)
  {
    var (sizes, nxs) := ParamTables(kernels, kind, inputShape, nb, nbanglesCoarse, allcurvelets);
    if !IsComplexFloating(dtype) {
      return Failure(UnsupportedDType(dtype));
    }
    var shapes := BuildShapes(sizes, nxs);
    if shapes.Failure? {
      return Failure(shapes.error);
    }
    return Success(Config(ds, nb, kind, shapes.value));
  }

  /** `FDCT(dims, dirs, nbscales, nbangles_coarse, allcurvelets, dtype)`. */
  method Create(dims: seq<nat>, dirs: seq<int>, nbscales: Option<int>, nbanglesCoarse: int, allcurvelets: bool,
                dtype: DType, kernels: Kernels) returns (r: Result<FDCT, Error>)
    requires AscendingDirs(dims, dirs)
    ensures r.Failure? ==> Setup(dims, dirs, nbscales, nbanglesCoarse, allcurvelets, dtype, kernels) == Failure(r.error)
    ensures r.Success? ==>
      && Setup(dims, dirs, nbscales, nbanglesCoarse, allcurvelets, dtype, kernels) ==
         Success(Config(r.value.dirs, r.value.nbscales, if |r.value.dirs| == 2 then TwoD else ThreeD, r.value.shapes))
      && r.value.Valid()
      && r.value.dims == dims && r.value.nbanglesCoarse == nbanglesCoarse && r.value.allcurvelets == allcurvelets
      && r.value.dtype == dtype
      && r.value.fdct == (if |r.value.dirs| == 2 then kernels.forward2 else kernels.forward3)
      && r.value.ifdct == (if |r.value.dirs| == 2 then kernels.inverse2 else kernels.inverse3)
  {
    var config := Configure(dims, dirs, nbscales, nbanglesCoarse, allcurvelets, dtype, kernels);
    if config.Failure? {
      return Failure(config.error);
    }
    var c := config.value;
    var fdct, ifdct := kernels.forward2, kernels.inverse2;
    if c.kind == ThreeD {
      fdct, ifdct := kernels.forward3, kernels.inverse3;
    }
    var op := new FDCT(dims, c.dirs, c.nbscales, nbanglesCoarse, allcurvelets, dtype, fdct, ifdct, c.shapes);
    return Success(op);
  }

  /** `FDCT2D`: exactly two directions, then the general constructor. */
  method Create2D(dims: seq<nat>, dirs: seq<int>, nbscales: Option<int>, nbanglesCoarse: int, allcurvelets: bool,
                  dtype: DType, kernels: Kernels) returns (r: Result<FDCT, Error>)
    requires |dirs| == 2 ==> AscendingDirs(dims, dirs)
    ensures |dirs| != 2 ==> r == Failure(ArityMismatch(2, |dirs|))
    ensures |dirs| == 2 && r.Failure? ==>
      Setup(dims, dirs, nbscales, nbanglesCoarse, allcurvelets, dtype, kernels) == Failure(r.error)
    ensures r.Success? ==>
      && Setup(dims, dirs, nbscales, nbanglesCoarse, allcurvelets, dtype, kernels) ==
         Success(Config(r.value.dirs, r.value.nbscales, TwoD, r.value.shapes))
      && r.value.Valid() && r.value.fdct == kernels.forward2 && r.value.ifdct == kernels.inverse2
  {
    if |dirs| != 2 {
      return Failure(ArityMismatch(2, |dirs|));
    }
    r := Create(dims, dirs, nbscales, nbanglesCoarse, allcurvelets, dtype, kernels);
  }

  /** `FDCT3D`: exactly three directions, then the general constructor. */
  method Create3D(dims: seq<nat>, dirs: seq<int>, nbscales: Option<int>, nbanglesCoarse: int, allcurvelets: bool,
                  dtype: DType, kernels: Kernels) returns (r: Result<FDCT, Error>)
    requires |dirs| == 3 ==> AscendingDirs(dims, dirs)
    ensures |dirs| != 3 ==> r == Failure(ArityMismatch(3, |dirs|))
    ensures |dirs| == 3 && r.Failure? ==>
      Setup(dims, dirs, nbscales, nbanglesCoarse, allcurvelets, dtype, kernels) == Failure(r.error)
    ensures r.Success? ==>
      && Setup(dims, dirs, nbscales, nbanglesCoarse, allcurvelets, dtype, kernels) ==
         Success(Config(r.value.dirs, r.value.nbscales, ThreeD, r.value.shapes))
      && r.value.Valid() && r.value.fdct == kernels.forward3 && r.value.ifdct == kernels.inverse3
  {
    if |dirs| != 3 {
      return Failure(ArityMismatch(3, |dirs|));
    }
    r := Create(dims, dirs, nbscales, nbanglesCoarse, allcurvelets, dtype, kernels);
  }

  // ---------------------------------------------------------------------------
  // The `(_output_len, _ndim_iterable)` matrix of the forward and adjoint
  // loops, held row-major: entry `(k, i)` is position `k * N + i`.

  /** The ravel of the matrix whose column `i` is `cols[i]`. */
  function Interleave<T>(cols: seq<seq<T>>, len: nat): (r: seq<T>)
    requires forall i :: 0 <= i < |cols| ==> |cols[i]| == len
    ensures |r| == len * |cols|
  {
    seq(len * |cols|, t requires 0 <= t < len * |cols| =>
      DivBelow(t, len, |cols|);
      cols[t % |cols|][t / |cols|])
  }

  /** `y.reshape(len, n)[:, i]`. */
  function ColumnOf<T>(y: seq<T>, len: nat, n: nat, i: nat): (c: seq<T>)
    requires |y| == len * n && i < n
    ensures |c| == len
  {
    seq(len, k requires 0 <= k < len =>
      MulMonoStep(k, len, n);
      y[k * n + i])
  }

  /** Position `k * N + i` of the ravel holds element `k` of column `i`: the column index varies fastest. */
  lemma InterleaveAt<T>(cols: seq<seq<T>>, len: nat, k: nat, i: nat)
    requires forall i :: 0 <= i < |cols| ==> |cols[i]| == len
    requires k < len && i < |cols|
    ensures k * |cols| + i < len * |cols|
    ensures Interleave(cols, len)[k * |cols| + i] == cols[i][k]
  {
    MulMonoStep(k, len, |cols|);
    DivModUnique(k, |cols|, i);
  }

  /** Reading column `i` of a ravelled matrix gives back the column written there. */
  lemma ColumnOfInterleave<T>(cols: seq<seq<T>>, len: nat, i: nat)
    requires forall i :: 0 <= i < |cols| ==> |cols[i]| == len
    requires i < |cols|
    ensures ColumnOf(Interleave(cols, len), len, |cols|, i) == cols[i]
  {
    forall k | 0 <= k < len ensures ColumnOf(Interleave(cols, len), len, |cols|, i)[k] == cols[i][k] {
      InterleaveAt(cols, len, k, i);
    }
  }

  /** `fwd_out[:, i] = v`: column `i` is overwritten, every other entry kept. */
  method WriteColumn<T>(m: array2<T>, i: nat, v: seq<T>)
    requires i < m.Length1 && |v| == m.Length0
    modifies m
    ensures forall k, j :: 0 <= k < m.Length0 && 0 <= j < m.Length1 ==>
      m[k, j] == if j == i then v[k] else old(m[k, j])
  {
    forall k | 0 <= k < m.Length0 {
      m[k, i] := v[k];
    }
  }

  /** `fwd_out.ravel()`. */
  function RavelMatrix<T>(m: array2<T>): (r: seq<T>)
    reads m
    ensures |r| == m.Length0 * m.Length1
  {
    seq(m.Length0 * m.Length1, t requires 0 <= t < m.Length0 * m.Length1 reads m =>
      DivBelow(t, m.Length0, m.Length1);
      m[t / m.Length1, t % m.Length1])
  }

  /** A matrix holding `cols` as its columns ravels to their interleaving. */
  lemma RavelColumns<T>(m: array2<T>, cols: seq<seq<T>>)
    requires |cols| == m.Length1 && forall i :: 0 <= i < |cols| ==> |cols[i]| == m.Length0
    requires forall k, i :: 0 <= k < m.Length0 && 0 <= i < m.Length1 ==> m[k, i] == cols[i][k]
    ensures RavelMatrix(m) == Interleave(cols, m.Length0)
  {
    var r, s := RavelMatrix(m), Interleave(cols, m.Length0);
    assert |r| == |s|;
    forall t | 0 <= t < |r| ensures r[t] == s[t] {
      DivBelow(t, m.Length0, m.Length1);
    }
  }

  // ---------------------------------------------------------------------------
  // The operator.

  class FDCT {
    const dims: seq<nat>
    const dirs: seq<nat>
    const nbscales: int
    const nbanglesCoarse: int
    const allcurvelets: bool
    const dtype: DType
    const fdct: ForwardKernel
    const ifdct: InverseKernel
    const inputShape: seq<nat>
    const iterable: seq<bool>
    const ndimIterable: nat
    const tuples: seq<seq<IndexEntry>>
    const shapes: Table
    const outputLen: nat
    const shape: (nat, nat)

    /** The relations `__init__` establishes between the attributes. */
    predicate Valid()
    {
      && (|dirs| == 2 || |dirs| == 3)
      && (forall k :: 0 <= k < |dirs| ==> dirs[k] < |dims|)
      && StrictlyAscending(dirs)
      && inputShape == InputShape(dims, dirs)
      && iterable == IterableAxes(|dims|, dirs)
      && ndimIterable == Prod(Filter(dims, iterable)) == Prod(Units(dims, iterable))
      && Prod(inputShape) == Prod(Units(dims, Negate(iterable)))
      && tuples == Iterator(dims, iterable)
      && outputLen == OutputLen(shapes)
      && shape == (ndimIterable * outputLen, Prod(dims))
      && IsComplexFloating(dtype)
    }

    constructor (dims: seq<nat>, dirs: seq<nat>, nbscales: int, nbanglesCoarse: int, allcurvelets: bool,
                 dtype: DType, fdct: ForwardKernel, ifdct: InverseKernel, shapes: Table)
      requires |dirs| == 2 || |dirs| == 3
      requires forall k :: 0 <= k < |dirs| ==> dirs[k] < |dims|
      requires StrictlyAscending(dirs) && IsComplexFloating(dtype)
      ensures Valid()
      ensures this.dims == dims && this.dirs == dirs && this.nbscales == nbscales
      ensures this.nbanglesCoarse == nbanglesCoarse && this.allcurvelets == allcurvelets
      ensures this.dtype == dtype && this.fdct == fdct && this.ifdct == ifdct && this.shapes == shapes
    {
      var iterable := IterableAxes(|dims|, dirs);
      ProdUnits(dims, iterable);
      ProdUnits(dims, Negate(iterable));
      InputShapeIsFilter(dims, dirs);
      this.dims := dims;
      this.dirs := dirs;
      this.nbscales := nbscales;
      this.nbanglesCoarse := nbanglesCoarse;
      this.allcurvelets := allcurvelets;
      this.dtype := dtype;
      this.fdct := fdct;
      this.ifdct := ifdct;
      this.inputShape := InputShape(dims, dirs);
      this.iterable := iterable;
      this.ndimIterable := Prod(Filter(dims, iterable));
      this.tuples := Iterator(dims, iterable);
      this.shapes := shapes;
      this.outputLen := OutputLen(shapes);
      this.shape := (Prod(Filter(dims, iterable)) * OutputLen(shapes), Prod(dims));
    }

    /** The iterator has one entry per slice: entry `i` is the `i`-th row-major index tuple. */
    lemma TuplesAreEntries()
      requires Valid()
      ensures |tuples| == ndimIterable
      ensures forall i :: 0 <= i < ndimIterable ==> tuples[i] == Entry(dims, iterable, i)
    {
      IteratorSpec(dims, iterable);
    }

    /** `x.reshape(dims)[tuples[i]]`, the slice handed to the forward transform. */
    function Slice(x: seq<Complex>, i: nat): (a: NdArray<Complex>)
      requires Valid() && |x| == Prod(dims) && i < ndimIterable
      ensures a.shape == inputShape && WellFormed(a)
      ensures a.data == Slices(x, dims, iterable)[i]
    {
      TuplesAreEntries();
      NdArray(inputShape, Slices(x, dims, iterable)[i])
    }

    /** The forward wrapper returns well-formed wedges with the shapes of the table. */
    ghost predicate ForwardFits()
    {
      forall a: NdArray<Complex> :: a.shape == inputShape && WellFormed(a) ==>
        LeafShapes(fdct(nbscales, nbanglesCoarse, allcurvelets, a)) == shapes &&
        WellFormedStruct(fdct(nbscales, nbanglesCoarse, allcurvelets, a))
    }

    /** The inverse wrapper returns a well-formed slice of `_input_shape` for a structure of the table's shapes. */
    ghost predicate InverseFits()
    {
      forall c: CStruct<Complex> :: LeafShapes(c) == shapes && WellFormedStruct(c) ==>
        ifdct(inputShape, nbscales, nbanglesCoarse, allcurvelets, c).shape == inputShape &&
        WellFormed(ifdct(inputShape, nbscales, nbanglesCoarse, allcurvelets, c))
    }

    /** The inverse wrapper with its own check "nbscales != len(c)". */
    function InverseCall(c: CStruct<Complex>): (r: Result<NdArray<Complex>, Error>)
      ensures r.Failure? <==> nbscales != |c|
      ensures r.Failure? ==> r.error == ScaleCountMismatch(nbscales, |c|)
      ensures r.Success? ==> r.value == ifdct(inputShape, nbscales, nbanglesCoarse, allcurvelets, c)
    {
      if nbscales != |c| then Failure(ScaleCountMismatch(nbscales, |c|))
      else Success(ifdct(inputShape, nbscales, nbanglesCoarse, allcurvelets, c))
    }

    // -------------------------------------------------------------------------
    // struct (lines 181-191).

    /**
     * Cuts `x` into the wedges of the table, scale by scale and wedge by wedge;
     * the reshape of a block fails when `x` runs out, and elements past
     * `_output_len` are never read.
     */
    method Struct(x: seq<Complex>) returns (r: Result<CStruct<Complex>, Error>)
      requires outputLen == OutputLen(shapes)
      ensures r == StructSpec(shapes, x)
      ensures r.Success? <==> outputLen <= |x|
      ensures r.Success? ==> LeafShapes(r.value) == shapes && WellFormedStruct(r.value)
      ensures r.Success? ==> Concat(r.value) == x[..outputLen]
    {
      var cStruct: CStruct<Complex> := [];
      var k := 0;
      for i := 0 to |shapes|
        invariant k == OutputLen(shapes[..i]) && k <= |x|
        invariant cStruct == StructOf(shapes[..i], x)
      {
        var angles: seq<NdArray<Complex>> := [];
        var base := k;
        for j := 0 to |shapes[i]|
          invariant k == base + ScaleLen(shapes[i][..j]) && k <= |x|
          invariant angles == ScaleOf(shapes[i][..j], x, base)
        {
          var size := Prod(shapes[i][j]);
          if k + size > |x| {
            assert Offset(shapes, i, j) == k;
            return Failure(ReshapeMismatch);
          }
          ScaleOfStep(shapes[i], x, base, j);
          angles := angles + [NdArray(shapes[i][j], x[k .. k + size])];
          k := k + size;
        }
        assert shapes[i][..|shapes[i]|] == shapes[i];
        OutputLenStep(shapes, i);
        StructOfStep(shapes, x, i);
        cStruct := cStruct + [angles];
      }
      assert shapes[..|shapes|] == shapes;
      StructShapes(shapes, x);
      ConcatStruct(shapes, x);
      return Success(cStruct);
    }

    // -------------------------------------------------------------------------
    // The forward operator (lines 149-160).

    /** `vect(fdct(slice i))`: the coefficients of slice `i`. */
    function Coefficients(x: seq<Complex>, i: nat): (c: seq<Complex>)
      requires Valid() && ForwardFits() && |x| == Prod(dims) && i < ndimIterable
      ensures |c| == outputLen
    {
      var s := fdct(nbscales, nbanglesCoarse, allcurvelets, Slice(x, i));
      ConcatLen(s);
      Concat(s)
    }

    /** The coefficients of every slice, in iterator order. */
    function AllCoefficients(x: seq<Complex>): (cols: seq<seq<Complex>>)
      requires Valid() && ForwardFits() && |x| == Prod(dims)
      ensures |cols| == ndimIterable && forall i :: 0 <= i < ndimIterable ==> |cols[i]| == outputLen
    {
      seq(ndimIterable, i requires 0 <= i < ndimIterable => Coefficients(x, i))
    }

    /**
     * The forward operator as a whole: nothing to do without slices; the
     * reshape of `x` fails when its size is not `prod(dims)`; concatenating a
     * structure without wedges fails; otherwise the ravel of the matrix whose
     * column `i` is the coefficient vector of slice `i`.
     */
    function MatvecSpec(x: seq<Complex>): (r: Result<seq<Complex>, Error>)
      requires Valid() && ForwardFits()
      ensures r.Success? <==> ndimIterable == 0 || (|x| == Prod(dims) && HasLeaf(shapes))
      ensures r.Failure? ==> r.error == (if |x| != Prod(dims) then ReshapeMismatch else EmptyConcatenate)
      ensures r.Success? ==> |r.value| == outputLen * ndimIterable
    {
      if ndimIterable == 0 then Success([])
      else if |x| != Prod(dims) then Failure(ReshapeMismatch)
      else if !HasLeaf(shapes) then Failure(EmptyConcatenate)
      else Success(Interleave(AllCoefficients(x), outputLen))
    }

    /** Output position `k * N + i` holds coefficient `k` of slice `i`: the batch index varies fastest. */
    lemma MatvecLayout(x: seq<Complex>, k: nat, i: nat)
      requires Valid() && ForwardFits() && |x| == Prod(dims) && HasLeaf(shapes)
      requires k < outputLen && i < ndimIterable
      ensures MatvecSpec(x).Success? && k * ndimIterable + i < |MatvecSpec(x).value|
      ensures MatvecSpec(x).value[k * ndimIterable + i] == Coefficients(x, i)[k]
    {
      InterleaveAt(AllCoefficients(x), outputLen, k, i);
    }

    method Matvec(x: seq<Complex>) returns (r: Result<seq<Complex>, Error>)
      requires Valid() && ForwardFits()
      ensures r == MatvecSpec(x)
    {
      var fwdOut := new Complex[outputLen, ndimIterable]((_, _) => Zero);
      var err := ForwardColumns(x, fwdOut);
      if err.Some? {
        return Failure(err.value);
      }
      if ndimIterable > 0 {
        RavelColumns(fwdOut, AllCoefficients(x));
      }
      return Success(RavelMatrix(fwdOut));
    }

    /**
     * The loop of `_matvec`: column `i` of `fwd_out` receives the coefficients
     * of slice `i`, and the loop stops at the first slice whose reshape or
     * concatenation fails.
     */
    method ForwardColumns(x: seq<Complex>, fwdOut: array2<Complex>) returns (err: Option<Error>)
      requires Valid() && ForwardFits()
      requires fwdOut.Length0 == outputLen && fwdOut.Length1 == ndimIterable
      modifies fwdOut
      ensures err.Some? <==> ndimIterable > 0 && (|x| != Prod(dims) || !HasLeaf(shapes))
      ensures err.Some? ==> err.value == (if |x| != Prod(dims) then ReshapeMismatch else EmptyConcatenate)
      ensures err.None? && ndimIterable > 0 ==>
        && |x| == Prod(dims)
        && (forall k, i :: 0 <= k < outputLen && 0 <= i < ndimIterable ==> fwdOut[k, i] == Coefficients(x, i)[k])
    {
      TuplesAreEntries();
      for i := 0 to |tuples|
        invariant i > 0 ==> |x| == Prod(dims) && HasLeaf(shapes)
        invariant forall k, i' :: 0 <= k < outputLen && 0 <= i' < i ==> fwdOut[k, i'] == Coefficients(x, i')[k]
      {
        if |x| != Prod(dims) {
          return Some(ReshapeMismatch);
        }
        var xShaped := Slice(x, i);
        var cStruct := fdct(nbscales, nbanglesCoarse, allcurvelets, xShaped);
        var v := Vect(cStruct);
        LeavesOfTable(cStruct, shapes);
        if v.Failure? {
          return Some(v.error);
        }
        assert v.value == Coefficients(x, i);
        WriteColumn(fwdOut, i, v.value);
      }
      return None;
    }

    // -------------------------------------------------------------------------
    // The adjoint (lines 162-179).

    /** `ifdct(struct(y_shaped[:, i]))`: the slice the adjoint writes back for slice `i`. */
    function SliceResult(y: seq<Complex>, i: nat): (a: NdArray<Complex>)
      requires Valid() && InverseFits()
      requires |y| == outputLen * ndimIterable && i < ndimIterable
      ensures a.shape == inputShape && WellFormed(a)
    {
      var column := ColumnOf(y, outputLen, ndimIterable, i);
      StructShapes(shapes, column);
      ifdct(inputShape, nbscales, nbanglesCoarse, allcurvelets, StructOf(shapes, column))
    }

    /** The slices the adjoint writes back, in iterator order. */
    function AllSliceResults(y: seq<Complex>): (slices: seq<seq<Complex>>)
      requires Valid() && InverseFits() && |y| == outputLen * ndimIterable
      ensures |slices| == ndimIterable
      ensures forall i :: 0 <= i < ndimIterable ==> |slices[i]| == Prod(Units(dims, Negate(iterable)))
    {
      seq(ndimIterable, i requires 0 <= i < ndimIterable => SliceResult(y, i).data)
    }

    /**
     * The adjoint as a whole: the reshape of `y` fails unless it has
     * `_output_len * N` entries; with at least one slice, the inverse wrapper
     * refuses a table whose scale count is not `nbscales`; otherwise the
     * array assembled from the inverse of every column, each in its own slice.
     */
    function RmatvecSpec(y: seq<Complex>): (r: Result<seq<Complex>, Error>)
      requires Valid() && InverseFits()
      ensures r.Success? <==> |y| == outputLen * ndimIterable && (ndimIterable == 0 || |shapes| == nbscales)
      ensures r.Failure? ==>
        r.error == if |y| != outputLen * ndimIterable then ReshapeMismatch else ScaleCountMismatch(nbscales, |shapes|)
      ensures r.Success? ==> |r.value| == Prod(dims)
    {
      if |y| != outputLen * ndimIterable then Failure(ReshapeMismatch)
      else if ndimIterable > 0 && |shapes| != nbscales then Failure(ScaleCountMismatch(nbscales, |shapes|))
      else Success(Scatter(dims, iterable, AllSliceResults(y)))
    }

    /** Element `q` of the slice returned for column `i` lands at `Position(i, q)`, and only there. */
    lemma RmatvecLayout(y: seq<Complex>, i: nat, q: nat)
      requires Valid() && InverseFits() && RmatvecSpec(y).Success?
      requires i < ndimIterable && q < Prod(inputShape)
      ensures Position(dims, iterable, i, q) < Prod(dims)
      ensures RmatvecSpec(y).value[Position(dims, iterable, i, q)] == SliceResult(y, i).data[q]
      ensures forall i', q' :: 0 <= i' < ndimIterable && 0 <= q' < Prod(inputShape) && (i', q') != (i, q) ==>
        Position(dims, iterable, i', q') != Position(dims, iterable, i, q)
    {
      ScatterAt(dims, iterable, AllSliceResults(y), i, q);
      forall i', q' | 0 <= i' < ndimIterable && 0 <= q' < Prod(inputShape) && (i', q') != (i, q)
        ensures Position(dims, iterable, i', q') != Position(dims, iterable, i, q)
      {
        PositionInjective(dims, iterable, i', q', i, q);
      }
    }

    /**
     * `a` holds the slices of the first `i` columns in their regions and zero
     * elsewhere: the state of `inv_out` after `i` rounds of the adjoint loop.
     */
    ghost predicate Assembled(a: seq<Complex>, y: seq<Complex>, i: nat)
      requires Valid() && InverseFits() && |y| == outputLen * ndimIterable && i <= ndimIterable
    {
      |a| == Prod(dims) &&
      forall p :: 0 <= p < Prod(dims) ==>
        SliceOf(dims, iterable, p) < ndimIterable && OffsetIn(dims, iterable, p) < Prod(inputShape) &&
        a[p] == if SliceOf(dims, iterable, p) < i
          then SliceResult(y, SliceOf(dims, iterable, p)).data[OffsetIn(dims, iterable, p)]
          else Zero
    }

    /** Before the first round `inv_out` is all zeros. */
    lemma AssembledInit(a: seq<Complex>, y: seq<Complex>)
      requires Valid() && InverseFits() && |y| == outputLen * ndimIterable
      requires |a| == Prod(dims) && forall p :: 0 <= p < |a| ==> a[p] == Zero
      ensures Assembled(a, y, 0)
    {
      forall p | 0 <= p < Prod(dims)
        ensures SliceOf(dims, iterable, p) < ndimIterable && OffsetIn(dims, iterable, p) < Prod(inputShape)
      {
        SlicesCover(dims, iterable, p);
      }
    }

    /** Writing the slice of column `i` into its region extends the assembled prefix by one. */
    lemma AssembledStep(before: seq<Complex>, after: seq<Complex>, y: seq<Complex>, i: nat)
      requires Valid() && InverseFits() && |y| == outputLen * ndimIterable && i < ndimIterable
      requires Assembled(before, y, i) && |after| == Prod(dims)
      requires forall p :: 0 <= p < Prod(dims) ==>
        after[p] == if SliceOf(dims, iterable, p) == i
          then SliceResult(y, i).data[OffsetIn(dims, iterable, p)]
          else before[p]
      ensures Assembled(after, y, i + 1)
    {
    }

    /** After the last round the assembled array is the scatter of all slices. */
    lemma AssembledAll(a: seq<Complex>, y: seq<Complex>)
      requires Valid() && InverseFits() && |y| == outputLen * ndimIterable
      requires Assembled(a, y, ndimIterable)
      ensures a == Scatter(dims, iterable, AllSliceResults(y))
    {
    }

    method Rmatvec(y: seq<Complex>) returns (r: Result<seq<Complex>, Error>)
      requires Valid() && InverseFits()
      ensures r == RmatvecSpec(y)
    {
      if |y| != outputLen * ndimIterable {
        return Failure(ReshapeMismatch);
      }
      var invOut := new Complex[Prod(dims)](_ => Zero);
      var err := InverseSlices(y, invOut);
      if err.Some? {
        return Failure(err.value);
      }
      return Success(invOut[..]);
    }

    /**
     * The loop of `_rmatvec`: the inverse of column `i` is written back into
     * slice `i` of `inv_out`, and the loop stops at the first column the
     * inverse wrapper refuses.
     */
    method InverseSlices(y: seq<Complex>, invOut: array<Complex>) returns (err: Option<Error>)
      requires Valid() && InverseFits() && |y| == outputLen * ndimIterable
      requires invOut.Length == Prod(dims) && forall p :: 0 <= p < invOut.Length ==> invOut[p] == Zero
      modifies invOut
      ensures err.Some? <==> ndimIterable > 0 && |shapes| != nbscales
      ensures err.Some? ==> err.value == ScaleCountMismatch(nbscales, |shapes|)
      ensures err.None? ==> invOut[..] == Scatter(dims, iterable, AllSliceResults(y))
    {
      TuplesAreEntries();
      AssembledInit(invOut[..], y);
      for i := 0 to |tuples|
        invariant i > 0 ==> |shapes| == nbscales
        invariant Assembled(invOut[..], y, i)
      {
        var column := ColumnOf(y, outputLen, ndimIterable, i);
        var yStruct := Struct(column);
        assert yStruct == Success(StructOf(shapes, column));
        var xinv := InverseCall(yStruct.value);
        if xinv.Failure? {
          return Some(xinv.error);
        }
        assert xinv.value == SliceResult(y, i);
        ghost var before := invOut[..];
        WriteSlice(invOut, dims, iterable, i, xinv.value.data);
        AssembledStep(before, invOut[..], y, i);
      }
      AssembledAll(invOut[..], y);
      return None;
    }

    /**
     * Column `i` of the forward output, cut by `struct`, is the structure the
     * forward wrapper returned for slice `i`: `struct` undoes `vect` inside
     * the operator.
     */
    lemma MatvecColumn(x: seq<Complex>, i: nat)
      requires Valid() && ForwardFits() && |x| == Prod(dims) && HasLeaf(shapes) && i < ndimIterable
      ensures MatvecSpec(x).Success?
      ensures ColumnOf(MatvecSpec(x).value, outputLen, ndimIterable, i) == Coefficients(x, i)
      ensures StructSpec(shapes, Coefficients(x, i)) ==
        Success(fdct(nbscales, nbanglesCoarse, allcurvelets, Slice(x, i)))
    {
      var cols := AllCoefficients(x);
      ColumnOfInterleave(cols, outputLen, i);
      var s := fdct(nbscales, nbanglesCoarse, allcurvelets, Slice(x, i));
      StructOfConcat(s);
    }

    /** The wrappers invert each other on every slice of `_input_shape`. */
    ghost predicate ExactKernels()
    {
      forall a: NdArray<Complex> :: a.shape == inputShape && WellFormed(a) ==>
        ifdct(inputShape, nbscales, nbanglesCoarse, allcurvelets, fdct(nbscales, nbanglesCoarse, allcurvelets, a)) == a
    }

    /**
     * With wrappers that invert each other and a table of `nbscales` scales,
     * the adjoint undoes the forward operator: every column goes back to its
     * own slice and the slices tile the array.
     */
    lemma {:induction false} RoundTrip(x: seq<Complex>)
      requires Valid() && ForwardFits() && InverseFits() && ExactKernels()
      requires |x| == Prod(dims) && HasLeaf(shapes) && |shapes| == nbscales
      ensures MatvecSpec(x).Success? && RmatvecSpec(MatvecSpec(x).value) == Success(x)
    {
      var y := MatvecSpec(x).value;
      var back := AllSliceResults(y);
      var slices := Slices(x, dims, iterable);
      forall i | 0 <= i < ndimIterable ensures back[i] == slices[i] {
        SliceRoundTrip(x, i);
      }
      assert back == slices;
      ScatterSlices(x, dims, iterable);
    }

    /** Slice `i` survives the forward operator followed by the adjoint. */
    lemma SliceRoundTrip(x: seq<Complex>, i: nat)
      requires Valid() && ForwardFits() && InverseFits() && ExactKernels()
      requires |x| == Prod(dims) && HasLeaf(shapes) && i < ndimIterable
      ensures MatvecSpec(x).Success? && SliceResult(MatvecSpec(x).value, i) == Slice(x, i)
    {
      MatvecColumn(x, i);
    }

    /** `inverse` is the adjoint (line 178). */
    method Inverse(x: seq<Complex>) returns (r: Result<seq<Complex>, Error>)
      requires Valid() && InverseFits()
      ensures r == RmatvecSpec(x)
    {
      r := Rmatvec(x);
    }
  }
}
