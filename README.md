# curvelops: the FDCT operator adapter and its array utilities

This project models the core of curvelops, a Python binding that turns the
native CurveLab curvelet transforms into a linear operator. The native
transforms work only on 2D or 3D arrays. The operator applies them to an
N-dimensional array by iterating over the remaining ("batch") axes. It also
converts between one flat coefficient vector and the nested "list of scales,
each a list of wedges" structure.

The model covers two files.

- `curvelops/curvelops.py`, the `FDCT` operator. Construction covers
  direction normalisation, `_input_shape`, the default scale count, dispatch
  on 2 or 3 directions, the dtype check, the batch iterator, the wedge-shape
  table, `_output_len` and `shape`. Then come `struct`, `vect`, `_matvec`,
  `_rmatvec` and `inverse`, and the arity checks of `FDCT2D` and `FDCT3D`.
- `curvelops/utils/_utils.py`: `array_split_nd`, `split_nd`,
  `apply_along_wedges`, `energy_split` and `ndargmax`, with the numpy
  behaviour they depend on (`array_split`, `split`, `concatenate`, `argmax`,
  `unravel_index`).

Modules:

- `Base`: the result and error types, dtypes, and N-d arrays as a shape plus
  row-major data.
- `RowMajor`: `ravel_multi_index` and `unravel_index`.
- `AxisIterator`: the directions, the iterator, and the slice of the array
  each iterator entry selects.
- `Codec`: the shape table, `struct` and `vect`.
- `Curvelops`: the `FDCT` class and its constructors.
- `Utils`: the functions of `_utils.py`.

Three kinds of methods carry the parts of the source that update state:

- methods with loops: the shape-table loop, `struct`, `_matvec`, `_rmatvec`,
  `apply_along_wedges` and `energy_split`;
- methods on arrays: `fwd_out[:, i] = …`, `inv_out[index] = …` and
  `norm_local[irow, icol] = …`;
- the `FDCT` class, whose attributes are set once at construction.

Each method is proved equal to a specification function, and the properties
are proved about those functions.

The native wrappers are not part of this model. `fdct{2,3}d_param_wrap`,
`fdct{2,3}d_forward_wrap` and `fdct{2,3}d_inverse_wrap` are opaque functions
handed to the operator in `Curvelops.Kernels`. The only native behaviour
modelled is the inverse wrapper's check that the number of scales equals
`nbscales`. Some results, such as the round trip, hold only for kernels with
stated properties. Those properties are predicates on the kernels
(`ForwardFits`, `InverseFits`, `ExactKernels`), and the results require them.

Where the code and its documentation disagree, the model follows the code.

- Duplicate directions are not rejected by the constructor. Ascending,
  distinct directions after normalisation are a precondition of
  `Curvelops.Create`. `Curvelops.Create2D` and `Curvelops.Create3D` ask for
  them only when the direction count is the one they accept; with any other
  count they fail before the directions are looked at.
- A direction count other than 2 or 3 raises `NotImplementedError`
  (`UnsupportedDimension`), not a malformed-axes error.
- `array_split_nd` and `split_nd` split axis `ndim - len(args)` first.
  Their docstrings say "axis 0". The two agree only when `len(args) == ndim`.
  When `len(args) > ndim`, the axis is negative and numpy wraps it.
- The tests pass an `axes=` keyword, but the constructor takes `dirs`. The
  model follows `dirs`.

## Model

| member | source | states |
|---|---|---|
| AxisIterator.NormalizeAxis | curvelops/curvelops.py:73 | a direction is accepted exactly when `-ndim <= d < ndim`; the result is `d mod ndim`, below `ndim`; otherwise an AxisError naming `d` and `ndim` |
| AxisIterator.NormalizeAll | curvelops/curvelops.py:73 | normalisation succeeds exactly when every direction is in range; the list keeps its length and each entry is normalised; on failure the error names the first out-of-range direction |
| AxisIterator.InputShapeIsFilter | curvelops/curvelops.py:77 | for ascending directions, `_input_shape` is `dims` keeping exactly the axes that `iterable_axes` (line 110) marks as not iterable |
| AxisIterator.IteratorSpec | curvelops/curvelops.py:116-123 | the iterator has `prod(dims[iterable_axes])` entries (`_ndim_iterable`, line 111); entry `i` has an integer below `dims[a]` on every batch axis and `slice(None)` on every transformed axis; entries come in strictly increasing lexicographic order, the last axis varying fastest |
| AxisIterator.SelectionSize | curvelops/curvelops.py:152 | indexing with any entry selects a block of `dims` with extent 1 on the batch axes, holding `prod(_input_shape)` elements |
| AxisIterator.SelectionIsRowMajor | curvelops/curvelops.py:152 | the selected elements come in row-major order of the transformed axes, so the selection is a `_input_shape` array |
| AxisIterator.SlicesCover | curvelops/curvelops.py:174 | every position of the full array lies in some slice `i` at some offset `q` |
| AxisIterator.SlicesDisjoint | curvelops/curvelops.py:174 | the position written for slice `i` at offset `q` belongs to slice `i` at offset `q` and no other |
| AxisIterator.PositionInjective | curvelops/curvelops.py:174 | two different (slice, offset) pairs never write the same position |
| AxisIterator.ScatterSlices | curvelops/curvelops.py:164-176 | writing every slice of `x` back into its place rebuilds `x` |
| AxisIterator.WriteSlice | curvelops/curvelops.py:174 | `inv_out[index] = xinv` sets exactly the positions of slice `i`, each to the element of `xinv` at its offset, and leaves every other position unchanged |
| RowMajor.Unravel | curvelops/utils/_utils.py:250 | `unravel_index` of a position below `prod(shape)` is a valid multi-index of `shape` |
| RowMajor.UnravelRavel | curvelops/utils/_utils.py:250 | unravelling the row-major position of a valid multi-index gives the multi-index back |
| RowMajor.RavelUnravel | curvelops/utils/_utils.py:250 | ravelling the unravelled position gives the position back |
| RowMajor.RavelInjective | curvelops/utils/_utils.py:250 | distinct valid multi-indices have distinct positions |
| RowMajor.UnravelLexOrder | curvelops/curvelops.py:116-123 | increasing positions unravel to strictly increasing multi-indices in lexicographic order, which is `itertools.product` order |
| RowMajor.UnravelSqueeze | curvelops/curvelops.py:152 | unravelling over a shape with unit axes and then dropping them is unravelling over the shape without them |
| Codec.TupleAt | curvelops/curvelops.py:131 | `tuple(s[i][j] for s in sizes)` succeeds exactly when every table has an entry `[i][j]`, otherwise IndexError; on success entry `s` of the tuple is `sizes[s][i][j]` |
| Codec.ShapeTable | curvelops/curvelops.py:127-132 | the table has `len(nxs)` scales; scale `i` has `len(nxs[i])` wedges; each wedge's shape has one extent per table, read from `sizes` |
| Codec.BuildShapes | curvelops/curvelops.py:127-132 | the nested loops succeed exactly when every needed entry exists, and then build the table above; otherwise they fail with IndexError |
| Codec.Offset | curvelops/curvelops.py:134 | the block of every wedge ends within `_output_len` |
| Codec.BlocksInOrder | curvelops/curvelops.py:183-189 | the wedge blocks do not overlap and follow one another in scale-major, wedge-minor order; consecutive wedges of a scale are contiguous |
| Codec.StructLeaf | curvelops/curvelops.py:186-188 | leaf `[i][j]` of `struct(x)` is `x[k : k + size]` with the shape of the wedge, `k` being the sum of the sizes of all earlier wedges |
| Codec.StructShapes | curvelops/curvelops.py:181-191 | `struct(x)` has exactly the table's shapes, and every leaf holds as many elements as its shape |
| Codec.StructSpec | curvelops/curvelops.py:188 | `struct` succeeds exactly when `x` has at least `_output_len` elements; otherwise the reshape fails |
| Codec.Vect | curvelops/curvelops.py:194 | `vect` fails (`np.concatenate` of an empty list) exactly when the structure has no wedge; otherwise it is the concatenation of the ravelled wedges |
| Codec.ConcatLen | curvelops/curvelops.py:134 | `vect` of a well-formed structure has `_output_len` elements, counted from its own shapes |
| Codec.ConcatStruct | curvelops/curvelops.py:181-194 | `vect(struct(x))` is `x[:_output_len]` |
| Codec.VectStruct | curvelops/curvelops.py:181-194 | for `len(x) == _output_len` and a table with a wedge, `vect(struct(x)) == x` |
| Codec.ConcatInjective | curvelops/curvelops.py:193-194 | two well-formed structures with the same shapes and the same `vect` are equal |
| Codec.ScaleConcatInjective | curvelops/curvelops.py:193-194 | within one scale, two lists of wedges with the same shapes and the same concatenation are equal |
| Codec.StructOfConcat | curvelops/curvelops.py:181-194 | cutting the concatenation of a well-formed structure with its own shapes gives the structure back |
| Codec.StructVect | curvelops/curvelops.py:181-194 | `struct(vect(c)) == c` for every well-formed structure `c` with a wedge |
| Codec.LeavesOfTable | curvelops/curvelops.py:194 | a structure with the table's shapes has no wedge exactly when the table has none |
| Curvelops.CeilLog2Spec | curvelops/curvelops.py:79 | the integer ceil-log2 is the least `k` with `m <= 2^k` |
| Curvelops.Min | curvelops/curvelops.py:79 | `min` of a non-empty list is one of its elements and at most every element |
| Curvelops.DefaultScales | curvelops/curvelops.py:79 | the default scale count exists exactly when `_input_shape` is non-empty with no zero extent: `min` of an empty shape fails, a zero extent makes `log2` fail; otherwise it is `ceil(log2(m)) - 3` for the least extent `m` |
| Curvelops.Setup | curvelops/curvelops.py:70-132 | a constructed configuration keeps one normalised direction per given direction, each a valid axis of `dims`, and its kind is 2D exactly when two directions were given |
| Curvelops.SetupTables | curvelops/curvelops.py:82-132 | after the dimension check, a configuration keeps the normalised directions and the chosen kind |
| Curvelops.SetupOutcome | curvelops/curvelops.py:70-132 | construction fails with the normalisation error when a direction is out of range; on success there are 2 or 3 directions, the normalised ones, the dtype is complex, the scale count is the given or default one, and the table comes from the parameter query and covers every wedge |
| Curvelops.SetupRefusals | curvelops/curvelops.py:78-105 | with a direction count other than 2 or 3, construction fails with NotImplementedError when `nbscales` is given, or else with that or the error of the default scale count (computed first, line 79); with a real dtype it fails with NotImplementedError or that same earlier error |
| Curvelops.SetupShapes | curvelops/curvelops.py:78-132 | on success, a given `nbscales` is kept and `None` gives the default count of `_input_shape`; in 2D wedge `(i, j)` of the table is `(nys[i][j], nxs[i][j])`, and in 3D `(nzs[i][j], nys[i][j], nxs[i][j])`, where `nxs, nys(, nzs)` are what the parameter query returns for `_input_shape` and that scale count |
| Curvelops.TablesShapes | curvelops/curvelops.py:82-132 | after the dimension check, a configuration keeps the scale count, and its table's wedges are read from the 2D or 3D parameter query's tables |
| Curvelops.Shapes2D | curvelops/curvelops.py:127-132 | in 2D, wedge `(i, j)` has shape `(nys[i][j], nxs[i][j])` |
| Curvelops.Shapes3D | curvelops/curvelops.py:127-132 | in 3D, wedge `(i, j)` has shape `(nzs[i][j], nys[i][j], nxs[i][j])` |
| Curvelops.Configure | curvelops/curvelops.py:70-132 | the checks and loops of `__init__` return exactly the configuration, or the error, described by `Setup` |
| Curvelops.ConfigureTables | curvelops/curvelops.py:82-132 | the parameter query, the dtype check and the shape loops give exactly `SetupTables` |
| Curvelops.Create | curvelops/curvelops.py:61-147 | construction fails with `Setup`'s error, or yields an operator whose attributes are the ones `Setup` computed, stored as given, and in the relations of `Valid` |
| Curvelops.FDCT.constructor | curvelops/curvelops.py:107-147 | the stored attributes satisfy `Valid`: `_input_shape`, `iterable_axes`, `_ndim_iterable`, `_iterator`, `_output_len` and `shape = (_ndim_iterable * _output_len, prod(dims))` |
| Curvelops.Create2D | curvelops/curvelops.py:209-211 | `FDCT2D` with a direction count other than two fails with ValueError, whatever the directions; otherwise it behaves as `FDCT` with the 2D wrappers |
| Curvelops.Create3D | curvelops/curvelops.py:226-228 | `FDCT3D` with a direction count other than three fails with ValueError, whatever the directions; otherwise it behaves as `FDCT` with the 3D wrappers |
| Curvelops.FDCT.TuplesAreEntries | curvelops/curvelops.py:116-123 | the stored iterator has `_ndim_iterable` entries, entry `i` being the `i`-th batch index |
| Curvelops.FDCT.Slice | curvelops/curvelops.py:152 | `x.reshape(dims)[index]` is a well-formed array of shape `_input_shape` holding the selected elements |
| Curvelops.FDCT.Coefficients | curvelops/curvelops.py:152-159 | the column written for slice `i`, `vect` of the forward wrapper's structure, has `_output_len` elements |
| Curvelops.FDCT.AllCoefficients | curvelops/curvelops.py:151-159 | the forward loop produces `_ndim_iterable` columns of `_output_len` elements |
| Curvelops.FDCT.InverseCall | cpp/fdct2d_wrapper.cpp:111-112 | the inverse wrapper fails exactly when the structure's scale count differs from `nbscales`; otherwise it returns the wrapper's result |
| Curvelops.FDCT.Struct | curvelops/curvelops.py:181-191 | the loops return exactly `StructSpec`: they succeed exactly when `x` is long enough, with the table's shapes, and `vect` of the result is `x[:_output_len]` |
| Curvelops.FDCT.MatvecSpec | curvelops/curvelops.py:149-160 | the forward operator fails exactly when the reshape of `x` fails or the table has no wedge, unless there are no slices; on success it has `_output_len * _ndim_iterable` elements |
| Curvelops.FDCT.MatvecLayout | curvelops/curvelops.py:150-160 | element `k * _ndim_iterable + i` of the ravelled output is coefficient `k` of slice `i` |
| Curvelops.FDCT.Matvec | curvelops/curvelops.py:149-160 | the loop over the iterator returns exactly `MatvecSpec` |
| Curvelops.FDCT.ForwardColumns | curvelops/curvelops.py:151-159 | the loop stops with the reshape error or the empty-concatenation error exactly when there is a slice and `x` has the wrong size or the table has no wedge; otherwise column `i` of `fwd_out` holds the coefficients of slice `i` |
| Curvelops.FDCT.MatvecColumn | curvelops/curvelops.py:153-159 | column `i` of the output, read back by `struct`, is the forward wrapper's structure for slice `i` |
| Curvelops.InterleaveAt | curvelops/curvelops.py:159-160 | in the ravelled matrix built column by column, element `k * n + i` is element `k` of column `i` |
| Curvelops.ColumnOfInterleave | curvelops/curvelops.py:163-166 | `y_shaped[:, i]` of the ravelled columns is column `i` |
| Curvelops.RavelColumns | curvelops/curvelops.py:160 | `fwd_out.ravel()` of a matrix whose column `i` was written is the interleaving of its columns |
| Curvelops.WriteColumn | curvelops/curvelops.py:159 | `fwd_out[:, i] = v` sets column `i` to `v` and leaves every other column unchanged |
| Curvelops.FDCT.RmatvecSpec | curvelops/curvelops.py:162-176 | the adjoint fails exactly when `y` has the wrong length, or when the table's scale count differs from `nbscales` and there is a slice; on success it has `prod(dims)` elements |
| Curvelops.FDCT.RmatvecLayout | curvelops/curvelops.py:165-174 | the element at the position of slice `i`, offset `q` is element `q` of the inverse wrapper's result for column `i`, and no other slice writes there |
| Curvelops.FDCT.SliceResult | curvelops/curvelops.py:166-173 | the inverse wrapper applied to `struct(y_shaped[:, i])` yields a well-formed `_input_shape` array |
| Curvelops.FDCT.AllSliceResults | curvelops/curvelops.py:165-173 | the adjoint loop produces one result per slice, each with as many elements as a slice of `dims` |
| Curvelops.FDCT.AssembledAll | curvelops/curvelops.py:164-176 | once every slice has been written into the zero-initialised `inv_out`, it is the scatter of all slice results |
| Curvelops.FDCT.Rmatvec | curvelops/curvelops.py:162-176 | the loop over the iterator returns exactly `RmatvecSpec` |
| Curvelops.FDCT.InverseSlices | curvelops/curvelops.py:164-175 | the loop stops with the inverse wrapper's scale-count error exactly when there is a slice and the table's scale count differs from `nbscales`; otherwise `inv_out` is the scatter of every column's inverse into its slice |
| Curvelops.FDCT.RoundTrip | curvelops/curvelops.py:149-176 | with wrappers that invert each other, `_rmatvec(_matvec(x)) == x` |
| Curvelops.FDCT.SliceRoundTrip | curvelops/curvelops.py:166-173 | with wrappers that invert each other, the adjoint's result for column `i` is slice `i` of `x` |
| Curvelops.FDCT.Inverse | curvelops/curvelops.py:178-179 | `inverse` returns exactly what the adjoint returns |
| Utils.SectionStartClosed | curvelops/utils/_utils.py:35-37 | piece `k` of a length-`l` axis cut into `n` starts at `k * (l // n) + min(k, l % n)`, so the first `l % n` pieces have `l // n + 1` elements and the rest `l // n` |
| Utils.SectionEnd | curvelops/utils/_utils.py:67 | the pieces end exactly at the end of the axis |
| Utils.SectionBounds | curvelops/utils/_utils.py:67 | piece boundaries never decrease and never pass the end of the axis |
| Utils.EvenSections | curvelops/utils/_utils.py:116 | when `n` divides `l`, every piece has `l / n` elements |
| Utils.Section | curvelops/utils/_utils.py:67 | piece `k` has the array's shape with the split axis replaced by the piece's size |
| Utils.ArraySplit | curvelops/utils/_utils.py:67 | `np.array_split` gives `n` pieces, piece `k` being section `k` |
| Utils.SplitConcatenate | curvelops/utils/_utils.py:67 | concatenating the pieces along the split axis gives the array back |
| Utils.Concatenate | curvelops/utils/_utils.py:70 | `np.concatenate` of pieces agreeing off the joined axis is well formed, with the joined axis the sum of the pieces' extents |
| Utils.JoinSections | curvelops/utils/_utils.py:67 | the pieces of `np.array_split`, viewed around the split axis, join back into the array's own view |
| Utils.SplitAxis | curvelops/utils/_utils.py:66 | `ndim - len(args)`, wrapped by numpy when negative, is an axis of the array |
| Utils.Collect | curvelops/utils/_utils.py:70 | the list comprehension succeeds exactly when every recursive call does, keeping their results in order; otherwise it fails with the error of one of the calls |
| Utils.ArraySplitNdOutcome | curvelops/utils/_utils.py:66-70 | `array_split_nd` succeeds exactly when `0 < len(args) <= 2 * ndim` and every count is positive; the result nests `len(args)` levels with `args[m]` children at level `m`; otherwise it fails with IndexError or ValueError |
| Utils.ArraySplitNdChildren | curvelops/utils/_utils.py:66-70 | child `k` is section `k` of the first split, itself split by `args[1:]`, or the section itself at the last level |
| Utils.ArraySplitNdAssemble | curvelops/utils/_utils.py:66-70 | concatenating the pieces back level by level gives the array |
| Utils.AssembleSection | curvelops/utils/_utils.py:70 | reassembling child `k` gives section `k` of the first split |
| Utils.AssembleChildren | curvelops/utils/_utils.py:66-70 | every child of the top level reassembles to its section along the first split axis |
| Utils.AssembleTop | curvelops/utils/_utils.py:66-70 | children that reassemble to the sections of an axis join back into the whole array |
| AxisIterator.EntryFits | curvelops/curvelops.py:152 | index tuple `i` holds an in-range int exactly on the batch axes, so its selection has extent 1 there and the array's extent elsewhere |
| Codec.ScaleConcatInjectiveStep | curvelops/curvelops.py:193-194 | two scales with equal shapes and concatenations agree on their last wedge and on the concatenation of the others |
| Utils.SplitNdAgrees | curvelops/utils/_utils.py:115-119 | whenever `split_nd` succeeds, it returns what `array_split_nd` returns |
| Utils.SplitNdEven | curvelops/utils/_utils.py:115-119 | when `split_nd` succeeds, the first count divides its axis and every piece has `l / n` elements on it |
| Utils.SplitNdUneven | curvelops/utils/_utils.py:91-92 | when `array_split_nd` succeeds but `split_nd` does not, the error is the unequal-division ValueError |
| Utils.SplitNdDivisible | curvelops/utils/_utils.py:88-92 | with at most `ndim` positive counts, each dividing the extent of the axis it splits (count `j` splits axis `ndim - len(args) + j`), `split_nd` succeeds |
| Utils.SplitNdDivides | curvelops/utils/_utils.py:88-92 | conversely, when `split_nd` over at most `ndim` counts succeeds, every count is positive and divides the extent of the axis it splits |
| Utils.SplitNdEvenCounts | curvelops/utils/_utils.py:88-92 | with `0 < len(args) <= ndim`, `split_nd` succeeds exactly when every count is positive and divides the extent of its axis |
| Utils.SplitNdLeaves | curvelops/utils/_utils.py:88-92 | a successful `split_nd` over at most `ndim` counts nests `len(args)` levels with `args[m]` children at level `m`, and every piece has extent `shape[ndim - len(args) + j] / args[j]` on axis `ndim - len(args) + j` and the array's extent elsewhere |
| Utils.SplitNdHead | curvelops/utils/_utils.py:88-92 | a successful `split_nd` had a positive first count dividing its axis, and its first section splits by the remaining counts |
| Utils.SplitNdChildren | curvelops/utils/_utils.py:88-92 | child `k` of a successful `split_nd` is section `k` of the first split, itself split by `args[1:]`, or the section itself at the last level |
| Utils.MapWedges | curvelops/utils/_utils.py:164-170 | the result has one list per scale and one entry per wedge |
| Utils.ApplyAlongWedges | curvelops/utils/_utils.py:164-170 | the loops return `MapWedges`: entry `[i][j]` is `fun(c[i][j], j, i, len(c[i]), len(c))` |
| Utils.MapWedgesShapes | curvelops/utils/_utils.py:152-162 | applying `lambda w, *_: w.shape` gives the structure's shapes |
| Utils.MapWedgesIdentity | curvelops/utils/_utils.py:164-170 | applying the identity gives the structure back |
| Utils.EnergySplitErrors | curvelops/utils/_utils.py:220-221 | `energy_split` fails for a negative count (`np.empty`), then for a 0-d array (IndexError), then for a zero count (ValueError), and otherwise succeeds |
| Utils.Block | curvelops/utils/_utils.py:221 | every cell of the `rows` by `cols` split is a well-formed array |
| Utils.SplitBlocks | curvelops/utils/_utils.py:221 | a successful `array_split_nd(ary, rows, cols)` is a `rows` by `cols` grid, cell `[i][j]` being column section `j` of row section `i` |
| Utils.EnergySplit | curvelops/utils/_utils.py:220-225 | the result is a new `rows` by `cols` matrix whose cell `[i, j]` is the energy of block `[i][j]`; the errors are exactly those of `EnergySplitErrors` |
| Utils.FillEnergies | curvelops/utils/_utils.py:222-224 | the loops fill a new `rows` by `cols` matrix with the energy of every cell of the grid |
| Utils.ArgMax | curvelops/utils/_utils.py:250 | `argmax` of a non-empty array is the position of a maximum with no maximum before it |
| Utils.NdArgmax | curvelops/utils/_utils.py:250 | `ndargmax` fails exactly on an empty array; otherwise it returns a valid multi-index whose element is a maximum, with no equal element earlier in row-major order |
| Utils.UniqueMax | curvelops/utils/_utils.py:240-243 | when one element is strictly greater than all others, `ndargmax` returns its multi-index |

## Left out

- The native CurveLab transforms and parameter queries are not modelled. They are opaque functions in `Curvelops.Kernels`. The inverse wrapper's scale-count check (`cpp/fdct2d_wrapper.cpp`) is the one native behaviour kept.
- Curvelops.FDCT.Matvec requires `ForwardFits`: the forward wrapper must return wedges with the table's shapes. Python would instead broadcast or fail on a mismatched `fwd_out[:, i]`, which the model leaves out.
- Curvelops.FDCT.Rmatvec requires `InverseFits`: the inverse wrapper must return a `_input_shape` array. A mismatched `inv_out[index]` assignment is left out.
- Curvelops.FDCT.Inverse has the same requirement, for the same reason.
- Curvelops.FDCT.RoundTrip requires `ExactKernels` (the wrappers invert each other exactly). Floating-point error is not modelled.
- Curvelops.Create requires directions that are ascending and distinct after normalisation. The source does not check this. With other directions, `_input_shape` and the native slice shape disagree.
- Utils.SplitNdDivisible: with more counts than axes (`len(args) > ndim`) an axis is split twice, and divisibility is not characterised for that case; `SplitNdEven` still states the first level's division there.
- Curvelops.DefaultScales computes `ceil(log2(m) - 3)` exactly, as `CeilLog2(m) - 3` on integers. The floating-point `log2` is not modelled.
- `np.dtype(dtype)` is not modelled: dtypes are an enumeration, and an unknown dtype name is not represented.
- The `cpx` attribute is always true after a successful construction, so it is not stored.
- Elements are modelled as opaque complex values. No arithmetic is done on them.
- The integer widths of the native wrappers (C `int` arguments) are not modelled.
- Utils.EnergySplit takes `energy` as a parameter. Its square root and mean are floating point.
- Utils.EnergySplit checks the split before it allocates the result. `np.empty` is called first in the source. The two orders raise the same errors, which `EnergySplitErrors` lists.
- Utils.NdArgmax works on real elements. numpy's ordering of complex values and its NaN rule are not modelled.
- Utils.ArraySplitNdAssemble models `np.concatenate` only for pieces that agree on every axis but the joined one, which is all that reassembly needs.
- numpy's `array_split`, `split`, `concatenate`, `argmax` and `unravel_index` are modelled from their documented behaviour. numpy itself is not part of this model.
- The default arguments of `FDCT`, `FDCT2D` and `FDCT3D` (`dirs`, `nbangles_coarse=16`, `allcurvelets=True`, `dtype="complex128"`) are not modelled: every constructor takes all of its arguments.
- The plotting helpers (`curvelops/plot`), the type aliases and the build setup are outside the modelled core.
