/**
 * The structure utilities of curvelops/utils/_utils.py: recursive splitting
 * of the trailing axes of an array (`array_split_nd`, `split_nd`), the map
 * over a `[scale][wedge]` structure (`apply_along_wedges`), the grid of
 * block energies (`energy_split`) and the multi-index of the maximum
 * (`ndargmax`).
 */
module Utils {
  import opened Base
  import opened RowMajor
  import opened Codec

  // ---------------------------------------------------------------------------
  // Sequences of rows.

  /** The rows one after the other. */
  function Flatten<T>(rows: seq<seq<T>>): seq<T>
  {
    if |rows| == 0 then [] else rows[0] + Flatten(rows[1..])
  }

  lemma {:induction false} FlattenLen<T>(rows: seq<seq<T>>, w: nat)
    requires forall k :: 0 <= k < |rows| ==> |rows[k]| == w
    ensures |Flatten(rows)| == |rows| * w
  {
    if |rows| > 0 {
      FlattenLen(rows[1..], w);
      assert |rows| * w == w + (|rows| - 1) * w;
    }
  }

  /** Bounds that never decrease. */
  predicate Ascending(b: seq<nat>)
  {
    forall j, k :: 0 <= j <= k < |b| ==> b[j] <= b[k]
  }

  /** The slices of `x` between consecutive bounds, from bound `i` on. */
  function Cuts<T>(x: seq<T>, b: seq<nat>, i: nat): (r: seq<seq<T>>)
    requires i < |b| && b[|b| - 1] <= |x| && Ascending(b)
    ensures |r| == |b| - 1 - i
    ensures forall k :: 0 <= k < |r| ==> r[k] == x[b[i + k] .. b[i + k + 1]]
    decreases |b| - i
  {
    if i == |b| - 1 then [] else [x[b[i] .. b[i + 1]]] + Cuts(x, b, i + 1)
  }

  /** Consecutive slices between ascending bounds flatten to the slice from `b[i]` to the last bound. */
  lemma {:induction false} FlattenSlices<T>(x: seq<T>, b: seq<nat>, i: nat)
    requires i < |b| && b[|b| - 1] <= |x| && Ascending(b)
    ensures b[i] <= b[|b| - 1]
    ensures Flatten(Cuts(x, b, i)) == x[b[i] .. b[|b| - 1]]
    decreases |b| - i
  {
    if i < |b| - 1 {
      var last := b[|b| - 1];
      var head, rows, tail := x[b[i] .. b[i + 1]], Cuts(x, b, i), Cuts(x, b, i + 1);
      FlattenSlices(x, b, i + 1);
      assert rows == [head] + tail;
      assert rows[1..] == tail;
      assert Flatten(rows) == head + x[b[i + 1] .. last];
      assert x[b[i] .. last] == head + x[b[i + 1] .. last];
    }
  }

  // ---------------------------------------------------------------------------
  // One axis: np.array_split(ary, n, axis) and np.concatenate(pieces, axis).
  // Around `axis`, a row-major array is an `outer x len x inner` cube: `outer`
  // is the product of the extents before the axis, `len` its extent, `inner`
  // the product of the extents after it.

  lemma MulAssoc(a: nat, b: nat, c: nat)
    ensures a * (b * c) == (a * b) * c
  {
  }

  /** The size of a shape is `outer * (len * inner)` around any axis. */
  lemma {:induction false} ProdAround(s: seq<nat>, axis: nat)
    requires axis < |s|
    ensures Prod(s) == Prod(s[..axis]) * (s[axis] * Prod(s[axis + 1..]))
  {
    if axis > 0 {
      var x := s[axis] * Prod(s[axis + 1..]);
      ProdAround(s[1..], axis - 1);
      assert s[1..][..axis - 1] == s[..axis][1..];
      assert s[1..][axis - 1 + 1..] == s[axis + 1..];
      assert Prod(s[1..]) == Prod(s[..axis][1..]) * x;
      assert Prod(s[..axis]) == s[0] * Prod(s[..axis][1..]);
      MulAssoc(s[0], Prod(s[..axis][1..]), x);
    } else {
      assert s[1..] == s[axis + 1..];
    }
  }

  /** Row `o` of `x` seen as rows of width `w`. */
  function Row<T>(x: seq<T>, w: nat, o: nat): (r: seq<T>)
    requires o * w + w <= |x|
    ensures |r| == w
  {
    x[o * w .. o * w + w]
  }

  /** `x` cut into `m` rows of width `w`. */
  function Chunks<T>(x: seq<T>, w: nat, m: nat): (rows: seq<seq<T>>)
    requires |x| == m * w
    ensures |rows| == m && forall o :: 0 <= o < m ==> |rows[o]| == w
  {
    seq(m, o requires 0 <= o < m => MulMonoStep(o, m, w); Row(x, w, o))
  }

  /** The first row of `x` is its first `w` elements; the other rows are the rows of the rest. */
  lemma ChunksShift<T>(x: seq<T>, w: nat, m: nat)
    requires |x| == m * w && m > 0
    ensures |x[w..]| == (m - 1) * w
    ensures Chunks(x, w, m)[0] == x[..w] && Chunks(x, w, m)[1..] == Chunks(x[w..], w, m - 1)
  {
    assert m * w == (m - 1) * w + w;
    var c, d := Chunks(x, w, m), Chunks(x[w..], w, m - 1);
    forall o | 0 <= o < m - 1 ensures c[o + 1] == d[o] {
      var s := o * w;
      assert (o + 1) * w == s + w;
      MulMonoStep(o, m - 1, w);
      assert c[o + 1] == x[s + w .. s + w + w];
      assert d[o] == x[w..][s .. s + w];
    }
  }

  /** Cutting into rows and flattening them gives `x` back. */
  lemma {:induction false} FlattenChunks<T>(x: seq<T>, w: nat, m: nat)
    requires |x| == m * w
    ensures Flatten(Chunks(x, w, m)) == x
  {
    if m > 0 {
      ChunksShift(x, w, m);
      FlattenChunks(x[w..], w, m - 1);
      assert x == x[..w] + x[w..];
    }
  }

  /** Flattening rows of equal width and cutting again gives the rows back. */
  lemma {:induction false} ChunksFlatten<T>(rows: seq<seq<T>>, w: nat)
    requires forall k :: 0 <= k < |rows| ==> |rows[k]| == w
    ensures |Flatten(rows)| == |rows| * w
    ensures Chunks(Flatten(rows), w, |rows|) == rows
  {
    FlattenLen(rows, w);
    if |rows| > 0 {
      var y := Flatten(rows);
      ChunksShift(y, w, |rows|);
      assert y[..w] == rows[0] && y[w..] == Flatten(rows[1..]);
      ChunksFlatten(rows[1..], w);
      assert Chunks(y, w, |rows|) == [rows[0]] + rows[1..];
    }
  }

  /** A flat sequence of `outer * (len * inner)` elements as an `outer x len x inner` cube. */
  function Cube<T>(x: seq<T>, outer: nat, len: nat, inner: nat): (c: seq<seq<seq<T>>>)
    requires |x| == outer * (len * inner)
    ensures IsCube(c, outer, len, inner)
  {
    var planes := Chunks(x, len * inner, outer);
    seq(outer, o requires 0 <= o < outer => Chunks(planes[o], inner, len))
  }

  predicate IsCube<T>(c: seq<seq<seq<T>>>, outer: nat, len: nat, inner: nat)
  {
    |c| == outer && forall o :: 0 <= o < outer ==> |c[o]| == len && forall x :: 0 <= x < len ==> |c[o][x]| == inner
  }

  /** The cube's elements in row-major order. */
  function FlattenCube<T>(c: seq<seq<seq<T>>>): seq<T>
  {
    Flatten(seq(|c|, o requires 0 <= o < |c| => Flatten(c[o])))
  }

  lemma FlattenCubeLen<T>(c: seq<seq<seq<T>>>, outer: nat, len: nat, inner: nat)
    requires IsCube(c, outer, len, inner)
    ensures |FlattenCube(c)| == outer * (len * inner)
  {
    var planes := seq(|c|, o requires 0 <= o < |c| => Flatten(c[o]));
    forall o | 0 <= o < outer ensures |planes[o]| == len * inner {
      FlattenLen(c[o], inner);
    }
    FlattenLen(planes, len * inner);
  }

  /** Reading a flat sequence as a cube and flattening it again is the identity. */
  lemma FlattenCubeOf<T>(x: seq<T>, outer: nat, len: nat, inner: nat)
    requires |x| == outer * (len * inner)
    ensures FlattenCube(Cube(x, outer, len, inner)) == x
  {
    var planes := Chunks(x, len * inner, outer);
    var c := Cube(x, outer, len, inner);
    forall o | 0 <= o < outer ensures Flatten(c[o]) == planes[o] {
      FlattenChunks(planes[o], inner, len);
    }
    assert seq(|c|, o requires 0 <= o < |c| => Flatten(c[o])) == planes;
    FlattenChunks(x, len * inner, outer);
  }

  /** Flattening a cube and reading it back gives the cube. */
  lemma CubeOfFlatten<T>(c: seq<seq<seq<T>>>, outer: nat, len: nat, inner: nat)
    requires IsCube(c, outer, len, inner)
    ensures |FlattenCube(c)| == outer * (len * inner)
    ensures Cube(FlattenCube(c), outer, len, inner) == c
  {
    FlattenCubeLen(c, outer, len, inner);
    var planes := seq(|c|, o requires 0 <= o < |c| => Flatten(c[o]));
    forall o | 0 <= o < outer ensures |planes[o]| == len * inner && Chunks(planes[o], inner, len) == c[o] {
      ChunksFlatten(c[o], inner);
    }
    ChunksFlatten(planes, len * inner);
  }

  /** The cube of an array around `axis`. */
  function CubeAround<T>(a: NdArray<T>, axis: nat): (c: seq<seq<seq<T>>>)
    requires WellFormed(a) && axis < |a.shape|
    ensures IsCube(c, Prod(a.shape[..axis]), a.shape[axis], Prod(a.shape[axis + 1..]))
  {
    ProdAround(a.shape, axis);
    Cube(a.data, Prod(a.shape[..axis]), a.shape[axis], Prod(a.shape[axis + 1..]))
  }

  /** The array with extent `e` on `axis` whose cube around `axis` is `c`. */
  function FromCube<T>(shape: seq<nat>, axis: nat, e: nat, c: seq<seq<seq<T>>>): (a: NdArray<T>)
    requires axis < |shape| && IsCube(c, Prod(shape[..axis]), e, Prod(shape[axis + 1..]))
    ensures a.shape == shape[axis := e] && WellFormed(a)
    ensures CubeAround(a, axis) == c
  {
    var s := shape[axis := e];
    assert s[..axis] == shape[..axis] && s[axis + 1..] == shape[axis + 1..];
    ProdAround(s, axis);
    FlattenCubeLen(c, Prod(shape[..axis]), e, Prod(shape[axis + 1..]));
    CubeOfFlatten(c, Prod(shape[..axis]), e, Prod(shape[axis + 1..]));
    NdArray(s, FlattenCube(c))
  }

  /** `np.array_split` gives the first `l % n` sections one extra element. */
  function SectionSize(l: nat, n: nat, k: nat): nat
    requires n > 0
  {
    if k < l % n then l / n + 1 else l / n
  }

  function MinNat(a: nat, b: nat): nat
  {
    if a <= b then a else b
  }

  /** Where section `k` starts along the axis: the sum of the earlier sizes. */
  function SectionStart(l: nat, n: nat, k: nat): nat
    requires n > 0 && k <= n
  {
    if k == 0 then 0 else SectionStart(l, n, k - 1) + SectionSize(l, n, k - 1)
  }

  /** The running sum in closed form: `k` sections of `l / n` plus one per extra. */
  lemma {:induction false} SectionStartClosed(l: nat, n: nat, k: nat)
    requires n > 0 && k <= n
    ensures SectionStart(l, n, k) == k * (l / n) + MinNat(k, l % n)
  {
    if k > 0 {
      SectionStartClosed(l, n, k - 1);
      assert k * (l / n) == (k - 1) * (l / n) + l / n;
    }
  }

  /** The last section ends at the end of the axis. */
  lemma SectionEnd(l: nat, n: nat)
    requires n > 0
    ensures SectionStart(l, n, n) == l
  {
    SectionStartClosed(l, n, n);
    assert l == n * (l / n) + l % n;
  }

  /** Sections lie inside the axis, in order. */
  lemma {:induction false} SectionBounds(l: nat, n: nat, k: nat)
    requires n > 0 && k < n
    ensures SectionStart(l, n, k) <= SectionStart(l, n, k + 1) <= l
    decreases n - k
  {
    if k + 1 < n {
      SectionBounds(l, n, k + 1);
    } else {
      SectionEnd(l, n);
    }
  }

  /** With an even division every section has `l / n` elements. */
  lemma EvenSections(l: nat, n: nat)
    requires n > 0 && l % n == 0
    ensures forall k :: 0 <= k < n ==> SectionSize(l, n, k) == l / n
  {
  }

  /** The positions `[st, end)` of `axis`: every plane of the cube cut to those rows. */
  function Piece<T>(a: NdArray<T>, axis: nat, st: nat, end: nat): (p: NdArray<T>)
    requires WellFormed(a) && axis < |a.shape| && st <= end <= a.shape[axis]
    ensures p.shape == a.shape[axis := end - st] && WellFormed(p)
  {
    FromCube(a.shape, axis, end - st, CutPlanes(CubeAround(a, axis), st, end))
  }

  /** Every plane of the cube cut to its rows `[st, end)`. */
  function CutPlanes<T>(c: seq<seq<seq<T>>>, st: nat, end: nat): (r: seq<seq<seq<T>>>)
    requires forall o :: 0 <= o < |c| ==> st <= end <= |c[o]|
    ensures |r| == |c| && forall o :: 0 <= o < |c| ==> r[o] == c[o][st .. end]
  {
    seq(|c|, o requires 0 <= o < |c| => c[o][st .. end])
  }

  /** The cube of a piece is the cube of the array with its planes cut. */
  lemma PieceCube<T>(a: NdArray<T>, axis: nat, st: nat, end: nat)
    requires WellFormed(a) && axis < |a.shape| && st <= end <= a.shape[axis]
    ensures CubeAround(Piece(a, axis, st, end), axis) == CutPlanes(CubeAround(a, axis), st, end)
  {
  }

  /** Section `k` of `n` along `axis`, as `np.array_split` cuts it. */
  function Section<T>(a: NdArray<T>, axis: nat, n: nat, k: nat): (p: NdArray<T>)
    requires WellFormed(a) && axis < |a.shape| && k < n
    ensures p.shape == a.shape[axis := SectionSize(a.shape[axis], n, k)] && WellFormed(p)
  {
    SectionBounds(a.shape[axis], n, k);
    Piece(a, axis, SectionStart(a.shape[axis], n, k), SectionStart(a.shape[axis], n, k + 1))
  }

  /**
   * `np.array_split(ary, n, axis)`: `n` pieces along `axis`, the first
   * `l % n` of them `l // n + 1` long and the others `l // n` (`SectionSize`),
   * each starting where the previous one ends.
   */
  function ArraySplit<T>(a: NdArray<T>, axis: nat, n: nat): (r: seq<NdArray<T>>)
    requires WellFormed(a) && axis < |a.shape| && n > 0
    ensures |r| == n && forall k :: 0 <= k < n ==> r[k] == Section(a, axis, n, k)
  {
    seq(n, k requires 0 <= k < n => Section(a, axis, n, k))
  }

  function Sum(s: seq<nat>): nat
  {
    if |s| == 0 then 0 else Sum(s[..|s| - 1]) + s[|s| - 1]
  }

  /** The pieces agree on every extent but the one of `axis`. */
  predicate Joinable<T>(pieces: seq<NdArray<T>>, axis: nat)
  {
    && |pieces| > 0
    && (forall k :: 0 <= k < |pieces| ==> WellFormed(pieces[k]) && axis < |pieces[k].shape|)
    && (forall k :: 0 <= k < |pieces| ==>
          |pieces[k].shape| == |pieces[0].shape| &&
          pieces[k].shape[..axis] == pieces[0].shape[..axis] &&
          pieces[k].shape[axis + 1..] == pieces[0].shape[axis + 1..])
  }

  /** Plane `o` of the joined cube: plane `o` of every cube, one after the other. */
  function JoinPlanes<T>(cubes: seq<seq<seq<seq<T>>>>, o: nat): seq<seq<T>>
    requires forall k :: 0 <= k < |cubes| ==> o < |cubes[k]|
  {
    Flatten(seq(|cubes|, k requires 0 <= k < |cubes| => cubes[k][o]))
  }

  /** The cube joined plane by plane. */
  function JoinCubes<T>(cubes: seq<seq<seq<seq<T>>>>, outer: nat): (c: seq<seq<seq<T>>>)
    requires forall k :: 0 <= k < |cubes| ==> |cubes[k]| == outer
    ensures |c| == outer && forall o :: 0 <= o < outer ==> c[o] == JoinPlanes(cubes, o)
  {
    seq(outer, o requires 0 <= o < outer => JoinPlanes(cubes, o))
  }

  /** The extents of `axis` of all the pieces. */
  function AxisExtents<T>(pieces: seq<NdArray<T>>, axis: nat): (lens: seq<nat>)
    requires forall k :: 0 <= k < |pieces| ==> axis < |pieces[k].shape|
    ensures |lens| == |pieces| && forall k :: 0 <= k < |pieces| ==> lens[k] == pieces[k].shape[axis]
  {
    seq(|pieces|, k requires 0 <= k < |pieces| => pieces[k].shape[axis])
  }

  /** The cubes of all the pieces around `axis`. */
  function Cubes<T>(pieces: seq<NdArray<T>>, axis: nat): (cubes: seq<seq<seq<seq<T>>>>)
    requires forall k :: 0 <= k < |pieces| ==> WellFormed(pieces[k]) && axis < |pieces[k].shape|
    ensures |cubes| == |pieces| && forall k :: 0 <= k < |pieces| ==> cubes[k] == CubeAround(pieces[k], axis)
  {
    seq(|pieces|, k requires 0 <= k < |pieces| => CubeAround(pieces[k], axis))
  }

  /**
   * `np.concatenate(pieces, axis)`: the extents of `axis` add up, and each
   * plane of the result is the planes of the pieces one after the other.
   */
  function Concatenate<T>(pieces: seq<NdArray<T>>, axis: nat): (a: NdArray<T>)
    requires Joinable(pieces, axis)
    ensures WellFormed(a) && a.shape == pieces[0].shape[axis := Sum(AxisExtents(pieces, axis))]
  {
    var s := pieces[0].shape;
    var outer, inner := Prod(s[..axis]), Prod(s[axis + 1..]);
    var cubes := Cubes(pieces, axis);
    ConcatenateCube(cubes, AxisExtents(pieces, axis), outer, inner);
    FromCube(s, axis, Sum(AxisExtents(pieces, axis)), JoinCubes(cubes, outer))
  }

  /** Planes joined piece by piece have the summed extent. */
  lemma ConcatenateCube<T>(cubes: seq<seq<seq<seq<T>>>>, lens: seq<nat>, outer: nat, inner: nat)
    requires |cubes| == |lens| && forall k :: 0 <= k < |cubes| ==> |cubes[k]| == outer
    requires forall k :: 0 <= k < |cubes| ==> IsCube(cubes[k], outer, lens[k], inner)
    ensures IsCube(JoinCubes(cubes, outer), outer, Sum(lens), inner)
  {
    forall o | 0 <= o < outer
      ensures |JoinPlanes(cubes, o)| == Sum(lens)
      ensures forall x :: 0 <= x < |JoinPlanes(cubes, o)| ==> |JoinPlanes(cubes, o)[x]| == inner
    {
      FlattenOfRows(seq(|cubes|, k requires 0 <= k < |cubes| => cubes[k][o]), lens, inner);
    }
  }

  /** The sizes of the first `k` sections add up to where section `k` starts. */
  lemma {:induction false} SumSections(l: nat, n: nat, k: nat)
    requires n > 0 && k <= n
    ensures Sum(seq(k, i requires 0 <= i < k => SectionSize(l, n, i))) == SectionStart(l, n, k)
  {
    if k > 0 {
      var sizes := seq(k, i requires 0 <= i < k => SectionSize(l, n, i));
      SumSections(l, n, k - 1);
      assert sizes[..k - 1] == seq(k - 1, i requires 0 <= i < k - 1 => SectionSize(l, n, i));
    }
  }

  /** The pieces' cubes joined plane by plane are the array's cube. */
  lemma JoinSections<T>(a: NdArray<T>, axis: nat, n: nat)
    requires WellFormed(a) && axis < |a.shape| && n > 0
    ensures JoinCubes(Cubes(ArraySplit(a, axis, n), axis), Prod(a.shape[..axis])) == CubeAround(a, axis)
  {
    var l := a.shape[axis];
    var b := Starts(l, n);
    StartsAscend(l, n);
    var cubes := Cubes(ArraySplit(a, axis, n), axis);
    forall k {:trigger cubes[k]} | 0 <= k < n ensures cubes[k] == CutPlanes(CubeAround(a, axis), b[k], b[k + 1]) {
      SectionCube(a, axis, n, k);
    }
    JoinCut(CubeAround(a, axis), cubes, b);
  }

  /** Where every section starts, and where the last one ends. */
  function Starts(l: nat, n: nat): (b: seq<nat>)
    requires n > 0
    ensures |b| == n + 1 && forall k :: 0 <= k <= n ==> b[k] == SectionStart(l, n, k)
  {
    seq(n + 1, k requires 0 <= k <= n => SectionStart(l, n, k))
  }

  lemma StartsAscend(l: nat, n: nat)
    requires n > 0
    ensures Starts(l, n)[0] == 0 && Starts(l, n)[n] == l
    ensures Ascending(Starts(l, n))
  {
    SectionEnd(l, n);
    forall j, k | 0 <= j <= k <= n ensures Starts(l, n)[j] <= Starts(l, n)[k] {
      StartsMonotone(l, n, j, k);
    }
  }

  /** Later sections start no earlier. */
  lemma {:induction false} StartsMonotone(l: nat, n: nat, j: nat, k: nat)
    requires n > 0 && j <= k <= n
    ensures SectionStart(l, n, j) <= SectionStart(l, n, k)
  {
    if j < k {
      StartsMonotone(l, n, j, k - 1);
    }
  }

  /** The cube of section `k` is the array's cube cut at the section's bounds. */
  lemma SectionCube<T>(a: NdArray<T>, axis: nat, n: nat, k: nat)
    requires WellFormed(a) && axis < |a.shape| && k < n
    ensures SectionStart(a.shape[axis], n, k) <= SectionStart(a.shape[axis], n, k + 1) <= a.shape[axis]
    ensures CubeAround(Section(a, axis, n, k), axis) ==
      CutPlanes(CubeAround(a, axis), SectionStart(a.shape[axis], n, k), SectionStart(a.shape[axis], n, k + 1))
  {
    var l := a.shape[axis];
    SectionBounds(l, n, k);
    PieceCube(a, axis, SectionStart(l, n, k), SectionStart(l, n, k + 1));
  }



  /** Cutting every plane at ascending bounds from 0 to the end and joining the cuts gives the cube back. */
  lemma JoinCut<T>(c: seq<seq<seq<T>>>, cubes: seq<seq<seq<seq<T>>>>, b: seq<nat>)
    requires |b| == |cubes| + 1 && b[0] == 0 && Ascending(b)
    requires forall o :: 0 <= o < |c| ==> |c[o]| == b[|cubes|]
    requires forall k {:trigger cubes[k]} :: 0 <= k < |cubes| ==> cubes[k] == CutPlanes(c, b[k], b[k + 1])
    requires forall k :: 0 <= k < |cubes| ==> |cubes[k]| == |c|
    ensures JoinCubes(cubes, |c|) == c
  {
    forall o | 0 <= o < |c| ensures JoinPlanes(cubes, o) == c[o] {
      JoinPlane(c, cubes, b, o);
    }
  }

  lemma JoinPlane<T>(c: seq<seq<seq<T>>>, cubes: seq<seq<seq<seq<T>>>>, b: seq<nat>, o: nat)
    requires |b| == |cubes| + 1 && b[0] == 0 && o < |c| && Ascending(b)
    requires |c[o]| == b[|cubes|]
    requires forall k {:trigger cubes[k]} :: 0 <= k < |cubes| ==> |cubes[k]| == |c| && cubes[k][o] == c[o][b[k] .. b[k + 1]]
    ensures JoinPlanes(cubes, o) == c[o]
  {
    FlattenSlices(c[o], b, 0);
    assert seq(|cubes|, k requires 0 <= k < |cubes| => cubes[k][o]) == Cuts(c[o], b, 0);
    assert c[o][b[0] .. b[|cubes|]] == c[o];
  }

  /**
   * `np.concatenate(np.array_split(ary, n, axis), axis)` is `ary`: the
   * sections are disjoint, in order, and cover the axis.
   */
  lemma SplitConcatenate<T>(a: NdArray<T>, axis: nat, n: nat)
    requires WellFormed(a) && axis < |a.shape| && n > 0
    ensures Joinable(ArraySplit(a, axis, n), axis)
    ensures Concatenate(ArraySplit(a, axis, n), axis) == a
  {
    var l := a.shape[axis];
    var pieces := ArraySplit(a, axis, n);
    forall k | 0 <= k < n
      ensures pieces[k].shape[..axis] == a.shape[..axis] && pieces[k].shape[axis + 1..] == a.shape[axis + 1..]
    {
    }
    assert Joinable(pieces, axis);
    SumSections(l, n, n);
    SectionEnd(l, n);
    assert AxisExtents(pieces, axis) == seq(n, i requires 0 <= i < n => SectionSize(l, n, i));
    JoinSections(a, axis, n);
    ProdAround(a.shape, axis);
    FlattenCubeOf(a.data, Prod(a.shape[..axis]), l, Prod(a.shape[axis + 1..]));
  }

  /** A sum is its first term plus the sum of the rest. */
  lemma {:induction false} SumFront(s: seq<nat>)
    requires |s| > 0
    ensures Sum(s) == s[0] + Sum(s[1..])
  {
    if |s| > 1 {
      SumFront(s[..|s| - 1]);
      assert s[..|s| - 1][1..] == s[1..][..|s[1..]| - 1];
    }
  }

  /** Flattening sequences of rows of width `inner`, of lengths `lens`: `Sum(lens)` rows of width `inner`. */
  lemma {:induction false} FlattenOfRows<T>(parts: seq<seq<seq<T>>>, lens: seq<nat>, inner: nat)
    requires |parts| == |lens|
    requires forall k :: 0 <= k < |parts| ==> |parts[k]| == lens[k] && forall x :: 0 <= x < lens[k] ==> |parts[k][x]| == inner
    ensures |Flatten(parts)| == Sum(lens) && forall x :: 0 <= x < |Flatten(parts)| ==> |Flatten(parts)[x]| == inner
  {
    if |parts| > 0 {
      FlattenOfRows(parts[1..], lens[1..], inner);
      SumFront(lens);
      var f := Flatten(parts);
      assert f == parts[0] + Flatten(parts[1..]);
      forall x | 0 <= x < |f| ensures |f[x]| == inner {
        if x >= |parts[0]| {
          assert f[x] == Flatten(parts[1..])[x - |parts[0]|];
        }
      }
    }
  }

  // ---------------------------------------------------------------------------
  // Several axes: array_split_nd and split_nd (lines 66-70 and 115-119).

  /** The nested lists the recursive splits return: arrays at depth `len(args)`. */
  datatype Pieces<T> = Leaf(piece: NdArray<T>) | Node(children: seq<Pieces<T>>)

  /** The list comprehension over the sections: the first error raised, or every result. */
  function Collect<T>(rs: seq<Result<Pieces<T>, Error>>): (r: Result<Pieces<T>, Error>)
    ensures r.Success? <==> forall k :: 0 <= k < |rs| ==> rs[k].Success?
    ensures r.Success? ==>
      r.value.Node? && |r.value.children| == |rs| && forall k :: 0 <= k < |rs| ==> rs[k] == Success(r.value.children[k])
    ensures r.Failure? ==> exists k :: 0 <= k < |rs| && rs[k] == Failure(r.error)
  {
    if |rs| == 0 then Success(Node([]))
    else if rs[0].Failure? then Failure(rs[0].error)
    else
      match Collect(rs[1..])
      case Failure(e) => Failure(e)
      case Success(rest) => Success(Node([rs[0].value] + rest.children))
  }

  /**
   * The axis a call with `m` remaining counts splits: `ndim - m`, which
   * numpy reads from the end when it is negative.
   */
  function SplitAxis(ndim: nat, m: nat): (axis: nat)
    requires 0 < m <= 2 * ndim
    ensures axis < ndim
  {
    if m <= ndim then ndim - m else 2 * ndim - m
  }

  /**
   * `array_split_nd(ary, *args)`: split axis `ndim - len(args)` into
   * `args[0]` sections with `np.array_split`, then split every section by
   * the remaining counts. `args[0]` of an empty tuple and an axis below
   * `-ndim` raise IndexError; a count below 1 raises ValueError.
   */
  function ArraySplitNd<T>(a: NdArray<T>, args: seq<int>): (r: Result<Pieces<T>, Error>)
    requires WellFormed(a)
    decreases |args|
  {
    var ndim := |a.shape|;
    if |args| == 0 || |args| > 2 * ndim then Failure(IndexOutOfRange)
    else if args[0] <= 0 then Failure(NonPositiveSections)
    else
      var split := ArraySplit(a, SplitAxis(ndim, |args|), args[0]);
      if |args| == 1 then Success(Node(seq(|split|, k requires 0 <= k < |split| => Leaf(split[k]))))
      else Collect(seq(|split|, k requires 0 <= k < |split| => ArraySplitNd(split[k], args[1..])))
  }

  /** Level `k` of the nesting has exactly `args[k]` entries, and arrays sit at depth `len(args)`. */
  predicate Fanout<T>(p: Pieces<T>, args: seq<int>)
    decreases |args|
  {
    && |args| > 0
    && p.Node?
    && |p.children| == args[0]
    && forall k :: 0 <= k < |p.children| ==>
         if |args| == 1 then p.children[k].Leaf? else Fanout(p.children[k], args[1..])
  }

  /** All counts are at least 1. */
  predicate Positive(args: seq<int>)
  {
    forall k :: 0 <= k < |args| ==> args[k] > 0
  }

  /**
   * `array_split_nd` succeeds exactly when there are between 1 and `2 * ndim`
   * counts, all positive; it then nests `len(args)` levels with `args[k]`
   * entries at level `k`. Otherwise it raises IndexError for the count of
   * arguments, or ValueError for a count below 1.
   */
  lemma {:induction false} ArraySplitNdOutcome<T>(a: NdArray<T>, args: seq<int>)
    requires WellFormed(a)
    ensures ArraySplitNd(a, args).Success? <==> 0 < |args| <= 2 * |a.shape| && Positive(args)
    ensures ArraySplitNd(a, args).Success? ==> Fanout(ArraySplitNd(a, args).value, args)
    ensures ArraySplitNd(a, args).Failure? ==>
      ArraySplitNd(a, args).error == (if 0 < |args| <= 2 * |a.shape| then NonPositiveSections else IndexOutOfRange)
    decreases |args|
  {
    var ndim := |a.shape|;
    if 0 < |args| <= 2 * ndim && args[0] > 0 && |args| > 1 {
      var split := ArraySplit(a, SplitAxis(ndim, |args|), args[0]);
      var rs := seq(|split|, k requires 0 <= k < |split| => ArraySplitNd(split[k], args[1..]));
      forall k | 0 <= k < |split|
        ensures rs[k].Success? <==> Positive(args[1..])
        ensures rs[k].Success? ==> Fanout(rs[k].value, args[1..])
        ensures rs[k].Failure? ==> rs[k].error == NonPositiveSections
      {
        ArraySplitNdOutcome(split[k], args[1..]);
      }
      if Positive(args[1..]) {
        assert Positive(args) by {
          forall k | 0 < k < |args| ensures args[k] > 0 {
            assert args[k] == args[1..][k - 1];
          }
        }
      } else {
        assert rs[0].Failure?;
        assert !Positive(args) by {
          var k :| 0 <= k < |args| - 1 && args[1..][k] <= 0;
          assert args[k + 1] <= 0;
        }
      }
    }
  }

  /**
   * The entries of the top level: the sections of `np.array_split` along
   * axis `ndim - len(args)`, split further by the remaining counts.
   */
  lemma ArraySplitNdChildren<T>(a: NdArray<T>, args: seq<int>)
    requires WellFormed(a) && ArraySplitNd(a, args).Success?
    ensures 0 < |args| <= 2 * |a.shape| && args[0] > 0
    ensures var p := ArraySplitNd(a, args).value;
      p.Node? && |p.children| == args[0] &&
      forall k :: 0 <= k < args[0] ==>
        var s := Section(a, SplitAxis(|a.shape|, |args|), args[0], k);
        if |args| == 1 then p.children[k] == Leaf(s) else ArraySplitNd(s, args[1..]) == Success(p.children[k])
  {
  }

  /** The axes the levels of `array_split_nd` split, outermost first. */
  function SplitAxes(ndim: nat, m: nat): (axes: seq<nat>)
    requires m <= 2 * ndim
    ensures |axes| == m && forall j :: 0 <= j < m ==> axes[j] == SplitAxis(ndim, m - j)
  {
    seq(m, j requires 0 <= j < m => SplitAxis(ndim, m - j))
  }

  /**
   * Concatenating nested pieces back, innermost level first, along `axes`
   * (`np.concatenate` at every level); None where the pieces do not fit.
   */
  function Assemble<T>(p: Pieces<T>, axes: seq<nat>): Option<NdArray<T>>
    decreases p
  {
    match p
    case Leaf(x) => if |axes| == 0 && WellFormed(x) then Some(x) else None
    case Node(cs) =>
      if |axes| == 0 then None
      else JoinAll(seq(|cs|, k requires 0 <= k < |cs| => Assemble(cs[k], axes[1..])), axes[0])
  }

  /** `np.concatenate` of the assembled entries, where they all exist and fit. */
  function JoinAll<T>(parts: seq<Option<NdArray<T>>>, axis: nat): Option<NdArray<T>>
  {
    if forall k :: 0 <= k < |parts| ==> parts[k].Some? then
      var arrays := seq(|parts|, k requires 0 <= k < |parts| => parts[k].value);
      if Joinable(arrays, axis) then Some(Concatenate(arrays, axis)) else None
    else None
  }

  lemma JoinAllSome<T>(parts: seq<Option<NdArray<T>>>, arrays: seq<NdArray<T>>, axis: nat)
    requires |parts| == |arrays| && forall k :: 0 <= k < |parts| ==> parts[k] == Some(arrays[k])
    requires Joinable(arrays, axis)
    ensures JoinAll(parts, axis) == Some(Concatenate(arrays, axis))
  {
    assert seq(|parts|, k requires 0 <= k < |parts| => parts[k].value) == arrays;
  }

  /**
   * Concatenating what `array_split_nd` returns, level by level along the
   * axes it split, gives the array back: the pieces are disjoint and cover it.
   */
  lemma {:induction false} ArraySplitNdAssemble<T>(a: NdArray<T>, args: seq<int>)
    requires WellFormed(a) && ArraySplitNd(a, args).Success?
    ensures |args| <= 2 * |a.shape|
    ensures Assemble(ArraySplitNd(a, args).value, SplitAxes(|a.shape|, |args|)) == Some(a)
    decreases |args|, 3
  {
    AssembleChildren(a, args);
    AssembleTop(a, ArraySplitNd(a, args).value, SplitAxes(|a.shape|, |args|), args[0]);
  }

  /** Entry `k` of `p` assembles, along the axes after the first, to section `k` of `a` along the first. */
  ghost predicate AssemblesToSections<T>(a: NdArray<T>, p: Pieces<T>, axes: seq<nat>, n: nat)
    requires WellFormed(a) && 0 < |axes| && axes[0] < |a.shape|
  {
    p.Node? && |p.children| == n &&
    forall k :: 0 <= k < n ==> Assemble(p.children[k], axes[1..]) == Some(Section(a, axes[0], n, k))
  }

  /** Every entry of the top level assembles to its section. */
  lemma AssembleChildren<T>(a: NdArray<T>, args: seq<int>)
    requires WellFormed(a) && ArraySplitNd(a, args).Success?
    ensures 0 < |args| <= 2 * |a.shape| && args[0] > 0
    ensures AssemblesToSections(a, ArraySplitNd(a, args).value, SplitAxes(|a.shape|, |args|), args[0])
    decreases |args|, 2
  {
    ArraySplitNdChildren(a, args);
    SplitAxesTail(|a.shape|, |args|);
    forall k | 0 <= k < args[0]
      ensures Assemble(ArraySplitNd(a, args).value.children[k], SplitAxes(|a.shape|, |args| - 1))
        == Some(Section(a, SplitAxis(|a.shape|, |args|), args[0], k))
    {
      AssembleSection(a, args, k);
    }
  }

  /** The first split axis, then the axes of the levels below. */
  lemma SplitAxesTail(ndim: nat, m: nat)
    requires 0 < m <= 2 * ndim
    ensures SplitAxes(ndim, m)[0] == SplitAxis(ndim, m)
    ensures SplitAxes(ndim, m)[1..] == SplitAxes(ndim, m - 1)
  {
  }

  /** Entries that assemble to the sections along the top axis join back into the array. */
  lemma AssembleTop<T>(a: NdArray<T>, p: Pieces<T>, axes: seq<nat>, n: nat)
    requires WellFormed(a) && 0 < |axes| && axes[0] < |a.shape| && n > 0
    requires AssemblesToSections(a, p, axes, n)
    ensures Assemble(p, axes) == Some(a)
  {
    var split := ArraySplit(a, axes[0], n);
    var parts := seq(n, k requires 0 <= k < n => Assemble(p.children[k], axes[1..]));
    assert Assemble(p, axes) == JoinAll(parts, axes[0]);
    SplitConcatenate(a, axes[0], n);
    JoinAllSome(parts, split, axes[0]);
  }

  /** Entry `k` of the top level assembles to section `k`. */
  lemma {:induction false} AssembleSection<T>(a: NdArray<T>, args: seq<int>, k: nat)
    requires WellFormed(a) && ArraySplitNd(a, args).Success?
    requires 0 < |args| <= 2 * |a.shape| && 0 <= k < args[0]
    ensures ArraySplitNd(a, args).value.Node? && k < |ArraySplitNd(a, args).value.children|
    ensures Assemble(ArraySplitNd(a, args).value.children[k], SplitAxes(|a.shape|, |args| - 1))
      == Some(Section(a, SplitAxis(|a.shape|, |args|), args[0], k))
    decreases |args|, 1
  {
    if |args| > 1 {
      AssembleInnerSection(a, args, k);
    } else {
      ArraySplitNdChild(a, args, k);
      assert SplitAxes(|a.shape|, 0) == [];
    }
  }

  /** Below the last level, entry `k` is section `k` split further, which reassembles by induction. */
  lemma {:induction false} AssembleInnerSection<T>(a: NdArray<T>, args: seq<int>, k: nat)
    requires WellFormed(a) && ArraySplitNd(a, args).Success?
    requires 1 < |args| <= 2 * |a.shape| && 0 <= k < args[0]
    ensures ArraySplitNd(a, args).value.Node? && k < |ArraySplitNd(a, args).value.children|
    ensures Assemble(ArraySplitNd(a, args).value.children[k], SplitAxes(|a.shape|, |args| - 1))
      == Some(Section(a, SplitAxis(|a.shape|, |args|), args[0], k))
    decreases |args|, 0
  {
    var s := Section(a, SplitAxis(|a.shape|, |args|), args[0], k);
    ArraySplitNdChild(a, args, k);
    ArraySplitNdAssemble(s, args[1..]);
    assert |s.shape| == |a.shape| && |args[1..]| == |args| - 1;
  }

  /** Entry `k` of the top level: section `k`, or at deeper levels what splitting it by `args[1:]` gives. */
  lemma ArraySplitNdChild<T>(a: NdArray<T>, args: seq<int>, k: nat)
    requires WellFormed(a) && ArraySplitNd(a, args).Success?
    requires 0 < |args| <= 2 * |a.shape| && 0 <= k < args[0]
    ensures var p := ArraySplitNd(a, args).value;
      var s := Section(a, SplitAxis(|a.shape|, |args|), args[0], k);
      && p.Node? && k < |p.children|
      && (|args| == 1 ==> p.children[k] == Leaf(s))
      && (|args| > 1 ==> ArraySplitNd(s, args[1..]) == Success(p.children[k]))
  {
    ArraySplitNdChildren(a, args);
  }

  /**
   * `split_nd(ary, *args)`: as `array_split_nd`, with `np.split`, which
   * first raises ZeroDivisionError for a count of 0 and ValueError when the
   * axis does not divide evenly (Python's `%` is zero exactly when the
   * magnitude of the count divides the extent).
   */
  function SplitNd<T>(a: NdArray<T>, args: seq<int>): (r: Result<Pieces<T>, Error>)
    requires WellFormed(a)
    decreases |args|
  {
    var ndim := |a.shape|;
    if |args| == 0 || |args| > 2 * ndim then Failure(IndexOutOfRange)
    else
      var axis := SplitAxis(ndim, |args|);
      var l := a.shape[axis];
      if args[0] == 0 then Failure(DivisionByZero)
      else if l % (if args[0] < 0 then -args[0] else args[0]) != 0 then Failure(UnequalDivision)
      else if args[0] < 0 then Failure(NonPositiveSections)
      else
        var split := ArraySplit(a, axis, args[0]);
        if |args| == 1 then Success(Node(seq(|split|, k requires 0 <= k < |split| => Leaf(split[k]))))
        else Collect(seq(|split|, k requires 0 <= k < |split| => SplitNd(split[k], args[1..])))
  }

  /** When `split_nd` succeeds it returns what `array_split_nd` returns. */
  lemma {:induction false} SplitNdAgrees<T>(a: NdArray<T>, args: seq<int>)
    requires WellFormed(a) && SplitNd(a, args).Success?
    ensures ArraySplitNd(a, args) == SplitNd(a, args)
    decreases |args|
  {
    if |args| > 1 {
      var split := ArraySplit(a, SplitAxis(|a.shape|, |args|), args[0]);
      var rs := seq(|split|, k requires 0 <= k < |split| => SplitNd(split[k], args[1..]));
      var qs := seq(|split|, k requires 0 <= k < |split| => ArraySplitNd(split[k], args[1..]));
      assert SplitNd(a, args) == Collect(rs);
      forall k | 0 <= k < |split| ensures qs[k] == rs[k] {
        assert rs[k].Success?;
        SplitNdAgrees(split[k], args[1..]);
      }
      assert qs == rs;
    }
  }

  /** When `split_nd` succeeds its top level is an even split: every section has `l / n` positions. */
  lemma SplitNdEven<T>(a: NdArray<T>, args: seq<int>)
    requires WellFormed(a) && SplitNd(a, args).Success?
    ensures 0 < |args| <= 2 * |a.shape| && args[0] > 0
    ensures a.shape[SplitAxis(|a.shape|, |args|)] % args[0] == 0
    ensures forall k :: 0 <= k < args[0] ==>
      Section(a, SplitAxis(|a.shape|, |args|), args[0], k).shape[SplitAxis(|a.shape|, |args|)]
        == a.shape[SplitAxis(|a.shape|, |args|)] / args[0]
  {
    EvenSections(a.shape[SplitAxis(|a.shape|, |args|)], args[0]);
  }

  /** Where `array_split_nd` succeeds and `split_nd` does not, the reason is an uneven division. */
  lemma {:induction false} SplitNdUneven<T>(a: NdArray<T>, args: seq<int>)
    requires WellFormed(a) && ArraySplitNd(a, args).Success? && SplitNd(a, args).Failure?
    ensures SplitNd(a, args).error == UnequalDivision
    decreases |args|
  {
    var axis := SplitAxis(|a.shape|, |args|);
    var split := ArraySplit(a, axis, args[0]);
    if |args| > 1 && a.shape[axis] % args[0] == 0 {
      var rs := seq(|split|, k requires 0 <= k < |split| => SplitNd(split[k], args[1..]));
      var qs := seq(|split|, k requires 0 <= k < |split| => ArraySplitNd(split[k], args[1..]));
      var k :| 0 <= k < |rs| && rs[k] == Failure(SplitNd(a, args).error);
      assert qs[k].Success?;
      SplitNdUneven(split[k], args[1..]);
    }
  }

  /**
   * Every count is positive and divides the extent of the axis it splits,
   * counts taken against the trailing axes.
   */
  predicate EvenCounts(shape: seq<nat>, args: seq<int>)
    requires |args| <= |shape|
  {
    forall j :: 0 <= j < |args| ==> args[j] > 0 && shape[|shape| - |args| + j] % args[j] == 0
  }

  /**
   * With at most `ndim` positive counts, each dividing the extent of the
   * axis it splits, `split_nd` succeeds.
   */
  lemma {:induction false} SplitNdDivisible<T>(a: NdArray<T>, args: seq<int>)
    requires WellFormed(a) && 0 < |args| <= |a.shape| && EvenCounts(a.shape, args)
    ensures SplitNd(a, args).Success?
    decreases |args|
  {
    var ndim := |a.shape|;
    var axis := ndim - |args|;
    assert a.shape[axis] % args[0] == 0;
    if |args| > 1 {
      var split := ArraySplit(a, axis, args[0]);
      forall k | 0 <= k < |split| ensures SplitNd(split[k], args[1..]).Success? {
        var s := split[k];
        assert s.shape == a.shape[axis := SectionSize(a.shape[axis], args[0], k)];
        forall j | 0 <= j < |args| - 1
          ensures args[1..][j] > 0 && s.shape[ndim - (|args| - 1) + j] % args[1..][j] == 0
        {
          assert args[1..][j] == args[j + 1];
          assert s.shape[ndim - (|args| - 1) + j] == a.shape[ndim - |args| + (j + 1)];
        }
        SplitNdDivisible(s, args[1..]);
      }
      var rs := seq(|split|, k requires 0 <= k < |split| => SplitNd(split[k], args[1..]));
      assert forall k :: 0 <= k < |rs| ==> rs[k].Success?;
    }
  }

  /** The shape of every piece of an even split: each split axis divided by its count. */
  function EvenShape(shape: seq<nat>, args: seq<int>): (r: seq<nat>)
    requires |args| <= |shape| && Positive(args)
    ensures |r| == |shape|
  {
    var first := |shape| - |args|;
    seq(|shape|, ax requires 0 <= ax < |shape| =>
      if ax < first then shape[ax] else shape[ax] / args[ax - first])
  }

  /** Every array in the nesting has shape `s`. */
  predicate LeavesHaveShape<T>(p: Pieces<T>, s: seq<nat>)
    decreases p
  {
    match p
    case Leaf(x) => x.shape == s
    case Node(cs) => forall k :: 0 <= k < |cs| ==> LeavesHaveShape(cs[k], s)
  }

  /**
   * The entries of a successful `split_nd`: the even sections of axis
   * `ndim - len(args)`, each split further by the remaining counts.
   */
  lemma SplitNdChildren<T>(a: NdArray<T>, args: seq<int>)
    requires WellFormed(a) && SplitNd(a, args).Success?
    ensures 0 < |args| <= 2 * |a.shape| && args[0] > 0
    ensures a.shape[SplitAxis(|a.shape|, |args|)] % args[0] == 0
    ensures var p := SplitNd(a, args).value;
      p.Node? && |p.children| == args[0] &&
      forall k :: 0 <= k < args[0] ==>
        var s := Section(a, SplitAxis(|a.shape|, |args|), args[0], k);
        if |args| == 1 then p.children[k] == Leaf(s) else SplitNd(s, args[1..]) == Success(p.children[k])
  {
  }

  /** What a successful `split_nd` says about its first count and the split of its first section. */
  lemma SplitNdHead<T>(a: NdArray<T>, args: seq<int>)
    requires WellFormed(a) && SplitNd(a, args).Success?
    ensures 0 < |args| <= 2 * |a.shape| && args[0] > 0
    ensures a.shape[SplitAxis(|a.shape|, |args|)] % args[0] == 0
    ensures |args| > 1 ==> SplitNd(Section(a, SplitAxis(|a.shape|, |args|), args[0], 0), args[1..]).Success?
  {
    SplitNdChildren(a, args);
  }

  /** A successful `split_nd` over at most `ndim` counts had every count positive and dividing its axis. */
  lemma {:induction false} SplitNdDivides<T>(a: NdArray<T>, args: seq<int>)
    requires WellFormed(a) && 0 < |args| <= |a.shape| && SplitNd(a, args).Success?
    ensures EvenCounts(a.shape, args)
    decreases |args|
  {
    SplitNdHead(a, args);
    var ndim := |a.shape|;
    var axis := ndim - |args|;
    var s := Section(a, axis, args[0], 0);
    if |args| > 1 {
      SplitNdDivides(s, args[1..]);
    }
    forall j | 0 <= j < |args| ensures args[j] > 0 && a.shape[ndim - |args| + j] % args[j] == 0 {
      if j > 0 {
        assert args[1..][j - 1] == args[j];
        assert s.shape[ndim - (|args| - 1) + (j - 1)] == a.shape[ndim - |args| + j];
      }
    }
  }

  /**
   * `split_nd` over at most `ndim` counts succeeds exactly when every count
   * is positive and divides the extent of the axis it splits.
   */
  lemma SplitNdEvenCounts<T>(a: NdArray<T>, args: seq<int>)
    requires WellFormed(a) && 0 < |args| <= |a.shape|
    ensures SplitNd(a, args).Success? <==> EvenCounts(a.shape, args)
  {
    if EvenCounts(a.shape, args) {
      SplitNdDivisible(a, args);
    }
    if SplitNd(a, args).Success? {
      SplitNdDivides(a, args);
    }
  }

  /**
   * A successful `split_nd` over at most `ndim` counts nests `args[k]`
   * entries at level `k`, and every piece has extent `l / n` on each split
   * axis and the array's extent on the others.
   */
  lemma {:induction false} SplitNdLeaves<T>(a: NdArray<T>, args: seq<int>)
    requires WellFormed(a) && 0 < |args| <= |a.shape| && SplitNd(a, args).Success?
    ensures Positive(args)
    ensures Fanout(SplitNd(a, args).value, args)
    ensures LeavesHaveShape(SplitNd(a, args).value, EvenShape(a.shape, args))
    decreases |args|
  {
    SplitNdDivides(a, args);
    SplitNdChildren(a, args);
    assert Positive(args);
    var n: nat := args[0];
    var axis := |a.shape| - |args|;
    var p := SplitNd(a, args).value;
    var target := EvenShape(a.shape, args);
    EvenShapeCut(a.shape, args);
    EvenSections(a.shape[axis], n);
    forall k | 0 <= k < n
      ensures if |args| == 1 then p.children[k].Leaf? else Fanout(p.children[k], args[1..])
      ensures LeavesHaveShape(p.children[k], target)
    {
      var s := Section(a, axis, n, k);
      assert s.shape == a.shape[axis := a.shape[axis] / n];
      if |args| > 1 {
        SplitNdLeaves(s, args[1..]);
      }
    }
  }

  /**
   * Cutting the first split axis evenly and then the remaining ones is
   * cutting all of them evenly.
   */
  lemma EvenShapeCut(shape: seq<nat>, args: seq<int>)
    requires 0 < |args| <= |shape| && Positive(args)
    ensures var axis := |shape| - |args|;
      |args| == 1 ==> EvenShape(shape, args) == shape[axis := shape[axis] / args[0]]
    ensures var axis := |shape| - |args|;
      |args| > 1 ==>
        Positive(args[1..]) && EvenShape(shape[axis := shape[axis] / args[0]], args[1..]) == EvenShape(shape, args)
  {
    var axis := |shape| - |args|;
    var cut := shape[axis := shape[axis] / args[0]];
    if |args| > 1 {
      var rest := args[1..];
      assert Positive(rest) by {
        forall k | 0 <= k < |rest| ensures rest[k] > 0 {
          assert rest[k] == args[k + 1];
        }
      }
      forall ax | 0 <= ax < |shape| ensures EvenShape(cut, rest)[ax] == EvenShape(shape, args)[ax] {
        if ax > axis {
          assert rest[ax - (axis + 1)] == args[ax - axis];
        }
      }
    }
  }

  // ---------------------------------------------------------------------------
  // apply_along_wedges (lines 164-170).

  /** The callback's arguments: wedge, wedge index, scale index, wedges in the scale, scales. */
  type WedgeFun<!T, U> = (NdArray<T>, int, int, int, int) -> U

  /** `fun` applied to every wedge, in place of the wedge. */
  function MapWedges<T, U>(c: CStruct<T>, fun: WedgeFun<T, U>): (r: seq<seq<U>>)
    ensures |r| == |c| && forall i :: 0 <= i < |c| ==> |r[i]| == |c[i]|
  {
    seq(|c|, i requires 0 <= i < |c| =>
      seq(|c[i]|, j requires 0 <= j < |c[i]| => fun(c[i][j], j, i, |c[i]|, |c|)))
  }

  /**
   * `apply_along_wedges(c_struct, fun)`: one list per scale, filled by
   * appending `fun`'s result for each wedge in order.
   */
  method ApplyAlongWedges<T, U>(c: CStruct<T>, fun: WedgeFun<T, U>) returns (mapped: seq<seq<U>>)
    ensures mapped == MapWedges(c, fun)
    ensures |mapped| == |c|
    ensures forall i :: 0 <= i < |c| ==>
      |mapped[i]| == |c[i]| && forall j :: 0 <= j < |c[i]| ==> mapped[i][j] == fun(c[i][j], j, i, |c[i]|, |c|)
  {
    mapped := seq(|c|, _ => []);
    for iscale := 0 to |c|
      invariant |mapped| == |c|
      invariant forall i :: 0 <= i < iscale ==> mapped[i] == MapWedges(c, fun)[i]
    {
      mapped := mapped[iscale := []];
      for iwedge := 0 to |c[iscale]|
        invariant |mapped| == |c|
        invariant forall i :: 0 <= i < iscale ==> mapped[i] == MapWedges(c, fun)[i]
        invariant mapped[iscale] == MapWedges(c, fun)[iscale][..iwedge]
      {
        var out := fun(c[iscale][iwedge], iwedge, iscale, |c[iscale]|, |c|);
        mapped := mapped[iscale := mapped[iscale] + [out]];
      }
    }
  }

  /** Mapping each wedge to its shape gives the struct's shape table. */
  lemma MapWedgesShapes<T>(c: CStruct<T>)
    ensures MapWedges(c, (w: NdArray<T>, _: int, _: int, _: int, _: int) => w.shape) == LeafShapes(c)
  {
    var m := MapWedges(c, (w: NdArray<T>, _: int, _: int, _: int, _: int) => w.shape);
    forall i | 0 <= i < |c| ensures m[i] == LeafShapes(c)[i] {
      assert m[i] == Shapes(c[i]);
    }
  }

  /** Mapping each wedge to itself gives the struct back: the structure is kept. */
  lemma MapWedgesIdentity<T>(c: CStruct<T>)
    ensures MapWedges(c, (w: NdArray<T>, _: int, _: int, _: int, _: int) => w) == c
  {
    var m := MapWedges(c, (w: NdArray<T>, _: int, _: int, _: int, _: int) => w);
    forall i | 0 <= i < |c| ensures m[i] == c[i] {
    }
  }

  // ---------------------------------------------------------------------------
  // energy_split (lines 220-225). `energy` (a square root of a mean of
  // squared magnitudes) is a parameter.

  /** The block in row `i`, column `j` of `array_split_nd(ary, rows, cols)`. */
  function Block<T>(a: NdArray<T>, rows: nat, cols: nat, i: nat, j: nat): (b: NdArray<T>)
    requires WellFormed(a) && |a.shape| >= 1 && i < rows && j < cols
    ensures WellFormed(b)
  {
    Section(Section(a, SplitAxis(|a.shape|, 2), rows, i), SplitAxis(|a.shape|, 1), cols, j)
  }

  /** Where `energy_split` raises: numpy's `empty` for a negative size, then the split. */
  function EnergySplitError<T>(a: NdArray<T>, rows: int, cols: int): Option<Error>
    requires WellFormed(a)
  {
    if rows < 0 || cols < 0 then Some(NegativeDimensions)
    else if ArraySplitNd(a, [rows, cols]).Failure? then Some(ArraySplitNd(a, [rows, cols]).error)
    else None
  }

  /**
   * `energy_split` raises exactly when a count is negative, when a count is
   * 0 (ValueError), or when the array has no axis (IndexError).
   */
  lemma EnergySplitErrors<T>(a: NdArray<T>, rows: int, cols: int)
    requires WellFormed(a)
    ensures EnergySplitError(a, rows, cols) == (
      if rows < 0 || cols < 0 then Some(NegativeDimensions)
      else if |a.shape| == 0 then Some(IndexOutOfRange)
      else if rows == 0 || cols == 0 then Some(NonPositiveSections)
      else None)
  {
    ArraySplitNdOutcome(a, [rows, cols]);
    if rows > 0 && cols > 0 {
      assert Positive([rows, cols]);
    } else if rows <= 0 {
      assert [rows, cols][0] <= 0;
    } else {
      assert [rows, cols][1] <= 0;
    }
  }

  /** The pieces `array_split_nd(ary, rows, cols)` returns are the blocks. */
  lemma {:induction false} SplitBlocks<T>(a: NdArray<T>, rows: nat, cols: nat)
    requires WellFormed(a) && ArraySplitNd(a, [rows, cols]).Success?
    ensures |a.shape| >= 1 && rows > 0 && cols > 0
    ensures var p := ArraySplitNd(a, [rows, cols]).value;
      p.Node? && |p.children| == rows &&
      forall i :: 0 <= i < rows ==>
        p.children[i].Node? && |p.children[i].children| == cols &&
        forall j :: 0 <= j < cols ==> p.children[i].children[j] == Leaf(Block(a, rows, cols, i, j))
  {
    ArraySplitNdOutcome(a, [rows, cols]);
    ArraySplitNdChildren(a, [rows, cols]);
    var p := ArraySplitNd(a, [rows, cols]).value;
    forall i | 0 <= i < rows
      ensures p.children[i].Node? && |p.children[i].children| == cols
      ensures forall j :: 0 <= j < cols ==> p.children[i].children[j] == Leaf(Block(a, rows, cols, i, j))
    {
      var s := Section(a, SplitAxis(|a.shape|, 2), rows, i);
      assert [rows, cols][1..] == [cols];
      ArraySplitNdChildren(s, [cols]);
    }
  }

  /**
   * `energy_split(ary, rows, cols)`: a `rows x cols` grid whose cell
   * `[r, c]` is the energy of block `[r][c]` of `array_split_nd(ary, rows, cols)`.
   */
  method EnergySplit<T>(a: NdArray<T>, rows: int, cols: int, energy: NdArray<T> -> real)
    returns (r: Result<array2<real>, Error>)
    requires WellFormed(a)
    ensures r.Failure? <==> EnergySplitError(a, rows, cols).Some?
    ensures r.Failure? ==> r.error == EnergySplitError(a, rows, cols).value
    ensures r.Success? ==>
      && fresh(r.value)
      && |a.shape| >= 1 && r.value.Length0 == rows && r.value.Length1 == cols
      && forall i, j :: 0 <= i < rows && 0 <= j < cols ==> r.value[i, j] == energy(Block(a, rows, cols, i, j))
  {
    if rows < 0 || cols < 0 {
      return Failure(NegativeDimensions);
    }
    var split := ArraySplitNd(a, [rows, cols]);
    if split.Failure? {
      return Failure(split.error);
    }
    SplitBlocks(a, rows, cols);
    var normLocal := FillEnergies(split.value, rows, cols, energy);
    return Success(normLocal);
  }

  /** A `rows x cols` nesting of arrays. */
  predicate Grid<T>(p: Pieces<T>, rows: nat, cols: nat)
  {
    && p.Node? && |p.children| == rows
    && forall i :: 0 <= i < rows ==>
         p.children[i].Node? && |p.children[i].children| == cols &&
         forall j :: 0 <= j < cols ==> p.children[i].children[j].Leaf?
  }

  /** The loops of `energy_split`: cell `[r, c]` of a fresh grid gets the energy of piece `[r][c]`. */
  method FillEnergies<T>(p: Pieces<T>, rows: nat, cols: nat, energy: NdArray<T> -> real)
    returns (normLocal: array2<real>)
    requires Grid(p, rows, cols)
    ensures fresh(normLocal) && normLocal.Length0 == rows && normLocal.Length1 == cols
    ensures forall i, j :: 0 <= i < rows && 0 <= j < cols ==>
      normLocal[i, j] == energy(p.children[i].children[j].piece)
  {
    normLocal := new real[rows, cols];
    for irow := 0 to rows
      invariant forall i, j :: 0 <= i < irow && 0 <= j < cols ==>
        normLocal[i, j] == energy(p.children[i].children[j].piece)
    {
      for icol := 0 to cols
        invariant forall i, j :: 0 <= i < irow && 0 <= j < cols ==>
          normLocal[i, j] == energy(p.children[i].children[j].piece)
        invariant forall j :: 0 <= j < icol ==> normLocal[irow, j] == energy(p.children[irow].children[j].piece)
      {
        normLocal[irow, icol] := energy(p.children[irow].children[icol].piece);
      }
    }
  }

  // ---------------------------------------------------------------------------
  // ndargmax (line 250).

  /** `argmax` of a flat sequence: the position of its first maximum. */
  function ArgMax(s: seq<real>): (k: nat)
    requires |s| > 0
    ensures k < |s|
    ensures forall i :: 0 <= i < |s| ==> s[i] <= s[k]
    ensures forall i :: 0 <= i < k ==> s[i] < s[k]
  {
    if |s| == 1 then 0
    else
      var m := ArgMax(s[..|s| - 1]);
      if s[|s| - 1] > s[m] then |s| - 1 else m
  }

  /**
   * `ndargmax(ary)`: the row-major multi-index of the first maximum; numpy's
   * `argmax` raises ValueError on an empty array.
   */
  function NdArgmax(a: NdArray<real>): (r: Result<seq<nat>, Error>)
    requires WellFormed(a)
    ensures r.Failure? <==> |a.data| == 0
    ensures r.Failure? ==> r.error == EmptyArgmax
    ensures r.Success? ==>
      && InRange(a.shape, r.value)
      && Ravel(a.shape, r.value) < |a.data|
      && (forall k :: 0 <= k < |a.data| ==> a.data[k] <= a.data[Ravel(a.shape, r.value)])
      && (forall k :: 0 <= k < Ravel(a.shape, r.value) ==> a.data[k] < a.data[Ravel(a.shape, r.value)])
  {
    if |a.data| == 0 then Failure(EmptyArgmax)
    else
      var k := ArgMax(a.data);
      RavelUnravel(a.shape, k);
      Success(Unravel(a.shape, k))
  }

  /** An array whose maximum is strictly larger than every other element gives that element's index. */
  lemma UniqueMax(a: NdArray<real>, m: seq<nat>)
    requires WellFormed(a) && InRange(a.shape, m) && Ravel(a.shape, m) < |a.data|
    requires forall k :: 0 <= k < |a.data| && k != Ravel(a.shape, m) ==> a.data[k] < a.data[Ravel(a.shape, m)]
    ensures NdArgmax(a) == Success(m)
  {
    UnravelRavel(a.shape, m);
  }
}
