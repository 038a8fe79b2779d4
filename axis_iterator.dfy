/**
 * The batch iteration of the FDCT operator: normalising the transformed
 * directions, enumerating the index tuples over the remaining ("batch") axes in
 * itertools.product order, selecting the 2D/3D slice an index tuple denotes,
 * and the proof that these slices tile the whole input array.
 *
 * Axes are described by a mask `iterable` with `iterable[a]` true exactly when
 * axis `a` is a batch axis (curvelops/curvelops.py line 110).
 */
module AxisIterator {
  import opened Base
  import opened RowMajor

  // ---------------------------------------------------------------------------
  // Direction normalisation.

  /** numpy's normalize_axis_index: negative axes count from the end. */
  function NormalizeAxis(d: int, ndim: nat): (r: Result<nat, Error>)
    ensures r.Success? <==> -(ndim as int) <= d < ndim
    ensures r.Success? ==> r.value < ndim && r.value == d % ndim
    ensures r.Failure? ==> r.error == AxisOutOfRange(d, ndim)
  {
    if -(ndim as int) <= d < ndim then Success(if d < 0 then d + ndim else d)
    else Failure(AxisOutOfRange(d, ndim))
  }

  /** The list comprehension of line 73: the first out-of-range entry raises. */
  function NormalizeAll(dirs: seq<int>, ndim: nat): (r: Result<seq<nat>, Error>)
    ensures r.Success? <==> forall k :: 0 <= k < |dirs| ==> -(ndim as int) <= dirs[k] < ndim
    ensures r.Success? ==> |r.value| == |dirs|
    ensures r.Success? ==> forall k :: 0 <= k < |dirs| ==> r.value[k] < ndim && r.value[k] == dirs[k] % ndim
    ensures r.Failure? ==>
      exists k :: 0 <= k < |dirs| && !(-(ndim as int) <= dirs[k] < ndim) &&
        (forall k' :: 0 <= k' < k ==> -(ndim as int) <= dirs[k'] < ndim) &&
        r.error == AxisOutOfRange(dirs[k], ndim)
  {
    if |dirs| == 0 then Success([])
    else
      match NormalizeAxis(dirs[0], ndim)
      case Failure(e) => Failure(e)
      case Success(d) =>
        match NormalizeAll(dirs[1..], ndim)
        case Failure(e) =>
          assert forall k :: 1 <= k < |dirs| ==> dirs[k] == dirs[1..][k - 1];
          Failure(e)
        case Success(ds) => Success([d] + ds)
  }

  /** Normalised directions that are pairwise distinct and ascending. */
  predicate StrictlyAscending(ds: seq<nat>)
  {
    forall k, k' :: 0 <= k < k' < |ds| ==> ds[k] < ds[k']
  }

  /** `iterable_axes` of line 110: axis `a` is a batch axis iff it is not a direction. */
  function IterableAxes(ndim: nat, dirs: seq<nat>): (r: seq<bool>)
    ensures |r| == ndim
  {
    seq(ndim, a requires 0 <= a < ndim => a !in dirs)
  }

  /** The per-slice extents `_input_shape`: the extents of `dims` in `dirs` order (line 77). */
  function InputShape(dims: seq<nat>, dirs: seq<nat>): (r: seq<nat>)
    requires forall k :: 0 <= k < |dirs| ==> dirs[k] < |dims|
    ensures |r| == |dirs|
  {
    seq(|dirs|, k requires 0 <= k < |dirs| => dims[dirs[k]])
  }

  lemma {:induction false} FilterSnoc(s: seq<nat>, keep: seq<bool>, x: nat, b: bool)
    requires |keep| == |s|
    ensures Filter(s + [x], keep + [b]) == Filter(s, keep) + (if b then [x] else [])
  {
    if |s| > 0 {
      assert (s + [x])[1..] == s[1..] + [x];
      assert (keep + [b])[1..] == keep[1..] + [b];
      FilterSnoc(s[1..], keep[1..], x, b);
    }
  }

  /**
   * For ascending directions, taking the extents in `dirs` order is the same as
   * keeping the non-batch axes in axis order.
   */
  lemma {:induction false} InputShapeIsFilter(dims: seq<nat>, dirs: seq<nat>)
    requires StrictlyAscending(dirs)
    requires forall k :: 0 <= k < |dirs| ==> dirs[k] < |dims|
    ensures InputShape(dims, dirs) == Filter(dims, Negate(IterableAxes(|dims|, dirs)))
  {
    var n := |dims|;
    if n == 0 {
      if |dirs| > 0 {
        assert false;
      }
    } else {
      var keep := Negate(IterableAxes(n, dirs));
      var dims', keep' := dims[..n - 1], keep[..n - 1];
      assert dims == dims' + [dims[n - 1]] && keep == keep' + [keep[n - 1]];
      FilterSnoc(dims', keep', dims[n - 1], keep[n - 1]);
      if |dirs| > 0 && dirs[|dirs| - 1] == n - 1 {
        var dirs' := dirs[..|dirs| - 1];
        KeepLastDirection(n, dirs);
        InputShapeIsFilter(dims', dirs');
        assert InputShape(dims, dirs) == InputShape(dims', dirs') + [dims[n - 1]];
      } else {
        KeepBatchLast(n, dirs);
        InputShapeIsFilter(dims', dirs);
        assert InputShape(dims, dirs) == InputShape(dims', dirs);
      }
    }
  }

  /** When the last axis is the last direction, the other axes are described by the other directions. */
  lemma KeepLastDirection(n: nat, dirs: seq<nat>)
    requires n > 0 && |dirs| > 0 && dirs[|dirs| - 1] == n - 1 && StrictlyAscending(dirs)
    ensures Negate(IterableAxes(n, dirs))[n - 1]
    ensures Negate(IterableAxes(n, dirs))[..n - 1] == Negate(IterableAxes(n - 1, dirs[..|dirs| - 1]))
    ensures StrictlyAscending(dirs[..|dirs| - 1])
    ensures forall k :: 0 <= k < |dirs| - 1 ==> dirs[k] < n - 1
  {
    var keep, dirs' := Negate(IterableAxes(n, dirs)), dirs[..|dirs| - 1];
    forall a | 0 <= a < n - 1 ensures keep[a] == (a in dirs') {
      assert a in dirs ==> a in dirs' by {
        if a in dirs {
          var k :| 0 <= k < |dirs| && dirs[k] == a;
          assert k != |dirs| - 1;
          assert dirs'[k] == a;
        }
      }
    }
  }

  /** When the last axis is a batch axis, the other axes are described by the same directions. */
  lemma KeepBatchLast(n: nat, dirs: seq<nat>)
    requires n > 0 && !(|dirs| > 0 && dirs[|dirs| - 1] == n - 1) && StrictlyAscending(dirs)
    requires forall k :: 0 <= k < |dirs| ==> dirs[k] < n
    ensures !Negate(IterableAxes(n, dirs))[n - 1]
    ensures Negate(IterableAxes(n, dirs))[..n - 1] == Negate(IterableAxes(n - 1, dirs))
    ensures forall k :: 0 <= k < |dirs| ==> dirs[k] < n - 1
  {
    forall k | 0 <= k < |dirs| ensures dirs[k] < n - 1 {
      if k < |dirs| - 1 {
        assert dirs[k] < dirs[|dirs| - 1];
      }
    }
  }

  // ---------------------------------------------------------------------------
  // The iterator of lines 116-123.

  /** One component of an index tuple: a concrete int, or `slice(None)`. */
  datatype IndexEntry = At(i: nat) | All

  /** Per-axis choices: `range(dims[ax])` on a batch axis, `[slice(None)]` on a direction. */
  function Options(dims: seq<nat>, iterable: seq<bool>): (r: seq<seq<IndexEntry>>)
    requires |iterable| == |dims|
    ensures |r| == |dims|
  {
    seq(|dims|, a requires 0 <= a < |dims| =>
      if iterable[a] then seq(dims[a], i requires 0 <= i < dims[a] => At(i)) else [All])
  }

  /** itertools.product: the first factor varies slowest, the last fastest. */
  function Product<X>(opts: seq<seq<X>>): seq<seq<X>>
  {
    if |opts| == 0 then [[]]
    else
      var rest := Product(opts[1..]);
      var n := |rest|;
      seq(|opts[0]| * n, t requires 0 <= t < |opts[0]| * n =>
        DivBelow(t, |opts[0]|, n);
        [opts[0][t / n]] + rest[t % n])
  }

  function Lens<X>(opts: seq<seq<X>>): (r: seq<nat>)
    ensures |r| == |opts|
  {
    seq(|opts|, a requires 0 <= a < |opts| => |opts[a]|)
  }

  /** Tuple `t` of a product picks, on every factor, the row-major digit of `t`. */
  lemma {:induction false} ProductIndex<X>(opts: seq<seq<X>>)
    ensures |Product(opts)| == Prod(Lens(opts))
    ensures forall t :: 0 <= t < |Product(opts)| ==>
      |Product(opts)[t]| == |opts| &&
      forall a :: 0 <= a < |opts| ==> Product(opts)[t][a] == opts[a][Unravel(Lens(opts), t)[a]]
  {
    if |opts| > 0 {
      var rest := Product(opts[1..]);
      var n := |rest|;
      assert Lens(opts)[1..] == Lens(opts[1..]);
      ProductIndex(opts[1..]);
      forall t | 0 <= t < |Product(opts)|
        ensures |Product(opts)[t]| == |opts|
        ensures forall a :: 0 <= a < |opts| ==> Product(opts)[t][a] == opts[a][Unravel(Lens(opts), t)[a]]
      {
        DivBelow(t, |opts[0]|, n);
        var u := Unravel(Lens(opts), t);
        assert u == [t / n] + Unravel(Lens(opts[1..]), t % n);
        assert Product(opts)[t] == [opts[0][t / n]] + rest[t % n];
        forall a | 0 <= a < |opts| ensures Product(opts)[t][a] == opts[a][u[a]] {
          if a > 0 {
            assert Product(opts)[t][a] == rest[t % n][a - 1];
            assert opts[1..][a - 1] == opts[a];
          }
        }
      }
    }
  }

  /** The iterator `_iterator`. */
  function Iterator(dims: seq<nat>, iterable: seq<bool>): seq<seq<IndexEntry>>
    requires |iterable| == |dims|
  {
    Product(Options(dims, iterable))
  }

  /** Entry `i` of the iterator: the row-major digits of `i` over the batch extents. */
  function Entry(dims: seq<nat>, iterable: seq<bool>, i: nat): (e: seq<IndexEntry>)
    requires |iterable| == |dims|
    requires i < Prod(Units(dims, iterable))
    ensures |e| == |dims|
  {
    var u := Unravel(Units(dims, iterable), i);
    seq(|dims|, a requires 0 <= a < |dims| => if iterable[a] then At(u[a]) else All)
  }

  /** The integers of an index tuple, 0 on a wildcard axis. */
  function Ints(e: seq<IndexEntry>): (r: seq<nat>)
    ensures |r| == |e|
  {
    seq(|e|, a requires 0 <= a < |e| => if e[a].At? then e[a].i else 0)
  }

  /**
   * The iterator has `_ndim_iterable` entries (the product of the batch
   * extents), entry `i` carries an in-range int on each batch axis and a
   * wildcard on each direction, and the entries come in strictly increasing
   * lexicographic order: the last batch axis varies fastest.
   */
  lemma IteratorSpec(dims: seq<nat>, iterable: seq<bool>)
    requires |iterable| == |dims|
    ensures |Iterator(dims, iterable)| == Prod(Filter(dims, iterable)) == Prod(Units(dims, iterable))
    ensures forall i :: 0 <= i < |Iterator(dims, iterable)| ==>
      Iterator(dims, iterable)[i] == Entry(dims, iterable, i) &&
      |Iterator(dims, iterable)[i]| == |dims| &&
      forall a :: 0 <= a < |dims| ==>
        if iterable[a] then Iterator(dims, iterable)[i][a].At? && Iterator(dims, iterable)[i][a].i < dims[a]
        else Iterator(dims, iterable)[i][a] == All
    ensures forall i, j :: 0 <= i < j < |Iterator(dims, iterable)| ==>
      LexLess(Ints(Iterator(dims, iterable)[i]), Ints(Iterator(dims, iterable)[j]))
  {
    var opts := Options(dims, iterable);
    var it := Iterator(dims, iterable);
    var l := Units(dims, iterable);
    assert Lens(opts) == l;
    ProductIndex(opts);
    ProdUnits(dims, iterable);
    forall i | 0 <= i < |it| ensures it[i] == Entry(dims, iterable, i) {
      var u := Unravel(l, i);
      forall a | 0 <= a < |dims| ensures it[i][a] == Entry(dims, iterable, i)[a] {
        if !iterable[a] {
          assert u[a] < 1;
        }
      }
    }
    forall i | 0 <= i < |it| ensures Ints(it[i]) == Unravel(l, i) {
      var u := Unravel(l, i);
      forall a | 0 <= a < |dims| ensures Ints(it[i])[a] == u[a] {
        if !iterable[a] {
          assert u[a] < 1;
        }
      }
    }
    forall i, j | 0 <= i < j < |it| ensures LexLess(Ints(it[i]), Ints(it[j])) {
      UnravelLexOrder(l, i, j);
    }
  }

  // ---------------------------------------------------------------------------
  // Selecting the slice `x.reshape(dims)[index]` of an index tuple.

  /** An index tuple fits `dims`: one entry per axis, every int in range. */
  predicate Fits(dims: seq<nat>, e: seq<IndexEntry>)
  {
    |e| == |dims| && forall a :: 0 <= a < |dims| && e[a].At? ==> e[a].i < dims[a]
  }

  /** Shape of the selection with unit extents kept on the int axes. */
  function Extents(dims: seq<nat>, e: seq<IndexEntry>): (r: seq<nat>)
    requires |e| == |dims|
    ensures |r| == |dims|
  {
    seq(|dims|, a requires 0 <= a < |dims| => if e[a].At? then 1 else dims[a])
  }

  /** The full multi-index: the ints of `e`, and `v` on the wildcard axes. */
  function Fill(e: seq<IndexEntry>, v: seq<nat>): (m: seq<nat>)
    requires |v| == |e|
    ensures |m| == |e|
  {
    seq(|e|, a requires 0 <= a < |e| => if e[a].At? then e[a].i else v[a])
  }

  lemma FillInRange(dims: seq<nat>, e: seq<IndexEntry>, v: seq<nat>)
    requires Fits(dims, e) && InRange(Extents(dims, e), v)
    ensures InRange(dims, Fill(e, v))
  {
  }

  /** Flat position in the array of element `q` of the selection. */
  function SelectedPosition(dims: seq<nat>, e: seq<IndexEntry>, q: nat): (p: nat)
    requires Fits(dims, e) && q < Prod(Extents(dims, e))
    ensures p < Prod(dims)
  {
    var v := Unravel(Extents(dims, e), q);
    FillInRange(dims, e, v);
    RavelBound(dims, Fill(e, v));
    Ravel(dims, Fill(e, v))
  }

  /** `x.reshape(dims)[e]` flattened: the elements matching the ints of `e`, in row-major order. */
  function Select<T>(x: seq<T>, dims: seq<nat>, e: seq<IndexEntry>): (r: seq<T>)
    requires |x| == Prod(dims) && Fits(dims, e)
    ensures |r| == Prod(Extents(dims, e))
  {
    seq(Prod(Extents(dims, e)), q requires 0 <= q < Prod(Extents(dims, e)) => x[SelectedPosition(dims, e, q)])
  }

  /** The shape of a selection, with the int axes dropped, has as many elements as the selection. */
  lemma SelectionSize(dims: seq<nat>, iterable: seq<bool>, i: nat)
    requires |iterable| == |dims| && i < Prod(Units(dims, iterable))
    ensures Fits(dims, Entry(dims, iterable, i))
    ensures Extents(dims, Entry(dims, iterable, i)) == Units(dims, Negate(iterable))
    ensures Prod(Units(dims, Negate(iterable))) == Prod(Filter(dims, Negate(iterable)))
  {
    EntryFits(dims, iterable, i);
    ProdUnits(dims, Negate(iterable));
  }

  /** Entry `i` holds an int, within the extent, exactly on the batch axes,
      so its selection has extent 1 there and the array's extent elsewhere. */
  lemma EntryFits(dims: seq<nat>, iterable: seq<bool>, i: nat)
    requires |iterable| == |dims| && i < Prod(Units(dims, iterable))
    ensures Fits(dims, Entry(dims, iterable, i))
    ensures forall a :: 0 <= a < |dims| ==> (Entry(dims, iterable, i)[a].At? <==> iterable[a])
    ensures Extents(dims, Entry(dims, iterable, i)) == Units(dims, Negate(iterable))
  {
    var l := Units(dims, iterable);
    var u := Unravel(l, i);
    var e := Entry(dims, iterable, i);
    forall a | 0 <= a < |dims| ensures e[a] == (if iterable[a] then At(u[a]) else All) && (e[a].At? ==> e[a].i < dims[a]) {
      assert u[a] < l[a];
    }
  }

  /**
   * Element `q` of a selection is element `q`, in row-major order, of the
   * slice whose shape is the extents of the non-batch axes: the order in which
   * numpy hands the slice to the native transform.
   */
  lemma SelectionIsRowMajor(dims: seq<nat>, iterable: seq<bool>, i: nat, q: nat)
    requires |iterable| == |dims| && i < Prod(Units(dims, iterable))
    requires q < Prod(Units(dims, Negate(iterable)))
    ensures q < Prod(Filter(dims, Negate(iterable)))
    ensures Filter(Unravel(Units(dims, Negate(iterable)), q), Negate(iterable)) ==
            Unravel(Filter(dims, Negate(iterable)), q)
  {
    UnravelSqueeze(dims, Negate(iterable), q);
  }

  // ---------------------------------------------------------------------------
  // The slices of the iterator tile the array: every element belongs to
  // exactly one slice, at exactly one offset.

  /** Zero out the axes not kept. */
  function Keep(m: seq<nat>, keep: seq<bool>): (r: seq<nat>)
    requires |keep| == |m|
    ensures |r| == |m|
  {
    seq(|m|, a requires 0 <= a < |m| => if keep[a] then m[a] else 0)
  }

  /** Position in the array of element `q` of slice `i`. */
  function Position(dims: seq<nat>, iterable: seq<bool>, i: nat, q: nat): nat
    requires |iterable| == |dims| && i < Prod(Units(dims, iterable))
    requires q < Prod(Units(dims, Negate(iterable)))
  {
    SelectionSize(dims, iterable, i);
    SelectedPosition(dims, Entry(dims, iterable, i), q)
  }

  /** The slice that holds element `p`. */
  function SliceOf(dims: seq<nat>, iterable: seq<bool>, p: nat): nat
    requires |iterable| == |dims| && p < Prod(dims)
  {
    Ravel(Units(dims, iterable), Keep(Unravel(dims, p), iterable))
  }

  /** The offset of element `p` within its slice. */
  function OffsetIn(dims: seq<nat>, iterable: seq<bool>, p: nat): nat
    requires |iterable| == |dims| && p < Prod(dims)
  {
    Ravel(Units(dims, Negate(iterable)), Keep(Unravel(dims, p), Negate(iterable)))
  }

  lemma PositionIs(dims: seq<nat>, iterable: seq<bool>, i: nat, q: nat)
    requires |iterable| == |dims| && i < Prod(Units(dims, iterable))
    requires q < Prod(Units(dims, Negate(iterable)))
    ensures Fits(dims, Entry(dims, iterable, i))
    ensures InRange(dims, Fill(Entry(dims, iterable, i), Unravel(Units(dims, Negate(iterable)), q)))
    ensures Position(dims, iterable, i, q) ==
      Ravel(dims, Fill(Entry(dims, iterable, i), Unravel(Units(dims, Negate(iterable)), q)))
  {
    SelectionSize(dims, iterable, i);
    FillInRange(dims, Entry(dims, iterable, i), Unravel(Units(dims, Negate(iterable)), q));
  }

  /** The slice of a multi-index is the one whose ints are its batch coordinates. */
  lemma EntryOfSlice(dims: seq<nat>, iterable: seq<bool>, m: seq<nat>)
    requires |iterable| == |dims| && InRange(dims, m)
    ensures InRange(Units(dims, iterable), Keep(m, iterable))
    ensures Ravel(Units(dims, iterable), Keep(m, iterable)) < Prod(Units(dims, iterable))
    ensures Fill(Entry(dims, iterable, Ravel(Units(dims, iterable), Keep(m, iterable))), Keep(m, Negate(iterable))) == m
  {
    var l, u := Units(dims, iterable), Keep(m, iterable);
    UnravelRavel(l, u);
    var e := Entry(dims, iterable, Ravel(l, u));
    var v := Keep(m, Negate(iterable));
    forall a | 0 <= a < |dims| ensures Fill(e, v)[a] == m[a] {
      assert e[a] == if iterable[a] then At(u[a]) else All;
    }
  }

  /** Every element of the array is reached: by its own slice, at its own offset. */
  lemma SlicesCover(dims: seq<nat>, iterable: seq<bool>, p: nat)
    requires |iterable| == |dims| && p < Prod(dims)
    ensures SliceOf(dims, iterable, p) < Prod(Units(dims, iterable))
    ensures OffsetIn(dims, iterable, p) < Prod(Units(dims, Negate(iterable)))
    ensures Position(dims, iterable, SliceOf(dims, iterable, p), OffsetIn(dims, iterable, p)) == p
  {
    var t := Units(dims, Negate(iterable));
    var m := Unravel(dims, p);
    var v := Keep(m, Negate(iterable));
    EntryOfSlice(dims, iterable, m);
    assert InRange(t, v);
    UnravelRavel(t, v);
    var i, q := SliceOf(dims, iterable, p), OffsetIn(dims, iterable, p);
    PositionIs(dims, iterable, i, q);
    RavelUnravel(dims, p);
  }

  /** No element is reached twice: a position determines its slice and offset. */
  lemma SlicesDisjoint(dims: seq<nat>, iterable: seq<bool>, i: nat, q: nat)
    requires |iterable| == |dims| && i < Prod(Units(dims, iterable))
    requires q < Prod(Units(dims, Negate(iterable)))
    ensures Position(dims, iterable, i, q) < Prod(dims)
    ensures SliceOf(dims, iterable, Position(dims, iterable, i, q)) == i
    ensures OffsetIn(dims, iterable, Position(dims, iterable, i, q)) == q
  {
    var l, t := Units(dims, iterable), Units(dims, Negate(iterable));
    var u, v := Unravel(l, i), Unravel(t, q);
    var e := Entry(dims, iterable, i);
    SelectionSize(dims, iterable, i);
    var m := Fill(e, v);
    FillInRange(dims, e, v);
    UnravelRavel(dims, m);
    KeepFill(dims, iterable, i, q);
    RavelUnravel(l, i);
    RavelUnravel(t, q);
  }

  /** Keeping the batch axes of element `q` of slice `i` gives the slice's ints, the others its offset. */
  lemma KeepFill(dims: seq<nat>, iterable: seq<bool>, i: nat, q: nat)
    requires |iterable| == |dims| && i < Prod(Units(dims, iterable))
    requires q < Prod(Units(dims, Negate(iterable)))
    ensures Keep(Fill(Entry(dims, iterable, i), Unravel(Units(dims, Negate(iterable)), q)), iterable)
      == Unravel(Units(dims, iterable), i)
    ensures Keep(Fill(Entry(dims, iterable, i), Unravel(Units(dims, Negate(iterable)), q)), Negate(iterable))
      == Unravel(Units(dims, Negate(iterable)), q)
  {
    var l, t := Units(dims, iterable), Units(dims, Negate(iterable));
    var u, v := Unravel(l, i), Unravel(t, q);
    var m := Fill(Entry(dims, iterable, i), v);
    forall a | 0 <= a < |dims| ensures Keep(m, iterable)[a] == u[a] {
      if !iterable[a] {
        assert u[a] < l[a] == 1;
      }
    }
    forall a | 0 <= a < |dims| ensures Keep(m, Negate(iterable))[a] == v[a] {
      if iterable[a] {
        assert v[a] < t[a] == 1;
      }
    }
  }

  /** Two distinct (slice, offset) pairs reach distinct elements. */
  lemma PositionInjective(dims: seq<nat>, iterable: seq<bool>, i: nat, q: nat, i': nat, q': nat)
    requires |iterable| == |dims|
    requires i < Prod(Units(dims, iterable)) && i' < Prod(Units(dims, iterable))
    requires q < Prod(Units(dims, Negate(iterable))) && q' < Prod(Units(dims, Negate(iterable)))
    requires (i, q) != (i', q')
    ensures Position(dims, iterable, i, q) != Position(dims, iterable, i', q')
  {
    SlicesDisjoint(dims, iterable, i, q);
    SlicesDisjoint(dims, iterable, i', q');
  }

  // ---------------------------------------------------------------------------
  // Reassembling an array from its slices (`inv_out[index] = xinv`).

  /** The array whose slice `i`, in row-major order, is `slices[i]`. */
  function Scatter<T>(dims: seq<nat>, iterable: seq<bool>, slices: seq<seq<T>>): (r: seq<T>)
    requires |iterable| == |dims| && |slices| == Prod(Units(dims, iterable))
    requires forall i :: 0 <= i < |slices| ==> |slices[i]| == Prod(Units(dims, Negate(iterable)))
    ensures |r| == Prod(dims)
  {
    seq(Prod(dims), p requires 0 <= p < Prod(dims) =>
      SlicesCover(dims, iterable, p);
      slices[SliceOf(dims, iterable, p)][OffsetIn(dims, iterable, p)])
  }

  /** Element `q` of slice `i` lands at `Position(i, q)`. */
  lemma ScatterAt<T>(dims: seq<nat>, iterable: seq<bool>, slices: seq<seq<T>>, i: nat, q: nat)
    requires |iterable| == |dims| && |slices| == Prod(Units(dims, iterable))
    requires forall i :: 0 <= i < |slices| ==> |slices[i]| == Prod(Units(dims, Negate(iterable)))
    requires i < |slices| && q < |slices[i]|
    ensures Position(dims, iterable, i, q) < Prod(dims)
    ensures Scatter(dims, iterable, slices)[Position(dims, iterable, i, q)] == slices[i][q]
  {
    SlicesDisjoint(dims, iterable, i, q);
  }

  /** Every slice of the array, in iterator order: `[x.reshape(dims)[index] for index in iterator]`. */
  function Slices<T>(x: seq<T>, dims: seq<nat>, iterable: seq<bool>): (r: seq<seq<T>>)
    requires |iterable| == |dims| && |x| == Prod(dims)
    ensures |r| == Prod(Units(dims, iterable))
    ensures forall i :: 0 <= i < |r| ==>
      |r[i]| == Prod(Units(dims, Negate(iterable))) && r[i] == Select(x, dims, Entry(dims, iterable, i))
  {
    SelectionSizes(dims, iterable);
    seq(Prod(Units(dims, iterable)), i requires 0 <= i < Prod(Units(dims, iterable)) =>
      Select(x, dims, Entry(dims, iterable, i)))
  }

  lemma SelectionSizes(dims: seq<nat>, iterable: seq<bool>)
    requires |iterable| == |dims|
    ensures forall i :: 0 <= i < Prod(Units(dims, iterable)) ==>
      Fits(dims, Entry(dims, iterable, i)) && Extents(dims, Entry(dims, iterable, i)) == Units(dims, Negate(iterable))
  {
    forall i | 0 <= i < Prod(Units(dims, iterable))
      ensures Fits(dims, Entry(dims, iterable, i)) && Extents(dims, Entry(dims, iterable, i)) == Units(dims, Negate(iterable))
    {
      SelectionSize(dims, iterable, i);
    }
  }

  /** The slices tile the array: scattering every slice of `x` back gives `x`. */
  lemma ScatterSlices<T>(x: seq<T>, dims: seq<nat>, iterable: seq<bool>)
    requires |iterable| == |dims| && |x| == Prod(dims)
    ensures Scatter(dims, iterable, Slices(x, dims, iterable)) == x
  {
    var slices := Slices(x, dims, iterable);
    var r := Scatter(dims, iterable, slices);
    forall p | 0 <= p < Prod(dims) ensures r[p] == x[p] {
      SlicesCover(dims, iterable, p);
      var i, q := SliceOf(dims, iterable, p), OffsetIn(dims, iterable, p);
      SelectionSize(dims, iterable, i);
      assert slices[i][q] == x[Position(dims, iterable, i, q)];
    }
  }

  /** `a[index] = v` for the slice `i`: the elements of that slice are overwritten, no other. */
  method WriteSlice<T>(a: array<T>, dims: seq<nat>, iterable: seq<bool>, i: nat, v: seq<T>)
    requires |iterable| == |dims| && a.Length == Prod(dims)
    requires i < Prod(Units(dims, iterable)) && |v| == Prod(Units(dims, Negate(iterable)))
    modifies a
    ensures forall p :: 0 <= p < a.Length ==>
      SliceOf(dims, iterable, p) < Prod(Units(dims, iterable)) && OffsetIn(dims, iterable, p) < |v| &&
      a[p] == if SliceOf(dims, iterable, p) == i then v[OffsetIn(dims, iterable, p)] else old(a[p])
  {
    forall q, q' | 0 <= q < |v| && 0 <= q' < |v| && q != q'
      ensures Position(dims, iterable, i, q) != Position(dims, iterable, i, q')
    {
      PositionInjective(dims, iterable, i, q, i, q');
    }
    forall q | 0 <= q < |v|
      ensures Position(dims, iterable, i, q) < Prod(dims)
      ensures SliceOf(dims, iterable, Position(dims, iterable, i, q)) == i
      ensures OffsetIn(dims, iterable, Position(dims, iterable, i, q)) == q
    {
      SlicesDisjoint(dims, iterable, i, q);
    }
    forall p | 0 <= p < Prod(dims)
      ensures SliceOf(dims, iterable, p) < Prod(Units(dims, iterable))
      ensures OffsetIn(dims, iterable, p) < |v|
      ensures Position(dims, iterable, SliceOf(dims, iterable, p), OffsetIn(dims, iterable, p)) == p
    {
      SlicesCover(dims, iterable, p);
    }
    forall q | 0 <= q < |v| {
      a[Position(dims, iterable, i, q)] := v[q];
    }
  }
}
