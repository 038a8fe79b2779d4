/**
 * The `[scale][wedge]` coefficient structure of the curvelet operator and its
 * flat encoding: the wedge-shape table built from the native parameter query,
 * the output length, `struct` (flat vector to nested arrays) and `vect`
 * (nested arrays to flat vector), with both round trips.
 *
 * Coefficient blocks are laid out scale-major, wedge-minor, each block the
 * row-major ravel of its wedge (curvelops/curvelops.py lines 181-194).
 */
module Codec {
  import opened Base

  /** `shapes[scale][wedge]`: the extents of every wedge. */
  type Table = seq<seq<seq<nat>>>

  /** Coefficients as nested arrays: `c[scale][wedge]`. */
  type CStruct<T> = seq<seq<NdArray<T>>>

  // ---------------------------------------------------------------------------
  // The wedge-shape table of lines 127-132.

  /** Every table of `sizes` has an entry wherever `nxs` has one. */
  predicate Covers(sizes: seq<seq<seq<nat>>>, nxs: seq<seq<nat>>)
  {
    forall s, i :: 0 <= s < |sizes| && 0 <= i < |nxs| && |nxs[i]| > 0 ==>
      i < |sizes[s]| && |nxs[i]| <= |sizes[s][i]|
  }

  /** `tuple(s[i][j] for s in sizes)`: IndexError at the first table lacking the entry. */
  function TupleAt(sizes: seq<seq<seq<nat>>>, i: nat, j: nat): (r: Result<seq<nat>, Error>)
    ensures r.Success? <==> forall s :: 0 <= s < |sizes| ==> i < |sizes[s]| && j < |sizes[s][i]|
    ensures r.Success? ==> |r.value| == |sizes| && forall s :: 0 <= s < |sizes| ==> r.value[s] == sizes[s][i][j]
    ensures r.Failure? ==> r.error == MissingTableEntry
  {
    if |sizes| == 0 then Success([])
    else if i < |sizes[0]| && j < |sizes[0][i]| then
      match TupleAt(sizes[1..], i, j)
      case Failure(e) =>
        assert forall s :: 1 <= s < |sizes| ==> sizes[s] == sizes[1..][s - 1];
        Failure(e)
      case Success(rest) => Success([sizes[0][i][j]] + rest)
    else Failure(MissingTableEntry)
  }

  /** The table the loops of lines 127-132 build when no entry is missing. */
  function ShapeTable(sizes: seq<seq<seq<nat>>>, nxs: seq<seq<nat>>): (t: Table)
    requires Covers(sizes, nxs)
    ensures |t| == |nxs|
    ensures forall i :: 0 <= i < |nxs| ==> |t[i]| == |nxs[i]|
    ensures forall i, j :: 0 <= i < |nxs| && 0 <= j < |nxs[i]| ==>
      |t[i][j]| == |sizes| && forall s :: 0 <= s < |sizes| ==> t[i][j][s] == sizes[s][i][j]
  {
    seq(|nxs|, i requires 0 <= i < |nxs| =>
      seq(|nxs[i]|, j requires 0 <= j < |nxs[i]| =>
        seq(|sizes|, s requires 0 <= s < |sizes| => sizes[s][i][j])))
  }

  /**
   * `self.shapes`: one row per scale of `nxs`, one tuple per wedge of that
   * scale, the tuple reading every table of `sizes` at `[i][j]`.
   */
  method BuildShapes(sizes: seq<seq<seq<nat>>>, nxs: seq<seq<nat>>) returns (r: Result<Table, Error>)
    ensures r.Success? <==> Covers(sizes, nxs)
    ensures r.Success? ==> r.value == ShapeTable(sizes, nxs)
    ensures r.Failure? ==> r.error == MissingTableEntry
  {
    var shapes: Table := [];
    for i := 0 to |nxs|
      invariant Covers(sizes, nxs[..i])
      invariant |shapes| == i
      invariant forall i' :: 0 <= i' < i ==> |shapes[i']| == |nxs[i']|
      invariant forall i', j :: 0 <= i' < i && 0 <= j < |nxs[i']| ==>
        |shapes[i'][j]| == |sizes| && forall s :: 0 <= s < |sizes| ==> shapes[i'][j][s] == sizes[s][i'][j]
    {
      var shape: seq<seq<nat>> := [];
      for j := 0 to |nxs[i]|
        invariant forall s :: 0 <= s < |sizes| ==> i < |sizes[s]| || j == 0
        invariant forall s :: 0 <= s < |sizes| && i < |sizes[s]| ==> j <= |sizes[s][i]|
        invariant |shape| == j
        invariant forall j' :: 0 <= j' < j ==>
          |shape[j']| == |sizes| && forall s :: 0 <= s < |sizes| ==> shape[j'][s] == sizes[s][i][j']
      {
        var tuple := TupleAt(sizes, i, j);
        if tuple.Failure? {
          assert !Covers(sizes, nxs) by {
            var s :| 0 <= s < |sizes| && !(i < |sizes[s]| && j < |sizes[s][i]|);
          }
          return Failure(tuple.error);
        }
        shape := shape + [tuple.value];
      }
      assert Covers(sizes, nxs[..i + 1]) by {
        forall s, i' | 0 <= s < |sizes| && 0 <= i' < i + 1 && |nxs[..i + 1][i']| > 0
          ensures i' < |sizes[s]| && |nxs[..i + 1][i']| <= |sizes[s][i']|
        {
          if i' < i {
            assert nxs[..i][i'] == nxs[..i + 1][i'];
          }
        }
      }
      shapes := shapes + [shape];
    }
    assert nxs[..|nxs|] == nxs;
    assert shapes == ShapeTable(sizes, nxs) by {
      var t := ShapeTable(sizes, nxs);
      forall i | 0 <= i < |nxs| ensures shapes[i] == t[i] {
        forall j | 0 <= j < |nxs[i]| ensures shapes[i][j] == t[i][j] {
        }
      }
    }
    return Success(shapes);
  }

  // ---------------------------------------------------------------------------
  // Lengths: `_output_len` of line 134, summed in the order of the loops.

  /** Number of coefficients of one scale: the sum of the wedge sizes. */
  function ScaleLen(ws: seq<seq<nat>>): nat
  {
    if |ws| == 0 then 0 else ScaleLen(ws[..|ws| - 1]) + Prod(ws[|ws| - 1])
  }

  /** `_output_len`: the number of coefficients of one 2D/3D slice. */
  function OutputLen(t: Table): nat
  {
    if |t| == 0 then 0 else OutputLen(t[..|t| - 1]) + ScaleLen(t[|t| - 1])
  }

  /** Adding wedge `j` to the prefix adds its size, and prefixes never exceed the whole. */
  lemma {:induction false} ScaleLenStep(ws: seq<seq<nat>>, j: nat)
    requires j < |ws|
    ensures ScaleLen(ws[..j + 1]) == ScaleLen(ws[..j]) + Prod(ws[j])
    ensures ScaleLen(ws[..j + 1]) <= ScaleLen(ws)
  {
    assert ws[..j + 1][..j] == ws[..j];
    if j + 1 < |ws| {
      ScaleLenStep(ws[..|ws| - 1], j);
      assert ws[..|ws| - 1][..j + 1] == ws[..j + 1];
    } else {
      assert ws[..j + 1] == ws;
    }
  }

  lemma {:induction false} OutputLenStep(t: Table, i: nat)
    requires i < |t|
    ensures OutputLen(t[..i + 1]) == OutputLen(t[..i]) + ScaleLen(t[i])
    ensures OutputLen(t[..i + 1]) <= OutputLen(t)
  {
    assert t[..i + 1][..i] == t[..i];
    if i + 1 < |t| {
      OutputLenStep(t[..|t| - 1], i);
      assert t[..|t| - 1][..i + 1] == t[..i + 1];
    } else {
      assert t[..i + 1] == t;
    }
  }

  /** Where the block of wedge `[i][j]` starts in the flat vector. */
  function Offset(t: Table, i: nat, j: nat): (k: nat)
    requires i < |t| && j < |t[i]|
    ensures k + Prod(t[i][j]) <= OutputLen(t)
  {
    OutputLenStep(t, i);
    ScaleLenStep(t[i], j);
    OutputLen(t[..i]) + ScaleLen(t[i][..j])
  }

  /** Offsets only grow along a prefix. */
  lemma {:induction false} ScaleLenMono(ws: seq<seq<nat>>, j: nat, j': nat)
    requires j <= j' <= |ws|
    ensures ScaleLen(ws[..j]) <= ScaleLen(ws[..j'])
    decreases j' - j
  {
    if j < j' {
      ScaleLenStep(ws, j);
      ScaleLenMono(ws, j + 1, j');
    }
  }

  lemma {:induction false} OutputLenMono(t: Table, i: nat, i': nat)
    requires i <= i' <= |t|
    ensures OutputLen(t[..i]) <= OutputLen(t[..i'])
    decreases i' - i
  {
    if i < i' {
      OutputLenStep(t, i);
      OutputLenMono(t, i + 1, i');
    }
  }

  /**
   * The blocks are contiguous and do not overlap: each block ends where the
   * next one in scale-major, wedge-minor order starts or earlier, so
   * `struct` consumes the vector left to right.
   */
  lemma BlocksInOrder(t: Table, i: nat, j: nat, i': nat, j': nat)
    requires i < |t| && j < |t[i]| && i' < |t| && j' < |t[i']|
    requires i < i' || (i == i' && j < j')
    ensures Offset(t, i, j) + Prod(t[i][j]) <= Offset(t, i', j')
    ensures j + 1 < |t[i]| ==> Offset(t, i, j) + Prod(t[i][j]) == Offset(t, i, j + 1)
  {
    ScaleLenStep(t[i], j);
    if i == i' {
      ScaleLenMono(t[i], j + 1, j');
    } else {
      OutputLenStep(t, i);
      ScaleLenMono(t[i], j + 1, |t[i]|);
      assert t[i][..|t[i]|] == t[i];
      OutputLenMono(t, i + 1, i');
    }
  }

  // ---------------------------------------------------------------------------
  // struct: cut the flat vector into the blocks of the table.

  /** Scale `ws` of the structure, its blocks starting at `base`: wedge after wedge. */
  function ScaleOf<T>(ws: seq<seq<nat>>, x: seq<T>, base: nat): (r: seq<NdArray<T>>)
    requires base + ScaleLen(ws) <= |x|
    ensures |r| == |ws|
  {
    if |ws| == 0 then []
    else
      var n := |ws|;
      ScaleOf(ws[..n - 1], x, base) + [NdArray(ws[n - 1], x[base + ScaleLen(ws[..n - 1]) .. base + ScaleLen(ws)])]
  }

  /** Wedge `j` of the scale is the block after the earlier wedges, with extents `ws[j]`. */
  lemma {:induction false} ScaleOfAt<T>(ws: seq<seq<nat>>, x: seq<T>, base: nat, j: nat)
    requires base + ScaleLen(ws) <= |x| && j < |ws|
    ensures base + ScaleLen(ws[..j]) + Prod(ws[j]) <= |x|
    ensures ScaleOf(ws, x, base)[j] == NdArray(ws[j], x[base + ScaleLen(ws[..j]) .. base + ScaleLen(ws[..j]) + Prod(ws[j])])
  {
    var n := |ws|;
    ScaleLenStep(ws, j);
    if j < n - 1 {
      ScaleOfAt(ws[..n - 1], x, base, j);
      assert ws[..n - 1][..j] == ws[..j];
    }
  }

  /** `struct(x)` when `x` is long enough: scale after scale, each starting after all earlier scales. */
  function StructOf<T>(t: Table, x: seq<T>): (r: CStruct<T>)
    requires OutputLen(t) <= |x|
    ensures |r| == |t| && forall i :: 0 <= i < |t| ==> |r[i]| == |t[i]|
  {
    if |t| == 0 then []
    else
      var n := |t|;
      StructOf(t[..n - 1], x) + [ScaleOf(t[n - 1], x, OutputLen(t[..n - 1]))]
  }

  /** Scale `i` of the structure starts after all earlier scales. */
  lemma {:induction false} StructOfAt<T>(t: Table, x: seq<T>, i: nat)
    requires OutputLen(t) <= |x| && i < |t|
    ensures OutputLen(t[..i]) + ScaleLen(t[i]) <= |x|
    ensures StructOf(t, x)[i] == ScaleOf(t[i], x, OutputLen(t[..i]))
  {
    var n := |t|;
    OutputLenStep(t, i);
    if i < n - 1 {
      StructOfAt(t[..n - 1], x, i);
      assert t[..n - 1][..i] == t[..i];
    }
  }

  /** The extents of the leaves of one scale. */
  function Shapes<T>(ws: seq<NdArray<T>>): (r: seq<seq<nat>>)
    ensures |r| == |ws| && forall j :: 0 <= j < |ws| ==> r[j] == ws[j].shape
  {
    seq(|ws|, j requires 0 <= j < |ws| => ws[j].shape)
  }

  /** The extents of every leaf of a structure. */
  function LeafShapes<T>(s: CStruct<T>): (t: Table)
    ensures |t| == |s| && forall i :: 0 <= i < |s| ==> t[i] == Shapes(s[i])
  {
    seq(|s|, i requires 0 <= i < |s| => Shapes(s[i]))
  }

  /** Every leaf holds exactly as many elements as its shape has. */
  predicate WellFormedScale<T>(ws: seq<NdArray<T>>)
  {
    forall j :: 0 <= j < |ws| ==> WellFormed(ws[j])
  }

  predicate WellFormedStruct<T>(s: CStruct<T>)
  {
    forall i :: 0 <= i < |s| ==> WellFormedScale(s[i])
  }

  /** Leaf `[i][j]` of `struct(x)` is the block of `x` at `Offset(t, i, j)`, with the extents `t[i][j]`. */
  lemma StructLeaf<T>(t: Table, x: seq<T>, i: nat, j: nat)
    requires OutputLen(t) <= |x| && i < |t| && j < |t[i]|
    ensures StructOf(t, x)[i][j] == NdArray(t[i][j], x[Offset(t, i, j) .. Offset(t, i, j) + Prod(t[i][j])])
  {
    var base := OutputLen(t[..i]);
    StructOfAt(t, x, i);
    var scale := ScaleOf(t[i], x, base);
    ScaleOfAt(t[i], x, base, j);
  }

  /** `struct(x)` has the table's shapes, and every leaf is well formed. */
  lemma StructShapes<T>(t: Table, x: seq<T>)
    requires OutputLen(t) <= |x|
    ensures LeafShapes(StructOf(t, x)) == t
    ensures WellFormedStruct(StructOf(t, x))
  {
    var s: CStruct<T> := StructOf(t, x);
    forall i | 0 <= i < |t| ensures Shapes(s[i]) == t[i] && WellFormedScale(s[i]) {
      StructOfAt(t, x, i);
      ScaleShapes(t[i], x, OutputLen(t[..i]));
    }
  }

  /** One scale of `struct(x)` has the extents of its row of the table, and every leaf is well formed. */
  lemma ScaleShapes<T>(ws: seq<seq<nat>>, x: seq<T>, base: nat)
    requires base + ScaleLen(ws) <= |x|
    ensures Shapes(ScaleOf(ws, x, base)) == ws
    ensures WellFormedScale(ScaleOf(ws, x, base))
  {
    var r := ScaleOf(ws, x, base);
    forall j | 0 <= j < |ws| ensures r[j].shape == ws[j] && WellFormed(r[j]) {
      ScaleOfAt(ws, x, base, j);
    }
  }

  /** `struct` as the operator method performs it: it fails when `x` is too short (the reshape of line 188). */
  function StructSpec<T>(t: Table, x: seq<T>): (r: Result<CStruct<T>, Error>)
    ensures r.Success? <==> OutputLen(t) <= |x|
    ensures r.Success? ==> LeafShapes(r.value) == t && WellFormedStruct(r.value)
    ensures r.Failure? ==> r.error == ReshapeMismatch
  {
    if OutputLen(t) <= |x| then
      StructShapes(t, x);
      Success(StructOf(t, x))
    else Failure(ReshapeMismatch)
  }

  // ---------------------------------------------------------------------------
  // vect: concatenate the ravelled leaves.

  function ScaleConcat<T>(ws: seq<NdArray<T>>): seq<T>
  {
    if |ws| == 0 then [] else ScaleConcat(ws[..|ws| - 1]) + ws[|ws| - 1].data
  }

  /** The concatenation of all leaves, scale-major, wedge-minor. */
  function Concat<T>(s: CStruct<T>): seq<T>
  {
    if |s| == 0 then [] else Concat(s[..|s| - 1]) + ScaleConcat(s[|s| - 1])
  }

  /** The structure has no leaf at all (`np.concatenate` of an empty list). */
  predicate NoLeaves<T>(s: CStruct<T>)
  {
    forall i :: 0 <= i < |s| ==> |s[i]| == 0
  }

  /** `vect`: the concatenation, or numpy's error when there is nothing to concatenate. */
  function Vect<T>(s: CStruct<T>): (r: Result<seq<T>, Error>)
    ensures r.Failure? <==> NoLeaves(s)
    ensures r.Failure? ==> r.error == EmptyConcatenate
    ensures r.Success? ==> r.value == Concat(s)
  {
    if NoLeaves(s) then Failure(EmptyConcatenate) else Success(Concat(s))
  }

  lemma {:induction false} ScaleConcatLen<T>(ws: seq<NdArray<T>>)
    requires WellFormedScale(ws)
    ensures |ScaleConcat(ws)| == ScaleLen(Shapes(ws))
  {
    if |ws| > 0 {
      var n := |ws|;
      ScaleConcatLen(ws[..n - 1]);
      assert Shapes(ws)[..n - 1] == Shapes(ws[..n - 1]);
    }
  }

  /** A well-formed structure concatenates to `_output_len` of its own shapes. */
  lemma {:induction false} ConcatLen<T>(s: CStruct<T>)
    requires WellFormedStruct(s)
    ensures |Concat(s)| == OutputLen(LeafShapes(s))
  {
    if |s| > 0 {
      var n := |s|;
      ConcatLen(s[..n - 1]);
      assert LeafShapes(s)[..n - 1] == LeafShapes(s[..n - 1]);
      ScaleConcatLen(s[n - 1]);
    }
  }

  // ---------------------------------------------------------------------------
  // Round trips.

  /** Adjacent slices join into one. */
  lemma SliceJoin<T>(x: seq<T>, a: nat, b: nat, c: nat)
    requires a <= b <= c <= |x|
    ensures x[a .. b] + x[b .. c] == x[a .. c]
  {
  }

  /** `vect` of one scale of `struct(x)` is the stretch of `x` that scale covers,
      from `base` to `end`. */
  lemma {:induction false} ScaleConcatOf<T>(ws: seq<seq<nat>>, x: seq<T>, base: nat, end: nat)
    requires end == base + ScaleLen(ws) && end <= |x|
    ensures ScaleConcat(ScaleOf(ws, x, base)) == x[base .. end]
  {
    var n := |ws|;
    if n > 0 {
      var mid := base + ScaleLen(ws[..n - 1]);
      ScaleConcatLast(ws, x, base, mid, end);
      ScaleConcatOf(ws[..n - 1], x, base, mid);
      SliceJoin(x, base, mid, end);
    }
  }

  /** `vect` of a scale is `vect` of all wedges but the last, then the last wedge's block. */
  lemma ScaleConcatLast<T>(ws: seq<seq<nat>>, x: seq<T>, base: nat, mid: nat, end: nat)
    requires |ws| > 0 && end == base + ScaleLen(ws) && end <= |x|
    requires mid == base + ScaleLen(ws[..|ws| - 1])
    ensures mid <= end
    ensures ScaleConcat(ScaleOf(ws, x, base)) == ScaleConcat(ScaleOf(ws[..|ws| - 1], x, base)) + x[mid .. end]
  {
    var n := |ws|;
    var r := ScaleOf(ws, x, base);
    var front := ScaleOf(ws[..n - 1], x, base);
    var w := NdArray(ws[n - 1], x[mid .. end]);
    assert r == front + [w];
    assert r[..n - 1] == front && r[n - 1] == w;
  }

  /** `vect(struct(x))` is `x` cut to `_output_len` (the first half of the codec round trip). */
  lemma {:induction false} ConcatStruct<T>(t: Table, x: seq<T>)
    requires OutputLen(t) <= |x|
    ensures Concat(StructOf(t, x)) == x[..OutputLen(t)]
  {
    if |t| > 0 {
      ConcatStructLast(t, x);
      ConcatStruct(t[..|t| - 1], x);
      ConcatStructStep(t, x);
    }
  }

  /** The step of `ConcatStruct`: the last scale's stretch follows the stretch of the others. */
  lemma ConcatStructStep<T>(t: Table, x: seq<T>)
    requires |t| > 0 && OutputLen(t) <= |x|
    requires Concat(StructOf(t[..|t| - 1], x)) == x[..OutputLen(t[..|t| - 1])]
    ensures Concat(StructOf(t, x)) == x[..OutputLen(t)]
  {
    var n := |t|;
    var mid, end := OutputLen(t[..n - 1]), OutputLen(t);
    ConcatStructLast(t, x);
    ScaleConcatOf(t[n - 1], x, mid, end);
    PrefixJoin(x, mid, end);
  }

  /** `vect` of `struct(x)` is `vect` of all scales but the last, then `vect` of the last. */
  lemma ConcatStructLast<T>(t: Table, x: seq<T>)
    requires |t| > 0 && OutputLen(t) <= |x|
    ensures OutputLen(t[..|t| - 1]) + ScaleLen(t[|t| - 1]) == OutputLen(t)
    ensures Concat(StructOf(t, x)) ==
      Concat(StructOf(t[..|t| - 1], x)) + ScaleConcat(ScaleOf(t[|t| - 1], x, OutputLen(t[..|t| - 1])))
  {
    var n := |t|;
    var s: CStruct<T> := StructOf(t, x);
    var front := StructOf(t[..n - 1], x);
    var last := ScaleOf(t[n - 1], x, OutputLen(t[..n - 1]));
    assert s == front + [last];
    assert s[..n - 1] == front && s[n - 1] == last;
  }

  lemma PrefixJoin<T>(x: seq<T>, b: nat, c: nat)
    requires b <= c <= |x|
    ensures x[..b] + x[b .. c] == x[..c]
  {
  }

  /** The table has at least one wedge. */
  predicate HasLeaf(t: Table)
  {
    exists i :: 0 <= i < |t| && |t[i]| > 0
  }

  /**
   * `vect(struct(x)) == x` for a vector of exactly `_output_len` elements, as
   * long as there is a wedge to concatenate.
   */
  lemma VectStruct<T>(t: Table, x: seq<T>)
    requires |x| == OutputLen(t) && HasLeaf(t)
    ensures Vect(StructOf(t, x)) == Success(x)
  {
    ConcatStruct(t, x);
    assert x[..|x|] == x;
    var i :| 0 <= i < |t| && |t[i]| > 0;
    StructOfAt(t, x, i);
    assert |StructOf(t, x)[i]| > 0;
  }

  /** Equal concatenations whose second parts have equal lengths agree part by part. */
  lemma SplitEqual<T>(a: seq<T>, a': seq<T>, b: seq<T>, b': seq<T>)
    requires a + a' == b + b' && |a'| == |b'|
    ensures a == b && a' == b'
  {
    assert a == (a + a')[..|a|];
    assert b == (b + b')[..|b|];
    assert a' == (a + a')[|a|..];
    assert b' == (b + b')[|b|..];
  }

  /** A well-formed scale is determined by its shapes and its concatenation. */
  lemma {:induction false} ScaleConcatInjective<T>(ws: seq<NdArray<T>>, vs: seq<NdArray<T>>)
    requires WellFormedScale(ws) && WellFormedScale(vs)
    requires Shapes(ws) == Shapes(vs) && ScaleConcat(ws) == ScaleConcat(vs)
    ensures ws == vs
  {
    var n := |ws|;
    if n > 0 {
      ScaleFront(ws, vs);
      ScaleConcatInjectiveStep(ws, vs);
      ScaleConcatInjective(ws[..n - 1], vs[..n - 1]);
      LastEqual(ws, vs);
    }
  }

  /** Equal shapes and concatenations: the last wedges agree, and so do the
      concatenations of the rest. */
  lemma ScaleConcatInjectiveStep<T>(ws: seq<NdArray<T>>, vs: seq<NdArray<T>>)
    requires WellFormedScale(ws) && WellFormedScale(vs) && |ws| > 0
    requires Shapes(ws) == Shapes(vs) && ScaleConcat(ws) == ScaleConcat(vs)
    ensures |vs| == |ws| && ws[|ws| - 1] == vs[|ws| - 1]
    ensures ScaleConcat(ws[..|ws| - 1]) == ScaleConcat(vs[..|ws| - 1])
  {
    var n := |ws|;
    ShapesLast(ws);
    ShapesLast(vs);
    ScaleConcatUnfold(ws);
    ScaleConcatUnfold(vs);
    WedgeSplit(ScaleConcat(ws[..n - 1]), ws[n - 1], ScaleConcat(vs[..n - 1]), vs[n - 1]);
  }

  /** Equal shapes: the wedges but the last are well formed and have equal shapes. */
  lemma ScaleFront<T>(ws: seq<NdArray<T>>, vs: seq<NdArray<T>>)
    requires WellFormedScale(ws) && WellFormedScale(vs) && |ws| > 0
    requires Shapes(ws) == Shapes(vs)
    ensures |vs| == |ws|
    ensures WellFormedScale(ws[..|ws| - 1]) && WellFormedScale(vs[..|ws| - 1])
    ensures Shapes(ws[..|ws| - 1]) == Shapes(vs[..|ws| - 1])
  {
    ShapesLast(ws);
    ShapesLast(vs);
  }

  /** The shapes of all wedges but the last, and the shape of the last. */
  lemma ShapesLast<T>(ws: seq<NdArray<T>>)
    requires |ws| > 0
    ensures |Shapes(ws)| == |ws|
    ensures Shapes(ws[..|ws| - 1]) == Shapes(ws)[..|ws| - 1]
    ensures Shapes(ws)[|ws| - 1] == ws[|ws| - 1].shape
  {
  }

  /** `vect` of a scale: `vect` of all wedges but the last, then the last wedge's data. */
  lemma ScaleConcatUnfold<T>(ws: seq<NdArray<T>>)
    requires |ws| > 0
    ensures ScaleConcat(ws) == ScaleConcat(ws[..|ws| - 1]) + ws[|ws| - 1].data
  {
  }

  /** Two well-formed wedges of one shape, each after a prefix, with equal joins: all agree. */
  lemma WedgeSplit<T>(a: seq<T>, w: NdArray<T>, b: seq<T>, v: NdArray<T>)
    requires WellFormed(w) && WellFormed(v) && w.shape == v.shape
    requires a + w.data == b + v.data
    ensures a == b && w == v
  {
    SplitEqual(a, w.data, b, v.data);
  }

  /** Two non-empty sequences that agree on all but the last element and on the last are equal. */
  lemma LastEqual<T>(a: seq<T>, b: seq<T>)
    requires |a| == |b| > 0 && a[..|a| - 1] == b[..|b| - 1] && a[|a| - 1] == b[|b| - 1]
    ensures a == b
  {
    assert a == a[..|a| - 1] + [a[|a| - 1]];
    assert b == b[..|b| - 1] + [b[|b| - 1]];
  }

  /** A well-formed structure is determined by its leaf shapes and its concatenation. */
  lemma {:induction false} ConcatInjective<T>(s: CStruct<T>, s': CStruct<T>)
    requires WellFormedStruct(s) && WellFormedStruct(s')
    requires LeafShapes(s) == LeafShapes(s') && Concat(s) == Concat(s')
    ensures s == s'
  {
    var n := |s|;
    if n > 0 {
      assert LeafShapes(s[..n - 1]) == LeafShapes(s'[..n - 1]) by {
        assert LeafShapes(s[..n - 1]) == LeafShapes(s)[..n - 1];
        assert LeafShapes(s'[..n - 1]) == LeafShapes(s')[..n - 1];
      }
      ScaleConcatLen(s[n - 1]);
      ScaleConcatLen(s'[n - 1]);
      SplitEqual(Concat(s[..n - 1]), ScaleConcat(s[n - 1]), Concat(s'[..n - 1]), ScaleConcat(s'[n - 1]));
      ConcatInjective(s[..n - 1], s'[..n - 1]);
      ScaleConcatInjective(s[n - 1], s'[n - 1]);
      LastEqual(s, s');
    }
  }

  /** Reading a well-formed structure's concatenation back with its own shapes gives the structure. */
  lemma StructOfConcat<T>(s: CStruct<T>)
    requires WellFormedStruct(s)
    ensures OutputLen(LeafShapes(s)) == |Concat(s)|
    ensures StructOf(LeafShapes(s), Concat(s)) == s
  {
    var t, x := LeafShapes(s), Concat(s);
    ConcatLen(s);
    StructShapes(t, x);
    ConcatStruct(t, x);
    assert x[..|x|] == x;
    ConcatInjective(StructOf(t, x), s);
  }

  /**
   * `struct(vect(s)) == s` for every well-formed structure, read back with its
   * own leaf shapes as the table (the second half of the codec round trip).
   */
  lemma StructVect<T>(s: CStruct<T>)
    requires WellFormedStruct(s) && !NoLeaves(s)
    ensures Vect(s).Success?
    ensures StructSpec(LeafShapes(s), Vect(s).value) == Success(s)
  {
    StructOfConcat(s);
  }

  /** A structure has a leaf exactly when its table has a wedge. */
  lemma LeavesOfTable<T>(s: CStruct<T>, t: Table)
    requires LeafShapes(s) == t
    ensures NoLeaves(s) <==> !HasLeaf(t)
  {
    if !NoLeaves(s) {
      var i :| 0 <= i < |s| && |s[i]| != 0;
      assert |t[i]| > 0;
    }
  }

  // ---------------------------------------------------------------------------
  // One step of the loops of `struct`.

  /** Appending wedge `j` to a scale under construction. */
  lemma ScaleOfStep<T>(ws: seq<seq<nat>>, x: seq<T>, base: nat, j: nat)
    requires j < |ws| && base + ScaleLen(ws[..j]) + Prod(ws[j]) <= |x|
    ensures ScaleLen(ws[..j + 1]) == ScaleLen(ws[..j]) + Prod(ws[j])
    ensures ScaleOf(ws[..j + 1], x, base) ==
      ScaleOf(ws[..j], x, base) + [NdArray(ws[j], x[base + ScaleLen(ws[..j]) .. base + ScaleLen(ws[..j]) + Prod(ws[j])])]
  {
    ScaleLenStep(ws, j);
    assert ws[..j + 1][..j] == ws[..j];
  }

  /** Appending scale `i` to a structure under construction. */
  lemma StructOfStep<T>(t: Table, x: seq<T>, i: nat)
    requires i < |t| && OutputLen(t[..i + 1]) <= |x|
    ensures OutputLen(t[..i + 1]) == OutputLen(t[..i]) + ScaleLen(t[i])
    ensures StructOf(t[..i + 1], x) == StructOf(t[..i], x) + [ScaleOf(t[i], x, OutputLen(t[..i]))]
  {
    OutputLenStep(t, i);
    assert t[..i + 1][..i] == t[..i];
  }
}
