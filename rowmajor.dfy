/**
 * Row-major (C order) addressing of an N-dimensional array held as a flat
 * sequence: `Ravel` is np.ravel_multi_index, `Unravel` is np.unravel_index.
 * Also the per-axis filters used to split a shape into batch and transformed
 * axes.
 */
module RowMajor {
  import opened Base

  /** `m` is a valid multi-index into an array of shape `s`. */
  predicate InRange(s: seq<nat>, m: seq<nat>)
  {
    |m| == |s| && forall k :: 0 <= k < |s| ==> m[k] < s[k]
  }

  /** Flat position of multi-index `m`: the last axis varies fastest. */
  function Ravel(s: seq<nat>, m: seq<nat>): nat
    requires |m| == |s|
  {
    if |s| == 0 then 0 else m[0] * Prod(s[1..]) + Ravel(s[1..], m[1..])
  }

  /** Multi-index of flat position `k` in an array of shape `s`. */
  function Unravel(s: seq<nat>, k: nat): (m: seq<nat>)
    requires k < Prod(s)
    ensures InRange(s, m)
  {
    if |s| == 0 then []
    else
      var p := Prod(s[1..]);
      DivBelow(k, s[0], p);
      var rest := Unravel(s[1..], k % p);
      InRangeCons(s, k / p, rest);
      [k / p] + rest
  }

  lemma InRangeCons(s: seq<nat>, d: nat, rest: seq<nat>)
    requires |s| > 0 && d < s[0] && InRange(s[1..], rest)
    ensures InRange(s, [d] + rest)
  {
    forall k | 1 <= k < |s| ensures ([d] + rest)[k] < s[k] {
      assert ([d] + rest)[k] == rest[k - 1] && s[k] == s[1..][k - 1];
    }
  }

  // ---------------------------------------------------------------------------
  // Arithmetic facts about the Euclidean division of naturals.

  lemma MulMono(a: nat, b: nat, p: nat)
    requires a <= b
    ensures a * p <= b * p
  {
    assert b * p - a * p == (b - a) * p;
  }

  /** One more multiple of `p`: `a < b` gives `a * p + p <= b * p`. */
  lemma MulMonoStep(a: nat, b: nat, p: nat)
    requires a < b
    ensures a * p + p <= b * p
  {
    MulMono(a + 1, b, p);
    assert (a + 1) * p == a * p + p;
  }

  /** Below `a * p`, the quotient by `p` is below `a`. */
  lemma DivBelow(k: nat, a: nat, p: nat)
    requires k < a * p
    ensures p > 0 && 0 <= k / p < a && 0 <= k % p < p
  {
    if p == 0 {
      assert false;
    }
    var q := k / p;
    assert k == q * p + k % p;
    if q >= a {
      MulMono(a, q, p);
      assert false;
    }
  }

  /** Quotient and remainder of `a * p + r` are `a` and `r` when `r < p`. */
  lemma DivModUnique(a: nat, p: nat, r: nat)
    requires r < p
    ensures (a * p + r) / p == a && (a * p + r) % p == r
  {
    var n := a * p + r;
    var q, rr := n / p, n % p;
    assert n == q * p + rr;
    if q > a {
      MulMonoStep(a, q, p);
      assert false;
    } else if q < a {
      MulMonoStep(q, a, p);
      assert false;
    }
  }

  /** Division by a positive number is monotone. */
  lemma DivMono(i: nat, j: nat, p: nat)
    requires p > 0 && i <= j
    ensures i / p <= j / p
  {
    assert i == (i / p) * p + i % p;
    assert j == (j / p) * p + j % p;
    if i / p > j / p {
      MulMonoStep(j / p, i / p, p);
      assert false;
    }
  }

  // ---------------------------------------------------------------------------
  // Ravel and Unravel are inverse bijections between multi-indices and
  // positions below Prod(s).

  lemma {:induction false} RavelBound(s: seq<nat>, m: seq<nat>)
    requires InRange(s, m)
    ensures Ravel(s, m) < Prod(s)
  {
    if |s| > 0 {
      var p := Prod(s[1..]);
      RavelBound(s[1..], m[1..]);
      MulMono(m[0] + 1, s[0], p);
      assert (m[0] + 1) * p == m[0] * p + p;
    }
  }

  lemma {:induction false} UnravelRavel(s: seq<nat>, m: seq<nat>)
    requires InRange(s, m)
    ensures Ravel(s, m) < Prod(s) && Unravel(s, Ravel(s, m)) == m
  {
    RavelBound(s, m);
    if |s| > 0 {
      var p := Prod(s[1..]);
      RavelBound(s[1..], m[1..]);
      DivModUnique(m[0], p, Ravel(s[1..], m[1..]));
      UnravelRavel(s[1..], m[1..]);
    }
  }

  lemma {:induction false} RavelUnravel(s: seq<nat>, k: nat)
    requires k < Prod(s)
    ensures Ravel(s, Unravel(s, k)) == k
  {
    if |s| > 0 {
      var p := Prod(s[1..]);
      DivBelow(k, s[0], p);
      RavelUnravelHead(s, k);
      RavelUnravel(s[1..], k % p);
      DivModSplit(k, p);
    }
  }

  lemma DivModSplit(k: nat, p: nat)
    requires p > 0
    ensures (k / p) * p + k % p == k
  {
  }

  /** One level of `Unravel` followed by `Ravel`: the quotient by the inner
      block size times that size, plus the inner round trip on the remainder. */
  lemma RavelUnravelHead(s: seq<nat>, k: nat)
    requires |s| > 0 && k < Prod(s)
    ensures Prod(s[1..]) > 0 && k % Prod(s[1..]) < Prod(s[1..])
    ensures Ravel(s, Unravel(s, k)) ==
      (k / Prod(s[1..])) * Prod(s[1..]) + Ravel(s[1..], Unravel(s[1..], k % Prod(s[1..])))
  {
    var p := Prod(s[1..]);
    DivBelow(k, s[0], p);
    var m := Unravel(s, k);
    assert m[0] == k / p && m[1..] == Unravel(s[1..], k % p);
  }

  /** Ravel is injective on valid multi-indices. */
  lemma RavelInjective(s: seq<nat>, m: seq<nat>, m': seq<nat>)
    requires InRange(s, m) && InRange(s, m')
    requires Ravel(s, m) == Ravel(s, m')
    ensures m == m'
  {
    UnravelRavel(s, m);
    UnravelRavel(s, m');
  }

  // ---------------------------------------------------------------------------
  // Enumeration order: unravelling increasing positions gives multi-indices in
  // strictly increasing lexicographic order (the last axis varies fastest).

  predicate LexLess(a: seq<nat>, b: seq<nat>)
  {
    |a| > 0 && |b| > 0 && (a[0] < b[0] || (a[0] == b[0] && LexLess(a[1..], b[1..])))
  }

  lemma {:induction false} UnravelLexOrder(s: seq<nat>, i: nat, j: nat)
    requires i < j < Prod(s)
    ensures LexLess(Unravel(s, i), Unravel(s, j))
  {
    if |s| == 0 {
      assert false;
    } else {
      var p := Prod(s[1..]);
      DivBelow(j, s[0], p);
      DivMono(i, j, p);
      if i / p == j / p {
        assert i == (i / p) * p + i % p;
        assert j == (j / p) * p + j % p;
        UnravelLexOrder(s[1..], i % p, j % p);
      }
    }
  }

  // ---------------------------------------------------------------------------
  // Keeping some axes: `Filter` drops the others (numpy boolean indexing of a
  // shape), `Units` replaces their extents by 1 (the same array with unit axes).

  function Filter(s: seq<nat>, keep: seq<bool>): (r: seq<nat>)
    requires |keep| == |s|
    ensures |r| <= |s|
  {
    if |s| == 0 then [] else (if keep[0] then [s[0]] else []) + Filter(s[1..], keep[1..])
  }

  function Units(s: seq<nat>, keep: seq<bool>): (r: seq<nat>)
    requires |keep| == |s|
    ensures |r| == |s|
  {
    seq(|s|, a requires 0 <= a < |s| => if keep[a] then s[a] else 1)
  }

  function Negate(keep: seq<bool>): (r: seq<bool>)
    ensures |r| == |keep| && forall a :: 0 <= a < |keep| ==> r[a] == !keep[a]
  {
    seq(|keep|, a requires 0 <= a < |keep| => !keep[a])
  }

  /** Unit axes do not change the number of elements. */
  lemma {:induction false} ProdUnits(s: seq<nat>, keep: seq<bool>)
    requires |keep| == |s|
    ensures Prod(Units(s, keep)) == Prod(Filter(s, keep))
  {
    if |s| > 0 {
      var u, f := Units(s, keep), Filter(s, keep);
      assert u[1..] == Units(s[1..], keep[1..]);
      ProdUnits(s[1..], keep[1..]);
      if keep[0] {
        assert f == [s[0]] + Filter(s[1..], keep[1..]);
        assert f[1..] == Filter(s[1..], keep[1..]);
      } else {
        assert f == Filter(s[1..], keep[1..]);
      }
    }
  }

  /**
   * Unravelling over the shape with unit axes and then dropping those axes is
   * unravelling over the dropped shape: numpy's `a[index]` with integers on
   * some axes yields its elements in row-major order of the remaining axes.
   */
  lemma {:induction false} UnravelSqueeze(s: seq<nat>, keep: seq<bool>, k: nat)
    requires |keep| == |s|
    requires k < Prod(Units(s, keep))
    ensures k < Prod(Filter(s, keep))
    ensures Filter(Unravel(Units(s, keep), k), keep) == Unravel(Filter(s, keep), k)
  {
    ProdUnits(s, keep);
    if |s| > 0 {
      var u := Units(s, keep);
      var u', f' := Units(s[1..], keep[1..]), Filter(s[1..], keep[1..]);
      assert u[1..] == u';
      ProdUnits(s[1..], keep[1..]);
      var p := Prod(u');
      assert Prod(u) == u[0] * p;
      DivBelow(k, u[0], p);
      var m := Unravel(u, k);
      assert m == [k / p] + Unravel(u', k % p);
      UnravelSqueeze(s[1..], keep[1..], k % p);
      var tail := Filter(Unravel(u', k % p), keep[1..]);
      assert tail == Unravel(f', k % p);
      assert m[1..] == Unravel(u', k % p);
      if keep[0] {
        var f := Filter(s, keep);
        assert f == [s[0]] + f';
        assert f[1..] == f';
        assert Filter(m, keep) == [k / p] + tail;
      } else {
        assert u[0] == 1;
        DivModUnique(0, p, k);
        assert Filter(m, keep) == tail;
        assert Filter(s, keep) == f';
      }
    }
  }
}
