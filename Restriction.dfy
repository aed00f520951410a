/** Column selection by coefficient value: `restrict_basis` and the final
    sparsity filter of the expanding-basis search. */
module Restriction {
  import opened Wrappers
  import opened MultiIndex

  function Abs(x: real): (a: real)
  {
    if x < 0.0 then -x else x
  }

  /** `np.where(keep(coefs))[0]`: the positions whose value passes `keep`,
      in increasing order. */
  function Positions(coefs: seq<real>, keep: real -> bool): (p: seq<nat>)
    ensures |p| <= |coefs|
    ensures forall m :: 0 <= m < |p| ==> p[m] < |coefs|
    ensures forall a, b :: 0 <= a < b < |p| ==> p[a] < p[b]
    ensures forall j :: 0 <= j < |coefs| ==> (keep(coefs[j]) <==> j in p)
  {
    if coefs == [] then []
    else
      var n := |coefs| - 1;
      Positions(coefs[..n], keep) + (if keep(coefs[n]) then [n] else [])
  }

  /** `xs[I]`: the elements at the given positions, in that order. */
  function Take<T>(xs: seq<T>, p: seq<nat>): (r: seq<T>)
    requires forall m :: 0 <= m < |p| ==> p[m] < |xs|
    ensures |r| == |p| && forall m :: 0 <= m < |p| ==> r[m] == xs[p[m]]
  {
    seq(|p|, m requires 0 <= m < |p| => xs[p[m]])
  }

  /** Number of constant-term columns (`degrees == 0`). */
  function ZeroCount(indices: seq<Index>): (n: nat)
  {
    if indices == [] then 0
    else ZeroCount(indices[..|indices| - 1]) + (if IsZero(indices[|indices| - 1]) then 1 else 0)
  }

  datatype RestrictError =
    | ConstantTermCount      // the assertion that exactly one column has degree zero
    | ReAddRaises            // line 844 raises (`indices[:J]` with an array J, or the undefined `restrict_indices`)

  /** The position of the single all-zero column. */
  function ZeroPosition(indices: seq<Index>): (j: nat)
    requires ZeroCount(indices) == 1
    ensures j < |indices| && IsZero(indices[j])
    ensures forall i :: 0 <= i < |indices| && IsZero(indices[i]) ==> i == j
  {
    var n := |indices| - 1;
    if IsZero(indices[n]) then
      ZeroCountNoZero(indices[..n]);
      n
    else ZeroPosition(indices[..n])
  }

  lemma {:induction false} ZeroCountNoZero(indices: seq<Index>)
    requires ZeroCount(indices) == 0
    ensures forall i :: 0 <= i < |indices| ==> !IsZero(indices[i])
  {
    if indices != [] {
      ZeroCountNoZero(indices[..|indices| - 1]);
    }
  }

  function AboveTol(tol: real): (keep: real -> bool)
  {
    c => Abs(c) > tol
  }

  /** `restrict_basis` as its comment intends: keep the columns whose
      coefficient exceeds `tol` in magnitude, in their order, and put the
      constant term in front when it was dropped. */
  function RestrictBasis(indices: seq<Index>, coefs: seq<real>, tol: real): (r: Result<seq<Index>, RestrictError>)
    requires |coefs| == |indices|
    ensures r.Err? <==> ZeroCount(indices) != 1
    ensures r.Err? ==> r.error == ConstantTermCount
  {
    if ZeroCount(indices) != 1 then Err(ConstantTermCount)
    else
      var kept := Positions(coefs, AboveTol(tol));
      var j := ZeroPosition(indices);
      if j in kept then Ok(Take(indices, kept))
      else Ok([indices[j]] + Take(indices, kept))
  }

  /** `restrict_basis` as written: the re-add branch raises. */
  function RestrictBasisAsWritten(indices: seq<Index>, coefs: seq<real>, tol: real): (r: Result<seq<Index>, RestrictError>)
    requires |coefs| == |indices|
    ensures r.Err? <==> ZeroCount(indices) != 1 || Abs(coefs[ZeroPosition(indices)]) <= tol
  {
    if ZeroCount(indices) != 1 then Err(ConstantTermCount)
    else
      var kept := Positions(coefs, AboveTol(tol));
      if ZeroPosition(indices) in kept then Ok(Take(indices, kept))
      else Err(ReAddRaises)
  }

  lemma {:induction false} ZeroCountOne(indices: seq<Index>, z: nat)
    requires z < |indices| && IsZero(indices[z])
    requires forall i :: 0 <= i < |indices| && IsZero(indices[i]) ==> i == z
    ensures ZeroCount(indices) == 1
  {
    var n := |indices| - 1;
    if z == n {
      ZeroCountNoZeroBack(indices[..n]);
    } else {
      ZeroCountOne(indices[..n], z);
    }
  }

  lemma {:induction false} ZeroCountNoZeroBack(indices: seq<Index>)
    requires forall i :: 0 <= i < |indices| ==> !IsZero(indices[i])
    ensures ZeroCount(indices) == 0
  {
    if indices != [] {
      ZeroCountNoZeroBack(indices[..|indices| - 1]);
    }
  }

  /** Constant terms of a concatenation add up. */
  lemma {:induction false} ZeroCountAppend(a: seq<Index>, b: seq<Index>)
    ensures ZeroCount(a + b) == ZeroCount(a) + ZeroCount(b)
    decreases |b|
  {
    if b != [] {
      var n := |b| - 1;
      assert (a + b)[..|a + b| - 1] == a + b[..n];
      assert (a + b)[|a + b| - 1] == b[n];
      ZeroCountAppend(a, b[..n]);
    } else {
      assert a + b == a;
    }
  }

  /** Restriction fails exactly when the basis does not hold exactly one
      constant term, and then keeps exactly one constant term (the anchor
      that every later expansion grows from). */
  lemma RestrictKeepsAnchor(indices: seq<Index>, coefs: seq<real>, tol: real)
    requires |coefs| == |indices|
    ensures RestrictBasis(indices, coefs, tol).Err? <==> ZeroCount(indices) != 1
    ensures RestrictBasis(indices, coefs, tol).Ok? ==> ZeroCount(RestrictBasis(indices, coefs, tol).value) == 1
  {
    if ZeroCount(indices) == 1 {
      var p := Positions(coefs, AboveTol(tol));
      var z := ZeroPosition(indices);
      var t := Take(indices, p);
      if z in p {
        var m0 :| 0 <= m0 < |p| && p[m0] == z;
        forall m | 0 <= m < |t| && m != m0
          ensures !IsZero(t[m])
        {
          assert t[m] == indices[p[m]];
          if m < m0 { assert p[m] < p[m0]; } else { assert p[m0] < p[m]; }
        }
        ZeroCountOne(t, m0);
      } else {
        var r := [indices[z]] + t;
        forall m | 0 < m < |r|
          ensures !IsZero(r[m])
        {
          assert r[m] == indices[p[m - 1]];
        }
        ZeroCountOne(r, 0);
      }
    }
  }

  /** On a basis without repeated columns, a column survives restriction
      exactly when its coefficient exceeds the tolerance in magnitude or it
      is the constant term. */
  lemma RestrictKeepsExactly(indices: seq<Index>, coefs: seq<real>, tol: real, j: nat)
    requires |coefs| == |indices| && Distinct(indices) && j < |indices|
    requires RestrictBasis(indices, coefs, tol).Ok?
    ensures indices[j] in RestrictBasis(indices, coefs, tol).value <==> Abs(coefs[j]) > tol || IsZero(indices[j])
  {
    var p := Positions(coefs, AboveTol(tol));
    var z := ZeroPosition(indices);
    var r := RestrictBasis(indices, coefs, tol).value;
    var t := Take(indices, p);
    assert AboveTol(tol)(coefs[j]) == (Abs(coefs[j]) > tol);
    assert indices[z] in r by {
      if z in p {
        var m :| 0 <= m < |p| && p[m] == z;
        assert t[m] == indices[z];
      } else {
        assert r[0] == indices[z];
      }
    }
    if indices[j] in r {
      if indices[j] in t {
        var m :| 0 <= m < |t| && t[m] == indices[j];
        assert indices[p[m]] == indices[j];
        assert p[m] == j;
      } else {
        assert indices[j] == indices[z];
      }
    }
    if j in p {
      var m :| 0 <= m < |p| && p[m] == j;
      assert t[m] == indices[j];
    }
  }

  /** Restricting again with the surviving coefficients changes nothing,
      when the constant term already survived on its own. */
  lemma RestrictIdempotent(indices: seq<Index>, coefs: seq<real>, tol: real)
    requires |coefs| == |indices| && ZeroCount(indices) == 1
    requires Abs(coefs[ZeroPosition(indices)]) > tol
    ensures var p := Positions(coefs, AboveTol(tol));
      RestrictBasis(Take(indices, p), Take(coefs, p), tol) == RestrictBasis(indices, coefs, tol)
  {
    var p := Positions(coefs, AboveTol(tol));
    var z := ZeroPosition(indices);
    assert AboveTol(tol)(coefs[z]);
    var ti, tc := Take(indices, p), Take(coefs, p);
    assert RestrictBasis(indices, coefs, tol) == Ok(ti);
    RestrictKeepsAnchor(indices, coefs, tol);
    var q := Positions(tc, AboveTol(tol));
    SurvivorsAllSurvive(coefs, tol);
    assert Take(ti, q) == ti;
    var m0 :| 0 <= m0 < |p| && p[m0] == z;
    assert IsZero(ti[m0]);
    assert ZeroPosition(ti) == m0;
  }

  /** Every surviving coefficient survives a second time: the positions
      kept from the survivors are all of them. */
  lemma SurvivorsAllSurvive(coefs: seq<real>, tol: real)
    ensures var p := Positions(coefs, AboveTol(tol));
      Positions(Take(coefs, p), AboveTol(tol)) == seq(|p|, m => m)
  {
    var p := Positions(coefs, AboveTol(tol));
    var tc := Take(coefs, p);
    var q := Positions(tc, AboveTol(tol));
    forall m | 0 <= m < |p|
      ensures m in q
    {
      assert AboveTol(tol)(coefs[p[m]]);
      assert AboveTol(tol)(tc[m]);
    }
    StrictlyIncreasingIsRange(q, |p|);
  }

  /** A strictly increasing sequence below n that contains every number
      below n is exactly 0, 1, ..., n-1. */
  lemma StrictlyIncreasingIsRange(q: seq<nat>, n: nat)
    requires forall a, b :: 0 <= a < b < |q| ==> q[a] < q[b]
    requires forall m :: 0 <= m < |q| ==> q[m] < n
    requires forall m :: 0 <= m < n ==> m in q
    ensures q == seq(n, m => m)
  {
    if |q| > 0 {
      StrictlyIncreasingBound(q, |q| - 1);
    }
    if n > 0 {
      RangeAt(q, n, n - 1);
    }
    assert |q| == n;
    forall m | 0 <= m < n
      ensures m < |q| && q[m] == m
    {
      RangeAt(q, n, m);
    }
  }

  lemma {:induction false} RangeAt(q: seq<nat>, n: nat, m: nat)
    requires forall a, b :: 0 <= a < b < |q| ==> q[a] < q[b]
    requires forall m :: 0 <= m < n ==> m in q
    requires m < n
    ensures m < |q| && q[m] == m
  {
    if m > 0 {
      RangeAt(q, n, m - 1);
    }
    assert m in q;
    var a :| 0 <= a < |q| && q[a] == m;
    assert a >= m;
    assert q[m] <= q[a];
  }

  lemma {:induction false} StrictlyIncreasingBound(q: seq<nat>, m: nat)
    requires forall a, b :: 0 <= a < b < |q| ==> q[a] < q[b]
    requires m < |q|
    ensures q[m] >= m
  {
    if m > 0 { StrictlyIncreasingBound(q, m - 1); }
  }

  function NonZero(): (keep: real -> bool)
  {
    c => c != 0.0
  }

  /** The last step of the expanding-basis search (lines 1072-1075): keep
      the columns whose coefficient is not exactly zero, with their
      coefficients. */
  function DropZeroCoefficients(indices: seq<Index>, coefs: seq<real>): (r: (seq<Index>, seq<real>))
    requires |coefs| == |indices|
    ensures |r.0| == |r.1| <= |indices|
  {
    var p := Positions(coefs, NonZero());
    (Take(indices, p), Take(coefs, p))
  }

  /** The filter keeps the columns aligned with their coefficients: no zero
      coefficient is left, every nonzero column survives with its
      coefficient, and every surviving column is an input column. */
  lemma DropZeroCoefficientsSound(indices: seq<Index>, coefs: seq<real>)
    requires |coefs| == |indices|
    ensures var r := DropZeroCoefficients(indices, coefs);
      && (forall m :: 0 <= m < |r.1| ==> r.1[m] != 0.0)
      && (forall j :: 0 <= j < |indices| && coefs[j] != 0.0 ==>
            exists m :: 0 <= m < |r.0| && r.0[m] == indices[j] && r.1[m] == coefs[j])
      && (forall m :: 0 <= m < |r.0| ==>
            exists j :: 0 <= j < |indices| && r.0[m] == indices[j] && r.1[m] == coefs[j])
  {
    var p := Positions(coefs, NonZero());
    var ti, tc := Take(indices, p), Take(coefs, p);
    assert DropZeroCoefficients(indices, coefs) == (ti, tc);
    forall m | 0 <= m < |tc|
      ensures tc[m] != 0.0
    {
      assert p[m] in p;
      assert NonZero()(coefs[p[m]]);
    }
    forall j | 0 <= j < |indices| && coefs[j] != 0.0
      ensures exists m :: 0 <= m < |ti| && ti[m] == indices[j] && tc[m] == coefs[j]
    {
      assert NonZero()(coefs[j]);
      var m :| 0 <= m < |p| && p[m] == j;
      assert ti[m] == indices[j] && tc[m] == coefs[j];
    }
    forall m | 0 <= m < |ti|
      ensures exists j :: 0 <= j < |indices| && ti[m] == indices[j] && tc[m] == coefs[j]
    {
      assert ti[m] == indices[p[m]] && tc[m] == coefs[p[m]];
    }
  }

  /** The basis (0), (1) with coefficients 0 and 1, restricted at
      tolerance 0: one constant term, and only column 1 passes. */
  lemma SmallBasis()
    ensures ZeroCount([[0], [1]]) == 1 && ZeroPosition([[0], [1]]) == 0
    ensures Positions([0.0, 1.0], AboveTol(0.0)) == [1]
  {
    var indices: seq<Index> := [[0], [1]];
    assert indices[1][0] != 0;
    ZeroCountOne(indices, 0);
    var c: seq<real> := [0.0, 1.0];
    assert AboveTol(0.0)(1.0) && !AboveTol(0.0)(0.0);
    assert c[..1] == [0.0] && [0.0][..0] == [];
    assert Positions([0.0], AboveTol(0.0)) == [];
  }

  /** A basis whose constant coefficient vanishes: as written, restriction
      raises. */
  lemma RestrictAsWrittenFails()
    ensures RestrictBasisAsWritten([[0], [1]], [0.0, 1.0], 0.0) == Err(ReAddRaises)
  {
    SmallBasis();
  }
}
