/** Reconciling per-QoI bases into one shared basis: the stable union of
    the index sets and the scatter of each QoI's coefficients into a
    zero-initialised (union size x QoI count) matrix. The three copies of
    this block in the source are identical and are modelled once. */
module Merge {
  import opened MultiIndex

  /** `acc` followed by the elements of `s` not seen before, in order of
      first appearance. */
  function AddNew(acc: seq<Index>, s: seq<Index>): (u: seq<Index>)
  {
    if s == [] then acc
    else
      var a := AddNew(acc, s[..|s| - 1]);
      if s[|s| - 1] in a then a else a + [s[|s| - 1]]
  }

  /** The union of all QoIs' indices, in first-seen order. */
  function StableUnion(perQoi: seq<seq<Index>>): (u: seq<Index>)
  {
    if perQoi == [] then []
    else AddNew(StableUnion(perQoi[..|perQoi| - 1]), perQoi[|perQoi| - 1])
  }

  /** The merged coefficient of index `x` for one QoI: the coefficient of
      the last column holding `x` (later writes overwrite earlier ones), or
      0 when the QoI's basis does not hold `x`. */
  function Entry(idxs: seq<Index>, cs: seq<real>, x: Index): (c: real)
    requires |cs| == |idxs|
  {
    if idxs == [] then 0.0
    else
      var n := |idxs| - 1;
      if idxs[n] == x then cs[n] else Entry(idxs[..n], cs[..n], x)
  }

  /** `AddNew` keeps `acc` in front, adds exactly the missing elements of
      `s`, and adds no duplicates. */
  lemma {:induction false} AddNewProps(acc: seq<Index>, s: seq<Index>)
    ensures |AddNew(acc, s)| >= |acc| && AddNew(acc, s)[..|acc|] == acc
    ensures forall x :: x in AddNew(acc, s) <==> x in acc || x in s
    ensures Distinct(acc) ==> Distinct(AddNew(acc, s))
  {
    if s != [] {
      var n := |s| - 1;
      AddNewProps(acc, s[..n]);
      assert s == s[..n] + [s[n]];
      var a := AddNew(acc, s[..n]);
      if s[n] !in a {
        assert (a + [s[n]])[..|acc|] == a[..|acc|];
      }
    }
  }

  /** First-seen order inside one QoI: the result for any prefix of `s` is
      a prefix of the result for `s`. */
  lemma {:induction false} AddNewPrefix(acc: seq<Index>, s: seq<Index>, k: nat)
    requires k <= |s|
    ensures var short, long := AddNew(acc, s[..k]), AddNew(acc, s);
      |short| <= |long| && long[..|short|] == short
  {
    if k < |s| {
      var n := |s| - 1;
      assert s[..n][..k] == s[..k];
      AddNewPrefix(acc, s[..n], k);
    } else {
      assert s[..k] == s;
    }
  }

  /** The union holds each distinct index of every QoI exactly once. */
  lemma {:induction false} UnionMembers(perQoi: seq<seq<Index>>)
    ensures Distinct(StableUnion(perQoi))
    ensures forall q, j :: 0 <= q < |perQoi| && 0 <= j < |perQoi[q]| ==> perQoi[q][j] in StableUnion(perQoi)
    ensures forall x :: x in StableUnion(perQoi) ==> exists q :: 0 <= q < |perQoi| && x in perQoi[q]
  {
    if perQoi != [] {
      var n := |perQoi| - 1;
      UnionMembers(perQoi[..n]);
      AddNewProps(StableUnion(perQoi[..n]), perQoi[n]);
      forall q, j | 0 <= q < |perQoi| && 0 <= j < |perQoi[q]|
        ensures perQoi[q][j] in StableUnion(perQoi)
      {
        if q < n {
          assert perQoi[..n][q] == perQoi[q];
        }
      }
      forall x | x in StableUnion(perQoi)
        ensures exists q :: 0 <= q < |perQoi| && x in perQoi[q]
      {
        if x !in perQoi[n] {
          var q :| 0 <= q < n && x in perQoi[..n][q];
          assert perQoi[..n][q] == perQoi[q];
        }
      }
    }
  }

  /** First-seen order across QoIs: the union of the first `k` QoIs is a
      prefix of the union of all of them. */
  lemma {:induction false} UnionPrefix(perQoi: seq<seq<Index>>, k: nat)
    requires k <= |perQoi|
    ensures var short, long := StableUnion(perQoi[..k]), StableUnion(perQoi);
      |short| <= |long| && long[..|short|] == short
  {
    if k < |perQoi| {
      var n := |perQoi| - 1;
      assert perQoi[..n][..k] == perQoi[..k];
      UnionPrefix(perQoi[..n], k);
      AddNewProps(StableUnion(perQoi[..n]), perQoi[n]);
    } else {
      assert perQoi[..k] == perQoi;
    }
  }

  /** For a QoI without repeated indices, the merged coefficient of its
      j-th index is its j-th coefficient. */
  lemma {:induction false} EntryOfDistinct(idxs: seq<Index>, cs: seq<real>, j: nat)
    requires |cs| == |idxs| && Distinct(idxs) && j < |idxs|
    ensures Entry(idxs, cs, idxs[j]) == cs[j]
  {
    var n := |idxs| - 1;
    if j < n {
      assert idxs[n] != idxs[j];
      EntryOfDistinct(idxs[..n], cs[..n], j);
    }
  }

  /** An index the QoI's basis does not hold gets coefficient 0. */
  lemma {:induction false} EntryAbsent(idxs: seq<Index>, cs: seq<real>, x: Index)
    requires |cs| == |idxs| && x !in idxs
    ensures Entry(idxs, cs, x) == 0.0
  {
    if idxs != [] {
      var n := |idxs| - 1;
      assert x !in idxs[..n];
      EntryAbsent(idxs[..n], cs[..n], x);
    }
  }

  /** `pos` is the `indices_dict` of the source: it maps each union member
      to its column. */
  ghost predicate PositionsOf(unique: seq<Index>, pos: map<Index, nat>)
  {
    && (forall x :: x in pos <==> x in unique)
    && (forall j :: 0 <= j < |unique| ==> pos[unique[j]] == j)
  }

  /** The first loop of the merge block: number the indices of every QoI in
      first-seen order. */
  method NumberIndices(perQoi: seq<seq<Index>>) returns (unique: seq<Index>, pos: map<Index, nat>)
    ensures unique == StableUnion(perQoi)
    ensures Distinct(unique)
    ensures PositionsOf(unique, pos)
  {
    unique, pos := [], map[];
    var q := 0;
    while q < |perQoi|
      invariant 0 <= q <= |perQoi|
      invariant unique == StableUnion(perQoi[..q])
      invariant Distinct(unique) && PositionsOf(unique, pos)
    {
      var column := perQoi[q];
      var j := 0;
      ghost var start := unique;
      while j < |column|
        invariant 0 <= j <= |column|
        invariant unique == AddNew(start, column[..j])
        invariant Distinct(unique) && PositionsOf(unique, pos)
      {
        var index := column[j];
        assert column[..j + 1][..j] == column[..j];
        if index !in pos {
          pos := pos[index := |unique|];
          unique := unique + [index];
        }
        j := j + 1;
      }
      assert column[..j] == column;
      assert perQoi[..q + 1][..q] == perQoi[..q];
      q := q + 1;
    }
    assert perQoi[..q] == perQoi;
  }

  /** The second loop: scatter each QoI's coefficients into the rows of its
      indices in a zero-initialised matrix. */
  method ScatterCoefficients(perQoi: seq<seq<Index>>, coefs: seq<seq<real>>, unique: seq<Index>, pos: map<Index, nat>)
    returns (all: array2<real>)
    requires |coefs| == |perQoi| && forall q :: 0 <= q < |perQoi| ==> |coefs[q]| == |perQoi[q]|
    requires Distinct(unique) && PositionsOf(unique, pos)
    requires forall q, j :: 0 <= q < |perQoi| && 0 <= j < |perQoi[q]| ==> perQoi[q][j] in unique
    ensures fresh(all) && all.Length0 == |unique| && all.Length1 == |perQoi|
    ensures forall r, q :: 0 <= r < |unique| && 0 <= q < |perQoi| ==> all[r, q] == Entry(perQoi[q], coefs[q], unique[r])
  {
    all := new real[|unique|, |perQoi|]((r, q) => 0.0);
    var q := 0;
    while q < |perQoi|
      invariant 0 <= q <= |perQoi|
      invariant forall r, q' :: 0 <= r < |unique| && 0 <= q' < q ==> all[r, q'] == Entry(perQoi[q'], coefs[q'], unique[r])
      invariant forall r, q' :: 0 <= r < |unique| && q <= q' < |perQoi| ==> all[r, q'] == 0.0
    {
      ScatterColumn(all, q, perQoi[q], coefs[q], unique, pos);
      q := q + 1;
    }
  }

  /** The inner loop for one QoI: column `q`, all zero on entry, receives
      that QoI's merged coefficients; the other columns are unchanged. */
  method ScatterColumn(all: array2<real>, q: nat, idxs: seq<Index>, cs: seq<real>, unique: seq<Index>, pos: map<Index, nat>)
    requires |cs| == |idxs| && q < all.Length1 && all.Length0 == |unique|
    requires Distinct(unique) && PositionsOf(unique, pos)
    requires forall j :: 0 <= j < |idxs| ==> idxs[j] in unique
    requires forall r :: 0 <= r < |unique| ==> all[r, q] == 0.0
    modifies all
    ensures forall r :: 0 <= r < |unique| ==> all[r, q] == Entry(idxs, cs, unique[r])
    ensures forall r, q' :: 0 <= r < all.Length0 && 0 <= q' < all.Length1 && q' != q ==> all[r, q'] == old(all[r, q'])
  {
    var j := 0;
    while j < |idxs|
      invariant 0 <= j <= |idxs|
      invariant forall r :: 0 <= r < |unique| ==> all[r, q] == Entry(idxs[..j], cs[..j], unique[r])
      invariant forall r, q' :: 0 <= r < all.Length0 && 0 <= q' < all.Length1 && q' != q ==> all[r, q'] == old(all[r, q'])
    {
      var row := pos[idxs[j]];
      all[row, q] := cs[j];
      assert idxs[..j + 1][..j] == idxs[..j];
      assert cs[..j + 1][..j] == cs[..j];
      j := j + 1;
    }
    assert idxs[..j] == idxs && cs[..j] == cs;
  }

  /** One merge block: the union basis and the merged coefficient matrix. */
  method MergeQoIs(perQoi: seq<seq<Index>>, coefs: seq<seq<real>>) returns (unique: seq<Index>, all: array2<real>)
    requires |coefs| == |perQoi| && forall q :: 0 <= q < |perQoi| ==> |coefs[q]| == |perQoi[q]|
    ensures unique == StableUnion(perQoi)
    ensures fresh(all) && all.Length0 == |unique| && all.Length1 == |perQoi|
    ensures forall r, q :: 0 <= r < |unique| && 0 <= q < |perQoi| ==> all[r, q] == Entry(perQoi[q], coefs[q], unique[r])
  {
    var pos;
    unique, pos := NumberIndices(perQoi);
    UnionMembers(perQoi);
    all := ScatterCoefficients(perQoi, coefs, unique, pos);
  }
}
