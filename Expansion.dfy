/** Admissible forward expansion of an index set (`expand_basis`). */
module Expansion {
  import opened MultiIndex

  /** The admissibility test of the source: the candidate `Forward(origin, d)`
      is checked along the dimensions active in the ORIGIN index. */
  predicate AdmissibleFrom(known: set<Index>, origin: Index, d: nat)
    requires d < |origin|
  {
    forall k :: 0 <= k < |origin| && origin[k] > 0 ==> Backward(Forward(origin, d), k) in known
  }

  /** The textbook test: every backward neighbour of `f` along the
      dimensions active in `f` itself is known. */
  predicate Admissible(known: set<Index>, f: Index)
  {
    forall k :: 0 <= k < |f| && f[k] > 0 ==> Backward(f, k) in known
  }

  /** Checking the origin's active dimensions is the same as checking the
      candidate's: the candidate's extra dimension `d` leads back to the
      origin, which is known. */
  lemma ActiveDimsAgree(known: set<Index>, origin: Index, d: nat)
    requires d < |origin| && origin in known
    ensures AdmissibleFrom(known, origin, d) <==> Admissible(known, Forward(origin, d))
  {
    var f := Forward(origin, d);
    if AdmissibleFrom(known, origin, d) {
      forall k | 0 <= k < |f| && f[k] > 0
        ensures Backward(f, k) in known
      {
        if k == d && origin[k] == 0 {
          BackwardOfForward(origin, d);
        }
      }
    }
  }

  /** The inner `for kk in active_vars` loop with its early `break`. */
  method AllBackwardPresent(known: set<Index>, origin: Index, d: nat) returns (admissible: bool)
    requires d < |origin|
    ensures admissible == AdmissibleFrom(known, origin, d)
  {
    var forward := Forward(origin, d);
    admissible := true;
    var k := 0;
    while k < |origin|
      invariant 0 <= k <= |origin|
      invariant admissible == forall j :: 0 <= j < k && origin[j] > 0 ==> Backward(forward, j) in known
      invariant !admissible ==> !AdmissibleFrom(known, origin, d)
    {
      if origin[k] > 0 && Backward(forward, k) !in known {
        admissible := false;
        break;
      }
      k := k + 1;
    }
  }

  /** Every returned index has each backward neighbour (along its active
      dimensions) among the input or among the indices returned before it. */
  ghost predicate PrefixAdmissible(indices: seq<Index>, out: seq<Index>)
  {
    forall j, k :: 0 <= j < |out| && 0 <= k < |out[j]| && out[j][k] > 0 ==>
      Backward(out[j], k) in indices + out[..j]
  }

  /** (i, d) comes strictly before (i', d') in the loop order: outer loop
      over the input columns, inner loop over the dimensions. */
  predicate Before(a: (nat, nat), b: (nat, nat))
  {
    a.0 < b.0 || (a.0 == b.0 && a.1 < b.1)
  }

  /** Appending an index that is admissible against input ++ out keeps the
      prefix property. */
  lemma PrefixAdmissibleAppend(indices: seq<Index>, out: seq<Index>, f: Index)
    requires PrefixAdmissible(indices, out)
    requires Admissible(Members(indices + out), f)
    ensures PrefixAdmissible(indices, out + [f])
  {
    var out' := out + [f];
    forall j, k | 0 <= j < |out'| && 0 <= k < |out'[j]| && out'[j][k] > 0
      ensures Backward(out'[j], k) in indices + out'[..j]
    {
      if j < |out| {
        assert out'[..j] == out[..j];
      } else {
        assert out'[..j] == out;
        assert Backward(f, k) in Members(indices + out);
      }
    }
  }

  /** If the input is downward closed and the output is prefix-admissible,
      input ++ output is downward closed. */
  lemma {:induction false} ClosedAfterExpansion(indices: seq<Index>, out: seq<Index>)
    requires DownwardClosed(Members(indices))
    requires PrefixAdmissible(indices, out)
    ensures DownwardClosed(Members(indices + out))
  {
    var all := indices + out;
    forall x, k | x in Members(all) && 0 <= k < |x| && x[k] > 0
      ensures Backward(x, k) in Members(all)
    {
      var i :| 0 <= i < |all| && all[i] == x;
      if i < |indices| {
        InputNeighbour(indices, out, i, k);
      } else {
        OutputNeighbour(indices, out, i - |indices|, k);
      }
    }
  }

  lemma InputNeighbour(indices: seq<Index>, out: seq<Index>, i: nat, k: nat)
    requires DownwardClosed(Members(indices))
    requires i < |indices| && k < |indices[i]| && indices[i][k] > 0
    ensures Backward(indices[i], k) in indices + out
  {
    assert indices[i] in Members(indices);
    var b := Backward(indices[i], k);
    assert b in indices;
    var i' :| 0 <= i' < |indices| && indices[i'] == b;
    assert (indices + out)[i'] == b;
  }

  lemma OutputNeighbour(indices: seq<Index>, out: seq<Index>, j: nat, k: nat)
    requires PrefixAdmissible(indices, out)
    requires j < |out| && k < |out[j]| && out[j][k] > 0
    ensures Backward(out[j], k) in indices + out
  {
    var b := Backward(out[j], k);
    assert b in indices + out[..j];
    var i' :| 0 <= i' < |indices| + j && (indices + out[..j])[i'] == b;
    assert (indices + out)[i'] == b;
  }

  /** One candidate's effect on the output: the forward neighbour
      `Forward(indices[i], d)` is appended when it is new and admissible
      against the input together with the indices admitted so far (line 869
      makes every admitted index known to the later candidates). */
  function Admit(indices: seq<Index>, out: seq<Index>, i: nat, d: nat): (out': seq<Index>)
    requires i < |indices| && d < |indices[i]|
  {
    var known := Members(indices + out);
    var f := Forward(indices[i], d);
    if f !in known && AdmissibleFrom(known, indices[i], d) then out + [f] else out
  }

  /** One candidate of `expand_basis`: form `Forward(origin, d)` and admit it
      when it is new and admissible. */
  method Consider(indices: seq<Index>, out: seq<Index>, known: set<Index>, i: nat, d: nat)
    returns (out': seq<Index>, known': set<Index>)
    requires i < |indices| && d < |indices[i]|
    requires known == Members(indices + out)
    requires PrefixAdmissible(indices, out)
    ensures known' == Members(indices + out')
    ensures PrefixAdmissible(indices, out')
    ensures out' == Admit(indices, out, i, d)
  {
    var forward := Forward(indices[i], d);
    out', known' := out, known;
    if forward !in known {
      var admissible := AllBackwardPresent(known, indices[i], d);
      if admissible {
        ActiveDimsAgree(known, indices[i], d);
        PrefixAdmissibleAppend(indices, out, forward);
        known' := known + {forward};
        out' := out + [forward];
      }
    }
  }

  /** Each returned index is the forward neighbour it was discovered as,
      and discoveries are in loop order, all before (i, d). */
  ghost predicate OriginsOk(indices: seq<Index>, nvars: nat, out: seq<Index>,
                            origins: seq<(nat, nat)>, i: nat, d: nat)
    requires Shaped(indices, nvars)
  {
    && |origins| == |out|
    && (forall j :: 0 <= j < |out| ==>
         Before(origins[j], (i, d)) && origins[j].0 < |indices| && origins[j].1 < nvars
         && out[j] == Forward(indices[origins[j].0], origins[j].1))
    && (forall a, b :: 0 <= a < b < |out| ==> Before(origins[a], origins[b]))
  }

  /** Returned indices are new and pairwise distinct. */
  predicate AllNew(indices: seq<Index>, out: seq<Index>)
  {
    (forall j :: 0 <= j < |out| ==> out[j] !in indices) && Distinct(out)
  }

  /** Every candidate before (i, d) that is admissible against the input
      alone is known. */
  ghost predicate CompleteUpTo(indices: seq<Index>, nvars: nat, known: set<Index>, i: nat, d: nat)
    requires Shaped(indices, nvars)
  {
    forall i': nat, d': nat :: (i' < |indices| && d' < nvars && Before((i', d'), (i, d))
      && Admissible(Members(indices), Forward(indices[i'], d'))) ==>
      Forward(indices[i'], d') in known
  }

  /** The state of `expand_basis` once every candidate before (i, d) in loop
      order has been considered. */
  ghost predicate Progress(indices: seq<Index>, nvars: nat, out: seq<Index>, known: set<Index>,
                           origins: seq<(nat, nat)>, i: nat, d: nat)
  {
    && Shaped(indices, nvars)
    && known == Members(indices + out)
    && Shaped(out, nvars)
    && OriginsOk(indices, nvars, out, origins, i, d)
    && AllNew(indices, out)
    && PrefixAdmissible(indices, out)
    && CompleteUpTo(indices, nvars, known, i, d)
  }

  lemma OriginsAdvance(indices: seq<Index>, nvars: nat, out: seq<Index>, origins: seq<(nat, nat)>, i: nat, d: nat)
    requires Shaped(indices, nvars) && OriginsOk(indices, nvars, out, origins, i, d)
    ensures OriginsOk(indices, nvars, out, origins, i, d + 1)
  {
    forall j | 0 <= j < |out|
      ensures Before(origins[j], (i, d + 1))
    {
      assert Before(origins[j], (i, d));
    }
  }

  lemma OriginsAppend(indices: seq<Index>, nvars: nat, out: seq<Index>, origins: seq<(nat, nat)>, i: nat, d: nat)
    requires Shaped(indices, nvars) && i < |indices| && d < nvars
    requires OriginsOk(indices, nvars, out, origins, i, d)
    ensures OriginsOk(indices, nvars, out + [Forward(indices[i], d)], origins + [(i, d)], i, d + 1)
  {
    var out', origins' := out + [Forward(indices[i], d)], origins + [(i, d)];
    forall j | 0 <= j < |out'|
      ensures Before(origins'[j], (i, d + 1)) && origins'[j].0 < |indices| && origins'[j].1 < nvars
      ensures out'[j] == Forward(indices[origins'[j].0], origins'[j].1)
    {
      if j < |out| {
        assert origins'[j] == origins[j] && out'[j] == out[j];
        assert Before(origins[j], (i, d));
      }
    }
    forall a, b | 0 <= a < b < |out'|
      ensures Before(origins'[a], origins'[b])
    {
      assert origins'[a] == origins[a];
      if b == |out| {
        assert Before(origins[a], (i, d));
      } else {
        assert origins'[b] == origins[b];
      }
    }
  }

  lemma AllNewAppend(indices: seq<Index>, out: seq<Index>, f: Index)
    requires AllNew(indices, out) && f !in indices + out
    ensures AllNew(indices, out + [f])
  {
    var out' := out + [f];
    forall a, b | 0 <= a < b < |out'|
      ensures out'[a] != out'[b]
    {
      assert out'[a] == out[a];
      if b == |out| {
        assert out[a] in indices + out;
      }
    }
  }

  lemma CompleteAdvance(indices: seq<Index>, nvars: nat, known: set<Index>, known': set<Index>, i: nat, d: nat)
    requires Shaped(indices, nvars) && i < |indices| && d < nvars
    requires CompleteUpTo(indices, nvars, known, i, d) && known <= known'
    requires Admissible(Members(indices), Forward(indices[i], d)) ==> Forward(indices[i], d) in known'
    ensures CompleteUpTo(indices, nvars, known', i, d + 1)
  {
    forall i': nat, d': nat | i' < |indices| && d' < nvars && Before((i', d'), (i, d + 1))
        && Admissible(Members(indices), Forward(indices[i'], d'))
      ensures Forward(indices[i'], d') in known'
    {
      if !Before((i', d'), (i, d)) {
        assert i' == i && d' == d;
      }
    }
  }

  /** The rest of `expand_basis` from candidate (i, d) on, with `out`
      admitted so far: candidates are taken column by column, dimension by
      dimension. */
  function ExpandFrom(indices: seq<Index>, nvars: nat, out: seq<Index>, i: nat, d: nat): (r: seq<Index>)
    requires Shaped(indices, nvars) && d <= nvars
    ensures Shaped(out, nvars) ==> Shaped(r, nvars)
    decreases |indices| - i, nvars - d
  {
    if i >= |indices| then out
    else if d == nvars then ExpandFrom(indices, nvars, out, i + 1, 0)
    else ExpandFrom(indices, nvars, Admit(indices, out, i, d), i, d + 1)
  }

  /** What `expand_basis` returns for a basis of `nvars`-row columns. */
  function ExpandSpec(indices: seq<Index>, nvars: nat): (r: seq<Index>)
    requires Shaped(indices, nvars)
    ensures Shaped(r, nvars)
  {
    ExpandFrom(indices, nvars, [], 0, 0)
  }

  /** The basis after `n` successive in-place expansions (each expansion's
      result appended to the basis it was computed from). */
  function ExpandTimes(basis: seq<Index>, nvars: nat, n: nat): (r: seq<Index>)
    requires Shaped(basis, nvars)
    ensures Shaped(r, nvars)
  {
    if n == 0 then basis
    else
      var g := ExpandTimes(basis, nvars, n - 1);
      g + ExpandSpec(g, nvars)
  }

  /** Unfolding `ExpandFrom` at one candidate. */
  lemma ExpandFromCandidate(indices: seq<Index>, nvars: nat, out: seq<Index>, i: nat, d: nat)
    requires Shaped(indices, nvars) && i < |indices| && d < nvars
    ensures ExpandFrom(indices, nvars, out, i, d)
         == ExpandFrom(indices, nvars, Admit(indices, out, i, d), i, d + 1)
  {
  }

  /** Unfolding `ExpandFrom` at the end of a column. */
  lemma ExpandFromColumn(indices: seq<Index>, nvars: nat, out: seq<Index>, i: nat)
    requires Shaped(indices, nvars) && i < |indices|
    ensures ExpandFrom(indices, nvars, out, i, nvars) == ExpandFrom(indices, nvars, out, i + 1, 0)
  {
  }

  /** A later candidate sees the indices admitted before it: from the
      columns (0,0), (1,0), (2,0), the index (1,1) is admitted only because
      (0,1) was admitted first, and (2,1) only because of (1,1). */
  lemma ChainedAdmission()
    ensures ExpandSpec([[0, 0], [1, 0], [2, 0]], 2) == [[0, 1], [1, 1], [3, 0], [2, 1]]
  {
    var ix: seq<Index> := [[0, 0], [1, 0], [2, 0]];
    var o1: seq<Index> := [[0, 1]];
    var o2: seq<Index> := [[0, 1], [1, 1]];
    var o3: seq<Index> := [[0, 1], [1, 1], [3, 0]];
    var o4: seq<Index> := [[0, 1], [1, 1], [3, 0], [2, 1]];
    ChainedFirstColumns();
    ExpandFromCandidate(ix, 2, [], 0, 0);
    ExpandFromCandidate(ix, 2, [], 0, 1);
    ExpandFromColumn(ix, 2, o1, 0);
    ExpandFromCandidate(ix, 2, o1, 1, 0);
    ExpandFromCandidate(ix, 2, o1, 1, 1);
    ChainedRest();
  }

  /** The example above from the column (2,0) on. */
  lemma ChainedRest()
    ensures var ix: seq<Index> := [[0, 0], [1, 0], [2, 0]];
      ExpandFrom(ix, 2, [[0, 1], [1, 1]], 1, 2) == [[0, 1], [1, 1], [3, 0], [2, 1]]
  {
    var ix: seq<Index> := [[0, 0], [1, 0], [2, 0]];
    var o2: seq<Index> := [[0, 1], [1, 1]];
    var o3: seq<Index> := [[0, 1], [1, 1], [3, 0]];
    var o4: seq<Index> := [[0, 1], [1, 1], [3, 0], [2, 1]];
    ChainedLastColumn();
    ExpandFromColumn(ix, 2, o2, 1);
    ExpandFromCandidate(ix, 2, o2, 2, 0);
    ExpandFromCandidate(ix, 2, o3, 2, 1);
    ExpandFromColumn(ix, 2, o4, 2);
    assert ExpandFrom(ix, 2, o4, 3, 0) == o4;
  }

  /** The candidates of the columns (0,0) and (1,0) in the example above. */
  lemma ChainedFirstColumns()
    ensures var ix: seq<Index> := [[0, 0], [1, 0], [2, 0]];
      && Admit(ix, [], 0, 0) == []
      && Admit(ix, [], 0, 1) == [[0, 1]]
      && Admit(ix, [[0, 1]], 1, 0) == [[0, 1]]
      && Admit(ix, [[0, 1]], 1, 1) == [[0, 1], [1, 1]]
  {
    var ix: seq<Index> := [[0, 0], [1, 0], [2, 0]];
    var o1: seq<Index> := [[0, 1]];
    assert Forward(ix[0], 0) == ix[1];
    assert Admit(ix, [], 0, 1) == o1 by {
      assert Forward(ix[0], 1) == [0, 1];
      assert [0, 1] !in ix + [];
    }
    assert Forward(ix[1], 0) == ix[2];
    assert Admit(ix, o1, 1, 1) == o1 + [[1, 1]] by {
      assert Forward(ix[1], 1) == [1, 1];
      assert [1, 1] !in ix + o1;
      assert Backward([1, 1], 0) == o1[0];
      assert (ix + o1)[3] == o1[0];
    }
  }

  /** The candidates of the column (2,0) in the example above. */
  lemma ChainedLastColumn()
    ensures var ix: seq<Index> := [[0, 0], [1, 0], [2, 0]];
      && Admit(ix, [[0, 1], [1, 1]], 2, 0) == [[0, 1], [1, 1], [3, 0]]
      && Admit(ix, [[0, 1], [1, 1], [3, 0]], 2, 1) == [[0, 1], [1, 1], [3, 0], [2, 1]]
  {
    var ix: seq<Index> := [[0, 0], [1, 0], [2, 0]];
    var o2: seq<Index> := [[0, 1], [1, 1]];
    var o3: seq<Index> := [[0, 1], [1, 1], [3, 0]];
    assert Admit(ix, o2, 2, 0) == o3 by {
      assert Forward(ix[2], 0) == [3, 0];
      assert [3, 0] !in ix + o2;
      assert Backward([3, 0], 0) == ix[2];
    }
    assert Admit(ix, o3, 2, 1) == o3 + [[2, 1]] by {
      assert Forward(ix[2], 1) == [2, 1];
      assert [2, 1] !in ix + o3;
      assert Backward([2, 1], 0) == o3[1];
      assert (ix + o3)[4] == o3[1];
    }
  }

  /** One step of the inner loop: consider candidate (i, d). */
  method Step(indices: seq<Index>, nvars: nat, out: seq<Index>, known: set<Index>,
              ghost origins: seq<(nat, nat)>, i: nat, d: nat)
    returns (out': seq<Index>, known': set<Index>, ghost origins': seq<(nat, nat)>)
    requires i < |indices| && d < nvars
    requires Progress(indices, nvars, out, known, origins, i, d)
    ensures Progress(indices, nvars, out', known', origins', i, d + 1)
    ensures out' == Admit(indices, out, i, d)
  {
    ghost var f := Forward(indices[i], d);
    out', known' := Consider(indices, out, known, i, d);
    if out' != out {
      origins' := origins + [(i, d)];
      OriginsAppend(indices, nvars, out, origins, i, d);
      assert f !in indices + out;
      AllNewAppend(indices, out, f);
    } else {
      origins' := origins;
      if Admissible(Members(indices), f) && f !in known {
        ActiveDimsAgree(known, indices[i], d);
      }
      OriginsAdvance(indices, nvars, out, origins, i, d);
    }
    CompleteAdvance(indices, nvars, known, known', i, d);
  }

  /** Moving on from the last dimension of column i to column i + 1. */
  lemma NextColumn(indices: seq<Index>, nvars: nat, out: seq<Index>, known: set<Index>,
                   origins: seq<(nat, nat)>, i: nat)
    requires Progress(indices, nvars, out, known, origins, i, nvars)
    ensures Progress(indices, nvars, out, known, origins, i + 1, 0)
  {
    assert forall i': nat, d': nat :: Before((i', d'), (i, nvars)) && d' < nvars ==> Before((i', d'), (i + 1, 0));
  }

  /** Once every candidate is considered, the invariant gives the
      postcondition of `expand_basis`. */
  lemma Finished(indices: seq<Index>, nvars: nat, out: seq<Index>, known: set<Index>,
                 origins: seq<(nat, nat)>)
    requires Progress(indices, nvars, out, known, origins, |indices|, 0)
    ensures |origins| == |out| && Shaped(out, nvars)
    ensures forall j :: 0 <= j < |out| ==>
      origins[j].0 < |indices| && origins[j].1 < nvars && out[j] == Forward(indices[origins[j].0], origins[j].1)
    ensures forall a, b :: 0 <= a < b < |out| ==> Before(origins[a], origins[b])
    ensures forall j :: 0 <= j < |out| ==> out[j] !in indices
    ensures Distinct(out)
    ensures PrefixAdmissible(indices, out)
    ensures forall i: nat, d: nat :: (i < |indices| && d < nvars && Admissible(Members(indices), Forward(indices[i], d))) ==>
      Forward(indices[i], d) in indices + out
  {
    assert forall i': nat, d': nat :: i' < |indices| ==> Before((i', d'), (|indices|, 0));
  }

  /** The inner loop of `expand_basis`: every forward neighbour of column i. */
  method ExpandColumn(indices: seq<Index>, nvars: nat, out: seq<Index>, known: set<Index>,
                      ghost origins: seq<(nat, nat)>, i: nat)
    returns (out': seq<Index>, known': set<Index>, ghost origins': seq<(nat, nat)>)
    requires i < |indices|
    requires Progress(indices, nvars, out, known, origins, i, 0)
    ensures Progress(indices, nvars, out', known', origins', i + 1, 0)
    ensures ExpandFrom(indices, nvars, out', i + 1, 0) == ExpandFrom(indices, nvars, out, i, 0)
  {
    out', known', origins' := out, known, origins;
    var d := 0;
    while d < nvars
      invariant 0 <= d <= nvars
      invariant Progress(indices, nvars, out', known', origins', i, d)
      invariant ExpandFrom(indices, nvars, out', i, d) == ExpandFrom(indices, nvars, out, i, 0)
    {
      ExpandFromCandidate(indices, nvars, out', i, d);
      out', known', origins' := Step(indices, nvars, out', known', origins', i, d);
      d := d + 1;
    }
    NextColumn(indices, nvars, out', known', origins', i);
    ExpandFromColumn(indices, nvars, out', i);
  }

  /** `expand_basis`: the new indices, in discovery order. */
  method ExpandBasis(indices: seq<Index>, nvars: nat) returns (out: seq<Index>, ghost origins: seq<(nat, nat)>)
    requires Shaped(indices, nvars)
    ensures |origins| == |out| && Shaped(out, nvars)
    ensures forall j :: 0 <= j < |out| ==>
      origins[j].0 < |indices| && origins[j].1 < nvars && out[j] == Forward(indices[origins[j].0], origins[j].1)
    ensures forall a, b :: 0 <= a < b < |out| ==> Before(origins[a], origins[b])
    ensures forall j :: 0 <= j < |out| ==> out[j] !in indices
    ensures Distinct(out)
    ensures PrefixAdmissible(indices, out)
    ensures forall i: nat, d: nat :: (i < |indices| && d < nvars && Admissible(Members(indices), Forward(indices[i], d))) ==>
      Forward(indices[i], d) in indices + out
    ensures DownwardClosed(Members(indices)) ==> DownwardClosed(Members(indices + out))
    ensures out == ExpandSpec(indices, nvars)
  {
    ghost var spec := ExpandSpec(indices, nvars);
    var known := Members(indices);
    out, origins := [], [];
    var i := 0;
    while i < |indices|
      invariant 0 <= i <= |indices|
      invariant Progress(indices, nvars, out, known, origins, i, 0)
      invariant ExpandFrom(indices, nvars, out, i, 0) == spec
    {
      out, known, origins := ExpandColumn(indices, nvars, out, known, origins, i);
      i := i + 1;
    }
    Finished(indices, nvars, out, known, origins);
    if DownwardClosed(Members(indices)) {
      ClosedAfterExpansion(indices, out);
    }
  }

  /* As written, `np.nonzero(index)` yields a one-element tuple, so the loop
     over `active_vars` runs once, with `kk` the array of ALL active
     dimensions; decrementing the neighbour at that array of positions lowers
     every active coordinate at once (and none, for the constant term).
     The two members below model that reading; the rest of the model uses
     the per-dimension test above. */

  /** The single neighbour checked as written: every coordinate active in
      `origin` lowered by one. */
  function DecrementActive(f: Index, origin: Index): (b: Index)
    requires |f| == |origin| && forall k :: 0 <= k < |f| ==> f[k] >= origin[k]
    ensures |b| == |f|
    ensures forall k :: 0 <= k < |f| ==> b[k] == if origin[k] > 0 then f[k] - 1 else f[k]
  {
    seq(|f|, k requires 0 <= k < |f| => if origin[k] > 0 then f[k] - 1 else f[k])
  }

  /** The admissibility decision of lines 857-867 as written. */
  predicate AsWrittenAdmissible(known: set<Index>, origin: Index, d: nat)
    requires d < |origin|
  {
    DecrementActive(Forward(origin, d), origin) in known
  }

  /** As written, the constant term's forward neighbours are never admitted:
      from the basis {(0)} the written test rejects (1), which the
      per-dimension test admits. */
  lemma AsWrittenRejectsFromConstant()
    ensures !AsWrittenAdmissible({[0]}, [0], 0)
    ensures AdmissibleFrom({[0]}, [0], 0) && Admissible({[0]}, Forward([0], 0))
  {
    assert DecrementActive(Forward([0], 0), [0]) == [1];
    assert Backward(Forward([0], 0), 0) == [0];
  }

  /** As written, (1,1,1) is admitted from (1,1,0) although its neighbours
      (0,1,1) and (1,0,1) are missing from the downward-closed basis. */
  lemma AsWrittenAdmitsTooEarly()
    ensures var known: set<Index> := {[0, 0, 0], [1, 0, 0], [0, 1, 0], [0, 0, 1], [1, 1, 0]};
      && DownwardClosed(known)
      && AsWrittenAdmissible(known, [1, 1, 0], 2)
      && !AdmissibleFrom(known, [1, 1, 0], 2)
  {
    StaircaseClosed();
    assert DecrementActive(Forward([1, 1, 0], 2), [1, 1, 0]) == [0, 0, 1];
    assert Backward(Forward([1, 1, 0], 2), 0) == [0, 1, 1];
  }

  /** The five-element basis of the lemma above is downward closed. */
  lemma StaircaseClosed()
    ensures DownwardClosed({[0, 0, 0], [1, 0, 0], [0, 1, 0], [0, 0, 1], [1, 1, 0]})
  {
    var known: set<Index> := {[0, 0, 0], [1, 0, 0], [0, 1, 0], [0, 0, 1], [1, 1, 0]};
    forall x, k | x in known && 0 <= k < |x| && x[k] > 0
      ensures Backward(x, k) in known
    {
      if x == [1, 1, 0] {
        assert Backward(x, k) == (if k == 0 then [0, 1, 0] else [1, 0, 0]);
      } else {
        assert Backward(x, k) == [0, 0, 0];
      }
    }
  }
}
