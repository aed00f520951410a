/** Multi-indices: one column of the `nvars x n` integer index array.
    Membership is by value (sequence equality), which is what a
    collision-free key for an index gives. */
module MultiIndex {

  /** One basis term: a non-negative degree per input variable. */
  type Index = seq<nat>

  /** The index with coordinate `d` increased by one (a forward neighbour). */
  function Forward(idx: Index, d: nat): (f: Index)
    requires d < |idx|
    ensures |f| == |idx| && f[d] == idx[d] + 1
    ensures forall k :: 0 <= k < |idx| && k != d ==> f[k] == idx[k]
  {
    idx[d := idx[d] + 1]
  }

  /** The index with coordinate `k` decreased by one (a backward neighbour). */
  function Backward(idx: Index, k: nat): (b: Index)
    requires k < |idx| && idx[k] > 0
    ensures |b| == |idx| && b[k] + 1 == idx[k]
    ensures forall j :: 0 <= j < |idx| && j != k ==> b[j] == idx[j]
  {
    idx[k := idx[k] - 1]
  }

  /** Total degree: the sum of the entries. */
  function Degree(idx: Index): (n: nat)
  {
    if idx == [] then 0 else idx[0] + Degree(idx[1..])
  }

  /** The constant term: every coordinate zero. */
  predicate IsZero(idx: Index)
  {
    forall k :: 0 <= k < |idx| ==> idx[k] == 0
  }

  /** Every column has `nvars` rows. */
  predicate Shaped(indices: seq<Index>, nvars: nat)
  {
    forall i :: 0 <= i < |indices| ==> |indices[i]| == nvars
  }

  /** A set of indices is downward closed (admissible) when every member's
      backward neighbour along each of its active dimensions is a member. */
  ghost predicate DownwardClosed(s: set<Index>)
  {
    forall x, k {:trigger Backward(x, k)} :: x in s && 0 <= k < |x| && x[k] > 0 ==> Backward(x, k) in s
  }

  /** The indices in a sequence, as a set. */
  function Members(indices: seq<Index>): (s: set<Index>)
    ensures forall x :: x in s <==> x in indices
  {
    set x | x in indices
  }

  /** No index occurs twice. */
  predicate Distinct(indices: seq<Index>)
  {
    forall i, j :: 0 <= i < j < |indices| ==> indices[i] != indices[j]
  }

  /** Stepping back along the dimension just stepped forward returns to
      the origin. */
  lemma BackwardOfForward(idx: Index, d: nat)
    requires d < |idx|
    ensures Backward(Forward(idx, d), d) == idx
  {
  }

  /** The degree is zero exactly for the constant term, so the source's
      "degree == 0" test finds the all-zero index. */
  lemma {:induction false} DegreeZeroIffZero(idx: Index)
    ensures Degree(idx) == 0 <==> IsZero(idx)
  {
    if idx != [] {
      DegreeZeroIffZero(idx[1..]);
      assert forall k :: 1 <= k < |idx| ==> idx[k] == idx[1..][k - 1];
    }
  }

  /** A forward neighbour is never the constant term. */
  lemma ForwardNotZero(idx: Index, d: nat)
    requires d < |idx|
    ensures !IsZero(Forward(idx, d))
  {
  }
}
