/**
 * The cumulative table `m_vals` of the noise generator and the search over it.
 *
 * The constructor appends one weight per positive offset and then turns the
 * vector into running sums in place; `FindInVector` is `std::lower_bound` over
 * that vector, falling back to index 0 when every entry is below the target.
 * Weights are floating-point values in the source; here they are reals given
 * as input.
 */
module Cdf {

  /** Sum of a sequence of weights, added left to right. */
  function Sum(s: seq<real>): real
  {
    if s == [] then 0.0 else Sum(s[..|s| - 1]) + s[|s| - 1]
  }

  /** Running sums: entry `k` is the sum of the entries `0..k` of `s`. */
  function PrefixSums(s: seq<real>): (p: seq<real>)
    ensures |p| == |s|
  {
    seq(|s|, k requires 0 <= k < |s| => Sum(s[..k + 1]))
  }

  predicate NonNegative(s: seq<real>)
  {
    forall k :: 0 <= k < |s| ==> 0.0 <= s[k]
  }

  predicate Sorted(s: seq<real>)
  {
    forall i, j :: 0 <= i <= j < |s| ==> s[i] <= s[j]
  }

  /** Adding the next weight to a running sum gives the next running sum. */
  lemma SumStep(s: seq<real>, k: nat)
    requires k < |s|
    ensures Sum(s[..k + 1]) == Sum(s[..k]) + s[k]
  {
    assert s[..k + 1][..k] == s[..k];
  }

  /** Running sums of non-negative weights never decrease. */
  lemma {:induction false} SumMonotone(s: seq<real>, i: nat, j: nat)
    requires NonNegative(s)
    requires i <= j <= |s|
    ensures Sum(s[..i]) <= Sum(s[..j])
    decreases j
  {
    if i < j {
      SumMonotone(s, i, j - 1);
      SumStep(s, j - 1);
    }
  }

  lemma PrefixSumsSorted(s: seq<real>)
    requires NonNegative(s)
    ensures Sorted(PrefixSums(s))
  {
    forall i, j | 0 <= i <= j < |s|
      ensures PrefixSums(s)[i] <= PrefixSums(s)[j]
    {
      SumMonotone(s, i + 1, j + 1);
    }
  }

  /** Non-negative weights have a non-negative total. */
  lemma SumNonNegative(s: seq<real>)
    requires NonNegative(s)
    ensures 0.0 <= Sum(s)
  {
    SumMonotone(s, 0, |s|);
    assert s[..0] == [] && s[..|s|] == s;
  }

  /** Scaling every weight by `c` scales their total by `c`. */
  lemma {:induction false} SumScaled(s: seq<real>, t: seq<real>, c: real)
    requires |s| == |t|
    requires forall k :: 0 <= k < |s| ==> s[k] == c * t[k]
    ensures Sum(s) == c * Sum(t)
  {
    if s != [] {
      SumScaled(s[..|s| - 1], t[..|t| - 1], c);
    }
  }

  /** The last running sum is the total weight. */
  lemma PrefixSumsLast(s: seq<real>)
    requires |s| > 0
    ensures PrefixSums(s)[|s| - 1] == Sum(s)
  {
    assert s[..|s|] == s;
  }

  /**
   * The constructor's accumulation pass: from the second slot on, each slot
   * adds the (already accumulated) slot before it, in place.
   */
  method PrefixSumInPlace(a: array<real>)
    modifies a
    ensures a[..] == PrefixSums(old(a[..]))
  {
    ghost var w := a[..];
    if a.Length == 0 {
      return;
    }
    assert w[..1] == [w[0]];
    var i := 1;
    while i < a.Length
      invariant 1 <= i <= a.Length
      invariant forall k :: 0 <= k < i ==> a[k] == Sum(w[..k + 1])
      invariant forall k :: i <= k < a.Length ==> a[k] == w[k]
    {
      SumStep(w, i);
      a[i] := a[i] + a[i - 1];
      i := i + 1;
    }
  }

  /**
   * `std::lower_bound` on `s[lo..hi]`: halve the range, keeping the part that
   * can still hold the first element not less than `x`.
   */
  function LowerBound(s: seq<real>, x: real, lo: nat, hi: nat): (k: nat)
    requires lo <= hi <= |s|
    ensures lo <= k <= hi
    ensures Sorted(s) ==> forall i :: lo <= i < k ==> s[i] < x
    ensures Sorted(s) ==> forall i :: k <= i < hi ==> x <= s[i]
    decreases hi - lo
  {
    if lo == hi then lo
    else
      var mid := lo + (hi - lo) / 2;
      if s[mid] < x then LowerBound(s, x, mid + 1, hi) else LowerBound(s, x, lo, mid)
  }

  /**
   * `FindInVector`: the index `std::lower_bound` finds, or 0 when it reaches
   * the end. On a sorted vector this is the smallest index whose entry is at
   * least `search`, if there is one.
   */
  function FindInVector(s: seq<real>, search: real): (k: nat)
    ensures k == 0 || k < |s|
    ensures Sorted(s) && (exists i :: 0 <= i < |s| && search <= s[i]) ==>
              k < |s| && search <= s[k] && forall i :: 0 <= i < k ==> s[i] < search
    ensures Sorted(s) && (forall i :: 0 <= i < |s| ==> s[i] < search) ==> k == 0
  {
    var lower := LowerBound(s, search, 0, |s|);
    if lower != |s| then lower else 0
  }
}
