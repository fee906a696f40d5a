/** Sums and arithmetic means of review ratings. Ratings are decimals in the
    store; they are `real` here, so no rounding happens. */
module Ratings {

  function Sum(rs: seq<real>): real {
    if rs == [] then 0.0 else Sum(rs[..|rs| - 1]) + rs[|rs| - 1]
  }

  function Mean(rs: seq<real>): real
    requires rs != []
  {
    Sum(rs) / |rs| as real
  }

  /** The mean of `n` ratings averaging `mean`, once rating `r` is added. */
  function RunningMean(mean: real, n: nat, r: real): real {
    (mean * n as real + r) / (n + 1) as real
  }

  lemma {:induction false} SumBounds(rs: seq<real>, lo: real, hi: real)
    requires forall i | 0 <= i < |rs| :: lo <= rs[i] <= hi
    ensures lo * |rs| as real <= Sum(rs) <= hi * |rs| as real
  {
    if rs != [] {
      var n := |rs| - 1;
      SumBounds(rs[..n], lo, hi);
      assert lo * (n + 1) as real == lo * n as real + lo;
      assert hi * (n + 1) as real == hi * n as real + hi;
    }
  }

  /** The mean lies between the smallest and the largest possible rating:
      if every review rates between 1 and 5, so does the product. */
  lemma MeanBounds(rs: seq<real>, lo: real, hi: real)
    requires rs != []
    requires forall i | 0 <= i < |rs| :: lo <= rs[i] <= hi
    ensures lo <= Mean(rs) <= hi
  {
    SumBounds(rs, lo, hi);
    var n := |rs| as real;
    assert Mean(rs) * n == Sum(rs);
  }

  /** Recomputing the mean from scratch after one more rating gives the same
      value as updating the previous mean incrementally. */
  lemma MeanAppend(rs: seq<real>, r: real)
    requires rs != []
    ensures Mean(rs + [r]) == RunningMean(Mean(rs), |rs|, r)
  {
  }
}
