/**
 * Block-compensated summation and the mean/variance built on it, over exact
 * reals: chunks of 256 items are summed naively and folded into the running
 * total with a Kahan correction term.
 */
module Stat {
  import opened Wrappers

  /** The chunk length `block_kahan_sum` hands to `naive_sum`. */
  const BlockLen: nat := 256

  /** Plain left-to-right sum; the reference both summations are measured against. */
  function Sum(s: seq<real>): (total: real) {
    if s == [] then 0.0 else Sum(s[..|s| - 1]) + s[|s| - 1]
  }

  lemma {:induction false} SumConcat(a: seq<real>, b: seq<real>)
    ensures Sum(a + b) == Sum(a) + Sum(b)
  {
    if b == [] {
      assert a + b == a;
    } else {
      var b' := b[..|b| - 1];
      assert (a + b)[..|a + b| - 1] == a + b';
      SumConcat(a, b');
    }
  }

  lemma {:induction false} SumNonNegative(s: seq<real>)
    requires forall k :: 0 <= k < |s| ==> s[k] >= 0.0
    ensures Sum(s) >= 0.0
  {
    if s != [] {
      SumNonNegative(s[..|s| - 1]);
    }
  }

  /**
   * `naive_sum`: pulls at most `block` items from the iterator `it` (the items
   * not yet consumed). It reports `isOver` as soon as the iterator runs dry
   * within the block; after exactly `block` items it stops without looking further.
   */
  method NaiveSum(it: seq<real>, block: nat) returns (sum: real, isOver: bool, rest: seq<real>)
    ensures isOver <==> |it| < block
    ensures isOver ==> sum == Sum(it) && rest == []
    ensures !isOver ==> sum == Sum(it[..block]) && rest == it[block..]
  {
    sum := 0.0;
    rest := it;
    for k := 0 to block
      invariant k <= |it| && rest == it[k..]
      invariant sum == Sum(it[..k])
    {
      if rest == [] {
        assert it[..k] == it;
        return sum, true, rest;
      }
      var nxt := rest[0];
      rest := rest[1..];
      assert it[..k + 1][..k] == it[..k];
      sum := sum + nxt;
    }
    isOver := false;
  }

  /**
   * `block_kahan_sum`. `chunks` counts the calls of `NaiveSum`: the loop ends
   * after `|items| / 256 + 1` of them, the last one returning `isOver`.
   */
  method BlockKahanSum(items: seq<real>) returns (sum: real, ghost chunks: nat)
    ensures sum == Sum(items)
    ensures chunks == |items| / BlockLen + 1
  {
    sum := 0.0;
    var c := 0.0;
    var it := items;
    chunks := 0;
    while true
      invariant |it| <= |items| && it == items[|items| - |it|..]
      invariant |items| - |it| == chunks * BlockLen
      invariant sum == Sum(items[..|items| - |it|])
      // Over exact arithmetic the correction never moves off zero.
      invariant c == 0.0
      decreases |it|
    {
      ghost var done := items[..|items| - |it|];
      var x, isOver, rest := NaiveSum(it, BlockLen);
      var y := x - c;
      var t := sum + y;
      c := (t - sum) - y;
      sum := t;
      chunks := chunks + 1;
      if isOver {
        assert done + it == items;
        SumConcat(done, it);
        assert |items| == (chunks - 1) * BlockLen + |it|;
        break;
      }
      assert items[..|items| - |rest|] == done + it[..BlockLen];
      SumConcat(done, it[..BlockLen]);
      it := rest;
    }
  }

  /** Arithmetic mean of a non-empty sample. */
  function Mean(s: seq<real>): (m: real)
    requires |s| > 0
  {
    Sum(s) / |s| as real
  }

  /** The squared deviations `(x - mean)^2` that `get_variance` sums. */
  function SquaredDeviations(s: seq<real>, mean: real): (d: seq<real>)
    ensures |d| == |s|
  {
    seq(|s|, k requires 0 <= k < |s| => Square(s[k] - mean))
  }

  function Square(x: real): (y: real)
    ensures y >= 0.0
  {
    x * x
  }

  /** Population variance: the mean squared deviation, divided by `n`, not `n - 1`. */
  function Variance(s: seq<real>, mean: real): (v: real)
    requires |s| > 0
    ensures v >= 0.0
  {
    SumNonNegative(SquaredDeviations(s, mean));
    Sum(SquaredDeviations(s, mean)) / |s| as real
  }

  /** `get_mean`: `None` exactly for the empty slice. */
  method GetMean(slice: seq<real>) returns (r: Option<real>)
    ensures r.None? <==> |slice| == 0
    ensures r.Some? ==> r.value == Mean(slice)
  {
    if |slice| == 0 {
      r := None;
    } else {
      var sum, _ := BlockKahanSum(slice);
      r := Some(sum / |slice| as real);
    }
  }

  /** `get_variance`; its one caller passes a slice that has a mean. */
  method GetVariance(slice: seq<real>, mean: real) returns (v: real)
    requires |slice| > 0
    ensures v == Variance(slice, mean)
    ensures v >= 0.0
  {
    var sum, _ := BlockKahanSum(SquaredDeviations(slice, mean));
    v := sum / |slice| as real;
  }

  datatype Stats = Stats(mean: real, variance: real)

  /** `Stats::try_from_slice`: mean and population variance, or `None` for no samples. */
  method TryFromSlice(slice: seq<real>) returns (r: Option<Stats>)
    ensures r.None? <==> |slice| == 0
    ensures r.Some? ==> r.value.mean == Mean(slice)
    ensures r.Some? ==> r.value.variance == Variance(slice, Mean(slice))
    ensures r.Some? ==> r.value.variance >= 0.0
  {
    var mean := GetMean(slice);
    if mean.None? {
      return None;
    }
    var variance := GetVariance(slice, mean.value);
    r := Some(Stats(mean.value, variance));
  }

  /** The samples 1, 2, 3, 4, 5 have mean 3 and population variance 2. */
  lemma OneToFive()
    ensures Mean([1.0, 2.0, 3.0, 4.0, 5.0]) == 3.0
    ensures Variance([1.0, 2.0, 3.0, 4.0, 5.0], 3.0) == 2.0
  {
    var s := [1.0, 2.0, 3.0, 4.0, 5.0];
    SumConcat([1.0, 2.0], [3.0, 4.0, 5.0]);
    assert Sum([1.0, 2.0]) == 3.0 by { assert [1.0, 2.0][..1] == [1.0]; }
    assert Sum([3.0, 4.0, 5.0]) == 12.0 by {
      assert [3.0, 4.0, 5.0][..2] == [3.0, 4.0];
      assert [3.0, 4.0][..1] == [3.0];
    }
    assert s == [1.0, 2.0] + [3.0, 4.0, 5.0];
    var d := SquaredDeviations(s, 3.0);
    assert d == [4.0, 1.0] + [0.0, 1.0, 4.0];
    SumConcat([4.0, 1.0], [0.0, 1.0, 4.0]);
    assert Sum([4.0, 1.0]) == 5.0 by { assert [4.0, 1.0][..1] == [4.0]; }
    assert Sum([0.0, 1.0, 4.0]) == 5.0 by {
      assert [0.0, 1.0, 4.0][..2] == [0.0, 1.0];
      assert [0.0, 1.0][..1] == [0.0];
    }
  }
}
