/**
 * The distinct-index sampler: a partial Fisher-Yates shuffle over a virtual
 * array of `[l, r]` whose displaced slots are kept in a map. The random
 * generator is an oracle: `draws[i]` is the value `gen_range(l + i ..= r)`
 * returned in iteration `i`.
 */
module Rnd {

  /** The values `l, l + 1, ..., r`. */
  function Range(l: nat, r: nat): (s: seq<nat>)
    requires l <= r
    ensures |s| == r - l + 1
    ensures Distinct(s)
  {
    seq(r - l + 1, k requires 0 <= k => l + k)
  }

  predicate Distinct(s: seq<nat>) {
    forall p, q :: 0 <= p < q < |s| ==> s[p] != s[q]
  }

  /** The oracle delivers one draw per iteration, draw `i` within `[l + i, r]`. */
  predicate DrawsInRange(l: nat, r: nat, draws: seq<nat>, count: nat) {
    |draws| == count && forall i :: 0 <= i < count ==> l + i <= draws[i] <= r
  }

  /** What a virtual slot holds: its map entry, or its own index when unmapped. */
  function Slot(replaced: map<nat, nat>, j: nat): (v: nat) {
    if j in replaced then replaced[j] else j
  }

  /** Exchanges positions `i` and `j`. */
  function Swap(a: seq<nat>, i: nat, j: nat): (t: seq<nat>)
    requires i < |a| && j < |a|
  {
    seq(|a|, k requires 0 <= k < |a| => if k == j then a[i] else if k == i then a[j] else a[k])
  }

  /** A swap permutes the array. */
  lemma SwapPermutes(a: seq<nat>, i: nat, j: nat)
    requires i < |a| && j < |a|
    ensures multiset(Swap(a, i, j)) == multiset(a)
  {
    var b := a[i := a[j]];
    assert Swap(a, i, j) == b[j := a[i]];
    assert multiset(b) == multiset(a) - multiset{a[i]} + multiset{a[j]};
    assert multiset(b[j := a[i]]) == multiset(b) - multiset{b[j]} + multiset{a[i]};
  }

  /** A swap keeps the values of an array without repeats distinct. */
  lemma SwapDistinct(a: seq<nat>, i: nat, j: nat)
    requires i < |a| && j < |a| && Distinct(a)
    ensures Distinct(Swap(a, i, j))
  {
    var t := Swap(a, i, j);
    forall p, q | 0 <= p < q < |t| ensures t[p] != t[q] {
      var p' := if p == i then j else if p == j then i else p;
      var q' := if q == i then j else if q == j then i else q;
      assert t[p] == a[p'] && t[q] == a[q'];
    }
  }

  /**
   * Reference algorithm: the first `n` steps of Fisher-Yates on an explicit
   * array `a` whose position `k` stands for slot `l + k`; step `i` swaps
   * positions `i` and `draws[i] - l`.
   */
  function Shuffle(a: seq<nat>, l: nat, draws: seq<nat>, n: nat): (t: seq<nat>)
    requires n <= |draws| && n <= |a|
    requires forall i :: 0 <= i < n ==> l + i <= draws[i] < l + |a|
    ensures |t| == |a|
  {
    if n == 0 then a else Swap(Shuffle(a, l, draws, n - 1), n - 1, draws[n - 1] - l)
  }

  /** The shuffle is a permutation of the array it starts from. */
  lemma {:induction false} ShufflePermutes(a: seq<nat>, l: nat, draws: seq<nat>, n: nat)
    requires n <= |draws| && n <= |a|
    requires forall i :: 0 <= i < n ==> l + i <= draws[i] < l + |a|
    ensures multiset(Shuffle(a, l, draws, n)) == multiset(a)
  {
    if n > 0 {
      var t := Shuffle(a, l, draws, n - 1);
      var d := draws[n - 1] - l;
      calc {
        multiset(Shuffle(a, l, draws, n));
        multiset(Swap(t, n - 1, d));
        { SwapPermutes(t, n - 1, d); }
        multiset(t);
        { ShufflePermutes(a, l, draws, n - 1); }
        multiset(a);
      }
    }
  }

  /** The shuffle of an array without repeats has no repeats. */
  lemma {:induction false} ShuffleDistinct(a: seq<nat>, l: nat, draws: seq<nat>, n: nat)
    requires n <= |draws| && n <= |a|
    requires forall i :: 0 <= i < n ==> l + i <= draws[i] < l + |a|
    requires Distinct(a)
    ensures Distinct(Shuffle(a, l, draws, n))
  {
    if n > 0 {
      var t := Shuffle(a, l, draws, n - 1);
      ShuffleDistinct(a, l, draws, n - 1);
      SwapDistinct(t, n - 1, draws[n - 1] - l);
      assert Shuffle(a, l, draws, n) == Swap(t, n - 1, draws[n - 1] - l);
    }
  }

  /** The values the reference algorithm puts in front after `count` steps. */
  function Sampled(l: nat, r: nat, draws: seq<nat>, count: nat): (s: seq<nat>)
    requires l <= r && count <= r - l + 1 && DrawsInRange(l, r, draws, count)
  {
    Shuffle(Range(l, r), l, draws, count)[..count]
  }

  /** Every value of a shuffled `[l, r]` lies in `[l, r]`. */
  lemma ShuffleInRange(l: nat, r: nat, draws: seq<nat>, n: nat, k: nat)
    requires l <= r && n <= r - l + 1 && DrawsInRange(l, r, draws, n)
    requires k < r - l + 1
    ensures l <= Shuffle(Range(l, r), l, draws, n)[k] <= r
  {
    var t := Shuffle(Range(l, r), l, draws, n);
    ShufflePermutes(Range(l, r), l, draws, n);
    assert t[k] in multiset(t);
    assert t[k] in Range(l, r);
  }

  /**
   * What `generate_diff_sequence` promises: `count` pairwise distinct values of
   * `[l, r]`, and, when `count` covers the whole range, every value of it once.
   */
  predicate DistinctSample(l: nat, r: nat, count: nat, s: seq<nat>)
    requires l <= r
  {
    && |s| == count
    && (forall k :: 0 <= k < |s| ==> l <= s[k] <= r)
    && Distinct(s)
    && (count == r - l + 1 ==> multiset(s) == multiset(Range(l, r)))
  }

  /** The reference algorithm's sample has every promised property. */
  lemma SampledProperties(l: nat, r: nat, draws: seq<nat>, count: nat)
    requires l <= r && count <= r - l + 1 && DrawsInRange(l, r, draws, count)
    ensures DistinctSample(l, r, count, Sampled(l, r, draws, count))
  {
    var t := Shuffle(Range(l, r), l, draws, count);
    ShufflePermutes(Range(l, r), l, draws, count);
    ShuffleDistinct(Range(l, r), l, draws, count);
    forall k | 0 <= k < count ensures l <= Sampled(l, r, draws, count)[k] <= r {
      ShuffleInRange(l, r, draws, count, k);
    }
    assert count == r - l + 1 ==> Sampled(l, r, draws, count) == t;
  }

  /**
   * One iteration keeps the map in step with the virtual array: after swapping
   * positions `i` and `num - l`, position `i` holds the value read for slot `num`,
   * and every live slot above `i` reads through the updated map.
   */
  lemma SlotsAfterStep(v: seq<nat>, replaced: map<nat, nat>, l: nat, i: nat, num: nat,
                        w: seq<nat>, m: map<nat, nat>)
    requires i < |v| && l + i <= num < l + |v|
    requires forall k :: i <= k < |v| ==> v[k] == Slot(replaced, l + k)
    requires w == Swap(v, i, num - l) && m == replaced[num := Slot(replaced, l + i)]
    ensures w[..i] == v[..i]
    ensures w[i] == Slot(replaced, num)
    ensures forall k :: i + 1 <= k < |w| ==> w[k] == Slot(m, l + k)
  {
    assert v[num - l] == Slot(replaced, num);
    forall k | i + 1 <= k < |w| ensures w[k] == Slot(m, l + k) {
      if l + k == num {
        assert w[k] == v[i];
      } else {
        assert w[k] == v[k];
      }
    }
  }

  /**
   * `generate_diff_sequence`: `count` distinct values of `[l, r]`, in the order
   * the partial Fisher-Yates shuffle yields them; only displaced slots are stored.
   */
  method GenerateDiffSequence(l: nat, r: nat, count: nat, draws: seq<nat>) returns (result: seq<nat>)
    requires l <= r && count <= r - l + 1
    requires DrawsInRange(l, r, draws, count)
    ensures result == Sampled(l, r, draws, count)
    ensures DistinctSample(l, r, count, result)
  {
    var replaced: map<nat, nat> := map[];
    result := [];
    // The virtual array: positions `< i` hold `result`, positions `>= i` the live slots.
    ghost var v := Range(l, r);
    for i := 0 to count
      invariant |result| == i
      invariant v == Shuffle(Range(l, r), l, draws, i)
      invariant result == v[..i]
      invariant forall k :: i <= k < |v| ==> v[k] == Slot(replaced, l + k)
      invariant forall key :: key in replaced ==> l <= key <= r
      invariant |replaced| <= i
    {
      var lbound := l + i;
      var lboundReplace := if lbound in replaced then replaced[lbound] else lbound;
      var num := draws[i];
      if num in replaced {
        result := result + [replaced[num]];
      } else {
        result := result + [num];
      }
      ghost var w := Swap(v, i, num - l);
      SlotsAfterStep(v, replaced, l, i, num, w, replaced[num := lboundReplace]);
      replaced := replaced[num := lboundReplace];
      v := w;
    }
    SampledProperties(l, r, draws, count);
  }

  predicate Sorted(s: seq<nat>) {
    forall p, q :: 0 <= p < q < |s| ==> s[p] <= s[q]
  }

  lemma {:induction false} RisesFromBottom(s: seq<nat>, l: nat, k: nat)
    requires Sorted(s) && Distinct(s) && k < |s|
    requires forall p :: 0 <= p < |s| ==> l <= s[p]
    ensures l + k <= s[k]
  {
    if k > 0 {
      RisesFromBottom(s, l, k - 1);
      assert s[k - 1] < s[k];
    }
  }

  lemma {:induction false} FallsFromTop(s: seq<nat>, r: nat, k: nat)
    requires Sorted(s) && Distinct(s) && k < |s|
    requires forall p :: 0 <= p < |s| ==> s[p] <= r
    ensures s[k] + (|s| - 1 - k) <= r
    decreases |s| - k
  {
    if k < |s| - 1 {
      FallsFromTop(s, r, k + 1);
      assert s[k] < s[k + 1];
    }
  }

  /**
   * The full-range check: once sorted, `r - l + 1` distinct values drawn from
   * `[l, r]` are exactly `l, l + 1, ..., r`.
   */
  lemma SortedFullRange(s: seq<nat>, l: nat, r: nat)
    requires l <= r && |s| == r - l + 1
    requires Sorted(s) && Distinct(s)
    requires forall p :: 0 <= p < |s| ==> l <= s[p] <= r
    ensures s == Range(l, r)
  {
    forall k | 0 <= k < |s| ensures s[k] == l + k {
      RisesFromBottom(s, l, k);
      FallsFromTop(s, r, k);
    }
  }
}
