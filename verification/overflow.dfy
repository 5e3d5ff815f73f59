/**
 The i64 accumulators of `run_smpc_aggregation` (src/lib.rs:256-274). The
 source adds every share into `sum_s[i]: i64` (and every mask sum into
 `sum_t[i]: i64`) and only widens to i128 afterwards (src/lib.rs:280), so the
 widening cannot undo an overflow that already happened while summing. In a
 release build `+=` on i64 wraps modulo 2^64; this module models that
 accumulation as written, exhibits the wrap, and states the input bound
 under which it agrees with the exact sum the rest of the model uses.
 */
module Overflow {
  import opened Types
  import opened Vectors

  const TwoTo64: int := 0x1_0000_0000_0000_0000

  /** Two's-complement wrap of an integer into the i64 range. */
  function Wrap(x: int): (r: I64)
    ensures (r - x) % TwoTo64 == 0
    ensures MinI64 <= x <= MaxI64 ==> r == x
  {
    (x - MinI64) % TwoTo64 + MinI64
  }

  /** Multiples of 2^64 are closed under addition. */
  lemma MultiplesAdd(a: int, b: int)
    requires a % TwoTo64 == 0 && b % TwoTo64 == 0
    ensures (a + b) % TwoTo64 == 0
  {
    var qa, qb := a / TwoTo64, b / TwoTo64;
    assert a == qa * TwoTo64 && b == qb * TwoTo64;
    assert a + b == (qa + qb) * TwoTo64;
  }

  /**
   `acc += x` for each `x` in turn, on an i64 accumulator, as written: the
   result is the exact sum up to a multiple of 2^64.
   */
  function WrappingFold(acc: I64, xs: seq<I64>): (r: I64)
    ensures (r - (acc + Sum(xs))) % TwoTo64 == 0
    decreases |xs|
  {
    if xs == [] then acc
    else
      var next := Wrap(acc + xs[0]);
      var r := WrappingFold(next, xs[1..]);
      MultiplesAdd(r - (next + Sum(xs[1..])), next - (acc + xs[0]));
      r
  }

  /**
   One coordinate of `sum_s` (or `sum_t`) as the source computes it, starting
   from `0i64`: congruent to the exact sum modulo 2^64.
   */
  function WrappingSum(xs: seq<I64>): (r: I64)
    ensures (r - Sum(xs)) % TwoTo64 == 0
  {
    WrappingFold(0, xs)
  }

  /**
   Two shares `[i64::MAX]` and `[1]` accumulate to `i64::MIN` where the exact
   sum is `2^63`: the later widening sees an already wrapped value.
   */
  lemma WrappingSumOverflows()
    ensures WrappingSum([MaxI64, 1]) == MinI64
    ensures Sum([MaxI64, 1]) == MaxI64 + 1
    ensures WrappingSum([MaxI64, 1]) != Sum([MaxI64, 1])
  {
    assert WrappingFold(MaxI64, [1]) == WrappingFold(Wrap(MaxI64 + 1), []);
  }

  /**
   Each step of the fold stays in range while `done` values of magnitude at
   most `bound` have been added and the rest still fit.
   */
  lemma {:induction false} FoldExact(acc: I64, xs: seq<I64>, bound: nat, done: nat)
    requires -(done * bound) <= acc <= done * bound
    requires forall i :: 0 <= i < |xs| ==> -(bound as int) <= xs[i] <= bound
    requires (done + |xs|) * bound <= MaxI64
    ensures WrappingFold(acc, xs) == acc + Sum(xs)
    decreases |xs|
  {
    if xs != [] {
      assert (done + 1) * bound == done * bound + bound;
      assert (done + |xs|) * bound == (done + 1) * bound + (|xs| - 1) * bound;
      assert (done + 1) * bound <= MaxI64;
      assert MinI64 <= acc + xs[0] <= MaxI64;
      FoldExact(Wrap(acc + xs[0]), xs[1..], bound, done + 1);
    }
  }

  /**
   With `n` summed vectors whose entries are at most `bound` in magnitude and
   `n * bound <= i64::MAX`, the source's i64 accumulation never wraps and equals
   the exact integer sum.
   */
  lemma BoundedAccumulationExact(xs: seq<I64>, bound: nat)
    requires forall i :: 0 <= i < |xs| ==> -(bound as int) <= xs[i] <= bound
    requires |xs| * bound <= MaxI64
    ensures WrappingSum(xs) == Sum(xs)
  {
    FoldExact(0, xs, bound, 0);
  }
}
