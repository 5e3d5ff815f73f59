/**
 Exact integer arithmetic on the fixed-point vectors of the SMPC path:
 sums of a sequence, columns of a list of equal-length vectors, and
 element-wise addition.
 */
module Vectors {

  function Sum(xs: seq<int>): int {
    if xs == [] then 0 else xs[0] + Sum(xs[1..])
  }

  ghost predicate AllLength(vs: seq<seq<int>>, len: nat) {
    forall i :: 0 <= i < |vs| ==> |vs[i]| == len
  }

  /** The `c`-th coordinate of every vector in `vs`. */
  function Column(vs: seq<seq<int>>, c: nat): (r: seq<int>)
    requires forall i :: 0 <= i < |vs| ==> c < |vs[i]|
    ensures |r| == |vs|
    ensures forall i :: 0 <= i < |vs| ==> r[i] == vs[i][c]
  {
    seq(|vs|, i requires 0 <= i < |vs| => vs[i][c])
  }

  function Add(a: seq<int>, b: seq<int>): (r: seq<int>)
    requires |a| == |b|
    ensures |r| == |a|
    ensures forall i :: 0 <= i < |a| ==> r[i] == a[i] + b[i]
  {
    seq(|a|, i requires 0 <= i < |a| => a[i] + b[i])
  }

  /** Coordinate-wise sum of equal-length vectors. */
  function VecSum(vs: seq<seq<int>>, len: nat): (r: seq<int>)
    requires AllLength(vs, len)
    ensures |r| == len
    ensures forall c :: 0 <= c < len ==> r[c] == Sum(Column(vs, c))
  {
    seq(len, c requires 0 <= c < len => Sum(Column(vs, c)))
  }

  /** Summation distributes over element-wise addition. */
  lemma {:induction false} SumAdd(a: seq<int>, b: seq<int>)
    requires |a| == |b|
    ensures Sum(Add(a, b)) == Sum(a) + Sum(b)
  {
    if a != [] {
      SumAdd(a[1..], b[1..]);
      assert Add(a, b)[1..] == Add(a[1..], b[1..]);
    }
  }

  /** Summation distributes over element-wise difference. */
  lemma {:induction false} SumSub(a: seq<int>, b: seq<int>, d: seq<int>)
    requires |a| == |b| == |d|
    requires forall i :: 0 <= i < |d| ==> d[i] == a[i] - b[i]
    ensures Sum(d) == Sum(a) - Sum(b)
  {
    if d != [] {
      SumSub(a[1..], b[1..], d[1..]);
    }
  }
}
