/**
 The pairwise-masking protocol the SMPC path relies on. Client `i` holds the
 true fixed-point vector `g[i]` and agrees a random mask `r[i][j]` with every
 peer `j` (`r[i][i]` is allowed and cancels like the rest). It submits
 `s[i] = g[i] - sum_j r[i][j]`, and the mask sum `t[j] = sum_i r[i][j]` of the
 masks directed at `j` is submitted for `j`. Summing every `s` and every `t`
 recovers `sum_i g[i]` exactly: the masks cancel.
 */
module Masking {
  import opened Vectors

  /** Per-row sums of a matrix. */
  function RowSums(m: seq<seq<int>>): (r: seq<int>)
    ensures |r| == |m|
    ensures forall i :: 0 <= i < |m| ==> r[i] == Sum(m[i])
  {
    seq(|m|, i requires 0 <= i < |m| => Sum(m[i]))
  }

  /** Per-column sums of a matrix with `width` columns. */
  function ColSums(m: seq<seq<int>>, width: nat): (r: seq<int>)
    requires AllLength(m, width)
    ensures |r| == width
    ensures forall j :: 0 <= j < width ==> r[j] == Sum(Column(m, j))
  {
    seq(width, j requires 0 <= j < width => Sum(Column(m, j)))
  }

  lemma {:induction false} SumZeros(z: seq<int>)
    requires forall i :: 0 <= i < |z| ==> z[i] == 0
    ensures Sum(z) == 0
  {
    if z != [] {
      SumZeros(z[1..]);
    }
  }

  /** Summing a matrix row by row or column by column gives the same total. */
  lemma {:induction false} SumExchange(m: seq<seq<int>>, width: nat)
    requires AllLength(m, width)
    ensures Sum(RowSums(m)) == Sum(ColSums(m, width))
  {
    if m == [] {
      SumZeros(ColSums(m, width));
    } else {
      var rest := m[1..];
      SumExchange(rest, width);
      assert RowSums(m)[1..] == RowSums(rest);
      forall j | 0 <= j < width
        ensures ColSums(m, width)[j] == m[0][j] + ColSums(rest, width)[j]
      {
        assert Column(m, j)[1..] == Column(rest, j);
      }
      assert ColSums(m, width) == Add(m[0], ColSums(rest, width));
      SumAdd(m[0], ColSums(rest, width));
    }
  }

  /** Coordinate `c` of every mask: `MaskMatrix(r, c)[i][j] == r[i][j][c]`. */
  function MaskMatrix(r: seq<seq<seq<int>>>, n: nat, len: nat, c: nat): (m: seq<seq<int>>)
    requires |r| == n && c < len
    requires forall i :: 0 <= i < n ==> |r[i]| == n
    requires forall i, j :: 0 <= i < n && 0 <= j < n ==> |r[i][j]| == len
    ensures |m| == n && AllLength(m, n)
    ensures forall i, j :: 0 <= i < n && 0 <= j < n ==> m[i][j] == r[i][j][c]
  {
    seq(n, i requires 0 <= i < n => seq(n, j requires 0 <= j < n => r[i][j][c]))
  }

  /**
   `s` and `t` were formed from true vectors `g` and masks `r` by the protocol,
   among `n` participants, all vectors of length `len`.
   */
  ghost predicate Masked(g: seq<seq<int>>, r: seq<seq<seq<int>>>, s: seq<seq<int>>, t: seq<seq<int>>, n: nat, len: nat) {
    && |g| == n && |r| == n && |s| == n && |t| == n
    && AllLength(g, len) && AllLength(s, len) && AllLength(t, len)
    && (forall i :: 0 <= i < n ==> |r[i]| == n)
    && (forall i, j :: 0 <= i < n && 0 <= j < n ==> |r[i][j]| == len)
    && (forall i, c :: 0 <= i < n && 0 <= c < len ==>
          s[i][c] == g[i][c] - Sum(MaskMatrix(r, n, len, c)[i]))
    && (forall j, c :: 0 <= j < n && 0 <= c < len ==>
          t[j][c] == Sum(Column(MaskMatrix(r, n, len, c), j)))
  }

  /** The masks cancel: `sum s + sum t == sum g`, coordinate by coordinate. */
  lemma MaskCancellation(g: seq<seq<int>>, r: seq<seq<seq<int>>>, s: seq<seq<int>>, t: seq<seq<int>>, n: nat, len: nat)
    requires Masked(g, r, s, t, n, len)
    ensures Add(VecSum(s, len), VecSum(t, len)) == VecSum(g, len)
  {
    forall c | 0 <= c < len
      ensures Sum(Column(s, c)) + Sum(Column(t, c)) == Sum(Column(g, c))
    {
      var m := MaskMatrix(r, n, len, c);
      SumSub(Column(g, c), RowSums(m), Column(s, c));
      assert Column(t, c) == ColSums(m, n);
      SumExchange(m, n);
    }
  }
}
