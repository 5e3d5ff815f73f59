/**
 `run_smpc_aggregation` (src/lib.rs:234-291): choose a vector length, sum the
 masked shares `s` and the mask sums `t` of the current cycle over the vectors
 of that length, count the shares summed, and replace the global model with
 the mean `(sum_s + sum_t) / num_s / 1e6`. The model stops at the exact integer
 numerators `sum_s[i] + sum_t[i]` and the divisor `num_s * 1_000_000`.
 */
module Smpc {
  import opened Types
  import opened Ordered
  import opened Vectors
  import Masking
  import Overflow

  /** What vector `v` adds to coordinate `c`: its own value when its length is `len`, nothing otherwise. */
  function Contribution(v: seq<int>, len: nat, c: nat): int
    requires c < len
  {
    if |v| == len then v[c] else 0
  }

  /** Coordinate `c` of the sum of the vectors of `m` whose length is `len`. */
  function ColumnTotal(m: map<ClientId, seq<I64>>, len: nat, c: nat): int
    requires c < len
    decreases |m|
  {
    if m == map[] then 0
    else
      var k := MinKey(m.Keys);
      assert |m - {k}| < |m| by {
        assert (m - {k}).Keys == m.Keys - {k};
      }
      Contribution(m[k], len, c) + ColumnTotal(m - {k}, len, c)
  }

  /** The clients whose vector has length `len`: the ones that are summed. */
  function Included(m: map<ClientId, seq<I64>>, len: nat): set<ClientId> {
    set k | k in m && |m[k]| == len
  }

  /**
   The sum does not depend on the order the map is walked in: any one
   client's contribution can be taken out first.
   */
  lemma {:induction false} ColumnTotalRemove(m: map<ClientId, seq<I64>>, len: nat, c: nat, k: ClientId)
    requires c < len && k in m
    ensures ColumnTotal(m, len, c) == Contribution(m[k], len, c) + ColumnTotal(m - {k}, len, c)
    decreases |m|
  {
    var k0 := MinKey(m.Keys);
    if k != k0 {
      var m1 := m - {k0};
      assert |m1| < |m| by {
        assert m1.Keys == m.Keys - {k0};
      }
      ColumnTotalRemove(m1, len, c, k);
      var m2 := m - {k};
      assert m2 != map[] by {
        assert k0 in m2;
      }
      assert MinKey(m2.Keys) == k0;
      assert m2 - {k0} == m1 - {k};
    }
  }

  /** The sums of coordinates `0 .. len-1` over the vectors of length `len`. */
  function Totals(m: map<ClientId, seq<I64>>, len: nat): (r: seq<int>)
    ensures |r| == len
    ensures forall c :: 0 <= c < len ==> r[c] == ColumnTotal(m, len, c)
  {
    seq(len, c requires 0 <= c < len => ColumnTotal(m, len, c))
  }

  /** The entries of `m` whose key is in `ks`: the part of the map not yet walked. */
  function Unvisited(m: map<ClientId, seq<I64>>, ks: set<ClientId>): (r: map<ClientId, seq<I64>>)
    ensures forall k :: k in r <==> k in m && k in ks
    ensures forall k :: k in r ==> r[k] == m[k]
  {
    map k | k in m && k in ks :: m[k]
  }

  /** Visiting one more client moves its contribution from the unvisited part into the running sum. */
  lemma VisitOne(m: map<ClientId, seq<I64>>, ks: set<ClientId>, k: ClientId, len: nat)
    requires k in ks && k in m
    ensures forall c :: 0 <= c < len ==>
      ColumnTotal(Unvisited(m, ks), len, c) == Contribution(m[k], len, c) + ColumnTotal(Unvisited(m, ks - {k}), len, c)
    ensures |Included(Unvisited(m, ks), len)| ==
      |Included(Unvisited(m, ks - {k}), len)| + (if |m[k]| == len then 1 else 0)
  {
    var before := Unvisited(m, ks);
    var after := Unvisited(m, ks - {k});
    assert after == before - {k};
    forall c | 0 <= c < len
      ensures ColumnTotal(before, len, c) == Contribution(m[k], len, c) + ColumnTotal(after, len, c)
    {
      ColumnTotalRemove(before, len, c, k);
    }
    if |m[k]| == len {
      assert Included(after, len) == Included(before, len) - {k};
    } else {
      assert Included(after, len) == Included(before, len);
    }
  }

  /** `for (i, val) in v.iter().enumerate() { sum[i] += *val; }` */
  method AddInto(sum: seq<int>, v: seq<int>) returns (r: seq<int>)
    requires |sum| == |v|
    ensures r == Add(sum, v)
  {
    r := sum;
    var i := 0;
    while i < |v|
      invariant 0 <= i <= |v| && |r| == |v|
      invariant forall c :: 0 <= c < i ==> r[c] == sum[c] + v[c]
      invariant forall c :: i <= c < |v| ==> r[c] == sum[c]
    {
      r := r[i := r[i] + v[i]];
      i := i + 1;
    }
  }

  /**
   The accumulation loop of `run_smpc_aggregation`: walk the map in an
   arbitrary order (the source walks a `HashMap`), skip vectors whose length
   is not `len`, add the others coordinate by coordinate and count them.
   Whatever order is taken, the result is the order-free sum and count.
   */
  method AccumulateMatching(m: map<ClientId, seq<I64>>, len: nat) returns (sum: seq<int>, count: nat)
    ensures sum == Totals(m, len)
    ensures count == |Included(m, len)|
  {
    sum := seq(len, c => 0);
    count := 0;
    var remaining := m.Keys;
    assert Unvisited(m, remaining) == m;
    while remaining != {}
      invariant remaining <= m.Keys
      invariant |sum| == len
      invariant forall c :: 0 <= c < len ==>
        sum[c] + ColumnTotal(Unvisited(m, remaining), len, c) == ColumnTotal(m, len, c)
      invariant count + |Included(Unvisited(m, remaining), len)| == |Included(m, len)|
      decreases |remaining|
    {
      var k :| k in remaining;
      var v := m[k];
      VisitOne(m, remaining, k, len);
      if |v| == len {
        sum := AddInto(sum, v);
        count := count + 1;
      }
      remaining := remaining - {k};
    }
    assert Unvisited(m, remaining) == map[];
  }

  /** The exact integer part of an SMPC aggregation for a chosen vector length. */
  datatype Reconstruction = Reconstruction(numerators: seq<int>, numS: nat)

  function Reconstruct(sMap: map<ClientId, seq<I64>>, tMap: map<ClientId, seq<I64>>, len: nat): (r: Reconstruction)
    ensures |r.numerators| == len
  {
    Reconstruction(Add(Totals(sMap, len), Totals(tMap, len)), |Included(sMap, len)|)
  }

  /**
   `s_map.values().chain(t_map.values()).next().map(|v| v.len())`, walking
   each map in ascending client order.
   */
  function FirstLength(sMap: map<ClientId, seq<I64>>, tMap: map<ClientId, seq<I64>>): (r: Option<nat>)
    ensures sMap != map[] ==> r == Some(|sMap[MinKey(sMap.Keys)]|)
    ensures sMap == map[] && tMap != map[] ==> r == Some(|tMap[MinKey(tMap.Keys)]|)
    ensures r == None <==> sMap == map[] && tMap == map[]
  {
    if sMap != map[] then Some(|sMap[MinKey(sMap.Keys)]|)
    else if tMap != map[] then Some(|tMap[MinKey(tMap.Keys)]|)
    else None
  }

  /**
   Whatever share vector is taken as "first" (the source's `HashMap` order is
   unspecified), its own length admits it, so at least one share is counted.
   */
  lemma SharesCounted(sMap: map<ClientId, seq<I64>>, tMap: map<ClientId, seq<I64>>, k: ClientId)
    requires k in sMap
    ensures Reconstruct(sMap, tMap, |sMap[k]|).numS >= 1
  {
    assert k in Included(sMap, |sMap[k]|);
  }

  /** The mask sums `t` never change the share count `num_s`. */
  lemma CountIgnoresMaskSums(sMap: map<ClientId, seq<I64>>, t1: map<ClientId, seq<I64>>, t2: map<ClientId, seq<I64>>, len: nat)
    ensures Reconstruct(sMap, t1, len).numS == Reconstruct(sMap, t2, len).numS
  {
  }

  /** A vector of another length, from a client not yet present, is silently left out of the sums. */
  lemma MismatchedIgnored(m: map<ClientId, seq<I64>>, k: ClientId, v: seq<I64>, len: nat)
    requires k !in m && |v| != len
    ensures Totals(m[k := v], len) == Totals(m, len)
    ensures Included(m[k := v], len) == Included(m, len)
  {
    forall c | 0 <= c < len
      ensures ColumnTotal(m[k := v], len, c) == ColumnTotal(m, len, c)
    {
      ColumnTotalRemove(m[k := v], len, c, k);
      assert m[k := v] - {k} == m;
    }
  }

  /**
   The SMPC step of the canister. No effect when either map of the current
   cycle is empty; otherwise the length of the first vector is chosen, and
   when at least one share has it the global model becomes the mean and both
   maps of the cycle are removed.
   */
  function RunSmpcAggregation(st: State): (r: State)
    ensures CycleMap(st.sShares, st.currentCycle) == map[] || CycleMap(st.tSums, st.currentCycle) == map[] ==> r == st
    ensures CycleMap(st.sShares, st.currentCycle) != map[] && CycleMap(st.tSums, st.currentCycle) != map[] ==>
      var sMap := CycleMap(st.sShares, st.currentCycle);
      var tMap := CycleMap(st.tSums, st.currentCycle);
      var len := |sMap[MinKey(sMap.Keys)]|;
      && r == st.(globalModel := r.globalModel,
                  sShares := st.sShares - {st.currentCycle},
                  tSums := st.tSums - {st.currentCycle})
      && r.globalModel.SmpcMean?
      && |r.globalModel.numerators| == len
      && (forall c :: 0 <= c < len ==>
            r.globalModel.numerators[c] == ColumnTotal(sMap, len, c) + ColumnTotal(tMap, len, c))
      && r.globalModel.divisor == |Included(sMap, len)| * SmpcScale
      && r.globalModel.divisor >= SmpcScale
  {
    var cycle := st.currentCycle;
    var sMap := CycleMap(st.sShares, cycle);
    var tMap := CycleMap(st.tSums, cycle);
    if |sMap| == 0 || |tMap| == 0 then st
    else
      match FirstLength(sMap, tMap)
      case None => st
      case Some(vecLen) =>
        var rec := Reconstruct(sMap, tMap, vecLen);
        SharesCounted(sMap, tMap, MinKey(sMap.Keys));
        if rec.numS == 0 then st
        else
          st.(globalModel := SmpcMean(rec.numerators, rec.numS * SmpcScale),
              sShares := st.sShares - {cycle},
              tSums := st.tSums - {cycle})
  }

  /** Walking the ids `lo .. hi-1` of `m` in ascending order sums column `c` of `vs`. */
  lemma {:induction false} ColumnTotalRange(m: map<ClientId, seq<I64>>, vs: seq<seq<int>>, len: nat, c: nat, lo: nat, hi: nat)
    requires c < len && lo <= hi && |vs| == hi - lo
    requires AllLength(vs, len)
    requires forall k :: k in m <==> lo <= k < hi
    requires forall i :: 0 <= i < |vs| ==> m[lo + i] == vs[i]
    ensures ColumnTotal(m, len, c) == Sum(Column(vs, c))
    decreases hi - lo
  {
    if lo < hi {
      assert lo in m;
      assert MinKey(m.Keys) == lo;
      assert m[lo] == vs[0];
      ColumnTotalRange(m - {lo}, vs[1..], len, c, lo + 1, hi);
      assert Column(vs, c)[1..] == Column(vs[1..], c);
    } else {
      assert m == map[];
    }
  }

  /** The ids `0 .. n-1` form a set of `n` elements. */
  lemma RangeSize(ks: set<ClientId>, n: nat)
    requires forall k :: k in ks <==> 0 <= k < n
    ensures |ks| == n
  {
    SortedRange(ks, 0, n);
  }

  /**
   Coordinate `c` of the vectors of length `len`, in the order `ks` walks the
   map: the values the source adds into `sum_s[c]` (or `sum_t[c]`) one by one.
   */
  function ColumnEntries(m: map<ClientId, seq<I64>>, len: nat, c: nat, ks: seq<ClientId>): (r: seq<I64>)
    requires c < len
    requires forall k :: k in ks ==> k in m
    ensures |r| <= |ks|
    decreases |ks|
  {
    if ks == [] then []
    else (if |m[ks[0]]| == len then [m[ks[0]][c]] else []) + ColumnEntries(m, len, c, ks[1..])
  }

  /** The walk reads only the entries of the clients it visits. */
  lemma {:induction false} EntriesFrame(m1: map<ClientId, seq<I64>>, m2: map<ClientId, seq<I64>>, len: nat, c: nat, ks: seq<ClientId>)
    requires c < len
    requires forall k :: k in ks ==> k in m1 && k in m2 && m1[k] == m2[k]
    ensures ColumnEntries(m1, len, c, ks) == ColumnEntries(m2, len, c, ks)
    decreases |ks|
  {
    if ks != [] {
      EntriesFrame(m1, m2, len, c, ks[1..]);
    }
  }

  lemma DistinctTail(ks: seq<ClientId>)
    requires Distinct(ks) && ks != []
    ensures Distinct(ks[1..]) && ks[0] !in ks[1..]
  {
    forall i, j | 0 <= i < j < |ks[1..]|
      ensures ks[1..][i] != ks[1..][j]
    {
      assert ks[1..][i] == ks[i + 1] && ks[1..][j] == ks[j + 1];
    }
    forall i | 0 <= i < |ks[1..]|
      ensures ks[1..][i] != ks[0]
    {
      assert ks[1..][i] == ks[i + 1];
    }
  }

  /** Taking one client out of the map uncounts it exactly when its vector has the length. */
  lemma IncludedRemove(m: map<ClientId, seq<I64>>, len: nat, k: ClientId)
    requires k in m
    ensures |Included(m, len)| == |Included(m - {k}, len)| + (if |m[k]| == len then 1 else 0)
  {
    if |m[k]| == len {
      assert Included(m, len) == Included(m - {k}, len) + {k};
    } else {
      assert Included(m, len) == Included(m - {k}, len);
    }
  }

  /**
   A walk that visits every client of the map exactly once adds up, in exact
   arithmetic, to `ColumnTotal`, and adds one entry per counted client.
   */
  lemma {:induction false} WalkSum(m: map<ClientId, seq<I64>>, len: nat, c: nat, ks: seq<ClientId>)
    requires c < len && Distinct(ks)
    requires forall k :: k in m <==> k in ks
    ensures Sum(ColumnEntries(m, len, c, ks)) == ColumnTotal(m, len, c)
    ensures |ColumnEntries(m, len, c, ks)| == |Included(m, len)|
    decreases |ks|
  {
    if ks == [] {
      assert m.Keys == {};
      assert Included(m, len) == {};
    } else {
      var k := ks[0];
      var rest := m - {k};
      DistinctTail(ks);
      assert forall j :: j in rest <==> j in ks[1..] by {
        assert ks == [k] + ks[1..];
      }
      ColumnTotalRemove(m, len, c, k);
      IncludedRemove(m, len, k);
      EntriesFrame(m, rest, len, c, ks[1..]);
      WalkSum(rest, len, c, ks[1..]);
      var tail := ColumnEntries(m, len, c, ks[1..]);
      if |m[k]| == len {
        assert ColumnEntries(m, len, c, ks) == [m[k][c]] + tail;
        assert ([m[k][c]] + tail)[1..] == tail;
      } else {
        assert ColumnEntries(m, len, c, ks) == tail;
      }
    }
  }

  /** Every entry the walk adds is one of the bounded entries of a counted vector. */
  lemma {:induction false} EntriesBounded(m: map<ClientId, seq<I64>>, len: nat, c: nat, ks: seq<ClientId>, bound: nat)
    requires c < len && forall k :: k in ks ==> k in m
    requires forall k :: k in m && |m[k]| == len ==> -(bound as int) <= m[k][c] <= bound
    ensures forall i :: 0 <= i < |ColumnEntries(m, len, c, ks)| ==>
      -(bound as int) <= ColumnEntries(m, len, c, ks)[i] <= bound
    decreases |ks|
  {
    if ks != [] {
      EntriesBounded(m, len, c, ks[1..], bound);
    }
  }

  /**
   The source's i64 accumulator agrees with the exact sum the model uses:
   whatever order the map is walked in, coordinate `c` of `sum_s` (or
   `sum_t`) is `ColumnTotal` as long as every summed entry is at most `bound`
   in magnitude and the number of summed vectors times `bound` fits in i64.
   */
  lemma WrappedWalkExact(m: map<ClientId, seq<I64>>, len: nat, c: nat, ks: seq<ClientId>, bound: nat)
    requires c < len && Distinct(ks)
    requires forall k :: k in m <==> k in ks
    requires forall k :: k in m && |m[k]| == len ==> -(bound as int) <= m[k][c] <= bound
    requires |Included(m, len)| * bound <= MaxI64
    ensures Overflow.WrappingSum(ColumnEntries(m, len, c, ks)) == ColumnTotal(m, len, c)
  {
    WalkSum(m, len, c, ks);
    EntriesBounded(m, len, c, ks, bound);
    Overflow.BoundedAccumulationExact(ColumnEntries(m, len, c, ks), bound);
  }

  /**
   A map keyed exactly by `0 .. n-1` with the length-`len` vectors `v` as
   values sums to the coordinate sums of `v`, and counts every client.
   */
  lemma RangeMap(m: map<ClientId, seq<I64>>, v: seq<seq<int>>, n: nat, len: nat)
    requires |v| == n && AllLength(v, len)
    requires forall k :: k in m <==> 0 <= k < n
    requires forall i :: 0 <= i < n ==> m[i] == v[i]
    ensures Totals(m, len) == VecSum(v, len)
    ensures |Included(m, len)| == n
  {
    forall c | 0 <= c < len
      ensures Totals(m, len)[c] == VecSum(v, len)[c]
    {
      ColumnTotalRange(m, v, len, c, 0, n);
    }
    assert Included(m, len) == m.Keys;
    RangeSize(m.Keys, n);
  }

  /**
   When the `n` registered clients `0 .. n-1` all submitted length-`len`
   shares and mask sums formed by the masking protocol from true vectors `g`,
   the aggregation's numerators are exactly `sum g` and its divisor is
   `n * 1e6`: the masks cancel and every client is counted.
   */
  lemma SmpcRecoversTrueSum(st: State, g: seq<seq<int>>, r: seq<seq<seq<int>>>, s: seq<seq<int>>, t: seq<seq<int>>, n: nat, len: nat)
    requires Masking.Masked(g, r, s, t, n, len) && n >= 1
    requires forall k :: k in CycleMap(st.sShares, st.currentCycle) <==> 0 <= k < n
    requires forall k :: k in CycleMap(st.tSums, st.currentCycle) <==> 0 <= k < n
    requires forall i :: 0 <= i < n ==> CycleMap(st.sShares, st.currentCycle)[i] == s[i]
    requires forall i :: 0 <= i < n ==> CycleMap(st.tSums, st.currentCycle)[i] == t[i]
    ensures RunSmpcAggregation(st).globalModel == SmpcMean(VecSum(g, len), n * SmpcScale)
  {
    Masking.MaskCancellation(g, r, s, t, n, len);
    var sMap := CycleMap(st.sShares, st.currentCycle);
    var tMap := CycleMap(st.tSums, st.currentCycle);
    assert 0 in sMap && 0 in tMap;
    assert MinKey(sMap.Keys) == 0;
    assert |sMap[0]| == len;
    RangeMap(sMap, s, n, len);
    RangeMap(tMap, t, n, len);
    var res := RunSmpcAggregation(st).globalModel;
    assert res.numerators == Add(Totals(sMap, len), Totals(tMap, len));
  }
}
