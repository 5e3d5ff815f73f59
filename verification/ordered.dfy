/**
 A deterministic iteration order for the canister's hash maps: ascending
 client id. The canister iterates `HashMap`s in an unspecified order; the
 model fixes this one.
 */
module Ordered {
  import opened Types

  ghost predicate Increasing(s: seq<nat>) {
    forall i, j :: 0 <= i < j < |s| ==> s[i] < s[j]
  }

  /** A least element of a non-empty set, found by removing one element at a time. */
  lemma {:induction false} Least(ks: set<nat>) returns (m: nat)
    requires ks != {}
    ensures m in ks
    ensures forall k :: k in ks ==> m <= k
    decreases |ks|
  {
    var x :| x in ks;
    var rest := ks - {x};
    if rest == {} {
      m := x;
      forall k | k in ks
        ensures m <= k
      {
        assert k !in rest;
      }
    } else {
      var r := Least(rest);
      m := if x < r then x else r;
      forall k | k in ks
        ensures m <= k
      {
        if k != x {
          assert k in rest;
        }
      }
    }
  }

  lemma MinExists(ks: set<nat>)
    requires ks != {}
    ensures exists m :: m in ks && forall k :: k in ks ==> m <= k
  {
    var m := Least(ks);
  }

  /** The least element of a non-empty set of ids. */
  function MinKey(ks: set<nat>): (m: nat)
    requires ks != {}
    ensures m in ks
    ensures forall k :: k in ks ==> m <= k
  {
    MinExists(ks);
    var m :| m in ks && forall k :: k in ks ==> m <= k;
    m
  }

  /** The elements of `ks` in ascending order. */
  function SortedKeys(ks: set<nat>): (r: seq<nat>)
    ensures |r| == |ks|
    ensures forall k :: k in r <==> k in ks
    ensures Increasing(r)
    decreases |ks|
  {
    if ks == {} then []
    else
      var m := MinKey(ks);
      var rest := SortedKeys(ks - {m});
      PrependLeast(m, rest);
      [m] + rest
  }

  /** Putting an element below all of an increasing sequence in front keeps it increasing. */
  lemma PrependLeast(m: nat, rest: seq<nat>)
    requires Increasing(rest)
    requires forall k :: k in rest ==> m < k
    ensures Increasing([m] + rest)
  {
    var r := [m] + rest;
    forall i, j | 0 <= i < j < |r|
      ensures r[i] < r[j]
    {
      assert r[j] == rest[j - 1];
      if i > 0 {
        assert r[i] == rest[i - 1];
      } else {
        assert rest[j - 1] in rest;
      }
    }
  }

  /** Ascending order of a contiguous range `lo .. hi-1`. */
  lemma {:induction false} SortedRange(ks: set<nat>, lo: nat, hi: nat)
    requires lo <= hi
    requires forall k :: k in ks <==> lo <= k < hi
    ensures |SortedKeys(ks)| == hi - lo
    ensures forall i :: 0 <= i < hi - lo ==> SortedKeys(ks)[i] == lo + i
    decreases hi - lo
  {
    if lo < hi {
      assert lo in ks;
      assert MinKey(ks) == lo;
      var rest := ks - {lo};
      SortedRange(rest, lo + 1, hi);
      var r := SortedKeys(ks);
      assert r == [lo] + SortedKeys(rest);
      forall i | 0 <= i < hi - lo
        ensures r[i] == lo + i
      {
        if i > 0 {
          assert r[i] == SortedKeys(rest)[i - 1];
        }
      }
    } else {
      assert ks == {};
    }
  }
}
