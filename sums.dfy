/** Sums over the rows of a table, as SQL `SUM` computes them: each row
 *  contributes a share (zero for rows the `WHERE` clause drops). */
module Sums {

  function Sum<T>(s: seq<T>, share: T -> int): int
    decreases |s|
  {
    if s == [] then 0 else Sum(s[..|s| - 1], share) + share(s[|s| - 1])
  }

  lemma SumAppend<T>(s: seq<T>, x: T, share: T -> int)
    ensures Sum(s + [x], share) == Sum(s, share) + share(x)
  {
    assert (s + [x])[..|s|] == s;
  }

  /** Replacing one row changes the sum by the difference of its shares. */
  lemma {:induction false} SumUpdate<T>(s: seq<T>, k: nat, x: T, share: T -> int)
    requires k < |s|
    ensures Sum(s[k := x], share) == Sum(s, share) - share(s[k]) + share(x)
    decreases |s|
  {
    var n := |s| - 1;
    if k < n {
      assert s[k := x][..n] == s[..n][k := x];
      SumUpdate(s[..n], k, x, share);
    } else {
      assert s[k := x][..n] == s[..n];
    }
  }

  /** Rows whose share is the sum of two other shares sum to the sum of the
   *  two sums. */
  lemma {:induction false} SumAdd<T>(s: seq<T>, f: T -> int, g: T -> int, h: T -> int)
    requires forall i :: 0 <= i < |s| ==> f(s[i]) == g(s[i]) + h(s[i])
    ensures Sum(s, f) == Sum(s, g) + Sum(s, h)
    decreases |s|
  {
    if s != [] {
      SumAdd(s[..|s| - 1], f, g, h);
    }
  }

  /** A sum in which every share is zero is zero. */
  lemma {:induction false} SumZero<T>(s: seq<T>, share: T -> int)
    requires forall i :: 0 <= i < |s| ==> share(s[i]) == 0
    ensures Sum(s, share) == 0
    decreases |s|
  {
    if s != [] {
      SumZero(s[..|s| - 1], share);
    }
  }

  /** A sum in which only row `k` has a share is that share. */
  lemma {:induction false} SumSingle<T>(s: seq<T>, k: nat, share: T -> int)
    requires k < |s|
    requires forall i :: 0 <= i < |s| && i != k ==> share(s[i]) == 0
    ensures Sum(s, share) == share(s[k])
    decreases |s|
  {
    var n := |s| - 1;
    if k < n {
      SumSingle(s[..n], k, share);
    } else {
      SumZero(s[..n], share);
    }
  }

  /** Sums of non-negative shares are non-negative. */
  lemma {:induction false} SumNonNegative<T>(s: seq<T>, share: T -> int)
    requires forall i :: 0 <= i < |s| ==> share(s[i]) >= 0
    ensures Sum(s, share) >= 0
    decreases |s|
  {
    if s != [] {
      SumNonNegative(s[..|s| - 1], share);
    }
  }

  /** The rows a `WHERE` clause keeps, in table order. */
  function Filter<T>(s: seq<T>, keep: T -> bool): (r: seq<T>)
    ensures |r| <= |s|
    ensures forall i :: 0 <= i < |r| ==> keep(r[i]) && r[i] in s
    ensures forall i :: 0 <= i < |s| && keep(s[i]) ==> s[i] in r
    decreases |s|
  {
    if s == [] then []
    else Filter(s[..|s| - 1], keep) + (if keep(s[|s| - 1]) then [s[|s| - 1]] else [])
  }

  /** Summing the kept rows is summing every row with the dropped rows'
   *  shares set to zero. */
  lemma {:induction false} SumFilter<T>(s: seq<T>, keep: T -> bool, share: T -> int, masked: T -> int)
    requires forall i :: 0 <= i < |s| ==> masked(s[i]) == if keep(s[i]) then share(s[i]) else 0
    ensures Sum(Filter(s, keep), share) == Sum(s, masked)
    decreases |s|
  {
    if s != [] {
      var n := |s| - 1;
      SumFilter(s[..n], keep, share, masked);
      assert Sum(s, masked) == Sum(s[..n], masked) + masked(s[n]);
      if keep(s[n]) {
        assert Filter(s, keep) == Filter(s[..n], keep) + [s[n]];
        SumAppend(Filter(s[..n], keep), s[n], share);
      } else {
        assert Filter(s, keep) == Filter(s[..n], keep);
      }
    }
  }

  /** Deleting rows whose share is zero leaves the sum unchanged. */
  lemma SumFilterZero<T>(s: seq<T>, keep: T -> bool, share: T -> int)
    requires forall i :: 0 <= i < |s| && !keep(s[i]) ==> share(s[i]) == 0
    ensures Sum(Filter(s, keep), share) == Sum(s, share)
  {
    SumFilter(s, keep, share, share);
  }

  /** Keeping by one condition and then another keeps by both. */
  lemma {:induction false} FilterFilter<T>(s: seq<T>, p: T -> bool, q: T -> bool, both: T -> bool)
    requires forall i :: 0 <= i < |s| ==> both(s[i]) == (p(s[i]) && q(s[i]))
    ensures Filter(Filter(s, p), q) == Filter(s, both)
    decreases |s|
  {
    if s != [] {
      var n := |s| - 1;
      FilterFilter(s[..n], p, q, both);
      var fp := Filter(s[..n], p);
      if p(s[n]) {
        assert Filter(s, p) == fp + [s[n]];
        assert (fp + [s[n]])[..|fp|] == fp;
        assert Filter(fp + [s[n]], q) == Filter(fp, q) + (if q(s[n]) then [s[n]] else []);
      } else {
        assert Filter(s, p) == fp;
      }
    }
  }

  /** Conditions that agree on every row keep the same rows. */
  lemma {:induction false} FilterSame<T>(s: seq<T>, p: T -> bool, q: T -> bool)
    requires forall i :: 0 <= i < |s| ==> p(s[i]) == q(s[i])
    ensures Filter(s, p) == Filter(s, q)
    decreases |s|
  {
    if s != [] {
      FilterSame(s[..|s| - 1], p, q);
    }
  }

  /** Keeping every row keeps the table. */
  lemma {:induction false} FilterAll<T>(s: seq<T>)
    ensures Filter(s, (x: T) => true) == s
    decreases |s|
  {
    if s != [] {
      FilterAll(s[..|s| - 1]);
    }
  }

  /** Shares that agree on every row give the same sum. */
  lemma SumSame<T>(s: seq<T>, f: T -> int, g: T -> int)
    requires forall i :: 0 <= i < |s| ==> f(s[i]) == g(s[i])
    ensures Sum(s, f) == Sum(s, g)
  {
    SumAdd(s, f, g, (x: T) => 0);
    SumZero(s, (x: T) => 0);
  }

  /** The kept rows and the dropped rows together are as many as the rows. */
  lemma {:induction false} FilterSplitLength<T>(s: seq<T>, keep: T -> bool, drop: T -> bool)
    requires forall i :: 0 <= i < |s| ==> drop(s[i]) == !keep(s[i])
    ensures |Filter(s, keep)| + |Filter(s, drop)| == |s|
    decreases |s|
  {
    if s != [] {
      FilterSplitLength(s[..|s| - 1], keep, drop);
    }
  }

  ghost predicate DistinctBy<T, K>(s: seq<T>, key: T -> K)
  {
    forall i, j :: 0 <= i < j < |s| ==> key(s[i]) != key(s[j])
  }

  /** Rows with pairwise different keys still have pairwise different keys
   *  after a `WHERE`. */
  lemma {:induction false} FilterKeepsKeysDistinct<T, K>(s: seq<T>, key: T -> K, keep: T -> bool)
    requires DistinctBy(s, key)
    ensures DistinctBy(Filter(s, keep), key)
    decreases |s|
  {
    if s != [] {
      var n := |s| - 1;
      FilterKeepsKeysDistinct(s[..n], key, keep);
      var r0 := Filter(s[..n], keep);
      forall i | 0 <= i < |r0| ensures key(r0[i]) != key(s[n]) {
        assert r0[i] in s[..n];
      }
      if keep(s[n]) {
        var r := r0 + [s[n]];
        assert Filter(s, keep) == r;
        forall i, j | 0 <= i < j < |r| ensures key(r[i]) != key(r[j]) {
          if j < |r0| {
            assert r[i] == r0[i] && r[j] == r0[j];
          }
        }
      } else {
        assert Filter(s, keep) == r0;
      }
    }
  }
}
