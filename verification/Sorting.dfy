/** Sorting a sequence by an integer key, with the permutation it applies. */
module Sorting {

  ghost predicate SortedBy<T>(s: seq<T>, key: T -> int) {
    forall i, j | 0 <= i < j < |s| :: key(s[i]) <= key(s[j])
  }

  /** perm lists every index below n exactly once. */
  ghost predicate IsPerm(perm: seq<nat>, n: nat) {
    && |perm| == n
    && (forall k | 0 <= k < n :: perm[k] < n)
    && (forall k, l | 0 <= k < l < n :: perm[k] != perm[l])
    && (forall i: nat | i < n :: i in perm)
  }

  /** ys lists the elements of xs in the order perm. */
  ghost predicate Permuted<T>(xs: seq<T>, ys: seq<T>, perm: seq<nat>) {
    && IsPerm(perm, |xs|) && |ys| == |xs|
    && forall k | 0 <= k < |ys| :: ys[k] == xs[perm[k]]
  }

  method InsertionSort<T>(xs: seq<T>, key: T -> int) returns (r: seq<T>, ghost perm: seq<nat>)
    ensures Permuted(xs, r, perm) && SortedBy(r, key)
  {
    r, perm := [], [];
    for i := 0 to |xs|
      invariant |r| == i && Permuted(xs[..i], r, perm) && SortedBy(r, key)
    {
      hide Permuted, SortedBy;
      var p := i;
      while p > 0 && key(xs[i]) < key(r[p - 1])
        invariant 0 <= p <= i && forall k | p <= k < i :: key(xs[i]) < key(r[k])
      {
        p := p - 1;
      }
      InsertSorted(r, xs[i], p, key);
      InsertPermuted(xs, i, r, perm, p);
      r, perm := r[..p] + [xs[i]] + r[p..], perm[..p] + [i] + perm[p..];
    }
    assert xs[..|xs|] == xs;
  }

  lemma InsertSorted<T>(r: seq<T>, x: T, p: nat, key: T -> int)
    requires p <= |r| && SortedBy(r, key) && (p > 0 ==> key(r[p - 1]) <= key(x))
    requires forall k | p <= k < |r| :: key(x) < key(r[k])
    ensures SortedBy(r[..p] + [x] + r[p..], key)
  {
    var q := r[..p] + [x] + r[p..];
    forall i, j | 0 <= i < j < |q|
      ensures key(q[i]) <= key(q[j])
    {
      InsertedAt(r, x, p, i);
      InsertedAt(r, x, p, j);
      if j == p {
        assert i < p - 1 ==> key(r[i]) <= key(r[p - 1]);
      } else if i < p < j {
        assert i < j - 1 ==> key(r[i]) <= key(r[j - 1]);
      }
    }
  }

  lemma InsertedAt<T>(r: seq<T>, x: T, p: nat, i: nat)
    requires p <= |r| && i <= |r|
    ensures (r[..p] + [x] + r[p..])[i] == if i < p then r[i] else if i == p then x else r[i - 1]
  {
  }

  lemma InsertPermuted<T>(xs: seq<T>, i: nat, ys: seq<T>, perm: seq<nat>, p: nat)
    requires i < |xs| && Permuted(xs[..i], ys, perm) && p <= i
    ensures Permuted(xs[..i + 1], ys[..p] + [xs[i]] + ys[p..], perm[..p] + [i] + perm[p..])
  {
    InsertPerm(i, perm, p);
    hide IsPerm;
    var ys', perm' := ys[..p] + [xs[i]] + ys[p..], perm[..p] + [i] + perm[p..];
    assert |perm'| == |ys'| == i + 1 by { assert |perm| == i; }
    forall k | 0 <= k < |ys'|
      ensures perm'[k] < i + 1 && ys'[k] == xs[..i + 1][perm'[k]]
    {
      if k < p {
        assert ys[k] == xs[..i][perm[k]];
      } else if k > p {
        assert ys[k - 1] == xs[..i][perm[k - 1]];
      }
    }
  }

  lemma InsertPerm(i: nat, perm: seq<nat>, p: nat)
    requires IsPerm(perm, i) && p <= i
    ensures IsPerm(perm[..p] + [i] + perm[p..], i + 1)
  {
    var perm' := perm[..p] + [i] + perm[p..];
    forall j: nat | j < i + 1
      ensures j in perm'
    {
      if j < i {
        assert j in perm;
        var k :| 0 <= k < |perm| && perm[k] == j;
        assert perm'[if k < p then k else k + 1] == j;
      } else {
        assert perm'[p] == i;
      }
    }
  }

  /** A permuted sequence has the same elements, as often. */
  lemma {:induction false} PermutedMultiset<T>(xs: seq<T>, ys: seq<T>, perm: seq<nat>)
    requires Permuted(xs, ys, perm)
    ensures multiset(ys) == multiset(xs)
    decreases |xs|
  {
    hide Permuted;
    PermutedLength(xs, ys, perm);
    if xs != [] {
      var n := |xs| - 1;
      var k := LastPlace(xs, ys, perm);
      var ys' := ys[..k] + ys[k + 1..];
      PermutedMultiset(xs[..n], ys', perm[..k] + perm[k + 1..]);
      assert ys == ys[..k] + [ys[k]] + ys[k + 1..] && xs == xs[..n] + [xs[n]];
    }
  }

  lemma PermutedLength<T>(xs: seq<T>, ys: seq<T>, perm: seq<nat>)
    requires Permuted(xs, ys, perm)
    ensures |ys| == |xs| == |perm|
  {
  }

  /** Where the last element went; without it the rest is permuted too. */
  lemma LastPlace<T>(xs: seq<T>, ys: seq<T>, perm: seq<nat>) returns (k: nat)
    requires Permuted(xs, ys, perm) && xs != []
    ensures k < |ys| == |xs| == |perm| && ys[k] == xs[|xs| - 1]
    ensures Permuted(xs[..|xs| - 1], ys[..k] + ys[k + 1..], perm[..k] + perm[k + 1..])
  {
    var n := |xs| - 1;
    assert n in perm;
    k :| 0 <= k < |perm| && perm[k] == n;
    RemovePerm(perm, n, k);
    hide IsPerm;
    RemovedFrom(xs, ys, perm, k);
  }

  lemma RemovePerm(perm: seq<nat>, n: nat, k: nat)
    requires IsPerm(perm, n + 1) && k <= n && perm[k] == n
    ensures IsPerm(perm[..k] + perm[k + 1..], n)
  {
    var perm' := perm[..k] + perm[k + 1..];
    assert forall j | 0 <= j < n :: perm'[j] == perm[if j < k then j else j + 1];
    forall j | 0 <= j < n
      ensures perm'[j] < n
    {
      var j' := if j < k then j else j + 1;
      assert perm[j'] != perm[k];
    }
    forall i: nat | i < n
      ensures i in perm'
    {
      assert i in perm;
      var j :| 0 <= j < |perm| && perm[j] == i;
      assert perm'[if j < k then j else j - 1] == i;
    }
  }

  lemma RemovedFrom<T>(xs: seq<T>, ys: seq<T>, perm: seq<nat>, k: nat)
    requires Permuted(xs, ys, perm) && |xs| > 0 && k < |perm| && perm[k] == |xs| - 1
    requires IsPerm(perm[..k] + perm[k + 1..], |xs| - 1)
    ensures Permuted(xs[..|xs| - 1], ys[..k] + ys[k + 1..], perm[..k] + perm[k + 1..])
  {
    var n := |xs| - 1;
    var ys', perm' := ys[..k] + ys[k + 1..], perm[..k] + perm[k + 1..];
    forall j | 0 <= j < n
      ensures ys'[j] == xs[..n][perm'[j]]
    {
      var j' := if j < k then j else j + 1;
      assert ys'[j] == ys[j'] && perm'[j] == perm[j'];
    }
  }
}
