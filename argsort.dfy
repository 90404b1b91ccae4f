/**
 * The index sequences numpy's `argsort` may return, and numpy's indexing of an
 * array by an index sequence (`a[idx]`).
 */
module Argsort {

  /** The indices 0, 1, ..., n - 1 in order. */
  function Range(n: nat): seq<nat>
  {
    seq(n, i requires 0 <= i < n => i)
  }

  /** Every entry of `p` is a valid index into a sequence of length `n`. */
  predicate InRange(p: seq<nat>, n: nat)
  {
    forall i :: 0 <= i < |p| ==> p[i] < n
  }

  /** `p` lists each of the indices 0 .. n - 1 exactly once. */
  predicate IsPermutation(p: seq<nat>, n: nat)
  {
    multiset(p) == multiset(Range(n))
  }

  /**
   * `p` is an index sequence `np.argsort(keys)` may return: each position of
   * `keys` once, listed in non-decreasing key order. Equal keys may come in
   * either order, since the default sort kind is not stable.
   */
  predicate IsArgsort(keys: seq<real>, p: seq<nat>)
  {
    && |p| == |keys|
    && InRange(p, |keys|)
    && IsPermutation(p, |keys|)
    && (forall i, j :: 0 <= i < j < |p| ==> keys[p[i]] <= keys[p[j]])
  }

  /** `s[p]`: the elements of `s` at the positions listed in `p`. */
  function Gather<T>(s: seq<T>, p: seq<nat>): (r: seq<T>)
    requires InRange(p, |s|)
    ensures |r| == |p|
  {
    seq(|p|, i requires 0 <= i < |p| => s[p[i]])
  }

  /** The key of every element, in order (a column of a point array). */
  function Project<T>(s: seq<T>, key: T -> real): (r: seq<real>)
    ensures |r| == |s|
    ensures forall i :: 0 <= i < |s| ==> r[i] == key(s[i])
  {
    seq(|s|, i requires 0 <= i < |s| => key(s[i]))
  }

  /** `s` is in non-decreasing order of `key`. */
  predicate SortedBy<T>(s: seq<T>, key: T -> real)
  {
    forall i, j :: 0 <= i < j < |s| ==> key(s[i]) <= key(s[j])
  }

  /** A permutation of 0 .. n - 1 has length n and only indices below n. */
  lemma PermutationInRange(p: seq<nat>, n: nat)
    requires IsPermutation(p, n)
    ensures |p| == n && InRange(p, n)
  {
    assert |p| == |multiset(p)| == |multiset(Range(n))| == n;
    forall i | 0 <= i < |p|
      ensures p[i] < n
    {
      assert p[i] in multiset(Range(n));
    }
  }

  /** Taking out the element at k takes one copy of it out of the multiset. */
  lemma RemoveAt<T>(p: seq<T>, k: nat)
    requires k < |p|
    ensures multiset(p[..k] + p[k + 1..]) + multiset{p[k]} == multiset(p)
  {
    assert p == p[..k] + [p[k]] + p[k + 1..];
  }

  /** The indices below n + 1 are those below n and n itself. */
  lemma RangeSnoc(n: nat)
    ensures multiset(Range(n + 1)) == multiset(Range(n)) + multiset{n}
  {
    assert Range(n + 1) == Range(n) + [n];
  }

  /** Adding the same elements to two multisets keeps them equal only if they were. */
  lemma MultisetCancel<T>(m: multiset<T>, n: multiset<T>, x: multiset<T>)
    requires m + x == n + x
    ensures m == n
  {
    assert forall o :: m[o] == (m + x)[o] - x[o];
    assert forall o :: n[o] == (n + x)[o] - x[o];
  }

  /** Dropping the index at k from p drops the element it selects from s[p]. */
  lemma GatherRemoveAt<T>(s: seq<T>, p: seq<nat>, k: nat)
    requires InRange(p, |s|) && k < |p|
    ensures InRange(p[..k] + p[k + 1..], |s|)
    ensures multiset(Gather(s, p[..k] + p[k + 1..])) + multiset{s[p[k]]} == multiset(Gather(s, p))
  {
    var g := Gather(s, p);
    assert Gather(s, p[..k] + p[k + 1..]) == g[..k] + g[k + 1..];
    RemoveAt(g, k);
  }

  /** Indexing a sequence by a permutation of its positions rearranges it: nothing is added, dropped or altered. */
  lemma {:induction false} GatherPermutation<T>(s: seq<T>, p: seq<nat>)
    requires IsPermutation(p, |s|)
    ensures InRange(p, |s|) && multiset(Gather(s, p)) == multiset(s)
    decreases |s|
  {
    PermutationInRange(p, |s|);
    if |s| > 0 {
      var n: nat := |s| - 1;
      RangeSnoc(n);
      assert n in multiset(p);
      var k :| 0 <= k < |p| && p[k] == n;
      var q := p[..k] + p[k + 1..];
      RemoveAt(p, k);
      MultisetCancel(multiset(q), multiset(Range(n)), multiset{n});
      GatherPermutation(s[..n], q);
      assert Gather(s[..n], q) == Gather(s, q);
      GatherRemoveAt(s, p, k);
      assert s == s[..n] + [s[n]];
    }
  }

  /** What the argsort indices produce: the same elements, in key order. */
  lemma ArgsortSorts<T>(s: seq<T>, key: T -> real, p: seq<nat>)
    requires IsArgsort(Project(s, key), p)
    ensures InRange(p, |s|)
    ensures multiset(Gather(s, p)) == multiset(s)
    ensures SortedBy(Gather(s, p), key)
  {
    GatherPermutation(s, p);
  }

  /** The first element of a rearrangement in key order has the least key. */
  lemma SameLeastKey<T>(a: seq<T>, b: seq<T>, key: T -> real)
    requires |a| > 0 && multiset(a) == multiset(b)
    requires SortedBy(a, key) && SortedBy(b, key)
    ensures |b| > 0 && key(a[0]) == key(b[0])
  {
    assert a[0] in multiset(b);
    var j :| 0 <= j < |b| && b[j] == a[0];
    assert b[0] in multiset(a);
    var i :| 0 <= i < |a| && a[i] == b[0];
    assert key(b[0]) <= key(a[0]) by {
      if j > 0 { assert key(b[0]) <= key(b[j]); }
    }
    assert key(a[0]) <= key(b[0]) by {
      if i > 0 { assert key(a[0]) <= key(a[i]); }
    }
  }

  /** Two sequences with the same head and the same multiset have tails with the same multiset. */
  lemma SameTail<T>(a: seq<T>, b: seq<T>)
    requires |a| > 0 && |b| > 0 && a[0] == b[0] && multiset(a) == multiset(b)
    ensures multiset(a[1..]) == multiset(b[1..])
  {
    HeadTail(a);
    HeadTail(b);
    MultisetCancel(multiset(a[1..]), multiset(b[1..]), multiset{a[0]});
  }

  /** A non-empty sequence holds its first element and the rest. */
  lemma HeadTail<T>(a: seq<T>)
    requires |a| > 0
    ensures multiset(a[1..]) + multiset{a[0]} == multiset(a)
  {
    assert a == [a[0]] + a[1..];
  }

  /**
   * Two rearrangements of the same elements, both in key order, are equal when
   * no two different elements share a key: the order is then forced.
   */
  lemma {:induction false} SortedPermutationsEqual<T>(a: seq<T>, b: seq<T>, key: T -> real)
    requires multiset(a) == multiset(b)
    requires SortedBy(a, key) && SortedBy(b, key)
    requires forall x, y :: x in a && y in a && key(x) == key(y) ==> x == y
    ensures a == b
    decreases |a|
  {
    assert |a| == |multiset(a)| == |multiset(b)| == |b|;
    if |a| > 0 {
      SameHead(a, b, key);
      SortedPermutationsEqual(a[1..], b[1..], key);
      assert a == [a[0]] + a[1..];
      assert b == [b[0]] + b[1..];
    }
  }

  /**
   * Two rearrangements in key order of elements with distinct keys start
   * with the same element, and their tails are again such rearrangements.
   */
  lemma SameHead<T>(a: seq<T>, b: seq<T>, key: T -> real)
    requires |a| > 0 && multiset(a) == multiset(b)
    requires SortedBy(a, key) && SortedBy(b, key)
    requires forall x, y :: x in a && y in a && key(x) == key(y) ==> x == y
    ensures |b| > 0 && a[0] == b[0]
    ensures multiset(a[1..]) == multiset(b[1..])
    ensures SortedBy(a[1..], key) && SortedBy(b[1..], key)
    ensures forall x, y :: x in a[1..] && y in a[1..] && key(x) == key(y) ==> x == y
  {
    SameLeastKey(a, b, key);
    assert b[0] in multiset(a);
    assert a[0] == b[0];
    SameTail(a, b);
    SortedTail(a, key);
    SortedTail(b, key);
  }

  /** The tail of a sequence in key order is in key order, and holds only elements of the sequence. */
  lemma SortedTail<T>(a: seq<T>, key: T -> real)
    requires |a| > 0 && SortedBy(a, key)
    ensures SortedBy(a[1..], key)
    ensures forall x :: x in a[1..] ==> x in a
  {
  }

  /** Along `p` the keys never decrease. */
  predicate KeysSorted(keys: seq<real>, p: seq<nat>)
    requires InRange(p, |keys|)
  {
    forall a, b :: 0 <= a < b < |p| ==> keys[p[a]] <= keys[p[b]]
  }

  /**
   * Index `i` placed into `p` just before the first index whose key is
   * greater, so after every index with an equal key (a stable insertion).
   */
  function InsertByKey(keys: seq<real>, p: seq<nat>, i: nat): (r: seq<nat>)
    requires InRange(p, |keys|) && i < |keys|
    ensures InRange(r, |keys|)
  {
    if p == [] || keys[i] < keys[p[0]] then [i] + p
    else [p[0]] + InsertByKey(keys, p[1..], i)
  }

  /** Inserting adds `i` and keeps every other index. */
  lemma {:induction false} InsertByKeyElements(keys: seq<real>, p: seq<nat>, i: nat)
    requires InRange(p, |keys|) && i < |keys|
    ensures multiset(InsertByKey(keys, p, i)) == multiset(p) + multiset{i}
  {
    if !(p == [] || keys[i] < keys[p[0]]) {
      InsertByKeyElements(keys, p[1..], i);
      assert p == [p[0]] + p[1..];
    }
  }

  /** Inserting by key into a sorted index sequence keeps it sorted. */
  lemma {:induction false} InsertByKeySorted(keys: seq<real>, p: seq<nat>, i: nat)
    requires InRange(p, |keys|) && i < |keys| && KeysSorted(keys, p)
    ensures KeysSorted(keys, InsertByKey(keys, p, i))
  {
    var r := InsertByKey(keys, p, i);
    if p == [] || keys[i] < keys[p[0]] {
      assert r == [i] + p;
    } else {
      var r' := InsertByKey(keys, p[1..], i);
      InsertByKeySorted(keys, p[1..], i);
      InsertByKeyElements(keys, p[1..], i);
      assert r == [p[0]] + r';
      forall b | 0 <= b < |r'|
        ensures keys[p[0]] <= keys[r'[b]]
      {
        assert r'[b] in multiset(p[1..]) + multiset{i};
        if r'[b] != i {
          var k :| 0 <= k < |p[1..]| && p[1..][k] == r'[b];
          assert p[1..][k] == p[k + 1];
        }
      }
    }
  }

  /** An argsort of the first `n` keys, ties kept in index order. */
  function StableArgsort(keys: seq<real>, n: nat): (r: seq<nat>)
    requires n <= |keys|
    ensures InRange(r, |keys|)
  {
    if n == 0 then [] else InsertByKey(keys, StableArgsort(keys, n - 1), n - 1)
  }

  /** The stable argsort of the first `n` keys lists each of 0 .. n - 1 once. */
  lemma {:induction false} StableArgsortPermutation(keys: seq<real>, n: nat)
    requires n <= |keys|
    ensures IsPermutation(StableArgsort(keys, n), n)
  {
    if n > 0 {
      var m: nat := n - 1;
      var prev := StableArgsort(keys, m);
      StableArgsortPermutation(keys, m);
      InsertByKeyElements(keys, prev, m);
      RangeSnoc(m);
      calc {
        multiset(StableArgsort(keys, n));
        multiset(InsertByKey(keys, prev, m));
        multiset(prev) + multiset{m};
        multiset(Range(m)) + multiset{m};
        multiset(Range(n));
      }
    }
  }

  /** Along the stable argsort the keys never decrease. */
  lemma {:induction false} StableArgsortSorted(keys: seq<real>, n: nat)
    requires n <= |keys|
    ensures KeysSorted(keys, StableArgsort(keys, n))
  {
    if n > 0 {
      StableArgsortSorted(keys, n - 1);
      InsertByKeySorted(keys, StableArgsort(keys, n - 1), n - 1);
    }
  }

  /** The stable argsort is one of the index sequences `np.argsort` may return. */
  lemma StableArgsortIsArgsort(keys: seq<real>)
    ensures IsArgsort(keys, StableArgsort(keys, |keys|))
  {
    StableArgsortSorted(keys, |keys|);
    StableArgsortPermutation(keys, |keys|);
    PermutationInRange(StableArgsort(keys, |keys|), |keys|);
  }
}
