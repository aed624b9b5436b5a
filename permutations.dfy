/**
  Shuffles as explicit permutations.

  `dataset.shuffle` and `tf.random.shuffle` in train.py reorder a sequence
  uniformly at random. The model does not draw random numbers: the shuffle is
  an argument `perm`, a permutation of the positions `[0, n)`, and the shuffled
  sequence is `Apply(s, perm)`, whose i-th element is `s[perm[i]]`.
 */
module Permutations {

  /** The positions `[0, 1, ..., n-1]`, i.e. `tf.range(n)`. */
  function Range(n: nat): (r: seq<nat>)
    ensures |r| == n
    ensures forall i :: 0 <= i < n ==> r[i] == i
  {
    seq(n, i => i)
  }

  /** No element occurs twice. */
  predicate Distinct<T(==)>(s: seq<T>) {
    forall i, j :: 0 <= i < j < |s| ==> s[i] != s[j]
  }

  /** `perm` lists every position of `[0, n)` exactly once, in some order. */
  predicate Permutes(perm: seq<nat>, n: nat) {
    multiset(perm) == multiset(Range(n))
  }

  /** Every position `perm` names is a valid index into `s`. */
  predicate InBounds<T>(s: seq<T>, perm: seq<nat>) {
    forall i :: 0 <= i < |perm| ==> perm[i] < |s|
  }

  /** The sequence `s` reordered (or gathered) by the positions in `perm`. */
  function Apply<T>(s: seq<T>, perm: seq<nat>): (r: seq<T>)
    requires InBounds(s, perm)
    ensures |r| == |perm|
    ensures forall i :: 0 <= i < |perm| ==> r[i] == s[perm[i]]
  {
    seq(|perm|, i requires 0 <= i < |perm| => s[perm[i]])
  }

  /** A distinct sequence holds each value at most once. */
  lemma {:induction false} DistinctCount<T>(s: seq<T>, x: T)
    requires Distinct(s)
    ensures multiset(s)[x] <= 1
    ensures x in s ==> multiset(s)[x] == 1
  {
    if s != [] {
      assert s == [s[0]] + s[1..];
      assert Distinct(s[1..]);
      DistinctCount(s[1..], x);
      if s[0] == x {
        assert x !in s[1..];
      }
    }
  }

  /** A sequence in which every value occurs at most once is distinct. */
  lemma CountOneDistinct<T>(s: seq<T>)
    requires forall x :: multiset(s)[x] <= 1
    ensures Distinct(s)
  {
    forall i, j | 0 <= i < j < |s|
      ensures s[i] != s[j]
    {
      assert s == s[..j] + s[j..];
      assert s[i] in s[..j];
      assert s[j] in s[j..];
      assert multiset(s)[s[j]] == multiset(s[..j])[s[j]] + multiset(s[j..])[s[j]];
    }
  }

  /** A permutation of `[0, n)` has length n, stays in range and repeats nothing. */
  lemma PermutesBounds(perm: seq<nat>, n: nat)
    requires Permutes(perm, n)
    ensures |perm| == n
    ensures forall i :: 0 <= i < |perm| ==> perm[i] < n
    ensures Distinct(perm)
  {
    assert |multiset(perm)| == |perm|;
    assert |multiset(Range(n))| == n;
    forall i | 0 <= i < |perm|
      ensures perm[i] < n
    {
      assert perm[i] in multiset(perm);
      assert perm[i] in Range(n);
    }
    forall x: nat
      ensures multiset(perm)[x] <= 1
    {
      DistinctCount(Range(n), x);
    }
    CountOneDistinct(perm);
  }

  /** Gathering distributes over concatenation of position lists. */
  lemma ApplyConcat<T>(s: seq<T>, a: seq<nat>, b: seq<nat>)
    requires InBounds(s, a) && InBounds(s, b)
    ensures InBounds(s, a + b)
    ensures Apply(s, a + b) == Apply(s, a) + Apply(s, b)
  {
  }

  /** Gathering from a distinct sequence takes its element at position j exactly
      as often as the position list names j. */
  lemma {:induction false} GatherCount<T>(s: seq<T>, idx: seq<nat>, j: nat)
    requires Distinct(s) && j < |s| && InBounds(s, idx)
    ensures multiset(Apply(s, idx))[s[j]] == multiset(idx)[j]
  {
    if idx != [] {
      var n := |idx| - 1;
      var front := idx[..n];
      GatherCount(s, front, j);
      assert idx == front + [idx[n]];
      assert Apply(s, idx) == Apply(s, front) + [s[idx[n]]];
      assert s[idx[n]] == s[j] <==> idx[n] == j;
    }
  }

  /** Removing position i of a sequence removes one occurrence of its element. */
  lemma RemoveAt<T>(ys: seq<T>, i: nat)
    requires i < |ys|
    ensures multiset(ys) == multiset(ys[..i] + ys[i + 1..]) + multiset{ys[i]}
  {
    assert ys == ys[..i] + [ys[i]] + ys[i + 1..];
  }

  /** Gathering by a position list with position i removed is gathering and then removing element i. */
  lemma ApplyRemoveAt<T>(s: seq<T>, ys: seq<nat>, i: nat)
    requires InBounds(s, ys)
    requires i < |ys|
    ensures InBounds(s, ys[..i] + ys[i + 1..])
    ensures Apply(s, ys[..i] + ys[i + 1..]) == Apply(s, ys)[..i] + Apply(s, ys)[i + 1..]
  {
  }

  /** Adding the same element to two multisets can be undone. */
  lemma Cancel<T>(m: multiset<T>, n: multiset<T>, x: T)
    requires m + multiset{x} == n + multiset{x}
    ensures m == n
  {
    assert m == (m + multiset{x}) - multiset{x};
    assert n == (n + multiset{x}) - multiset{x};
  }

  /** Gathering by a position list with position i removed loses one copy of `s[ys[i]]`. */
  lemma ApplyRemoveCount<T>(s: seq<T>, ys: seq<nat>, i: nat)
    requires InBounds(s, ys)
    requires i < |ys|
    ensures InBounds(s, ys[..i] + ys[i + 1..])
    ensures multiset(Apply(s, ys)) == multiset(Apply(s, ys[..i] + ys[i + 1..])) + multiset{s[ys[i]]}
  {
    var b := Apply(s, ys);
    ApplyRemoveAt(s, ys, i);
    RemoveAt(b, i);
  }

  /** Removing the same value from two lists with equal multisets keeps them equal. */
  lemma RemoveSame(xs: seq<nat>, ys: seq<nat>, i: nat)
    requires multiset(xs) == multiset(ys)
    requires 0 < |xs| && i < |ys| && ys[i] == xs[0]
    ensures multiset(xs[1..]) == multiset(ys[..i] + ys[i + 1..])
  {
    RemoveAt(ys, i);
    RemoveAt(xs, 0);
    assert xs[..0] + xs[1..] == xs[1..];
    Cancel(multiset(xs[1..]), multiset(ys[..i] + ys[i + 1..]), xs[0]);
  }

  /** Position lists with equal multisets gather equal multisets. */
  lemma {:induction false} ApplySameMultiset<T>(s: seq<T>, xs: seq<nat>, ys: seq<nat>)
    requires InBounds(s, xs) && InBounds(s, ys)
    requires multiset(xs) == multiset(ys)
    ensures multiset(Apply(s, xs)) == multiset(Apply(s, ys))
    decreases |xs|
  {
    if xs == [] {
      assert |ys| == |multiset(ys)| == 0;
    } else {
      assert xs[0] in multiset(ys);
      var i :| 0 <= i < |ys| && ys[i] == xs[0];
      RemoveSame(xs, ys, i);
      ApplyRemoveCount(s, xs, 0);
      ApplyRemoveCount(s, ys, i);
      assert xs[..0] + xs[1..] == xs[1..];
      ApplySameMultiset(s, xs[1..], ys[..i] + ys[i + 1..]);
    }
  }

  /** Shuffling by a permutation keeps the multiset of elements: it neither loses nor invents any. */
  lemma ApplyPermutes<T>(s: seq<T>, perm: seq<nat>)
    requires Permutes(perm, |s|)
    ensures InBounds(s, perm)
    ensures |Apply(s, perm)| == |s|
    ensures multiset(Apply(s, perm)) == multiset(s)
  {
    PermutesBounds(perm, |s|);
    assert Apply(s, Range(|s|)) == s;
    ApplySameMultiset(s, perm, Range(|s|));
  }

  /** Shuffling a distinct sequence by a permutation gives a distinct sequence. */
  lemma ApplyDistinct<T>(s: seq<T>, perm: seq<nat>)
    requires Distinct(s)
    requires Permutes(perm, |s|)
    ensures InBounds(s, perm)
    ensures Distinct(Apply(s, perm))
  {
    PermutesBounds(perm, |s|);
  }
}
