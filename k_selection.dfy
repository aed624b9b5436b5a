/**
  K-selection for one person identity (`sample_k_fids_for_pid`, train.py:156-172).

  An identity `pid` owns the `count` file names (fids) whose row in the dataset
  carries that pid. To pick K of them, the source pads the index range to
  `padded_count = ceil(K / count) * count`, so that every index `0 .. count-1`
  occurs equally often in `[0, padded_count) mod count`, shuffles those padded
  indices and keeps the first K. The shuffle is a permutation argument.
 */
module KSelection {
  import opened Permutations

  /** `ceil(k / count)` for a positive count, as integer division. */
  function CeilDiv(k: nat, count: nat): (q: nat)
    requires count >= 1
    ensures k <= q * count < k + count
  {
    var q := (k + count - 1) / count;
    DivBounds(k + count - 1, count);
    q
  }

  /** The quotient of integer division brackets its dividend. */
  lemma DivBounds(x: nat, d: nat)
    requires d >= 1
    ensures (x / d) * d <= x < (x / d) * d + d
  {
  }

  /** A non-zero integer multiple of `d` is at least `d` away from zero. */
  lemma MulAwayFromZero(x: int, d: int)
    requires d >= 1
    ensures x >= 1 ==> x * d >= d
    ensures x <= -1 ==> x * d <= -d
  {
  }

  /** Every `q` with `k <= q * count < k + count` is `CeilDiv(k, count)`. */
  lemma CeilDivUnique(k: nat, count: nat, q: nat)
    requires count >= 1
    requires k <= q * count < k + count
    ensures q == CeilDiv(k, count)
  {
    var c := CeilDiv(k, count);
    assert (q - c) * count == q * count - c * count;
    MulAwayFromZero(q - c, count);
  }

  /** `padded_count` of train.py:165. */
  function PaddedCount(count: nat, k: nat): (p: nat)
    requires count >= 1
    ensures p % count == 0 && p / count == CeilDiv(k, count)
    ensures k <= p < k + count
    ensures k >= 1 ==> p >= 1
    ensures 1 <= k <= count ==> p == count
  {
    var q := CeilDiv(k, count);
    MulDivMod(q, count);
    assert 1 <= k <= count ==> q == 1 by {
      if 1 <= k <= count {
        CeilDivUnique(k, count, 1);
      }
    }
    q * count
  }

  /** A multiple of `d` divides back exactly. */
  lemma MulDivMod(q: nat, d: nat)
    requires d >= 1
    ensures (q * d) % d == 0 && (q * d) / d == q
  {
    ModShift(q, d, 0);
  }

  /** Euclidean division is unique: `q * d + r` with `0 <= r < d` has quotient q and remainder r. */
  lemma ModShift(q: int, d: nat, r: nat)
    requires r < d
    ensures (q * d + r) % d == r && (q * d + r) / d == q
  {
    var x := q * d + r;
    var q', r' := x / d, x % d;
    assert x == q' * d + r';
    assert (q - q') * d == r' - r;
    MulAwayFromZero(q - q', d);
  }

  /** `full_range` of train.py:166: `[0, padded_count) mod count`. */
  function FullRange(count: nat, k: nat): (r: seq<nat>)
    requires count >= 1
    ensures |r| == PaddedCount(count, k)
  {
    Cycle(CeilDiv(k, count), count)
  }

  /** `[0, q * count) mod count`. */
  function Cycle(q: nat, count: nat): (r: seq<nat>)
    requires count >= 1
    ensures |r| == q * count
    ensures forall i :: 0 <= i < |r| ==> r[i] == i % count
  {
    seq(q * count, i => i % count)
  }

  /** `[0, (q+1) * count) mod count` is `[0, q * count) mod count` followed by `[0, count)`. */
  lemma CycleStep(q: nat, count: nat)
    requires count >= 1
    ensures Cycle(q + 1, count) == Cycle(q, count) + Range(count)
  {
    var a, b := Cycle(q + 1, count), Cycle(q, count) + Range(count);
    assert |a| == |b| by {
      assert (q + 1) * count == q * count + count;
    }
    forall i | 0 <= i < |a|
      ensures a[i] == b[i]
    {
      if i >= q * count {
        ModShift(q, count, i - q * count);
      }
    }
  }

  /** Each index below `count` appears exactly q times in `[0, q * count) mod count`,
      and no other value appears. */
  lemma {:induction false} CycleBalanced(q: nat, count: nat, j: nat)
    requires count >= 1
    ensures multiset(Cycle(q, count))[j] == if j < count then q else 0
  {
    if q == 0 {
      assert Cycle(0, count) == [];
    } else {
      CycleBalanced(q - 1, count, j);
      CycleStep(q - 1, count);
      DistinctCount(Range(count), j);
      if j < count {
        assert Range(count)[j] == j;
      }
    }
  }

  /** The padded pool is balanced: each index of `[0, count)` occurs exactly
      `padded_count / count` times in `full_range` (train.py:160-166). */
  lemma FullRangeBalanced(count: nat, k: nat, j: nat)
    requires count >= 1
    ensures multiset(FullRange(count, k))[j] == if j < count then PaddedCount(count, k) / count else 0
  {
    CycleBalanced(CeilDiv(k, count), count, j);
  }

  /** The K indices into `possible_fids` that `shuffled[:batch_k]` selects (train.py:169-170). */
  function SelectIndices(count: nat, k: nat, shuffle: seq<nat>): (idx: seq<nat>)
    requires count >= 1
    requires Permutes(shuffle, PaddedCount(count, k))
    ensures |idx| == k
    ensures forall i :: 0 <= i < k ==> idx[i] < count
  {
    var full := FullRange(count, k);
    ApplyPermutes(full, shuffle);
    var shuffled := Apply(full, shuffle);
    assert forall i :: 0 <= i < k ==> shuffled[i] < count by {
      forall i | 0 <= i < k
        ensures shuffled[i] < count
      {
        assert shuffled[i] in multiset(full);
        CycleBalanced(CeilDiv(k, count), count, shuffled[i]);
      }
    }
    shuffled[..k]
  }

  /** A prefix holds no more copies of a value than the whole sequence. */
  lemma PrefixCount<T>(s: seq<T>, k: nat, x: T)
    requires k <= |s|
    ensures multiset(s[..k])[x] <= multiset(s)[x]
  {
    assert s == s[..k] + s[k..];
  }

  /** No index is selected more than `ceil(K / count)` times (train.py:165-170). */
  lemma RepetitionBound(count: nat, k: nat, shuffle: seq<nat>, j: nat)
    requires count >= 1
    requires Permutes(shuffle, PaddedCount(count, k))
    ensures multiset(SelectIndices(count, k, shuffle))[j] <= CeilDiv(k, count)
  {
    var full := FullRange(count, k);
    ApplyPermutes(full, shuffle);
    var shuffled: seq<nat> := Apply(full, shuffle);
    assert SelectIndices(count, k, shuffle) == shuffled[..k];
    PrefixCount(shuffled, k, j);
    FullRangeBalanced(count, k, j);
  }

  /** With at least K samples available the selection never repeats an index:
      it is a K-subset drawn without replacement. */
  lemma NoDuplicatesWhenEnough(count: nat, k: nat, shuffle: seq<nat>)
    requires count >= 1
    requires count >= k
    requires Permutes(shuffle, PaddedCount(count, k))
    ensures Distinct(SelectIndices(count, k, shuffle))
  {
    var idx := SelectIndices(count, k, shuffle);
    if k >= 1 {
      CeilDivUnique(k, count, 1);
    } else {
      CeilDivUnique(k, count, 0);
    }
    var m: multiset<nat> := multiset(idx);
    forall j: nat
      ensures m[j] <= 1
    {
      RepetitionBound(count, k, shuffle, j);
    }
    CountOneDistinct(idx);
  }

  /** For 3 samples and K = 4 the pool is `[0, 1, 2, 0, 1, 2]`. */
  lemma PoolOfThreeForFour()
    ensures PaddedCount(3, 4) == 6
    ensures FullRange(3, 4) == [0, 1, 2, 0, 1, 2]
  {
    CeilDivUnique(4, 3, 2);
    assert FullRange(3, 4) == Cycle(2, 3);
  }

  /** `[0, 1, 3, 4, 2, 5]` is a shuffle of six positions. */
  lemma BlockSwapPermutes()
    ensures Permutes([0, 1, 3, 4, 2, 5], 6)
  {
    var shuffle: seq<nat> := [0, 1, 3, 4, 2, 5];
    var range: seq<nat> := [0, 1, 2, 3, 4, 5];
    assert Range(6) == range;
    var a: seq<nat>, b: seq<nat>, c: seq<nat>, d: seq<nat> := [0, 1], [3, 4], [2], [5];
    assert shuffle == a + b + c + d;
    assert range == a + c + b + d;
  }

  /** The balanced pool does not make the selection balanced: with 3 samples and
      K = 4 the shuffle `[0, 1, 3, 4, 2, 5]` of `full_range = [0, 1, 2, 0, 1, 2]`
      selects `[0, 1, 0, 1]`, so sample 2 is never used although `floor(4 / 3) = 1`. */
  lemma NoLowerBound()
    ensures Permutes([0, 1, 3, 4, 2, 5], PaddedCount(3, 4))
    ensures SelectIndices(3, 4, [0, 1, 3, 4, 2, 5]) == [0, 1, 0, 1]
    ensures 2 !in SelectIndices(3, 4, [0, 1, 3, 4, 2, 5])
  {
    PoolOfThreeForFour();
    BlockSwapPermutes();
    var shuffle: seq<nat> := [0, 1, 3, 4, 2, 5];
    var full: seq<nat> := [0, 1, 2, 0, 1, 2];
    var shuffled: seq<nat> := Apply(full, shuffle);
    assert shuffled == [0, 1, 0, 1, 2, 2] by {
      assert |shuffled| == 6;
      assert shuffled[0] == 0 && shuffled[1] == 1 && shuffled[2] == 0;
      assert shuffled[3] == 1 && shuffled[4] == 2 && shuffled[5] == 2;
    }
    assert SelectIndices(3, 4, shuffle) == shuffled[..4];
  }

  /** `f` is the file name of some dataset row labelled `pid`. */
  predicate IsFileOf(f: string, pid: string, allFids: seq<string>, allPids: seq<string>) {
    exists i :: 0 <= i < |allFids| && i < |allPids| && allFids[i] == f && allPids[i] == pid
  }

  /** `tf.boolean_mask(all_fids, all_pids == pid)` (train.py:158): the file names of
      the rows labelled `pid`, in dataset order. */
  function PossibleFids(pid: string, allFids: seq<string>, allPids: seq<string>): (r: seq<string>)
    requires |allFids| == |allPids|
    ensures |r| == multiset(allPids)[pid]
    ensures forall f :: f in r ==> IsFileOf(f, pid, allFids, allPids)
    ensures forall i :: 0 <= i < |allFids| && allPids[i] == pid ==> allFids[i] in r
    decreases |allFids|
  {
    if |allFids| == 0 then
      []
    else
      var rest := PossibleFids(pid, allFids[1..], allPids[1..]);
      assert allPids == [allPids[0]] + allPids[1..];
      assert forall f :: IsFileOf(f, pid, allFids[1..], allPids[1..]) ==> IsFileOf(f, pid, allFids, allPids) by {
        forall f | IsFileOf(f, pid, allFids[1..], allPids[1..])
          ensures IsFileOf(f, pid, allFids, allPids)
        {
          var i :| 0 <= i < |allFids[1..]| && allFids[1..][i] == f && allPids[1..][i] == pid;
          assert allFids[i + 1] == f && allPids[i + 1] == pid;
        }
      }
      if allPids[0] == pid then
        assert IsFileOf(allFids[0], pid, allFids, allPids) by {
          assert allFids[0] == allFids[0] && allPids[0] == pid;
        }
        [allFids[0]] + rest
      else
        rest
  }

  /** The positions, from `from` on, of the rows labelled `pid`
      (`all_pids == pid` read as a list of indices), in increasing order. */
  function RowsFrom(pid: string, allPids: seq<string>, from: nat): (rows: seq<nat>)
    ensures forall j :: 0 <= j < |rows| ==> from <= rows[j] < |allPids| && allPids[rows[j]] == pid
    ensures forall j, l :: 0 <= j < l < |rows| ==> rows[j] < rows[l]
    ensures forall i :: from <= i < |allPids| && allPids[i] == pid ==> i in rows
    decreases |allPids| - from
  {
    if from >= |allPids| then
      []
    else
      (if allPids[from] == pid then [from] else []) + RowsFrom(pid, allPids, from + 1)
  }

  /** Masking the rows from `from` on is masking row `from`, then the rows after it. */
  lemma MaskStep(pid: string, allFids: seq<string>, allPids: seq<string>, from: nat)
    requires |allFids| == |allPids| && from < |allPids|
    ensures PossibleFids(pid, allFids[from..], allPids[from..]) ==
            (if allPids[from] == pid then [allFids[from]] else []) + PossibleFids(pid, allFids[from + 1..], allPids[from + 1..])
  {
    assert allFids[from..][1..] == allFids[from + 1..] && allPids[from..][1..] == allPids[from + 1..];
  }

  /** Gathering at position x, kept or not, and then at `rows`. */
  lemma GatherStep<T>(s: seq<T>, x: nat, rows: seq<nat>, keep: bool, whole: seq<T>, rest: seq<T>)
    requires x < |s| && InBounds(s, rows) && rest == Apply(s, rows)
    requires whole == (if keep then [s[x]] else []) + rest
    ensures InBounds(s, (if keep then [x] else []) + rows)
    ensures whole == Apply(s, (if keep then [x] else []) + rows)
  {
    ApplyConcat(s, if keep then [x] else [], rows);
  }

  /** Masking the rows from `from` on gathers the files at the labelled positions. */
  lemma {:induction false} MaskSuffix(pid: string, allFids: seq<string>, allPids: seq<string>, from: nat)
    requires |allFids| == |allPids| && from <= |allPids|
    ensures InBounds(allFids, RowsFrom(pid, allPids, from))
    ensures PossibleFids(pid, allFids[from..], allPids[from..]) == Apply(allFids, RowsFrom(pid, allPids, from))
    decreases |allPids| - from
  {
    if from < |allPids| {
      MaskSuffix(pid, allFids, allPids, from + 1);
      MaskStep(pid, allFids, allPids, from);
      GatherStep(allFids, from, RowsFrom(pid, allPids, from + 1), allPids[from] == pid,
                 PossibleFids(pid, allFids[from..], allPids[from..]),
                 PossibleFids(pid, allFids[from + 1..], allPids[from + 1..]));
    }
  }

  /** `tf.boolean_mask` keeps the file of every row labelled `pid` exactly once, in
      dataset order: it gathers `allFids` at the labelled positions. */
  lemma PossibleFidsInRowOrder(pid: string, allFids: seq<string>, allPids: seq<string>)
    requires |allFids| == |allPids|
    ensures InBounds(allFids, RowsFrom(pid, allPids, 0))
    ensures PossibleFids(pid, allFids, allPids) == Apply(allFids, RowsFrom(pid, allPids, 0))
  {
    MaskSuffix(pid, allFids, allPids, 0);
    assert allFids[0..] == allFids && allPids[0..] == allPids;
  }

  /** `sample_k_fids_for_pid` (train.py:156-172): K file names of identity `pid`
      and K copies of `pid` as their labels. */
  function SampleKFidsForPid(pid: string, allFids: seq<string>, allPids: seq<string>, k: nat,
                             shuffle: seq<nat>): (r: (seq<string>, seq<string>))
    requires |allFids| == |allPids|
    requires pid in allPids
    requires Permutes(shuffle, PaddedCount(|PossibleFids(pid, allFids, allPids)|, k))
    ensures |r.0| == k && |r.1| == k
    ensures forall i :: 0 <= i < k ==> r.1[i] == pid
    ensures forall i :: 0 <= i < k ==> IsFileOf(r.0[i], pid, allFids, allPids)
  {
    var possible := PossibleFids(pid, allFids, allPids);
    assert pid in multiset(allPids);
    var idx := SelectIndices(|possible|, k, shuffle);
    var fids := Apply(possible, idx);
    assert forall i :: 0 <= i < k ==> fids[i] in possible;
    (fids, seq(k, _ => pid))
  }

  /** The file names `sample_k_fids_for_pid` returns are `possible_fids` gathered at the selected indices. */
  lemma SampleKGathers(pid: string, allFids: seq<string>, allPids: seq<string>, k: nat, shuffle: seq<nat>)
    requires |allFids| == |allPids|
    requires pid in allPids
    requires Permutes(shuffle, PaddedCount(|PossibleFids(pid, allFids, allPids)|, k))
    ensures |PossibleFids(pid, allFids, allPids)| >= 1
    ensures var possible := PossibleFids(pid, allFids, allPids);
            var idx := SelectIndices(|possible|, k, shuffle);
            InBounds(possible, idx) && SampleKFidsForPid(pid, allFids, allPids, k, shuffle).0 == Apply(possible, idx)
  {
    assert pid in multiset(allPids);
  }

  /** When an identity has at least K distinct files, the K files drawn for it are distinct. */
  lemma SampleKNoDuplicates(pid: string, allFids: seq<string>, allPids: seq<string>, k: nat, shuffle: seq<nat>)
    requires |allFids| == |allPids|
    requires pid in allPids
    requires Permutes(shuffle, PaddedCount(|PossibleFids(pid, allFids, allPids)|, k))
    requires |PossibleFids(pid, allFids, allPids)| >= k
    requires Distinct(PossibleFids(pid, allFids, allPids))
    ensures Distinct(SampleKFidsForPid(pid, allFids, allPids, k, shuffle).0)
  {
    SampleKGathers(pid, allFids, allPids, k, shuffle);
    var possible := PossibleFids(pid, allFids, allPids);
    NoDuplicatesWhenEnough(|possible|, k, shuffle);
  }

  /** When the files of an identity are distinct, no file is drawn more than
      `ceil(K / count)` times, and a name that is not one of its files is never drawn. */
  lemma SampleKRepetitionBound(pid: string, allFids: seq<string>, allPids: seq<string>, k: nat, shuffle: seq<nat>,
                               f: string)
    requires |allFids| == |allPids|
    requires pid in allPids
    requires Permutes(shuffle, PaddedCount(|PossibleFids(pid, allFids, allPids)|, k))
    requires Distinct(PossibleFids(pid, allFids, allPids))
    ensures |PossibleFids(pid, allFids, allPids)| >= 1
    ensures multiset(SampleKFidsForPid(pid, allFids, allPids, k, shuffle).0)[f]
              <= CeilDiv(k, |PossibleFids(pid, allFids, allPids)|)
    ensures f !in PossibleFids(pid, allFids, allPids) ==>
              multiset(SampleKFidsForPid(pid, allFids, allPids, k, shuffle).0)[f] == 0
  {
    SampleKGathers(pid, allFids, allPids, k, shuffle);
    var possible := PossibleFids(pid, allFids, allPids);
    var idx := SelectIndices(|possible|, k, shuffle);
    var files := Apply(possible, idx);
    if f in possible {
      var j :| 0 <= j < |possible| && possible[j] == f;
      GatherCount(possible, idx, j);
      RepetitionBound(|possible|, k, shuffle, j);
    } else {
      assert f !in files;
    }
  }

  /** An identity with exactly one file gets that file K times. */
  lemma SingleSampleRepeated(pid: string, allFids: seq<string>, allPids: seq<string>, k: nat, shuffle: seq<nat>,
                             row: nat)
    requires |allFids| == |allPids|
    requires row < |allPids| && allPids[row] == pid
    requires multiset(allPids)[pid] == 1
    requires Permutes(shuffle, PaddedCount(|PossibleFids(pid, allFids, allPids)|, k))
    ensures SampleKFidsForPid(pid, allFids, allPids, k, shuffle).0 == seq(k, _ => allFids[row])
  {
    var possible := PossibleFids(pid, allFids, allPids);
    assert possible == [allFids[row]] by {
      assert allFids[row] in possible;
    }
    SampleKGathers(pid, allFids, allPids, k, shuffle);
  }
}
