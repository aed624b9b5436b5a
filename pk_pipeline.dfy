/**
  The PK-batch training stream that `main` builds with tf.data
  (train.py:247-261 and 286-287).

  unique pids -> shuffle -> take a multiple of P -> repeat -> for every pid
  select K files -> unbatch into single (fid, pid) samples -> batch by P*K.

  The infinite `repeat(None)` is modelled by finitely many epochs, one shuffle
  permutation per epoch in `perms`; the per-pid random shuffles of
  `sample_k_fids_for_pid` are the permutations in `draws`, one per pid of the
  repeated stream. Image loading and augmentation (train.py:263-283) keep the
  fid and pid of every element and are left out.
 */
module PKPipeline {
  import opened Permutations
  import opened KSelection

  /** One element of the stream after `unbatch`: a file name and its identity label. */
  datatype Sample = Sample(fid: string, pid: string)

  /** The distinct pids of the dataset (train.py:247). `np.unique` also sorts
      them; here they keep the order of their last occurrence, which no
      property depends on, since every epoch applies an arbitrary shuffle. */
  function Unique(pids: seq<string>): (u: seq<string>)
    ensures Distinct(u)
    ensures forall x :: x in u <==> x in pids
  {
    if |pids| == 0 then
      []
    else
      var rest := Unique(pids[1..]);
      assert pids == [pids[0]] + pids[1..];
      if pids[0] in rest then rest else [pids[0]] + rest
  }

  /** One epoch (train.py:248-253): the unique pids shuffled by `perm`, truncated
      to the largest multiple of `p`. */
  function Epoch(unique: seq<string>, perm: seq<nat>, p: nat): (e: seq<string>)
    requires p >= 1
    requires Permutes(perm, |unique|)
    ensures |e| % p == 0 && |e| / p == |unique| / p
    ensures |e| <= |unique| < |e| + p
    ensures |unique| < p ==> e == []
    ensures forall x :: x in e ==> x in unique
    ensures Distinct(unique) ==> Distinct(e)
  {
    ApplyPermutes(unique, perm);
    var shuffled := Apply(unique, perm);
    assert Distinct(unique) ==> Distinct(shuffled) by {
      if Distinct(unique) {
        ApplyDistinct(unique, perm);
      }
    }
    assert forall x :: x in shuffled ==> x in unique by {
      forall x | x in shuffled
        ensures x in unique
      {
        assert x in multiset(shuffled);
      }
    }
    EpochLength(|unique|, p);
    shuffled[..(|unique| / p) * p]
  }

  /** `(n // p) * p` is the largest multiple of p not above n. */
  lemma EpochLength(n: nat, p: nat)
    requires p >= 1
    ensures var len := (n / p) * p;
            len % p == 0 && len / p == n / p && len <= n < len + p && (n < p ==> len == 0)
  {
    DivBounds(n, p);
    MulDivMod(n / p, p);
  }

  /** The epochs one after another (`repeat`, train.py:254). */
  function Repeat(unique: seq<string>, perms: seq<seq<nat>>, p: nat): (s: seq<string>)
    requires p >= 1
    requires forall e :: 0 <= e < |perms| ==> Permutes(perms[e], |unique|)
    ensures |s| == |perms| * ((|unique| / p) * p)
    ensures forall x :: x in s ==> x in unique
    decreases |perms|
  {
    if |perms| == 0 then
      []
    else
      var first, rest := Epoch(unique, perms[0], p), Repeat(unique, perms[1..], p);
      EpochLength(|unique|, p);
      MulSucc(|perms| - 1, (|unique| / p) * p);
      first + rest
  }

  /** `(a + 1) * x == x + a * x`. */
  lemma MulSucc(a: nat, x: nat)
    ensures (a + 1) * x == x + a * x
  {
  }

  /** Every pid of `stream` is a dataset pid and its draw is a shuffle of its padded pool. */
  predicate DrawsFit(stream: seq<string>, allFids: seq<string>, allPids: seq<string>, k: nat, draws: seq<seq<nat>>) {
    && |allFids| == |allPids|
    && |draws| == |stream|
    && forall t :: 0 <= t < |stream| ==>
         stream[t] in allPids && Permutes(draws[t], PaddedCount(|PossibleFids(stream[t], allFids, allPids)|, k))
  }

  /** `dataset.map(sample_k_fids_for_pid)` (train.py:257-258). */
  function SelectAll(stream: seq<string>, allFids: seq<string>, allPids: seq<string>, k: nat,
                     draws: seq<seq<nat>>): (g: seq<(seq<string>, seq<string>)>)
    requires DrawsFit(stream, allFids, allPids, k, draws)
    ensures |g| == |stream|
    ensures forall t :: 0 <= t < |g| ==> g[t] == SampleKFidsForPid(stream[t], allFids, allPids, k, draws[t])
  {
    seq(|stream|, t requires 0 <= t < |stream| => SampleKFidsForPid(stream[t], allFids, allPids, k, draws[t]))
  }

  /** Pairs up equally long fid and pid vectors element by element. */
  function Zip(fids: seq<string>, pids: seq<string>): (r: seq<Sample>)
    requires |fids| == |pids|
    ensures |r| == |fids|
    ensures forall i :: 0 <= i < |r| ==> r[i] == Sample(fids[i], pids[i])
  {
    seq(|fids|, i requires 0 <= i < |fids| => Sample(fids[i], pids[i]))
  }

  /** Each group's fid and pid vectors have equal length. */
  predicate Paired(g: seq<(seq<string>, seq<string>)>) {
    forall t :: 0 <= t < |g| ==> |g[t].0| == |g[t].1|
  }

  /** `dataset.unbatch()` (train.py:261): the groups' samples one after another. */
  function Unbatch(g: seq<(seq<string>, seq<string>)>): (flat: seq<Sample>)
    requires Paired(g)
    decreases |g|
  {
    if |g| == 0 then [] else Zip(g[0].0, g[0].1) + Unbatch(g[1..])
  }

  /** Sequences concatenated in order. */
  function Concat<T>(xs: seq<seq<T>>): (r: seq<T>)
    decreases |xs|
  {
    if |xs| == 0 then [] else xs[0] + Concat(xs[1..])
  }

  /** `dataset.batch(size)` (train.py:286-287): consecutive chunks of `size`
      elements, the last one possibly shorter (`BatchSplits`). */
  function Batch<T>(flat: seq<T>, size: nat): seq<seq<T>>
    requires size >= 1
    decreases |flat|
  {
    if |flat| == 0 then
      []
    else if |flat| <= size then
      [flat]
    else
      [flat[..size]] + Batch(flat[size..], size)
  }

  /** The identity labels of a batch (the `pids` tensor). */
  function Labels(batch: seq<Sample>): (r: seq<string>)
    ensures |r| == |batch|
    ensures forall i :: 0 <= i < |batch| ==> r[i] == batch[i].pid
  {
    seq(|batch|, i requires 0 <= i < |batch| => batch[i].pid)
  }

  /** K copies of each pid of `ids`, in order. */
  function Runs(ids: seq<string>, k: nat): (r: seq<string>)
    decreases |ids|
  {
    if |ids| == 0 then [] else seq(k, _ => ids[0]) + Runs(ids[1..], k)
  }

  /** The whole training stream of PK batches for the dataset (`allFids`, `allPids`). */
  function PKStream(allFids: seq<string>, allPids: seq<string>, perms: seq<seq<nat>>, draws: seq<seq<nat>>,
                    p: nat, k: nat): (batches: seq<seq<Sample>>)
    requires p >= 1 && k >= 1
    requires forall e :: 0 <= e < |perms| ==> Permutes(perms[e], |Unique(allPids)|)
    requires DrawsFit(Repeat(Unique(allPids), perms, p), allFids, allPids, k, draws)
  {
    var stream := Repeat(Unique(allPids), perms, p);
    var groups := SelectAll(stream, allFids, allPids, k, draws);
    assert Paired(groups);
    PositiveProduct(p, k);
    Batch(Unbatch(groups), p * k)
  }

  /** P*K is positive when P and K are. */
  lemma PositiveProduct(p: nat, k: nat)
    requires p >= 1 && k >= 1
    ensures p * k >= 1
  {
  }

  /** A batch made of the identities `ids`: K samples of `ids[0]`, then K of `ids[1]`, ...;
      the identities are distinct and every sample is a dataset row. */
  predicate IsPKBatch(batch: seq<Sample>, ids: seq<string>, k: nat, allFids: seq<string>, allPids: seq<string>) {
    && |batch| == |ids| * k
    && Labels(batch) == Runs(ids, k)
    && Distinct(ids)
    && forall i :: 0 <= i < |batch| ==> IsFileOf(batch[i].fid, batch[i].pid, allFids, allPids)
  }

  /** `batches` is a sequence of PK batches whose b-th batch is made of the P identities `ids[b]`. */
  predicate PKBatches(batches: seq<seq<Sample>>, ids: seq<seq<string>>, p: nat, k: nat, allFids: seq<string>,
                      allPids: seq<string>) {
    && |batches| == |ids|
    && forall b :: 0 <= b < |batches| ==> |ids[b]| == p && IsPKBatch(batches[b], ids[b], k, allFids, allPids)
  }

  // ---------------------------------------------------------------------------
  // Proofs

  /** `a * (b * c) == (a * b) * c`. */
  lemma MulAssoc(a: nat, b: nat, c: nat)
    ensures a * (b * c) == (a * b) * c
  {
  }

  /** Every group has K files of dataset rows, labelled with K pids. */
  predicate RowGroups(g: seq<(seq<string>, seq<string>)>, k: nat, allFids: seq<string>, allPids: seq<string>) {
    forall x :: x in g ==>
      |x.0| == k && |x.1| == k && forall i :: 0 <= i < k ==> IsFileOf(x.0[i], x.1[i], allFids, allPids)
  }

  /** Group t carries K files labelled with K copies of `ids[t]`. */
  predicate LabelledBy(g: seq<(seq<string>, seq<string>)>, ids: seq<string>, k: nat) {
    |g| == |ids| && forall t :: 0 <= t < |g| ==> |g[t].0| == k && g[t].1 == seq(k, _ => ids[t])
  }

  lemma {:induction false} UnbatchConcat(g1: seq<(seq<string>, seq<string>)>, g2: seq<(seq<string>, seq<string>)>)
    requires Paired(g1) && Paired(g2)
    ensures Paired(g1 + g2)
    ensures Unbatch(g1 + g2) == Unbatch(g1) + Unbatch(g2)
    decreases |g1|
  {
    if |g1| > 0 {
      var g := g1 + g2;
      assert g[0] == g1[0];
      assert g[1..] == g1[1..] + g2;
      UnbatchConcat(g1[1..], g2);
      assert Unbatch(g) == Zip(g1[0].0, g1[0].1) + Unbatch(g1[1..] + g2);
    } else {
      assert g1 + g2 == g2;
    }
  }

  /** Groups of K samples each unbatch into `|g| * k` samples. */
  lemma {:induction false} UnbatchLength(g: seq<(seq<string>, seq<string>)>, k: nat)
    requires forall t :: 0 <= t < |g| ==> |g[t].0| == k && |g[t].1| == k
    ensures Paired(g)
    ensures |Unbatch(g)| == |g| * k
    decreases |g|
  {
    if |g| > 0 {
      UnbatchLength(g[1..], k);
      MulSucc(|g| - 1, k);
    }
  }

  /** Groups labelled by `ids` unbatch into samples labelled `Runs(ids, k)`. */
  lemma {:induction false} UnbatchLabels(g: seq<(seq<string>, seq<string>)>, ids: seq<string>, k: nat)
    requires LabelledBy(g, ids, k)
    ensures Paired(g)
    ensures Labels(Unbatch(g)) == Runs(ids, k)
    decreases |g|
  {
    if |g| > 0 {
      assert LabelledBy(g[1..], ids[1..], k);
      UnbatchLabels(g[1..], ids[1..], k);
      var head := Zip(g[0].0, g[0].1);
      assert Labels(head) == seq(k, _ => ids[0]);
      assert Labels(head + Unbatch(g[1..])) == Labels(head) + Labels(Unbatch(g[1..]));
    }
  }

  /** Groups of dataset rows unbatch into dataset rows. */
  lemma {:induction false} UnbatchFiles(g: seq<(seq<string>, seq<string>)>, k: nat, allFids: seq<string>,
                                        allPids: seq<string>)
    requires RowGroups(g, k, allFids, allPids)
    ensures Paired(g)
    ensures forall x :: x in Unbatch(g) ==> IsFileOf(x.fid, x.pid, allFids, allPids)
    decreases |g|
  {
    assert forall t :: 0 <= t < |g| ==> g[t] in g;
    if |g| > 0 {
      assert RowGroups(g[1..], k, allFids, allPids) by {
        assert forall x :: x in g[1..] ==> x in g;
      }
      UnbatchFiles(g[1..], k, allFids, allPids);
      var head := Zip(g[0].0, g[0].1);
      forall x | x in head
        ensures IsFileOf(x.fid, x.pid, allFids, allPids)
      {
        var i :| 0 <= i < |head| && head[i] == x;
        assert g[0] in g;
      }
    }
  }

  /** A stream longer than one batch starts with a full batch. */
  lemma BatchUnfold<T>(s: seq<T>, size: nat)
    requires size >= 1 && |s| > size
    ensures Batch(s, size) == [s[..size]] + Batch(s[size..], size)
  {
  }

  /** `batch` neither drops nor reorders elements: the batches concatenate back to
      the stream, every batch holds 1 to `size` elements and all but the last are full. */
  lemma {:induction false} BatchSplits<T>(flat: seq<T>, size: nat)
    requires size >= 1
    ensures Concat(Batch(flat, size)) == flat
    ensures forall b :: 0 <= b < |Batch(flat, size)| ==> 1 <= |Batch(flat, size)[b]| <= size
    ensures forall b :: 0 <= b < |Batch(flat, size)| - 1 ==> |Batch(flat, size)[b]| == size
    decreases |flat|
  {
    if |flat| > size {
      BatchSplits(flat[size..], size);
      var rest := Batch(flat[size..], size);
      assert Batch(flat, size) == [flat[..size]] + rest;
      assert ([flat[..size]] + rest)[1..] == rest;
      assert flat == flat[..size] + flat[size..];
    }
  }

  /** Batching commutes with concatenation when the first part fills whole batches. */
  lemma {:induction false} BatchConcat<T>(a: seq<T>, c: seq<T>, size: nat, m: nat)
    requires size >= 1
    requires |a| == m * size
    ensures Batch(a + c, size) == Batch(a, size) + Batch(c, size)
    decreases m
  {
    if m == 0 {
      assert a + c == c;
    } else {
      MulSucc(m - 1, size);
      var rest := a[size..];
      assert |rest| == (m - 1) * size;
      if c == [] && m == 1 {
        assert a + c == a;
      } else if m == 1 {
        BatchUnfold(a + c, size);
        assert (a + c)[..size] == a && (a + c)[size..] == c;
      } else {
        BatchUnfold(a + c, size);
        BatchUnfold(a, size);
        assert (a + c)[..size] == a[..size] && (a + c)[size..] == rest + c;
        BatchConcat(rest, c, size, m - 1);
      }
    }
  }

  /** `m * size` elements make exactly m full batches. */
  lemma {:induction false} BatchLength<T>(s: seq<T>, size: nat, m: nat)
    requires size >= 1
    requires |s| == m * size
    ensures |Batch(s, size)| == m
    ensures forall b :: 0 <= b < m ==> |Batch(s, size)[b]| == size
    decreases m
  {
    if m > 0 {
      MulSucc(m - 1, size);
      if m > 1 {
        BatchLength(s[size..], size, m - 1);
      }
    }
  }

  /** Every element of a batch is an element of the stream. */
  lemma {:induction false} BatchMembers<T>(s: seq<T>, size: nat, b: nat, x: T)
    requires size >= 1
    requires b < |Batch(s, size)|
    requires x in Batch(s, size)[b]
    ensures x in s
    decreases |s|
  {
    if |s| > size && b > 0 {
      BatchMembers(s[size..], size, b - 1, x);
    }
  }

  /** Batches of a distinct stream are distinct. */
  lemma {:induction false} BatchDistinct<T>(s: seq<T>, size: nat, b: nat)
    requires size >= 1
    requires Distinct(s)
    requires b < |Batch(s, size)|
    ensures Distinct(Batch(s, size)[b])
    decreases |s|
  {
    if |s| > size && b > 0 {
      assert Distinct(s[size..]);
      BatchDistinct(s[size..], size, b - 1);
    }
  }

  /** Batching the groups by P and their pids by P keeps the labelling block by block. */
  lemma {:induction false} BatchLabelled(g: seq<(seq<string>, seq<string>)>, ids: seq<string>, k: nat, p: nat)
    requires p >= 1
    requires LabelledBy(g, ids, k)
    ensures |Batch(g, p)| == |Batch(ids, p)|
    ensures forall b :: 0 <= b < |Batch(g, p)| ==> LabelledBy(Batch(g, p)[b], Batch(ids, p)[b], k)
    decreases |g|
  {
    if |g| > p {
      assert LabelledBy(g[..p], ids[..p], k);
      assert LabelledBy(g[p..], ids[p..], k);
      BatchLabelled(g[p..], ids[p..], k, p);
    }
  }

  /** Batching `m * p` groups of K samples by P*K yields the unbatched chunks of
      P groups: batch boundaries fall on group boundaries. */
  lemma {:induction false} BatchOfGroups(g: seq<(seq<string>, seq<string>)>, p: nat, k: nat, m: nat)
    requires p >= 1 && k >= 1
    requires |g| == m * p
    requires forall t :: 0 <= t < |g| ==> |g[t].0| == k && |g[t].1| == k
    ensures p * k >= 1 && Paired(g)
    ensures |Batch(Unbatch(g), p * k)| == |Batch(g, p)|
    ensures forall b :: 0 <= b < |Batch(g, p)| ==>
              Paired(Batch(g, p)[b]) && Batch(Unbatch(g), p * k)[b] == Unbatch(Batch(g, p)[b])
    decreases m
  {
    PositiveProduct(p, k);
    UnbatchLength(g, k);
    if m > 0 {
      MulSucc(m - 1, p);
      var head, tail := g[..p], g[p..];
      assert g == head + tail;
      UnbatchLength(head, k);
      UnbatchLength(tail, k);
      UnbatchConcat(head, tail);
      BatchConcat(Unbatch(head), Unbatch(tail), p * k, 1);
      BatchConcat(head, tail, p, 1);
      assert Batch(head, p) == [head];
      assert Batch(Unbatch(head), p * k) == [Unbatch(head)];
      BatchOfGroups(tail, p, k, m - 1);
    } else {
      assert g == [];
    }
  }

  /** Every batch holds exactly `size` distinct elements. */
  predicate FullDistinctBatches<T(==)>(s: seq<T>, size: nat)
    requires size >= 1
  {
    forall b :: 0 <= b < |Batch(s, size)| ==> |Batch(s, size)[b]| == size && Distinct(Batch(s, size)[b])
  }

  /** A distinct stream of whole batches is cut into full, distinct batches. */
  lemma WholeDistinctBatches<T>(s: seq<T>, size: nat, m: nat)
    requires size >= 1
    requires Distinct(s)
    requires |s| == m * size
    ensures FullDistinctBatches(s, size)
  {
    BatchLength(s, size, m);
    forall b | 0 <= b < |Batch(s, size)|
      ensures Distinct(Batch(s, size)[b])
    {
      BatchDistinct(s, size, b);
    }
  }

  /** Full distinct batches stay so when streams of whole batches are concatenated. */
  lemma FullDistinctConcat<T>(a: seq<T>, c: seq<T>, size: nat, m: nat)
    requires size >= 1
    requires |a| == m * size
    requires FullDistinctBatches(a, size) && FullDistinctBatches(c, size)
    ensures FullDistinctBatches(a + c, size)
  {
    BatchConcat(a, c, size, m);
    var ba, bc := Batch(a, size), Batch(c, size);
    assert Batch(a + c, size) == ba + bc;
    forall b | 0 <= b < |ba + bc|
      ensures |(ba + bc)[b]| == size && Distinct((ba + bc)[b])
    {
      if b >= |ba| {
        assert (ba + bc)[b] == bc[b - |ba|];
      } else {
        assert (ba + bc)[b] == ba[b];
      }
    }
  }

  /** Every batch of P consecutive pids of the repeated stream lies within one epoch,
      so it has P distinct pids. */
  lemma {:induction false} RepeatBatchesDistinct(unique: seq<string>, perms: seq<seq<nat>>, p: nat)
    requires p >= 1
    requires Distinct(unique)
    requires forall e :: 0 <= e < |perms| ==> Permutes(perms[e], |unique|)
    ensures FullDistinctBatches(Repeat(unique, perms, p), p)
    decreases |perms|
  {
    if |perms| > 0 {
      var first, rest := Epoch(unique, perms[0], p), Repeat(unique, perms[1..], p);
      var m := |unique| / p;
      assert Repeat(unique, perms, p) == first + rest;
      assert |first| == m * p by {
        EpochLength(|unique|, p);
      }
      assert FullDistinctBatches(first, p) by {
        WholeDistinctBatches(first, p, m);
      }
      assert FullDistinctBatches(rest, p) by {
        RepeatBatchesDistinct(unique, perms[1..], p);
      }
      FullDistinctConcat(first, rest, p, m);
    }
  }

  /** The selected groups carry K dataset files each, labelled with their stream's pid. */
  lemma SelectAllGroups(stream: seq<string>, allFids: seq<string>, allPids: seq<string>, k: nat,
                        draws: seq<seq<nat>>)
    requires DrawsFit(stream, allFids, allPids, k, draws)
    ensures LabelledBy(SelectAll(stream, allFids, allPids, k, draws), stream, k)
    ensures RowGroups(SelectAll(stream, allFids, allPids, k, draws), k, allFids, allPids)
  {
    var g := SelectAll(stream, allFids, allPids, k, draws);
    forall t | 0 <= t < |g|
      ensures |g[t].0| == k && |g[t].1| == k && g[t].1 == seq(k, _ => stream[t])
      ensures forall i :: 0 <= i < k ==> IsFileOf(g[t].0[i], g[t].1[i], allFids, allPids)
    {
    }
  }

  /** Unbatching P groups labelled by P distinct pids gives one PK batch. */
  lemma GroupsFormPKBatch(h: seq<(seq<string>, seq<string>)>, ids: seq<string>, k: nat, allFids: seq<string>,
                          allPids: seq<string>)
    requires LabelledBy(h, ids, k)
    requires RowGroups(h, k, allFids, allPids)
    requires Distinct(ids)
    ensures Paired(h)
    ensures IsPKBatch(Unbatch(h), ids, k, allFids, allPids)
  {
    UnbatchLabels(h, ids, k);
    UnbatchLength(h, k);
    UnbatchFiles(h, k, allFids, allPids);
    var flat := Unbatch(h);
    assert forall i :: 0 <= i < |flat| ==> flat[i] in flat;
  }

  /** Batching the samples of `m * p` labelled groups by P*K gives m PK batches, the
      b-th made of the b-th batch of P pids. */
  lemma GroupsBatches(g: seq<(seq<string>, seq<string>)>, ids: seq<string>, p: nat, k: nat, m: nat,
                      allFids: seq<string>, allPids: seq<string>)
    requires p >= 1 && k >= 1
    requires |g| == m * p
    requires LabelledBy(g, ids, k)
    requires RowGroups(g, k, allFids, allPids)
    requires FullDistinctBatches(ids, p)
    ensures p * k >= 1 && Paired(g)
    ensures |Batch(Unbatch(g), p * k)| == m
    ensures PKBatches(Batch(Unbatch(g), p * k), Batch(ids, p), p, k, allFids, allPids)
  {
    BatchOfGroups(g, p, k, m);
    BatchLength(g, p, m);
    BatchLabelled(g, ids, k, p);
    forall b | 0 <= b < m
      ensures |Batch(ids, p)[b]| == p
      ensures IsPKBatch(Batch(Unbatch(g), p * k)[b], Batch(ids, p)[b], k, allFids, allPids)
    {
      var h := Batch(g, p)[b];
      assert RowGroups(h, k, allFids, allPids) by {
        forall x | x in h
          ensures x in g
        {
          BatchMembers(g, p, b, x);
        }
      }
      GroupsFormPKBatch(h, Batch(ids, p)[b], k, allFids, allPids);
    }
  }

  /** The repeated stream holds `n // P` whole blocks of P pids per epoch. */
  lemma RepeatLength(unique: seq<string>, perms: seq<seq<nat>>, p: nat)
    requires p >= 1
    requires forall e :: 0 <= e < |perms| ==> Permutes(perms[e], |unique|)
    ensures |perms| * (|unique| / p) >= 0
    ensures |Repeat(unique, perms, p)| == (|perms| * (|unique| / p)) * p
  {
    MulAssoc(|perms|, |unique| / p, p);
  }

  /** The batch-shape invariant (train.py:247-261, 286-287): the stream holds
      `n // P` batches per epoch, and its b-th batch is a PK batch made of the b-th
      run of P consecutive pids of the repeated, shuffled identity stream. */
  lemma PKStreamShape(allFids: seq<string>, allPids: seq<string>, perms: seq<seq<nat>>, draws: seq<seq<nat>>,
                      p: nat, k: nat)
    requires p >= 1 && k >= 1
    requires forall e :: 0 <= e < |perms| ==> Permutes(perms[e], |Unique(allPids)|)
    requires DrawsFit(Repeat(Unique(allPids), perms, p), allFids, allPids, k, draws)
    ensures |PKStream(allFids, allPids, perms, draws, p, k)| == |perms| * (|Unique(allPids)| / p)
    ensures PKBatches(PKStream(allFids, allPids, perms, draws, p, k), Batch(Repeat(Unique(allPids), perms, p), p),
                      p, k, allFids, allPids)
  {
    var unique := Unique(allPids);
    var stream := Repeat(unique, perms, p);
    var g := SelectAll(stream, allFids, allPids, k, draws);
    RepeatLength(unique, perms, p);
    var m: nat := |perms| * (|unique| / p);
    assert LabelledBy(g, stream, k) && RowGroups(g, k, allFids, allPids) by {
      SelectAllGroups(stream, allFids, allPids, k, draws);
    }
    assert FullDistinctBatches(stream, p) by {
      RepeatBatchesDistinct(unique, perms, p);
    }
    GroupsBatches(g, stream, p, k, m, allFids, allPids);
  }

  /** In a batch of distinct identities each identity occurs exactly K times and no
      other identity occurs. */
  lemma {:induction false} RunsCount(ids: seq<string>, k: nat, x: string)
    requires Distinct(ids)
    ensures multiset(Runs(ids, k))[x] == if x in ids then k else 0
    decreases |ids|
  {
    if |ids| > 0 {
      assert Distinct(ids[1..]);
      RunsCount(ids[1..], k, x);
      RepeatCount(ids[0], k, x);
      assert ids == [ids[0]] + ids[1..];
    }
  }

  /** `k` copies of `y` hold `x` k times if `x == y` and never otherwise. */
  lemma {:induction false} RepeatCount(y: string, k: nat, x: string)
    ensures multiset(seq(k, _ => y))[x] == if x == y then k else 0
    decreases k
  {
    if k > 0 {
      assert seq(k, _ => y) == seq(k - 1, _ => y) + [y];
      RepeatCount(y, k - 1, x);
    }
  }

  /** With fewer unique identities than P no epoch holds a pid. */
  lemma TooFewIdentities(unique: seq<string>, perms: seq<seq<nat>>, p: nat)
    requires p >= 1
    requires forall e :: 0 <= e < |perms| ==> Permutes(perms[e], |unique|)
    requires |unique| < p
    ensures Repeat(unique, perms, p) == []
  {
    assert |unique| / p == 0;
    assert |perms| * (0 * p) == 0;
  }

  /** With fewer unique identities than P the stream of batches is empty: every
      epoch is `take(0)` and `repeat` of an empty dataset ends at once. The
      pipeline is built without error; it is the first batch fetch of the
      training loop (train.py:461) that then fails. */
  lemma TooFewIdentitiesNoBatches(allFids: seq<string>, allPids: seq<string>, perms: seq<seq<nat>>,
                                  draws: seq<seq<nat>>, p: nat, k: nat)
    requires p >= 1 && k >= 1
    requires forall e :: 0 <= e < |perms| ==> Permutes(perms[e], |Unique(allPids)|)
    requires DrawsFit(Repeat(Unique(allPids), perms, p), allFids, allPids, k, draws)
    requires |Unique(allPids)| < p
    ensures PKStream(allFids, allPids, perms, draws, p, k) == []
  {
    TooFewIdentities(Unique(allPids), perms, p);
    var g := SelectAll([], allFids, allPids, k, draws);
    assert g == [];
    PositiveProduct(p, k);
    var flat: seq<Sample> := Unbatch(g);
    assert flat == [];
  }
}
