# PK-batch sampling and training-loop control of triplet-reid's `train.py`

This project models, in Dafny, the sequential logic of the person
re-identification trainer `train.py` and proves its properties:

- **K-selection for one identity** (`sample_k_fids_for_pid`). Given an identity
  with `count` images, the index range is padded to
  `padded_count = ceil(K / count) * count`. The padded pool
  `[0, padded_count) mod count` is shuffled, and the first K indices pick the
  images. Module `KSelection` (file `k_selection.dfy`).
- **The PK-batch stream** that `main` builds with `tf.data`. The unique pids
  are shuffled and truncated to a multiple of P, repeated, and mapped to K
  images each. The result is unbatched and batched again by P*K. Module
  `PKPipeline` (file `pk_pipeline.dfy`).
- **Shuffles.** `dataset.shuffle` and `tf.random.shuffle` are modelled as a
  permutation of positions passed in as an argument. Module `Permutations`
  (file `permutations.dfy`).
- **The resume-argument merge.** A loop over the supplied arguments takes the
  persisted value where the two differ, and logs a warning for every differing
  or new argument. Module `ResumeArgs` (file `resume_args.dfy`).
- **The main loop and its checkpoint policy.** These cover
  `range(start_step, train_iterations)`, the intermediate saves at multiples of
  `checkpoint_frequency`, the break on an interrupt and the final save. Module
  `TrainingLoop` (file `training_loop.dfy`).

How the model treats its inputs:

- Randomness is an argument. Each epoch's shuffle of the unique pids is a
  permutation in `perms`. Each pid's padded-pool shuffle is a permutation in
  `draws`.
- The `repeat(None)` stream is infinite. The model covers any finite number of
  epochs, one per permutation in `perms`.
- The dataset is the two parallel lists `allFids` and `allPids` that
  `common.load_dataset` returns.
- In the loop, `global_step` as read after `train_op` is the oracle `stepAt(i)`.
  The `lb.Uninterrupt` flag is the oracle `interruptedAt(i)`.
- A saved checkpoint is recorded as its step number appended to a list.
- The argument dictionaries are `map<string, Value>`. Python's dictionary
  order is the parameter `order`, and Python's `!=` is modelled by `PyEq`:
  `True == 1 == 1.0` across `bool`, `int` and `float`.

Three behaviours of the code are easy to misread. The model follows the code:

- **No lower bound on repetitions.** The comment at train.py:160-163 says the
  padded pool lets every image be sampled equally likely. One might then expect
  each image to be used at least `floor(K / count)` times when `count < K`. The
  code does not guarantee this. `KSelection.NoLowerBound` shows a shuffle with
  `count = 3` and `K = 4` that never selects image 2. Only the upper bound
  `ceil(K / count)` holds (`KSelection.RepetitionBound`). The pool is balanced
  (`KSelection.FullRangeBalanced`), so the selection is balanced only in
  expectation.
- **Fewer than P identities.** Nothing checks this when the pipeline is built.
  `take(0)` makes every epoch empty, and `repeat(None)` of an empty dataset ends
  at once, so the stream holds no batch (`PKPipeline.TooFewIdentitiesNoBatches`).
  The first batch fetch of the loop (train.py:461) then fails with
  `OutOfRangeError`. On a fresh start, checkpoint 0 has already been saved by
  then (train.py:442-443).
- **An empty iteration range.** When `start_step >= train_iterations`, for
  example on resuming a finished run, the loop body never runs and `step` is
  never assigned. The final save then raises `NameError`. The model returns
  `StepUnbound` instead of a final checkpoint, and
  `TrainingLoop.FailsExactlyOnEmptyRange` states exactly when this happens.

## Model

| member | source | states |
|---|---|---|
| Permutations.Apply | train.py:169-170 | The definition of a shuffle (`tf.random.shuffle`, `dataset.shuffle` at line 249) and of `tf.gather`: element i of the result is `s[perm[i]]`. Its properties are in `ApplyPermutes`, `ApplyDistinct` and `GatherCount`. |
| Permutations.ApplyPermutes | train.py:169 | Shuffling by a permutation keeps the length and the multiset of elements. |
| Permutations.ApplyDistinct | train.py:249 | Shuffling a sequence of distinct pids gives distinct pids. |
| Permutations.GatherCount | train.py:170 | Gathering from a distinct sequence returns its element j exactly as often as the index list names j. |
| KSelection.CeilDiv | train.py:165 | The integer `ceil(K / count)` is the q with `K <= q * count < K + count`. |
| KSelection.CeilDivUnique | train.py:165 | Any q with `K <= q * count < K + count` equals `ceil(K / count)`, so in exact arithmetic the integer ceiling is the `ceil` of the source (see `KSelection.PaddedCount` under Left out for the float32 range). |
| KSelection.PaddedCount | train.py:164-166 | `padded_count` is a multiple of `count` with quotient `ceil(K / count)`. It is at least K and below `K + count`, and positive when K is. It equals `count` when `1 <= K <= count`. |
| KSelection.FullRange | train.py:166 | `full_range` has length `padded_count`. |
| KSelection.FullRangeBalanced | train.py:160-166 | Every index in `[0, count)` occurs exactly `padded_count / count` times in `full_range`, and no other value occurs. |
| KSelection.SelectIndices | train.py:169-170 | The shuffled pool cut to its first K entries has exactly K entries, each a valid index below `count`. |
| KSelection.RepetitionBound | train.py:165-170 | No index is selected more than `ceil(K / count)` times. |
| KSelection.NoDuplicatesWhenEnough | train.py:160-170 | When `count >= K` the K selected indices are pairwise distinct. |
| KSelection.NoLowerBound | train.py:160-170 | With `count = 3` and `K = 4`, the valid shuffle `[0, 1, 3, 4, 2, 5]` selects `[0, 1, 0, 1]`, so sample 2 is never used. A lower bound of `floor(K / count)` uses per image therefore does not hold. |
| KSelection.PossibleFids | train.py:158 | The masked list's length is the number of rows labelled `pid`. Each kept file is such a row's file, and every such row's file is kept. |
| KSelection.RowsFrom | train.py:158 | The mask `all_pids == pid` as a list of row indices: strictly increasing, each labelled `pid`, and holding every row from `from` on that is labelled `pid`. |
| KSelection.PossibleFidsInRowOrder | train.py:158 | `tf.boolean_mask` gathers `all_fids` at exactly the labelled rows in increasing order: each such row's file once, in dataset order. |
| KSelection.SampleKFidsForPid | train.py:156-172 | Returns K files, each the file of a dataset row labelled `pid`, and a label vector of exactly K copies of `pid`. |
| KSelection.SampleKRepetitionBound | train.py:156-172 | For an identity whose files are distinct, no file is returned more than `ceil(K / count)` times, and no name other than its files is returned. |
| KSelection.SampleKNoDuplicates | train.py:156-172 | An identity with at least K distinct files gets K distinct files. |
| KSelection.SingleSampleRepeated | train.py:156-172 | An identity with exactly one file gets that file K times. |
| PKPipeline.Unique | train.py:247 | The unique pids are distinct and are exactly the pids of the dataset. Their order is not modelled (see Left out). |
| PKPipeline.Epoch | train.py:248-253 | One epoch has length `(n // P) * P`. That is a multiple of P, at most n and more than `n - P`, and zero when `n < P`. The epoch's pids come from the unique pids and are pairwise distinct. |
| PKPipeline.Repeat | train.py:254 | The repeated stream has `(n // P) * P` pids per epoch, all of them dataset pids. |
| PKPipeline.SelectAll | train.py:257-258 | The map applies `sample_k_fids_for_pid` to every pid of the stream, in order, with that pid's draw. |
| PKPipeline.Unbatch | train.py:261 | The definition of `unbatch`: the groups' (fid, pid) pairs, concatenated in order. Its properties are in `UnbatchLabels` and `BatchOfGroups`. |
| PKPipeline.UnbatchLabels | train.py:261 | Unbatching groups labelled by `ids` yields samples whose labels are K copies of each pid, in order. |
| PKPipeline.Batch | train.py:286-287 | The definition of `batch(P*K)` without `drop_remainder`: consecutive chunks of at most `size` elements. Its properties are in `BatchSplits` and `BatchOfGroups`. |
| PKPipeline.BatchSplits | train.py:286-287 | `batch` neither drops nor reorders elements. Every batch holds 1 to `size` elements, and all batches but the last are full. |
| PKPipeline.BatchOfGroups | train.py:253-261 | Batching `m * P` groups of K samples by P*K puts the batch boundaries on group boundaries. Batch b is the unbatched b-th run of P groups. |
| PKPipeline.RepeatBatchesDistinct | train.py:247-254 | Every run of P consecutive pids of the repeated stream is full and lies within one epoch, so its pids are distinct. |
| PKPipeline.PKStream | train.py:247-287 | The definition of the whole training stream: unique, shuffle, take, repeat, map, unbatch and batch composed. Its shape is in `PKStreamShape` and `TooFewIdentitiesNoBatches`. |
| PKPipeline.PKStreamShape | train.py:247-287 | The stream holds `n // P` batches per epoch. Batch b has length P*K. It consists of P consecutive runs of K equal pids, from the b-th run of P pids of the shuffled stream. Those P pids are distinct, and every sample is a dataset row. |
| PKPipeline.RunsCount | train.py:286-287 | In a batch made of P distinct pids, each of them occurs exactly K times and no other pid occurs. |
| PKPipeline.TooFewIdentitiesNoBatches | train.py:253-254 | With fewer than P unique pids the stream holds no batch, so the first fetch of the loop finds none. |
| ResumeArgs.PyEq | train.py:197 | The definition of Python's `==` on argument values, whose negation is the `!=` of line 197. Its cases are in `PyEqAcrossTypes`. |
| ResumeArgs.PyEqAcrossTypes | train.py:197 | Python's `==` holds across `bool`, `int` and `float` (`True == 1 == 1.0`), but not between a string and a number, nor between `None` and `False`. |
| ResumeArgs.Resumed | train.py:189 | The persisted arguments, with `resume` forced to `True` and every other entry unchanged. |
| ResumeArgs.MergedValue | train.py:195-201 | The definition of the value a key ends with: the persisted value when it is present and differs, else the supplied one. Its properties are in `MergeSemantics` and `ResumeIsTrue`. |
| ResumeArgs.Merged | train.py:194-204 | The definition of the merged arguments: the supplied keys, each with its `MergedValue`. `MergeResumed` computes it, and `MergeSemantics` states what it holds. |
| ResumeArgs.WarningFor | train.py:195-204 | The definition of the warning for one key: new argument, conflict, or none. Its properties are in `WarningsExactly`. |
| ResumeArgs.Warnings | train.py:194-204 | The definition of the warning log: `WarningFor` of each key in dictionary order. `MergeResumed` computes it, and `WarningsExactly` and `WarningsOncePerKey` state what it holds. |
| ResumeArgs.MergeResumed | train.py:189-204 | The loop leaves exactly the merged arguments. It logs, in dictionary order, one warning per differing argument and one per new argument. |
| ResumeArgs.MergeSemantics | train.py:194-204 | Exactly the supplied keys remain, so file-only keys are not added. A key also in the file ends equal, in Python's sense, to the file's value, and is the file's value itself when the two differed. A key missing from the file keeps the supplied value. |
| ResumeArgs.ResumeIsTrue | train.py:189-201 | After the merge `resume` is true, and exactly `True` when it was supplied as `True`. |
| ResumeArgs.WarningsExactly | train.py:194-204 | A new-argument warning is logged for a key exactly when it is supplied and missing from the file. A conflict warning is logged exactly when the two values differ in Python's sense. Every warning about a key is of the kind its case calls for. |
| ResumeArgs.WarningsOncePerKey | train.py:194-204 | No key is warned about twice. |
| ResumeArgs.PersistedBatchPWins | train.py:194-201 | A persisted `batch_p = 16` wins over a supplied `batch_p = 32`, with exactly one conflict warning. |
| TrainingLoop.ShouldSave | train.py:518-519 | The definition of the intermediate-save condition `checkpoint_frequency > 0 and step % checkpoint_frequency == 0`. It is used by `SavesPolicy`, `SavedIterations` and `CheckpointPolicy`. |
| TrainingLoop.StepsRun | train.py:457-526 | The definition of how many iterations run: up to the end of the range, stopping after the first interrupt. Its properties are in `StepsRunCharacterized`, `AllStepsWithoutInterrupt` and `InterruptStopsNext`. |
| TrainingLoop.Saves | train.py:517-521 | The definition of the intermediate checkpoints of the iterations run, in order. Its properties are in `SavesPolicy`, `SavesInIterationOrder` and `SavesOfRegularSteps`. |
| TrainingLoop.Run | train.py:440-532 | The definition of the loop's outcome: the fresh-start save, `Saves`, then the final save, or `StepUnbound` for an empty range. `Train` computes it, and `CheckpointPolicy` and `FailsExactlyOnEmptyRange` state what it holds. |
| TrainingLoop.Train | train.py:440-532 | The loop returns the outcome given by `Run`: the checkpoints saved, the number of iterations run and whether it stopped on an interrupt, or the `NameError` outcome. |
| TrainingLoop.StepsRunCharacterized | train.py:457-526 | At most `train_iterations - start_step` iterations run: none for an empty range, at least one otherwise. No iteration but the last saw an interrupt, and the last one either ends the range or saw an interrupt. |
| TrainingLoop.AllStepsWithoutInterrupt | train.py:457 | Without an interrupt, every iteration of `range(start_step, train_iterations)` runs. |
| TrainingLoop.InterruptStopsNext | train.py:523-526 | An interrupt observed after iteration j stops the loop before iteration j + 1. |
| TrainingLoop.SavesPolicy | train.py:517-521 | Intermediate checkpoints are saved only at steps with `freq > 0 && step % freq == 0`, each the step of an iteration that ran, at most one per iteration, and none when `freq = 0`. Every iteration whose step qualifies is saved. |
| TrainingLoop.SavedIterations | train.py:517-521 | The iterations that save an intermediate checkpoint are exactly those in range whose step qualifies, each once, in increasing order. |
| TrainingLoop.SavesInIterationOrder | train.py:517-521 | The intermediate checkpoints are, position by position, the steps of the qualifying iterations in iteration order. |
| TrainingLoop.SavesOfRegularSteps | train.py:517-521 | When `global_step` advances by one per iteration, the intermediate checkpoints are exactly the multiples of the frequency in `(start_step, start_step + iterations run]`. |
| TrainingLoop.FailsExactlyOnEmptyRange | train.py:528-532 | The run ends in `NameError`, having saved only the fresh-start checkpoint, exactly when `start_step >= train_iterations`. |
| TrainingLoop.CheckpointPolicy | train.py:440-532 | On a non-empty range, a fresh start first saves step 0. The intermediate checkpoints of the iterations run follow (`Saves`, so the two lemmas above apply), all of qualifying steps. Exactly one final checkpoint comes last, at the last step run. The run stopped on an interrupt exactly when its last iteration saw one, and otherwise ran the whole range. |
| TrainingLoop.FreshRunOfFive | train.py:440-532 | A fresh run of 5 iterations saving every 2 steps, with no interrupt, saves steps 0, 2 and 4, then 5 as the final checkpoint. |
| TrainingLoop.ResumeAfterLastIteration | train.py:528-532 | Resuming a run that already reached `train_iterations` saves nothing and ends in `NameError`. |

## Left out

- Loss and distance computation (`loss.cdist`, `loss.LOSS_CHOICES`): that code lives in `loss.py`, which is not part of this model, and it is floating point.
- Learning-rate decay, `num_active`, `loss_mean`, the ETA and `secs_per_iter`: floating point.
- Image loading (`common.fid_to_image`) and the flip, rotate and crop augmentations: library calls and random floats. The model assumes loading keeps each fid with its pid and keeps the order.
- The network, head, optimizer, session, summaries and the mem-mapped detailed logs: TensorFlow and file I/O.
- The experiment-directory checks, reading and writing `args.json`, and checkpoint restore and save internals: file I/O. A checkpoint save is an appended step number.
- `num_parallel_calls` and `prefetch(1)`: concurrency. The model assumes order-preserving loading.
- The test-set pipeline: it repeats the training pipeline, which is modelled once.
- Uniform randomness of the shuffles: the model proves its properties for every permutation, not for their distribution.
- `common.load_dataset`: the dataset is given as two lists of equal length.
- `lb.Uninterrupt`'s signal handling: the interrupt flag is an oracle per iteration.
- The value of `global_step` on a fresh start, which TensorFlow initialises to 0: `start_step` and each step read after `train_op` are parameters.
- Python equality (`ResumeArgs.PyEq`) covers only the scalar argument types (`None`, `bool`, `int`, `float`, `str`), and treats floats as exact reals without NaN or infinities.
- KSelection.PaddedCount: computes `ceil(K / count)` and `padded_count` in exact integer arithmetic. The source divides in float32 and casts to int32, which agrees only while K <= 2^24 and `padded_count` fits in 32 bits; for example K = 2^24 + 1 with count = 1 gives `padded_count = K - 1` in float32.
- PKPipeline.Unique: does not sort the pids as `np.unique` does; it keeps last-occurrence order. Every epoch then applies an arbitrary permutation, so no stated property depends on the order.
- PKPipeline.TooFewIdentitiesNoBatches: proves only that the stream is empty. The `OutOfRangeError` of the first fetch (train.py:461) is not modelled, because the training loop takes its steps as an oracle and is not connected to the stream.
- PKPipeline.PKStreamShape: covers any finite number of epochs of the infinite `repeat(None)` stream, not the stream itself.
