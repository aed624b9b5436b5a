/**
  The main training loop and its checkpoint policy (train.py:442-443, 450-532).

  Only the control flow is modelled. A step's work (loading a batch, the
  optimizer step, summaries and logs) is left out; what the loop uses of it is
  the value of `global_step` read in the same `sess.run` as `train_op`, given
  here by the oracle `stepAt(i)` for loop index i. The Ctrl+C / SIGTERM flag of
  `lb.Uninterrupt`, read after each step, is the oracle `interruptedAt(i)`.
  Saving a checkpoint is modelled as appending its step number to a list.
 */
module TrainingLoop {

  /** How the run ends. `Completed` ran at least one step and saved its final
      checkpoint; `StepUnbound` ran no step, so the final save reads the never
      assigned `step` and Python raises `NameError` (train.py:531-532). */
  datatype RunResult =
    | Completed(checkpoints: seq<int>, stepsRun: nat, interrupted: bool)
    | StepUnbound(checkpoints: seq<int>)

  /** Whether a step gets an intermediate checkpoint (train.py:518-519). The
      step is taken modulo a positive frequency only, where Python's floored
      `%` and Dafny's Euclidean `%` agree. */
  predicate ShouldSave(step: int, freq: nat) {
    freq > 0 && step % freq == 0
  }

  /** The checkpoint saved before the loop: step 0 on a fresh start, none on
      resume (train.py:427-443). */
  function InitialSaves(freshStart: bool): seq<int> {
    if freshStart then [0] else []
  }

  /** How many loop iterations run from index `i` on: up to `iterations`, and
      no further than the first iteration after which an interrupt is seen. */
  function StepsRun(i: int, iterations: int, interruptedAt: int -> bool): nat
    decreases iterations - i
  {
    if i >= iterations then 0
    else if interruptedAt(i) then 1
    else 1 + StepsRun(i + 1, iterations, interruptedAt)
  }

  /** The intermediate checkpoints of the `count` iterations from index `start`. */
  function Saves(start: int, count: nat, freq: nat, stepAt: int -> int): seq<int> {
    if count == 0 then []
    else
      var step := stepAt(start + count - 1);
      Saves(start, count - 1, freq, stepAt) + (if ShouldSave(step, freq) then [step] else [])
  }

  /** The outcome of the loop (train.py:450-532). */
  function Run(freshStart: bool, start: int, iterations: int, freq: nat, stepAt: int -> int,
               interruptedAt: int -> bool): RunResult
  {
    var n := StepsRun(start, iterations, interruptedAt);
    if n == 0 then
      StepUnbound(InitialSaves(freshStart))
    else
      var last := start + n - 1;
      Completed(InitialSaves(freshStart) + Saves(start, n, freq, stepAt) + [stepAt(last)], n, interruptedAt(last))
  }

  /** The loop of train.py:442-443 and 457-532, run on the two oracles. */
  method Train(freshStart: bool, start: int, iterations: int, freq: nat, stepAt: int -> int,
               interruptedAt: int -> bool) returns (r: RunResult)
    ensures r == Run(freshStart, start, iterations, freq, stepAt, interruptedAt)
  {
    var checkpoints: seq<int> := [];
    if freshStart {
      checkpoints := checkpoints + [0];
    }
    var step: int := 0;
    var stepBound := false;
    var interrupted := false;
    var i := start;
    while i < iterations
      invariant start <= i
      invariant i <= iterations || i == start
      invariant stepBound <==> i > start
      invariant stepBound ==> step == stepAt(i - 1) && !interruptedAt(i - 1)
      invariant !interrupted
      invariant StepsRun(start, iterations, interruptedAt) == (i - start) + StepsRun(i, iterations, interruptedAt)
      invariant checkpoints == InitialSaves(freshStart) + Saves(start, i - start, freq, stepAt)
      decreases iterations - i
    {
      step := stepAt(i);
      stepBound := true;
      if freq > 0 && step % freq == 0 {
        checkpoints := checkpoints + [step];
      }
      if interruptedAt(i) {
        interrupted := true;
        assert checkpoints == InitialSaves(freshStart) + Saves(start, i - start + 1, freq, stepAt);
        break;
      }
      i := i + 1;
    }
    if stepBound {
      checkpoints := checkpoints + [step];
      var stepsRun := if interrupted then i - start + 1 else i - start;
      assert StepsRun(start, iterations, interruptedAt) == stepsRun;
      r := Completed(checkpoints, stepsRun, interrupted);
    } else {
      r := StepUnbound(checkpoints);
    }
  }

  /** The number of iterations is fixed by the range and the interrupts: at most
      `iterations - i` run (none when the range is empty, at least one
      otherwise), every iteration but the last saw no interrupt, and the last
      one either ends the range or saw an interrupt. */
  lemma {:induction false} StepsRunCharacterized(i: int, iterations: int, interruptedAt: int -> bool)
    ensures i >= iterations ==> StepsRun(i, iterations, interruptedAt) == 0
    ensures i < iterations ==> 1 <= StepsRun(i, iterations, interruptedAt) <= iterations - i
    ensures forall j :: i <= j < i + StepsRun(i, iterations, interruptedAt) - 1 ==> !interruptedAt(j)
    ensures StepsRun(i, iterations, interruptedAt) > 0 ==>
              var last := i + StepsRun(i, iterations, interruptedAt) - 1;
              last == iterations - 1 || interruptedAt(last)
    decreases iterations - i
  {
    if i < iterations && !interruptedAt(i) {
      StepsRunCharacterized(i + 1, iterations, interruptedAt);
    }
  }

  /** Without an interrupt every iteration of `range(start, iterations)` runs. */
  lemma AllStepsWithoutInterrupt(start: int, iterations: int, interruptedAt: int -> bool)
    requires start < iterations
    requires forall j :: start <= j < iterations - 1 ==> !interruptedAt(j)
    ensures StepsRun(start, iterations, interruptedAt) == iterations - start
  {
    StepsRunCharacterized(start, iterations, interruptedAt);
  }

  /** An interrupt seen after iteration j stops the loop before iteration j + 1. */
  lemma InterruptStopsNext(start: int, iterations: int, interruptedAt: int -> bool, j: int)
    requires start <= j
    requires interruptedAt(j)
    ensures start + StepsRun(start, iterations, interruptedAt) <= j + 1
  {
    StepsRunCharacterized(start, iterations, interruptedAt);
  }

  /** The iterations, among the `count` from index `start`, whose step gets an
      intermediate checkpoint: exactly those whose step the frequency divides,
      each once, in increasing order. */
  function SavedIterations(start: int, count: nat, freq: nat, stepAt: int -> int): (its: seq<int>)
    ensures forall m :: 0 <= m < |its| ==> start <= its[m] < start + count && ShouldSave(stepAt(its[m]), freq)
    ensures forall m, l :: 0 <= m < l < |its| ==> its[m] < its[l]
    ensures forall j :: start <= j < start + count && ShouldSave(stepAt(j), freq) ==> j in its
  {
    if count == 0 then
      []
    else
      var j := start + count - 1;
      SavedIterations(start, count - 1, freq, stepAt) + (if ShouldSave(stepAt(j), freq) then [j] else [])
  }

  /** The intermediate checkpoints are the steps of the qualifying iterations,
      one per such iteration and in iteration order. */
  lemma {:induction false} SavesInIterationOrder(start: int, count: nat, freq: nat, stepAt: int -> int)
    ensures |Saves(start, count, freq, stepAt)| == |SavedIterations(start, count, freq, stepAt)|
    ensures forall m :: 0 <= m < |Saves(start, count, freq, stepAt)| ==>
              Saves(start, count, freq, stepAt)[m] == stepAt(SavedIterations(start, count, freq, stepAt)[m])
  {
    if count > 0 {
      SavesInIterationOrder(start, count - 1, freq, stepAt);
    }
  }

  /** Intermediate checkpoints are saved only at steps the frequency divides,
      each the step of an iteration that ran, at most one per iteration, none
      when the frequency is 0, and at every iteration whose step the frequency
      divides. */
  lemma {:induction false} SavesPolicy(start: int, count: nat, freq: nat, stepAt: int -> int)
    ensures |Saves(start, count, freq, stepAt)| <= count
    ensures forall x :: x in Saves(start, count, freq, stepAt) ==> ShouldSave(x, freq)
    ensures forall x :: x in Saves(start, count, freq, stepAt) ==>
              exists j :: start <= j < start + count && stepAt(j) == x
    ensures forall j :: start <= j < start + count && ShouldSave(stepAt(j), freq) ==>
              stepAt(j) in Saves(start, count, freq, stepAt)
    ensures freq == 0 ==> Saves(start, count, freq, stepAt) == []
  {
    if count > 0 {
      SavesPolicy(start, count - 1, freq, stepAt);
    }
  }

  /** When `global_step` advances by one per iteration, so that iteration i
      reports step i + 1, the intermediate checkpoints are exactly the steps
      in `(start, start + count]` that the frequency divides. */
  lemma {:induction false} SavesOfRegularSteps(start: int, count: nat, freq: nat, stepAt: int -> int)
    requires forall j :: stepAt(j) == j + 1
    ensures forall x :: x in Saves(start, count, freq, stepAt) <==> start < x <= start + count && ShouldSave(x, freq)
  {
    if count > 0 {
      SavesOfRegularSteps(start, count - 1, freq, stepAt);
    }
  }

  /** The run fails, having saved only the checkpoint of a fresh start,
      exactly when `range(start, iterations)` is empty. */
  lemma FailsExactlyOnEmptyRange(freshStart: bool, start: int, iterations: int, freq: nat, stepAt: int -> int,
                                 interruptedAt: int -> bool)
    ensures Run(freshStart, start, iterations, freq, stepAt, interruptedAt).StepUnbound? <==> start >= iterations
    ensures start >= iterations ==>
              Run(freshStart, start, iterations, freq, stepAt, interruptedAt) == StepUnbound(InitialSaves(freshStart))
  {
    StepsRunCharacterized(start, iterations, interruptedAt);
  }

  /** The checkpoint policy of a run over a non-empty range: it saves step 0
      first on a fresh start, then the intermediate checkpoints of the
      iterations run (`Saves`, characterized by `SavesPolicy` and
      `SavesInIterationOrder`), then exactly one final checkpoint at the last step
      run, which is the last iteration of the range unless an interrupt
      stopped the loop earlier. */
  lemma CheckpointPolicy(freshStart: bool, start: int, iterations: int, freq: nat, stepAt: int -> int,
                         interruptedAt: int -> bool)
    requires start < iterations
    ensures var r := Run(freshStart, start, iterations, freq, stepAt, interruptedAt);
            && r.Completed?
            && 1 <= r.stepsRun <= iterations - start
            && |r.checkpoints| >= |InitialSaves(freshStart)| + 1
            && (freshStart ==> r.checkpoints[0] == 0)
            && r.checkpoints[|r.checkpoints| - 1] == stepAt(start + r.stepsRun - 1)
            && r.checkpoints[|InitialSaves(freshStart)|..|r.checkpoints| - 1] == Saves(start, r.stepsRun, freq, stepAt)
            && (forall x :: x in r.checkpoints[|InitialSaves(freshStart)|..|r.checkpoints| - 1] ==> ShouldSave(x, freq))
            && (r.interrupted <==> interruptedAt(start + r.stepsRun - 1))
            && (!r.interrupted ==> start + r.stepsRun == iterations)
  {
    var n := StepsRun(start, iterations, interruptedAt);
    StepsRunCharacterized(start, iterations, interruptedAt);
    var saves := Saves(start, n, freq, stepAt);
    SavesPolicy(start, n, freq, stepAt);
    var cps := InitialSaves(freshStart) + saves + [stepAt(start + n - 1)];
    assert Run(freshStart, start, iterations, freq, stepAt, interruptedAt) ==
           Completed(cps, n, interruptedAt(start + n - 1));
    assert cps[|InitialSaves(freshStart)|..|cps| - 1] == saves;
  }

  /** A fresh run of 5 iterations saving every 2 steps, with no interrupt,
      saves steps 0, 2, 4 and the final 5. */
  lemma FreshRunOfFive()
    ensures Run(true, 0, 5, 2, j => j + 1, _ => false) == Completed([0, 2, 4, 5], 5, false)
  {
    var stepAt: int -> int := j => j + 1;
    var never: int -> bool := _ => false;
    AllStepsWithoutInterrupt(0, 5, never);
    assert Saves(0, 5, 2, stepAt) == [2, 4] by {
      assert Saves(0, 0, 2, stepAt) == [];
      assert Saves(0, 1, 2, stepAt) == [];
      assert Saves(0, 2, 2, stepAt) == [2];
      assert Saves(0, 3, 2, stepAt) == [2];
      assert Saves(0, 4, 2, stepAt) == [2, 4];
    }
  }

  /** Resuming a run that already reached `train_iterations` runs no step and
      fails at the final save instead of saving a checkpoint. */
  lemma ResumeAfterLastIteration(iterations: int, freq: nat, stepAt: int -> int, interruptedAt: int -> bool)
    ensures Run(false, iterations, iterations, freq, stepAt, interruptedAt) == StepUnbound([])
  {
  }
}
