/**
  Merging the persisted experiment arguments into the supplied ones when a run
  is resumed (train.py:189-204).

  The arguments are the attribute dictionary of the parsed command line
  (`args.__dict__`), a map from argument name to a scalar value; `args.json`
  is read into a second map. Reading and writing the file are left out: the
  loaded map is a parameter. Python iterates a dictionary in insertion order,
  which the model takes as the parameter `order`, listing every supplied key
  once.
 */
module ResumeArgs {

  /** The scalar values an argument takes: `None`, a flag, an integer, a
      floating-point number or a string. */
  datatype Value = None | Bool(b: bool) | Int(i: int) | Float(r: real) | Str(s: string)

  /** Whether the value is a number in Python's sense: `bool` is a subclass of `int`. */
  predicate IsNumber(v: Value) {
    v.Bool? || v.Int? || v.Float?
  }

  /** The numeric value of a number (`True` is 1, `False` is 0). */
  function NumberOf(v: Value): (x: real)
    requires IsNumber(v)
    ensures v.Bool? ==> x == if v.b then 1.0 else 0.0
    ensures v.Int? ==> x == v.i as real
    ensures v.Float? ==> x == v.r
  {
    match v
    case Bool(b) => if b then 1.0 else 0.0
    case Int(i) => i as real
    case Float(r) => r
  }

  /** Python's `==` on these values: numbers compare by value across `bool`,
      `int` and `float`; strings by contents; `None` only equals `None`. */
  predicate PyEq(a: Value, b: Value) {
    if IsNumber(a) && IsNumber(b) then NumberOf(a) == NumberOf(b)
    else if a.Str? && b.Str? then a.s == b.s
    else a.None? && b.None?
  }

  /** Python's `==` is an equivalence: it is reflexive and symmetric here, and
      equal values are equal in Python's sense. */
  lemma PyEqEquivalence(a: Value, b: Value)
    ensures PyEq(a, a)
    ensures PyEq(a, b) <==> PyEq(b, a)
    ensures a == b ==> PyEq(a, b)
  {
  }

  /** `True == 1` and `1 == 1.0` hold in Python although the values differ, so
      the merge does not replace a supplied `1` by a persisted `true`. */
  lemma PyEqAcrossTypes()
    ensures PyEq(Bool(true), Int(1)) && PyEq(Int(1), Float(1.0))
    ensures !PyEq(Str("1"), Int(1)) && !PyEq(None, Bool(false))
  {
  }

  /** One line of the warnings the merge prints. */
  datatype Warning =
    | Conflict(key: string, loaded: Value, provided: Value)  // train.py:198-200
    | NewArgument(key: string, value: Value)                  // train.py:203-204

  /** `order` lists every key of `args` exactly once. */
  ghost predicate Enumerates(order: seq<string>, args: map<string, Value>) {
    && (forall i, j :: 0 <= i < j < |order| ==> order[i] != order[j])
    && (forall key :: key in order <==> key in args)
  }

  /** The persisted arguments as the merge sees them: `resume` is forced to
      `True` before the comparison (train.py:189). */
  function Resumed(loaded: map<string, Value>): (file: map<string, Value>)
    ensures "resume" in file && file["resume"] == Bool(true)
    ensures forall key :: key in file <==> key in loaded || key == "resume"
    ensures forall key :: key in loaded && key != "resume" ==> file[key] == loaded[key]
  {
    loaded["resume" := Bool(true)]
  }

  /** The value the merge leaves under `key`: the persisted one when it differs
      in Python's sense from the supplied one, the supplied one otherwise. */
  function MergedValue(provided: Value, key: string, file: map<string, Value>): Value {
    if key in file && !PyEq(file[key], provided) then file[key] else provided
  }

  /** The arguments after the merge: the keys of `args`, each with its merged value. */
  function Merged(args: map<string, Value>, file: map<string, Value>): map<string, Value> {
    map key | key in args :: MergedValue(args[key], key, file)
  }

  /** The warning printed for `key`, if any. */
  function WarningFor(key: string, provided: Value, file: map<string, Value>): (w: seq<Warning>) {
    if key !in file then [NewArgument(key, provided)]
    else if !PyEq(file[key], provided) then [Conflict(key, file[key], provided)]
    else []
  }

  /** The warnings printed for the keys of `keys`, in that order. */
  function Warnings(keys: seq<string>, args: map<string, Value>, file: map<string, Value>): seq<Warning>
    requires forall key :: key in keys ==> key in args
    decreases |keys|
  {
    if |keys| == 0 then []
    else WarningFor(keys[0], args[keys[0]], file) + Warnings(keys[1..], args, file)
  }

  /** The merge loop of train.py:189-204: walks the supplied arguments in
      dictionary order, takes the persisted value where it differs, and logs a
      warning for every differing and every new argument. */
  method MergeResumed(args: map<string, Value>, order: seq<string>, loaded: map<string, Value>)
    returns (merged: map<string, Value>, warnings: seq<Warning>)
    requires Enumerates(order, args)
    ensures merged == Merged(args, Resumed(loaded))
    ensures warnings == Warnings(order, args, Resumed(loaded))
  {
    var file := Resumed(loaded);
    merged := args;
    warnings := [];
    var n := 0;
    while n < |order|
      invariant n <= |order|
      invariant MergedUpTo(merged, args, order, file, n)
      invariant warnings == Warnings(order[..n], args, file)
    {
      var key := order[n];
      var value := merged[key];
      ghost var before, logged := merged, warnings;
      if key in file {
        var resumedValue := file[key];
        if !PyEq(resumedValue, value) {
          warnings := warnings + [Conflict(key, resumedValue, value)];
          merged := merged[key := resumedValue];
        }
      } else {
        warnings := warnings + [NewArgument(key, value)];
      }
      MergeStep(args, order, file, before, merged, n);
      assert warnings == logged + WarningFor(key, value, file);
      WarningsPrefix(order, n, args, file);
      n := n + 1;
    }
    assert order[..n] == order;
    MergedByOrder(args, order, file, merged);
  }

  /** `merged` holds the merged value under the first n keys of `order` and the
      supplied value under the others. */
  ghost predicate MergedUpTo(merged: map<string, Value>, args: map<string, Value>, order: seq<string>,
                             file: map<string, Value>, n: nat)
  {
    && merged.Keys == args.Keys
    && forall i :: 0 <= i < |order| ==>
         order[i] in args && merged[order[i]] == if i < n then MergedValue(args[order[i]], order[i], file) else args[order[i]]
  }

  /** One iteration of the merge loop settles the n-th key and nothing else. */
  lemma MergeStep(args: map<string, Value>, order: seq<string>, file: map<string, Value>,
                  before: map<string, Value>, after: map<string, Value>, n: nat)
    requires Enumerates(order, args)
    requires n < |order|
    requires MergedUpTo(before, args, order, file, n)
    requires after == before[order[n] := MergedValue(before[order[n]], order[n], file)]
    ensures MergedUpTo(after, args, order, file, n + 1)
  {
  }

  /** A map that holds the merged value under every key of `order` is the merged map. */
  lemma MergedByOrder(args: map<string, Value>, order: seq<string>, file: map<string, Value>,
                      merged: map<string, Value>)
    requires Enumerates(order, args)
    requires merged.Keys == args.Keys
    requires forall i :: 0 <= i < |order| ==> merged[order[i]] == MergedValue(args[order[i]], order[i], file)
    ensures merged == Merged(args, file)
  {
    forall key | key in args
      ensures merged[key] == Merged(args, file)[key]
    {
      var i :| 0 <= i < |order| && order[i] == key;
    }
  }

  /** Taking one more key of `order` appends that key's warning. */
  lemma WarningsPrefix(order: seq<string>, n: nat, args: map<string, Value>, file: map<string, Value>)
    requires forall key :: key in order ==> key in args
    requires n < |order|
    ensures Warnings(order[..n + 1], args, file) == Warnings(order[..n], args, file) + WarningFor(order[n], args[order[n]], file)
  {
    assert order[..n + 1] == order[..n] + [order[n]];
    WarningsSnoc(order[..n], order[n], args, file);
  }

  /** Appending a key appends its warning. */
  lemma {:induction false} WarningsSnoc(keys: seq<string>, key: string, args: map<string, Value>,
                                         file: map<string, Value>)
    requires forall k :: k in keys ==> k in args
    requires key in args
    ensures Warnings(keys + [key], args, file) == Warnings(keys, args, file) + WarningFor(key, args[key], file)
    decreases |keys|
  {
    if |keys| == 0 {
      assert keys + [key] == [key];
    } else {
      assert (keys + [key])[1..] == keys[1..] + [key];
      WarningsSnoc(keys[1..], key, args, file);
    }
  }

  /** Merge semantics: exactly the supplied keys remain (persisted-only keys are
      not added); a key also persisted ends with a value equal, in Python's
      sense, to the persisted one, and with the persisted value itself when the
      two differed; a key missing from the file keeps the supplied value. */
  lemma MergeSemantics(args: map<string, Value>, loaded: map<string, Value>)
    ensures var file := Resumed(loaded);
            var m := Merged(args, file);
            && m.Keys == args.Keys
            && (forall key :: key in file && key !in args ==> key !in m)
            && (forall key :: key in args && key in file ==> PyEq(m[key], file[key]))
            && (forall key :: key in args && key in file && !PyEq(file[key], args[key]) ==> m[key] == file[key])
            && (forall key :: key in args && key !in file ==> m[key] == args[key])
  {
    var file := Resumed(loaded);
    forall key | key in args && key in file
      ensures PyEq(Merged(args, file)[key], file[key])
    {
      PyEqEquivalence(args[key], file[key]);
      PyEqEquivalence(file[key], file[key]);
    }
  }

  /** After resuming, the `resume` argument is true (in Python's sense; exactly
      `True` when the flag was supplied as `True`, as `store_true` does). */
  lemma ResumeIsTrue(args: map<string, Value>, loaded: map<string, Value>)
    requires "resume" in args
    ensures PyEq(Merged(args, Resumed(loaded))["resume"], Bool(true))
    ensures args["resume"] == Bool(true) ==> Merged(args, Resumed(loaded))["resume"] == Bool(true)
  {
    PyEqEquivalence(args["resume"], Bool(true));
  }

  /** A warning names the key it is printed for. */
  lemma {:induction false} WarningKeys(keys: seq<string>, args: map<string, Value>, file: map<string, Value>,
                                        w: Warning)
    requires forall key :: key in keys ==> key in args
    requires w in Warnings(keys, args, file)
    ensures w.key in keys
    decreases |keys|
  {
    if |keys| > 0 && w !in WarningFor(keys[0], args[keys[0]], file) {
      WarningKeys(keys[1..], args, file, w);
    }
  }

  /** A warning is logged for `key` exactly when `key` is supplied and is new
      or differs from the persisted value, and it says which of the two. */
  lemma {:induction false} WarningsExactly(keys: seq<string>, args: map<string, Value>, file: map<string, Value>,
                                            key: string)
    requires forall k :: k in keys ==> k in args
    requires key in args
    ensures NewArgument(key, args[key]) in Warnings(keys, args, file) <==> key in keys && key !in file
    ensures key in file ==>
              (Conflict(key, file[key], args[key]) in Warnings(keys, args, file) <==>
               key in keys && !PyEq(file[key], args[key]))
    ensures forall w :: w in Warnings(keys, args, file) && w.key == key ==>
              w == (if key in file then Conflict(key, file[key], args[key]) else NewArgument(key, args[key]))
    decreases |keys|
  {
    if |keys| > 0 {
      WarningsExactly(keys[1..], args, file, key);
      assert keys == [keys[0]] + keys[1..];
    }
  }

  /** No key is warned about twice. */
  lemma {:induction false} WarningsOncePerKey(keys: seq<string>, args: map<string, Value>, file: map<string, Value>)
    requires forall key :: key in keys ==> key in args
    requires forall i, j :: 0 <= i < j < |keys| ==> keys[i] != keys[j]
    ensures forall i, j :: 0 <= i < j < |Warnings(keys, args, file)| ==>
              Warnings(keys, args, file)[i].key != Warnings(keys, args, file)[j].key
    decreases |keys|
  {
    if |keys| > 0 {
      var head, rest := WarningFor(keys[0], args[keys[0]], file), Warnings(keys[1..], args, file);
      WarningsOncePerKey(keys[1..], args, file);
      forall j | 0 <= j < |rest|
        ensures rest[j].key != keys[0]
      {
        assert rest[j] in rest;
        WarningKeys(keys[1..], args, file, rest[j]);
      }
    }
  }

  /** The persisted `batch_p = 16` wins over a supplied `batch_p = 32`, with a
      conflict warning, and nothing fails. */
  lemma PersistedBatchPWins()
    ensures var args := map["batch_p" := Int(32), "resume" := Bool(true)];
            var loaded := map["batch_p" := Int(16), "resume" := Bool(false)];
            && Merged(args, Resumed(loaded)) == map["batch_p" := Int(16), "resume" := Bool(true)]
            && Warnings(["batch_p", "resume"], args, Resumed(loaded)) == [Conflict("batch_p", Int(16), Int(32))]
  {
    var args := map["batch_p" := Int(32), "resume" := Bool(true)];
    var loaded := map["batch_p" := Int(16), "resume" := Bool(false)];
    var file := Resumed(loaded);
    assert file == map["batch_p" := Int(16), "resume" := Bool(true)];
    var keys := ["batch_p", "resume"];
    assert keys[1..] == ["resume"];
    assert Warnings(keys[1..][1..], args, file) == [];
  }
}
