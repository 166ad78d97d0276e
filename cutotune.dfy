/** The autotuning dispatcher `_CutoTune` and the `cutotune` decorator
    (`utils/cutotune.py`). The wrapped function is opaque: a call is
    described by the arguments it is invoked with, and its running time by
    an oracle. */
module CutoTune {
  import opened Values
  import opened Exceptions
  import opened Configs
  import opened Selection
  import opened Triggers
  import opened Arguments
  import opened LookupKeys

  const DEFAULT_WARMUP_ITERATIONS: nat := 5
  const BENCHMARK_ITERATIONS: nat := 10

  /** The wall time of one call of the wrapped function with these keyword
      arguments. */
  type CallTime = Context -> real

  /** How the wrapped function is finally invoked: with the caller's own
      arguments when tuning is disabled, otherwise with the merged keyword
      dictionary. */
  datatype Invocation = Direct(args: seq<Value>, kwargs: Binding) | ByKeyword(arguments: map<string, Value>)

  // ---------------------------------------------------------------------
  // Benchmarking and the sweep

  /** `_run_benchmark`: `warmup` untimed calls, then `benchmark` timed ones;
      the result is the mean time of a timed call. Dividing by zero timed
      calls raises `ZeroDivisionError`. */
  method RunBenchmark(kwargs: Context, warmup: nat, benchmark: nat, callTime: CallTime)
    returns (calls: nat, r: Result<real>)
    ensures calls == warmup + benchmark
    ensures benchmark == 0 ==> r == Raise(ZeroDivisionError)
    ensures benchmark > 0 ==> r == Ok(callTime(kwargs))
  {
    calls := 0;
    var w := 0;
    while w < warmup
      invariant 0 <= w <= warmup && calls == w
    {
      calls := calls + 1;
      w := w + 1;
    }
    var elapsed: real := 0.0;
    var b := 0;
    while b < benchmark
      invariant 0 <= b <= benchmark && calls == warmup + b
      invariant elapsed == b as real * callTime(kwargs)
    {
      elapsed := elapsed + callTime(kwargs);
      calls := calls + 1;
      b := b + 1;
    }
    if benchmark == 0 {
      r := Raise(ZeroDivisionError);
    } else {
      var n := benchmark as real;
      assert elapsed / n == callTime(kwargs) by {
        assert elapsed == n * callTime(kwargs);
        assert n != 0.0;
      }
      r := Ok(elapsed / n);
    }
  }

  /** A config takes part in the sweep when its condition holds for the
      caller's arguments (first value per name) overlaid with its own values. */
  predicate Applicable(config: CutoTuneConfig, bound: Binding)
  {
    IsConditionValid(config, MergeArguments(map[], bound, false))
  }

  /** The time a benchmark measures for a config: one call with the config's
      values, caller values filling the other parameters. */
  function BenchTime(config: CutoTuneConfig, bound: Binding, callTime: CallTime): real
  {
    callTime(MergeArguments(config.values, bound, false))
  }

  /** The sweep's view of the configs: skipped (`None`) or timed. */
  function SweepTimes(configs: seq<CutoTuneConfig>, bound: Binding, callTime: CallTime): (times: seq<Option<real>>)
    ensures |times| == |configs|
    ensures forall i :: 0 <= i < |configs| ==>
              times[i] == if Applicable(configs[i], bound) then Some(BenchTime(configs[i], bound, callTime)) else None
  {
    seq(|configs|, i requires 0 <= i < |configs| =>
      if Applicable(configs[i], bound) then Some(BenchTime(configs[i], bound, callTime)) else None)
  }

  /** The outcome `_cutotune` must have: the first strictly fastest
      applicable config with its time, an assertion failure when no config
      applies, and a division by zero when there are no timed calls. */
  function SweepSpec(configs: seq<CutoTuneConfig>, bound: Binding, benchmark: nat, callTime: CallTime)
    : Result<(CutoTuneConfig, real)>
  {
    var times := SweepTimes(configs, bound, callTime);
    match FirstMinimum(times)
    case None => Raise(AssertionError(NoBestConfig))
    case Some(i) => if benchmark == 0 then Raise(ZeroDivisionError) else Ok((configs[i], times[i].value))
  }

  /** The winner of a successful sweep is applicable, no applicable config
      is faster, and every applicable config before it is strictly slower. */
  lemma SweepWinner(configs: seq<CutoTuneConfig>, bound: Binding, benchmark: nat, callTime: CallTime)
    requires SweepSpec(configs, bound, benchmark, callTime).Ok?
    ensures var (best, time) := SweepSpec(configs, bound, benchmark, callTime).value;
      exists i :: 0 <= i < |configs| && configs[i] == best && Applicable(best, bound)
        && time == BenchTime(best, bound, callTime)
        && (forall j :: 0 <= j < |configs| && Applicable(configs[j], bound) ==> time <= BenchTime(configs[j], bound, callTime))
        && (forall j :: 0 <= j < i && Applicable(configs[j], bound) ==> time < BenchTime(configs[j], bound, callTime))
  {
    var times := SweepTimes(configs, bound, callTime);
    var i := FirstMinimum(times).value;
    assert IsFirstMinimum(times, i);
    forall j | 0 <= j < |configs| && Applicable(configs[j], bound)
      ensures times[i].value <= BenchTime(configs[j], bound, callTime)
    {
      assert times[j].Some?;
    }
    forall j | 0 <= j < i && Applicable(configs[j], bound)
      ensures times[i].value < BenchTime(configs[j], bound, callTime)
    {
      assert times[j].Some?;
    }
  }

  /** The sweep fails with an assertion exactly when no config applies. */
  lemma SweepNeedsApplicableConfig(configs: seq<CutoTuneConfig>, bound: Binding, benchmark: nat, callTime: CallTime)
    ensures SweepSpec(configs, bound, benchmark, callTime) == Raise(AssertionError(NoBestConfig))
            <==> forall i :: 0 <= i < |configs| ==> !Applicable(configs[i], bound)
  {
    var times := SweepTimes(configs, bound, callTime);
    if forall i :: 0 <= i < |configs| ==> !Applicable(configs[i], bound) {
      assert forall i :: 0 <= i < |configs| ==> times[i].None?;
    }
  }

  /** `_cutotune`: benchmark every applicable config in order, keeping the
      first that is strictly faster than the best so far. */
  method Sweep(configs: seq<CutoTuneConfig>, bound: Binding, warmup: nat, benchmark: nat, callTime: CallTime)
    returns (r: Result<(CutoTuneConfig, real)>)
    ensures r == SweepSpec(configs, bound, benchmark, callTime)
  {
    ghost var times := SweepTimes(configs, bound, callTime);
    var best: Option<(CutoTuneConfig, real)> := None;
    ghost var bestIndex: Option<nat> := None;
    var i := 0;
    while i < |configs|
      invariant 0 <= i <= |configs|
      invariant bestIndex == FirstMinimum(times[..i])
      invariant best.Some? == bestIndex.Some?
      invariant bestIndex.Some? ==> bestIndex.value < i
      invariant bestIndex.Some? ==> best.value.0 == configs[bestIndex.value]
      invariant bestIndex.Some? ==> times[bestIndex.value] == Some(best.value.1)
      invariant benchmark == 0 ==> bestIndex.None?
    {
      FirstMinimumStep(times, i);
      var time := TryConfig(configs[i], bound, warmup, benchmark, callTime);
      if time.Raise? {
        assert times[i].Some?;
        return Raise(time.error);
      }
      if time.value.Some? && (best.None? || time.value.value < best.value.1) {
        best := Some((configs[i], time.value.value));
        bestIndex := Some(i);
      }
      i := i + 1;
    }
    assert times[..i] == times;
    if best.None? {
      return Raise(AssertionError(NoBestConfig));
    }
    r := Ok(best.value);
  }

  /** One iteration of the sweep: a config whose condition fails is
      skipped (`continue`), any other is benchmarked. */
  method TryConfig(config: CutoTuneConfig, bound: Binding, warmup: nat, benchmark: nat, callTime: CallTime)
    returns (time: Result<Option<real>>)
    ensures !Applicable(config, bound) ==> time == Ok(None)
    ensures Applicable(config, bound) ==>
              time == if benchmark == 0 then Raise(ZeroDivisionError) else Ok(Some(BenchTime(config, bound, callTime)))
  {
    var context := MergeArguments(map[], bound, false);
    if !IsConditionValid(config, context) {
      return Ok(None);
    }
    var calls, elapsed := RunBenchmark(MergeArguments(config.values, bound, false), warmup, benchmark, callTime);
    if elapsed.Raise? {
      return Raise(elapsed.error);
    }
    time := Ok(Some(elapsed.value));
  }

  // ---------------------------------------------------------------------
  // Construction

  /** `_check_configs`: every config binds exactly the tunable parameters. */
  method CheckConfigs(configs: seq<CutoTuneConfig>, tunables: set<string>) returns (ok: bool)
    ensures ok <==> forall i :: 0 <= i < |configs| ==> configs[i].values.Keys == tunables
  {
    var i := 0;
    while i < |configs|
      invariant 0 <= i <= |configs|
      invariant forall k :: 0 <= k < i ==> configs[k].values.Keys == tunables
    {
      if configs[i].values.Keys != tunables {
        return false;
      }
      i := i + 1;
    }
    return true;
  }

  /** The outcome `_CutoTune.__init__` must have, checked in the source's
      order: no config, then the trigger map, then mismatched config keys,
      then the unsupported in-place mode. On success, the trigger map. */
  function ConstructionSpec(configs: seq<CutoTuneConfig>, triggers: seq<string>, signatureArgs: seq<string>, inPlaceOp: bool)
    : Result<TriggerMap>
  {
    if |configs| == 0 then Raise(AssertionError(NoConfig))
    else
      var tunables := configs[0].values.Keys;
      match TriggerMapSpec(triggers, signatureArgs, tunables)
      case Raise(e) => Raise(e)
      case Ok(m) =>
        if exists i :: 0 <= i < |configs| && configs[i].values.Keys != tunables then Raise(AssertionError(ConfigKeysMismatch))
        else if inPlaceOp then Raise(NotImplementedError)
        else Ok(m)
  }

  /** Construction succeeds exactly for a non-empty config list sharing one
      key set, a valid trigger set and no in-place mode; the trigger map then
      names only non-tunable parameters of the signature. */
  lemma ConstructionSucceeds(configs: seq<CutoTuneConfig>, triggers: seq<string>, signatureArgs: seq<string>, inPlaceOp: bool)
    ensures ConstructionSpec(configs, triggers, signatureArgs, inPlaceOp).Ok? <==>
              |configs| > 0 && !inPlaceOp
              && (forall i :: 0 <= i < |configs| ==> configs[i].values.Keys == configs[0].values.Keys)
              && TriggerMapSpec(triggers, signatureArgs, configs[0].values.Keys).Ok?
    ensures ConstructionSpec(configs, triggers, signatureArgs, inPlaceOp).Ok? ==>
              var m := ConstructionSpec(configs, triggers, signatureArgs, inPlaceOp).value;
              forall v :: v in m ==> v in signatureArgs && v !in configs[0].values.Keys
  {
    if ConstructionSpec(configs, triggers, signatureArgs, inPlaceOp).Ok? {
      TriggerMapWellFormed(triggers, signatureArgs, configs[0].values.Keys);
    }
  }

  /** The fixed part of a dispatcher. */
  datatype Setup = Setup(
    configs: seq<CutoTuneConfig>,
    signatureArgs: seq<string>,
    tunables: set<string>,
    triggerMap: TriggerMap,
    warmupIterations: nat,
    benchmarkIterations: nat)

  // ---------------------------------------------------------------------
  // One call

  /** What one call returns and leaves behind: the result, the new
      `best_configs`, and whether it ran a sweep. */
  datatype Outcome = Outcome(result: Result<Invocation>, bestConfigs: map<LookupKey, CutoTuneConfig>, swept: bool)

  /** `__call__`, as a function of the memo table before the call. */
  function Dispatch(setup: Setup, best: map<LookupKey, CutoTuneConfig>, args: seq<Value>, kwargs: Binding,
                    disabled: bool, callTime: CallTime): Outcome
  {
    if disabled then
      match CheckNoMarkers(setup.signatureArgs, args, kwargs)
      case Raise(e) => Outcome(Raise(e), best, false)
      case Ok(_) => Outcome(Ok(Direct(args, kwargs)), best, false)
    else if |args| > |setup.signatureArgs| then Outcome(Raise(IndexError), best, false)
    else
      var bound := BindArguments(setup.signatureArgs, args, kwargs).value;
      match AllOrNoMarkers(bound, setup.tunables)
      case Raise(e) => Outcome(Raise(e), best, false)
      case Ok(overrideAllowed) =>
        match KeyOf(setup.triggerMap, bound)
        case Raise(e) => Outcome(Raise(e), best, false)
        case Ok(key) => DispatchOnKey(setup, best, key, bound, overrideAllowed, callTime)
  }

  /** The rest of `__call__` once the lookup key is known: reuse the
      memoised config, or sweep and memoise the winner. */
  function DispatchOnKey(setup: Setup, best: map<LookupKey, CutoTuneConfig>, key: LookupKey, bound: Binding,
                         overrideAllowed: bool, callTime: CallTime): Outcome
  {
    if key in best then
      Outcome(Ok(ByKeyword(MergeArguments(best[key].values, bound, overrideAllowed))), best, false)
    else
      match SweepSpec(setup.configs, bound, setup.benchmarkIterations, callTime)
      case Raise(e) => Outcome(Raise(e), best, true)
      case Ok(winner) =>
        Outcome(Ok(ByKeyword(MergeArguments(winner.0.values, bound, overrideAllowed))), best[key := winner.0], true)
  }

  /** A call never replaces or drops a memoised config, adds at most the
      entry for its own key, and adds one only after a sweep that
      succeeded. */
  lemma DispatchKeepsMemo(setup: Setup, best: map<LookupKey, CutoTuneConfig>, args: seq<Value>, kwargs: Binding,
                          disabled: bool, callTime: CallTime)
    ensures var o := Dispatch(setup, best, args, kwargs, disabled, callTime);
      && (forall k :: k in best ==> k in o.bestConfigs && o.bestConfigs[k] == best[k])
      && |o.bestConfigs.Keys - best.Keys| <= 1
      && (o.bestConfigs != best ==> o.swept && o.result.Ok?)
      && (disabled ==> !o.swept && o.bestConfigs == best)
  {
    var o := Dispatch(setup, best, args, kwargs, disabled, callTime);
    if !disabled && |args| <= |setup.signatureArgs| {
      var bound := BindArguments(setup.signatureArgs, args, kwargs).value;
      var overrideAllowed := AllOrNoMarkers(bound, setup.tunables);
      var key := KeyOf(setup.triggerMap, bound);
      if overrideAllowed.Ok? && key.Ok? {
        DispatchOnKeyKeepsMemo(setup, best, key.value, bound, overrideAllowed.value, callTime);
      }
    }
  }

  lemma DispatchOnKeyKeepsMemo(setup: Setup, best: map<LookupKey, CutoTuneConfig>, key: LookupKey, bound: Binding,
                               overrideAllowed: bool, callTime: CallTime)
    ensures var o := DispatchOnKey(setup, best, key, bound, overrideAllowed, callTime);
      && (forall k :: k in best ==> k in o.bestConfigs && o.bestConfigs[k] == best[k])
      && |o.bestConfigs.Keys - best.Keys| <= 1
      && (o.bestConfigs != best ==> o.swept && o.result.Ok?)
  {
    var sweep := SweepSpec(setup.configs, bound, setup.benchmarkIterations, callTime);
    if key !in best && sweep.Ok? {
      var updated := best[key := sweep.value.0];
      assert DispatchOnKey(setup, best, key, bound, overrideAllowed, callTime).bestConfigs == updated;
      assert updated.Keys - best.Keys == {key};
    }
  }

  /** A sweep runs only for a key that has no memoised config, and the
      config it memoises is the sweep's winner. */
  lemma DispatchSweepsOnMiss(setup: Setup, best: map<LookupKey, CutoTuneConfig>, args: seq<Value>, kwargs: Binding,
                             callTime: CallTime)
    requires |args| <= |setup.signatureArgs|
    requires var bound := BindArguments(setup.signatureArgs, args, kwargs).value;
      AllOrNoMarkers(bound, setup.tunables).Ok? && KeyOf(setup.triggerMap, bound).Ok?
    ensures var bound := BindArguments(setup.signatureArgs, args, kwargs).value;
      var key := KeyOf(setup.triggerMap, bound).value;
      var o := Dispatch(setup, best, args, kwargs, false, callTime);
      && (o.swept <==> key !in best)
      && (key !in best && o.result.Ok? ==>
            SweepSpec(setup.configs, bound, setup.benchmarkIterations, callTime).Ok?
            && o.bestConfigs == best[key := SweepSpec(setup.configs, bound, setup.benchmarkIterations, callTime).value.0])
  {
  }

  /** Once a call has succeeded, repeating it runs no sweep, leaves the memo
      table as it is and invokes the function the same way. */
  lemma RepeatCallNeedsNoSweep(setup: Setup, best: map<LookupKey, CutoTuneConfig>, args: seq<Value>, kwargs: Binding,
                               disabled: bool, callTime: CallTime, laterTime: CallTime)
    requires Dispatch(setup, best, args, kwargs, disabled, callTime).result.Ok?
    ensures var first := Dispatch(setup, best, args, kwargs, disabled, callTime);
      var second := Dispatch(setup, first.bestConfigs, args, kwargs, disabled, laterTime);
      !second.swept && second.bestConfigs == first.bestConfigs && second.result == first.result
  {
  }

  /** With markers for every tunable parameter, the caller's values are
      passed as given; without markers, the memoised config's values win. */
  lemma DispatchMergesBestConfig(setup: Setup, best: map<LookupKey, CutoTuneConfig>, args: seq<Value>, kwargs: Binding,
                                 callTime: CallTime)
    requires |args| <= |setup.signatureArgs|
    requires Dispatch(setup, best, args, kwargs, false, callTime).result.Ok?
    ensures var bound := BindArguments(setup.signatureArgs, args, kwargs).value;
      var o := Dispatch(setup, best, args, kwargs, false, callTime);
      var key := KeyOf(setup.triggerMap, bound).value;
      && key in o.bestConfigs
      && o.result == Ok(ByKeyword(MergeArguments(o.bestConfigs[key].values, bound, MarkerCount(bound, setup.tunables) == 0)))
  {
  }

  // ---------------------------------------------------------------------
  // The dispatcher object

  class CutoTune {
    const configs: seq<CutoTuneConfig>
    const signatureArgs: seq<string>
    /** `cutotuneable_parameters`: the key set of the first config. */
    const tunables: set<string>
    /** `variable_name_trigger_map`. */
    const triggerMap: TriggerMap
    const warmupIterations: nat
    const benchmarkIterations: nat
    /** `best_configs`: the memoised winner per lookup key. */
    var bestConfigs: map<LookupKey, CutoTuneConfig>
    /** The number of sweeps run so far. */
    ghost var sweeps: nat

    function SetupOf(): Setup
    {
      Setup(configs, signatureArgs, tunables, triggerMap, warmupIterations, benchmarkIterations)
    }

    /** Every config binds exactly the tunable parameters, the trigger map
        names only non-tunable parameters of the signature, and every
        memoised config is one of the configs. */
    ghost predicate Valid()
      reads this
    {
      && |configs| > 0
      && tunables == configs[0].values.Keys
      && (forall i :: 0 <= i < |configs| ==> configs[i].values.Keys == tunables)
      && (forall v :: v in triggerMap ==> v in signatureArgs && v !in tunables)
      && (forall k :: k in bestConfigs ==> exists i :: 0 <= i < |configs| && configs[i] == bestConfigs[k])
    }

    constructor Init(configs: seq<CutoTuneConfig>, signatureArgs: seq<string>, triggerMap: TriggerMap,
                     warmupIterations: nat, benchmarkIterations: nat)
      requires |configs| > 0
      ensures this.configs == configs && this.signatureArgs == signatureArgs && this.triggerMap == triggerMap
      ensures tunables == configs[0].values.Keys
      ensures this.warmupIterations == warmupIterations && this.benchmarkIterations == benchmarkIterations
      ensures bestConfigs == map[] && sweeps == 0
    {
      this.configs := configs;
      this.signatureArgs := signatureArgs;
      this.tunables := configs[0].values.Keys;
      this.triggerMap := triggerMap;
      this.warmupIterations := warmupIterations;
      this.benchmarkIterations := benchmarkIterations;
      bestConfigs := map[];
      sweeps := 0;
    }

    /** `_CutoTune(function, configs, triggers, ...)`; with its defaults this
        is also `cutotune(configs, triggers)(function)`. `signatureArgs` are
        the wrapped function's named parameters and `triggers` lists the
        trigger set in its iteration order. */
    static method Create(configs: seq<CutoTuneConfig>, signatureArgs: seq<string>, triggers: seq<string> := [],
                         warmupIterations: nat := DEFAULT_WARMUP_ITERATIONS,
                         benchmarkIterations: nat := BENCHMARK_ITERATIONS, inPlaceOp: bool := false)
      returns (r: Result<CutoTune>)
      ensures ConstructionSpec(configs, triggers, signatureArgs, inPlaceOp).Raise? ==>
                r == Raise(ConstructionSpec(configs, triggers, signatureArgs, inPlaceOp).error)
      ensures ConstructionSpec(configs, triggers, signatureArgs, inPlaceOp).Ok? ==>
                && r.Ok? && fresh(r.value) && r.value.Valid()
                && r.value.configs == configs && r.value.signatureArgs == signatureArgs
                && r.value.triggerMap == ConstructionSpec(configs, triggers, signatureArgs, inPlaceOp).value
                && r.value.warmupIterations == warmupIterations && r.value.benchmarkIterations == benchmarkIterations
                && r.value.bestConfigs == map[] && r.value.sweeps == 0
    {
      ConstructionSucceeds(configs, triggers, signatureArgs, inPlaceOp);
      if |configs| == 0 {
        return Raise(AssertionError(NoConfig));
      }
      var tunables := configs[0].values.Keys;
      var triggerMap := SetupTriggerMap(triggers, signatureArgs, tunables);
      if triggerMap.Raise? {
        return Raise(triggerMap.error);
      }
      var ok := CheckConfigs(configs, tunables);
      if !ok {
        return Raise(AssertionError(ConfigKeysMismatch));
      }
      if inPlaceOp {
        return Raise(NotImplementedError);
      }
      TriggerMapWellFormed(triggers, signatureArgs, tunables);
      var tuner := new CutoTune.Init(configs, signatureArgs, triggerMap.value, warmupIterations, benchmarkIterations);
      r := Ok(tuner);
    }

    /** `__call__(*args, **kwargs)`. `disabled` is the `DISABLE_CUTOTUNE`
        flag; `callTime` times the wrapped function during a sweep. */
    method Call(args: seq<Value>, kwargs: Binding, disabled: bool, callTime: CallTime) returns (r: Result<Invocation>)
      requires Valid()
      modifies this
      ensures Valid()
      ensures var o := Dispatch(SetupOf(), old(bestConfigs), args, kwargs, disabled, callTime);
        r == o.result && bestConfigs == o.bestConfigs && sweeps == old(sweeps) + (if o.swept then 1 else 0)
    {
      if disabled {
        var check := CheckNoMarkers(signatureArgs, args, kwargs);
        if check.Raise? {
          return Raise(check.error);
        }
        return Ok(Direct(args, kwargs));
      }
      var overrideAllowed := CheckAllOrNoMarkers(signatureArgs, args, kwargs, tunables);
      if overrideAllowed.Raise? {
        return Raise(overrideAllowed.error);
      }
      var bound := BindArguments(signatureArgs, args, kwargs).value;
      var lookupKey := GetLookupKey(triggerMap, signatureArgs, args, kwargs);
      if lookupKey.Raise? {
        return Raise(lookupKey.error);
      }
      r := CallOnKey(lookupKey.value, bound, overrideAllowed.value, callTime);
    }

    method CallOnKey(key: LookupKey, bound: Binding, overrideAllowed: bool, callTime: CallTime) returns (r: Result<Invocation>)
      requires Valid()
      modifies this
      ensures Valid()
      ensures var o := DispatchOnKey(SetupOf(), old(bestConfigs), key, bound, overrideAllowed, callTime);
        r == o.result && bestConfigs == o.bestConfigs && sweeps == old(sweeps) + (if o.swept then 1 else 0)
    {
      if key !in bestConfigs {
        var winner := Sweep(configs, bound, warmupIterations, benchmarkIterations, callTime);
        sweeps := sweeps + 1;
        if winner.Raise? {
          return Raise(winner.error);
        }
        SweepWinner(configs, bound, benchmarkIterations, callTime);
        bestConfigs := bestConfigs[key := winner.value.0];
      }
      r := Ok(ByKeyword(MergeArguments(bestConfigs[key].values, bound, overrideAllowed)));
    }
  }
}
