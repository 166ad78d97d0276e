/** How `_CutoTune` reads a call's arguments (`utils/cutotune.py`): positional
    arguments are named after the wrapped function's signature, markers
    (`CutoTuneParameter` instances) are counted, and config values are
    merged with the caller's arguments. */
module Arguments {
  import opened Values
  import opened Exceptions

  /** Named arguments in call order: positional ones first, then keywords. */
  type Binding = seq<(string, Value)>

  /** The positional arguments named after the signature, as far as it goes. */
  function Positional(signatureArgs: seq<string>, args: seq<Value>): (r: Binding)
    ensures |r| == if |args| <= |signatureArgs| then |args| else |signatureArgs|
    ensures forall i :: 0 <= i < |r| ==> r[i] == (signatureArgs[i], args[i])
  {
    var n := if |args| <= |signatureArgs| then |args| else |signatureArgs|;
    seq(n, i requires 0 <= i < n => (signatureArgs[i], args[i]))
  }

  /** `self.signature.args[i]` for every positional argument, followed by the
      keyword arguments; a positional argument beyond the signature's named
      parameters raises `IndexError`. */
  function BindArguments(signatureArgs: seq<string>, args: seq<Value>, kwargs: Binding): (r: Result<Binding>)
    ensures r.Ok? <==> |args| <= |signatureArgs|
    ensures r.Raise? ==> r.error == IndexError
    ensures r.Ok? ==> |r.value| == |args| + |kwargs|
    ensures r.Ok? ==> forall i :: 0 <= i < |args| ==> r.value[i] == (signatureArgs[i], args[i])
    ensures r.Ok? ==> forall j :: 0 <= j < |kwargs| ==> r.value[|args| + j] == kwargs[j]
  {
    if |args| > |signatureArgs| then Raise(IndexError)
    else Ok(Positional(signatureArgs, args) + kwargs)
  }

  function NameSet(bound: Binding): (r: set<string>)
    ensures forall name :: name in r <==> exists i :: 0 <= i < |bound| && bound[i].0 == name
  {
    set i | 0 <= i < |bound| :: bound[i].0
  }

  predicate DistinctNames(bound: Binding)
  {
    forall i, j :: 0 <= i < j < |bound| ==> bound[i].0 != bound[j].0
  }

  /** A marker passed for a tunable parameter. */
  predicate IsOverride(entry: (string, Value), tunables: set<string>)
  {
    entry.1.Marker? && entry.0 in tunables
  }

  /** The number of arguments that are markers for tunable parameters. */
  function MarkerCount(bound: Binding, tunables: set<string>): nat
  {
    if bound == [] then 0
    else MarkerCount(bound[..|bound| - 1], tunables) + (if IsOverride(bound[|bound| - 1], tunables) then 1 else 0)
  }

  lemma MarkerCountStep(bound: Binding, i: nat, tunables: set<string>)
    requires i < |bound|
    ensures MarkerCount(bound[..i + 1], tunables) == MarkerCount(bound[..i], tunables) + (if IsOverride(bound[i], tunables) then 1 else 0)
  {
    assert bound[..i + 1][..i] == bound[..i];
  }

  /** The tunable parameters the caller passed a marker for. */
  function MarkedTunables(bound: Binding, tunables: set<string>): (r: set<string>)
    ensures r <= tunables
  {
    set i | 0 <= i < |bound| && IsOverride(bound[i], tunables) :: bound[i].0
  }

  /** With distinct names, the count is the number of marked tunables. */
  lemma {:induction false} MarkerCountIsMarkedTunables(bound: Binding, tunables: set<string>)
    requires DistinctNames(bound)
    ensures MarkerCount(bound, tunables) == |MarkedTunables(bound, tunables)|
  {
    if bound != [] {
      var n := |bound| - 1;
      var pre := bound[..n];
      assert DistinctNames(pre);
      MarkerCountIsMarkedTunables(pre, tunables);
      assert forall i :: 0 <= i < n ==> pre[i] == bound[i];
      if IsOverride(bound[n], tunables) {
        assert MarkedTunables(bound, tunables) == MarkedTunables(pre, tunables) + {bound[n].0};
        assert bound[n].0 !in MarkedTunables(pre, tunables);
      } else {
        assert MarkedTunables(bound, tunables) == MarkedTunables(pre, tunables);
      }
    }
  }

  /** With distinct names, the count reaches the number of tunables exactly
      when every tunable parameter was passed a marker. */
  lemma FullCountMeansAllMarked(bound: Binding, tunables: set<string>)
    requires DistinctNames(bound)
    ensures MarkerCount(bound, tunables) == |tunables| <==> MarkedTunables(bound, tunables) == tunables
  {
    MarkerCountIsMarkedTunables(bound, tunables);
    var marked := MarkedTunables(bound, tunables);
    if marked != tunables {
      assert |tunables| == |marked| + |tunables - marked|;
      assert |tunables - marked| > 0;
    }
  }

  /** The outcome `_check_all_or_no_args_are_cutotune_parameters` must have. */
  function AllOrNoMarkers(bound: Binding, tunables: set<string>): Result<bool>
  {
    var count := MarkerCount(bound, tunables);
    if count == 0 || count == |tunables| then Ok(count == 0)
    else Raise(AssertionError(InvalidMarkerCount))
  }

  /** `_check_all_or_no_args_are_cutotune_parameters`: counts markers passed
      for tunable parameters; the count must be zero or the number of
      tunables, and overriding the best config's values is allowed exactly
      when it is zero. */
  method CheckAllOrNoMarkers(signatureArgs: seq<string>, args: seq<Value>, kwargs: Binding, tunables: set<string>)
    returns (r: Result<bool>)
    ensures r.Raise? && r.error == IndexError <==> |args| > |signatureArgs|
    ensures |args| <= |signatureArgs| ==> r == AllOrNoMarkers(BindArguments(signatureArgs, args, kwargs).value, tunables)
  {
    ghost var positional := Positional(signatureArgs, args);
    var count := 0;
    var i := 0;
    while i < |args|
      invariant 0 <= i <= |args| && i <= |signatureArgs|
      invariant count == MarkerCount(positional[..i], tunables)
    {
      if i >= |signatureArgs| {
        return Raise(IndexError);
      }
      var name := signatureArgs[i];
      MarkerCountStep(positional, i, tunables);
      if args[i].Marker? && name in tunables {
        count := count + 1;
      }
      i := i + 1;
    }
    assert positional[..i] == positional;
    var j := 0;
    while j < |kwargs|
      invariant 0 <= j <= |kwargs|
      invariant count == MarkerCount(positional, tunables) + MarkerCount(kwargs[..j], tunables)
    {
      MarkerCountStep(kwargs, j, tunables);
      if kwargs[j].1.Marker? && kwargs[j].0 in tunables {
        count := count + 1;
      }
      j := j + 1;
    }
    assert kwargs[..j] == kwargs;
    MarkerCountAppend(positional, kwargs, tunables);
    if count == 0 || count == |tunables| {
      r := Ok(count == 0);
    } else {
      r := Raise(AssertionError(InvalidMarkerCount));
    }
  }

  lemma {:induction false} MarkerCountAppend(a: Binding, b: Binding, tunables: set<string>)
    ensures MarkerCount(a + b, tunables) == MarkerCount(a, tunables) + MarkerCount(b, tunables)
  {
    if b != [] {
      var n := |b| - 1;
      assert (a + b)[..|a + b| - 1] == a + b[..n];
      MarkerCountAppend(a, b[..n], tunables);
    } else {
      assert a + b == a;
    }
  }

  /** `_check_no_args_are_cutotune_parameters`, used when tuning is disabled:
      any marker is an assertion failure; for a positional marker beyond the
      signature the failure message's own `signature.args[i]` raises
      `IndexError` first. */
  function CheckNoMarkers(signatureArgs: seq<string>, args: seq<Value>, kwargs: Binding): (r: Result<()>)
    ensures r.Ok? <==> FirstMarker(args, 0).None? && forall j :: 0 <= j < |kwargs| ==> !kwargs[j].1.Marker?
    ensures r == Raise(IndexError) <==> FirstMarker(args, 0).Some? && FirstMarker(args, 0).value >= |signatureArgs|
    ensures r.Raise? ==> r.error == IndexError || r.error == AssertionError(MarkerWhileDisabled)
  {
    CheckNoMarkersFrom(signatureArgs, args, kwargs, 0)
  }

  /** The position of the first positional marker at or after `i`. */
  function FirstMarker(args: seq<Value>, i: nat): (r: Option<nat>)
    requires i <= |args|
    ensures r.Some? ==> i <= r.value < |args| && args[r.value].Marker? && forall k :: i <= k < r.value ==> !args[k].Marker?
    ensures r.None? ==> forall k :: i <= k < |args| ==> !args[k].Marker?
    decreases |args| - i
  {
    if i == |args| then None
    else if args[i].Marker? then Some(i)
    else FirstMarker(args, i + 1)
  }

  function CheckNoMarkersFrom(signatureArgs: seq<string>, args: seq<Value>, kwargs: Binding, i: nat): (r: Result<()>)
    requires i <= |args|
    ensures r.Ok? <==> FirstMarker(args, i).None? && forall j :: 0 <= j < |kwargs| ==> !kwargs[j].1.Marker?
    ensures r == Raise(IndexError) <==> FirstMarker(args, i).Some? && FirstMarker(args, i).value >= |signatureArgs|
    ensures r.Raise? ==> r.error == IndexError || r.error == AssertionError(MarkerWhileDisabled)
    decreases |args| - i
  {
    if i == |args| then
      if exists j :: 0 <= j < |kwargs| && kwargs[j].1.Marker? then Raise(AssertionError(MarkerWhileDisabled)) else Ok(())
    else if args[i].Marker? then
      if i < |signatureArgs| then Raise(AssertionError(MarkerWhileDisabled)) else Raise(IndexError)
    else
      CheckNoMarkersFrom(signatureArgs, args, kwargs, i + 1)
  }

  /** `_get_function_arguments`: start from the config's values and add each
      argument in call order when overriding is allowed or its name is not
      yet present. */
  function MergeArguments(configValues: map<string, Value>, bound: Binding, overrideAllowed: bool)
    : (r: map<string, Value>)
    ensures r.Keys == configValues.Keys + NameSet(bound)
  {
    if bound == [] then configValues
    else
      var n := |bound| - 1;
      var prev := MergeArguments(configValues, bound[..n], overrideAllowed);
      NameSetStep(bound);
      if overrideAllowed || bound[n].0 !in prev then prev[bound[n].0 := bound[n].1] else prev
  }

  /** `i` is the last argument carrying `name`. */
  predicate IsLastBinding(bound: Binding, name: string, i: nat)
  {
    i < |bound| && bound[i].0 == name && forall j :: i < j < |bound| ==> bound[j].0 != name
  }

  /** `i` is the first argument carrying `name`. */
  predicate IsFirstBinding(bound: Binding, name: string, i: nat)
  {
    i < |bound| && bound[i].0 == name && forall j :: 0 <= j < i ==> bound[j].0 != name
  }

  /** With overriding allowed, the caller's last value for a name wins over
      the config's. */
  lemma {:induction false} MergeWithOverride(configValues: map<string, Value>, bound: Binding, name: string, i: nat)
    requires IsLastBinding(bound, name, i)
    ensures MergeArguments(configValues, bound, true)[name] == bound[i].1
  {
    var n := |bound| - 1;
    var prev := MergeArguments(configValues, bound[..n], true);
    assert MergeArguments(configValues, bound, true) == prev[bound[n].0 := bound[n].1];
    if i < n {
      assert bound[n].0 != name;
      assert forall j :: 0 <= j < n ==> bound[..n][j] == bound[j];
      assert IsLastBinding(bound[..n], name, i);
      MergeWithOverride(configValues, bound[..n], name, i);
    }
  }

  /** A name the caller does not pass keeps the config's value, whether or
      not overriding is allowed. */
  lemma {:induction false} MergeKeepsUnpassed(configValues: map<string, Value>, bound: Binding, overrideAllowed: bool, name: string)
    requires name in configValues
    requires forall j :: 0 <= j < |bound| ==> bound[j].0 != name
    ensures MergeArguments(configValues, bound, overrideAllowed)[name] == configValues[name]
  {
    if bound != [] {
      var n := |bound| - 1;
      assert forall j :: 0 <= j < n ==> bound[..n][j] == bound[j];
      MergeKeepsUnpassed(configValues, bound[..n], overrideAllowed, name);
    }
  }

  /** Without overriding, a config name keeps the config's value. */
  lemma {:induction false} MergeWithoutOverrideKeepsConfig(configValues: map<string, Value>, bound: Binding, name: string)
    requires name in configValues
    ensures MergeArguments(configValues, bound, false)[name] == configValues[name]
  {
    if bound != [] {
      MergeWithoutOverrideKeepsConfig(configValues, bound[..|bound| - 1], name);
    }
  }

  /** Without overriding, a name outside the config gets the caller's first
      value for it. */
  lemma {:induction false} MergeWithoutOverrideFirstWins(configValues: map<string, Value>, bound: Binding, name: string, i: nat)
    requires name !in configValues && IsFirstBinding(bound, name, i)
    ensures MergeArguments(configValues, bound, false)[name] == bound[i].1
  {
    var n := |bound| - 1;
    var pre := bound[..n];
    if i < n {
      FirstBindingOfPrefix(bound, name, i);
      MergeWithoutOverrideFirstWins(configValues, pre, name, i);
    } else {
      FirstBindingUnseen(bound, name, i);
    }
  }

  lemma FirstBindingOfPrefix(bound: Binding, name: string, i: nat)
    requires IsFirstBinding(bound, name, i) && i < |bound| - 1
    ensures IsFirstBinding(bound[..|bound| - 1], name, i)
  {
  }

  lemma FirstBindingUnseen(bound: Binding, name: string, i: nat)
    requires IsFirstBinding(bound, name, i) && i == |bound| - 1
    ensures name !in NameSet(bound[..i])
  {
    assert forall j :: 0 <= j < i ==> bound[..i][j].0 != name;
  }

  lemma NameSetStep(bound: Binding)
    requires bound != []
    ensures NameSet(bound) == NameSet(bound[..|bound| - 1]) + {bound[|bound| - 1].0}
  {
    var n := |bound| - 1;
    assert forall i :: 0 <= i < n ==> bound[..n][i] == bound[i];
  }
}
