/** `_CutoTune._get_lookup_key` (`utils/cutotune.py`): the key under which a
    call's best config is memoised, built from the triggered arguments. */
module LookupKeys {
  import opened Values
  import opened Exceptions
  import opened Triggers
  import opened Arguments

  /** What an accessor reads from a tensor. */
  datatype Projection = DtypeOf(dtype: DType) | ShapeOf(shape: seq<nat>) | StrideOf(stride: seq<nat>) | Extent(extent: nat)

  /** One key element: `"{name}.{func_name} = {func(value)}"` for a tensor,
      `"{name} = {value}"` for any other value. The structured form keeps
      the parts the formatted string is made of. */
  datatype KeyEntry =
    | TensorEntry(variable: string, funcName: string, projection: Projection)
    | ValueEntry(variable: string, value: Value)

  type LookupKey = seq<KeyEntry>

  /** Python's index into a sequence of `n` elements: `-n <= i < n`, negative
      indices counting from the end. */
  function PythonIndex(i: int, n: nat): (r: Option<nat>)
    ensures r.Some? <==> -(n as int) <= i < n
    ensures r.Some? ==> r.value < n && (r.value == i || r.value == i + n)
  {
    if 0 <= i < n then Some(i) else if -(n as int) <= i < 0 then Some(i + n) else None
  }

  /** `func(tensor)` for a parsed accessor; a dimension out of range raises
      `IndexError`. */
  function Apply(a: Accessor, t: Tensor): (r: Result<Projection>)
    ensures r.Raise? ==> r.error == IndexError
    ensures a.SizeDim? ==> (r.Ok? <==> -|t.shape| <= a.dim < |t.shape|)
    ensures a.StrideDim? ==> (r.Ok? <==> -|t.stride| <= a.dim < |t.stride|)
    ensures !a.SizeDim? && !a.StrideDim? ==> r.Ok?
  {
    match a
    case Dtype => Ok(DtypeOf(t.dtype))
    case Size => Ok(ShapeOf(t.shape))
    case Stride => Ok(StrideOf(t.stride))
    case SizeDim(d) =>
      (match PythonIndex(d, |t.shape|)
       case None => Raise(IndexError)
       case Some(k) => Ok(Extent(t.shape[k])))
    case StrideDim(d) =>
      (match PythonIndex(d, |t.stride|)
       case None => Raise(IndexError)
       case Some(k) => Ok(Extent(t.stride[k])))
  }

  /** The entry one trigger adds for a tensor. A bare trigger is an error:
      with other triggers beside it the length assertion fails, and alone
      the code calls its `None` function, a `TypeError`. */
  function TensorEntry1(name: string, t: Tensor, fn: TriggerFn, count: nat): (r: Result<KeyEntry>)
    ensures fn.accessor.None? ==> r == Raise(if count != 1 then AssertionError(TriggerCount) else TypeError)
  {
    match fn.accessor
    case None => Raise(if count != 1 then AssertionError(TriggerCount) else TypeError)
    case Some(a) =>
      match Apply(a, t)
      case Raise(e) => Raise(e)
      case Ok(p) => Ok(TensorEntry(name, fn.funcName, p))
  }

  /** The entries of the first `|fns|` triggers of a tensor argument that has
      `count` triggers, stopping at the first error. */
  function TensorEntries(name: string, t: Tensor, fns: seq<TriggerFn>, count: nat): (r: Result<LookupKey>)
    ensures r.Ok? ==> |r.value| == |fns|
  {
    if fns == [] then Ok([])
    else
      match TensorEntries(name, t, fns[..|fns| - 1], count)
      case Raise(e) => Raise(e)
      case Ok(es) =>
        match TensorEntry1(name, t, fns[|fns| - 1], count)
        case Raise(e) => Raise(e)
        case Ok(e) => Ok(es + [e])
  }

  /** `_maybe_add_key`: the entries one argument adds to the key. */
  function EntriesFor(triggerMap: TriggerMap, name: string, value: Value): Result<LookupKey>
  {
    if name !in triggerMap then Ok([])
    else
      var fns := triggerMap[name];
      if value.TensorVal? then TensorEntries(name, value.tensor, fns, |fns|)
      else if |fns| != 1 then Raise(AssertionError(TriggerCount))
      else if fns[0].accessor.Some? then Raise(AssertionError(FunctionalTriggerOnNonTensor))
      else Ok([ValueEntry(name, value)])
  }

  /** The key of a bound argument list: every argument's entries in call
      order; the first error ends the computation. */
  function KeyOf(triggerMap: TriggerMap, bound: Binding): Result<LookupKey>
  {
    if bound == [] then Ok([])
    else
      var n := |bound| - 1;
      match KeyOf(triggerMap, bound[..n])
      case Raise(e) => Raise(e)
      case Ok(key) =>
        match EntriesFor(triggerMap, bound[n].0, bound[n].1)
        case Raise(e) => Raise(e)
        case Ok(es) => Ok(key + es)
  }

  /** The outcome of `_get_lookup_key(*args, **kwargs)`: positional
      arguments are named after the signature, and the first one beyond it
      raises `IndexError` unless an earlier argument already failed. */
  function LookupKeySpec(triggerMap: TriggerMap, signatureArgs: seq<string>, args: seq<Value>, kwargs: Binding): Result<LookupKey>
  {
    var positional := Positional(signatureArgs, args);
    if |args| <= |signatureArgs| then KeyOf(triggerMap, positional + kwargs)
    else
      match KeyOf(triggerMap, positional)
      case Raise(e) => Raise(e)
      case Ok(_) => Raise(IndexError)
  }

  lemma KeyOfStep(triggerMap: TriggerMap, bound: Binding, i: nat)
    requires i < |bound|
    ensures KeyOf(triggerMap, bound[..i + 1]) ==
      match KeyOf(triggerMap, bound[..i])
      case Raise(e) => Raise(e)
      case Ok(key) =>
        match EntriesFor(triggerMap, bound[i].0, bound[i].1)
        case Raise(e) => Raise(e)
        case Ok(es) => Ok(key + es)
  {
    assert bound[..i + 1][..i] == bound[..i];
  }

  lemma TensorEntriesStep(name: string, t: Tensor, fns: seq<TriggerFn>, count: nat, i: nat)
    requires i < |fns|
    ensures TensorEntries(name, t, fns[..i + 1], count) ==
      match TensorEntries(name, t, fns[..i], count)
      case Raise(e) => Raise(e)
      case Ok(es) =>
        match TensorEntry1(name, t, fns[i], count)
        case Raise(e) => Raise(e)
        case Ok(e) => Ok(es + [e])
  {
    assert fns[..i + 1][..i] == fns[..i];
  }

  /** `_maybe_add_key`, appending one entry per trigger. */
  method MaybeAddKey(triggerMap: TriggerMap, name: string, value: Value) returns (r: Result<LookupKey>)
    ensures r == EntriesFor(triggerMap, name, value)
  {
    if name !in triggerMap {
      return Ok([]);
    }
    var fns := triggerMap[name];
    if value.TensorVal? {
      var entries: LookupKey := [];
      var i := 0;
      while i < |fns|
        invariant 0 <= i <= |fns|
        invariant TensorEntries(name, value.tensor, fns[..i], |fns|) == Ok(entries)
      {
        TensorEntriesStep(name, value.tensor, fns, |fns|, i);
        var entry := TensorEntry1(name, value.tensor, fns[i], |fns|);
        if entry.Raise? {
          PrefixErrorPersists(name, value.tensor, fns, |fns|, i + 1);
          return Raise(entry.error);
        }
        entries := entries + [entry.value];
        i := i + 1;
      }
      assert fns[..i] == fns;
      r := Ok(entries);
    } else if |fns| != 1 {
      r := Raise(AssertionError(TriggerCount));
    } else if fns[0].accessor.Some? {
      r := Raise(AssertionError(FunctionalTriggerOnNonTensor));
    } else {
      r := Ok([ValueEntry(name, value)]);
    }
  }

  lemma {:induction false} PrefixErrorPersists(name: string, t: Tensor, fns: seq<TriggerFn>, count: nat, k: nat)
    requires k <= |fns| && TensorEntries(name, t, fns[..k], count).Raise?
    ensures TensorEntries(name, t, fns, count) == TensorEntries(name, t, fns[..k], count)
    decreases |fns| - k
  {
    if k < |fns| {
      TensorEntriesStep(name, t, fns, count, k);
      PrefixErrorPersists(name, t, fns, count, k + 1);
    } else {
      assert fns[..k] == fns;
    }
  }

  lemma {:induction false} KeyErrorPersists(triggerMap: TriggerMap, bound: Binding, k: nat)
    requires k <= |bound| && KeyOf(triggerMap, bound[..k]).Raise?
    ensures KeyOf(triggerMap, bound) == KeyOf(triggerMap, bound[..k])
    decreases |bound| - k
  {
    if k < |bound| {
      KeyOfStep(triggerMap, bound, k);
      KeyErrorPersists(triggerMap, bound, k + 1);
    } else {
      assert bound[..k] == bound;
    }
  }

  /** `_get_lookup_key`. */
  method GetLookupKey(triggerMap: TriggerMap, signatureArgs: seq<string>, args: seq<Value>, kwargs: Binding)
    returns (r: Result<LookupKey>)
    ensures r == LookupKeySpec(triggerMap, signatureArgs, args, kwargs)
  {
    var positional := Positional(signatureArgs, args);
    var key: LookupKey := [];
    var i := 0;
    while i < |args|
      invariant 0 <= i <= |args| && i <= |signatureArgs|
      invariant KeyOf(triggerMap, positional[..i]) == Ok(key)
    {
      if i >= |signatureArgs| {
        assert positional[..i] == positional;
        return Raise(IndexError);
      }
      var name := signatureArgs[i];
      KeyOfStep(triggerMap, positional, i);
      var entries := MaybeAddKey(triggerMap, name, args[i]);
      if entries.Raise? {
        KeyErrorPersists(triggerMap, positional, i + 1);
        if |args| <= |signatureArgs| {
          assert (positional + kwargs)[..i + 1] == positional[..i + 1];
          KeyErrorPersists(triggerMap, positional + kwargs, i + 1);
        }
        return Raise(entries.error);
      }
      key := key + entries.value;
      i := i + 1;
    }
    assert positional[..i] == positional;
    assert (positional + kwargs)[..|args|] == positional;
    r := ExtendKey(triggerMap, positional + kwargs, |args|, key);
  }

  /** The keyword loop of `_get_lookup_key`: extend the key of
      `bound[..start]` by the entries of the remaining arguments. */
  method ExtendKey(triggerMap: TriggerMap, bound: Binding, start: nat, key: LookupKey) returns (r: Result<LookupKey>)
    requires start <= |bound| && KeyOf(triggerMap, bound[..start]) == Ok(key)
    ensures r == KeyOf(triggerMap, bound)
  {
    r := Ok(key);
    var j := start;
    while j < |bound|
      invariant start <= j <= |bound|
      invariant KeyOf(triggerMap, bound[..j]) == r
      invariant r.Ok?
    {
      KeyOfStep(triggerMap, bound, j);
      var entries := MaybeAddKey(triggerMap, bound[j].0, bound[j].1);
      if entries.Raise? {
        KeyErrorPersists(triggerMap, bound, j + 1);
        return Raise(entries.error);
      }
      r := Ok(r.value + entries.value);
      j := j + 1;
    }
    assert bound[..j] == bound;
  }

  /** Arguments without a trigger never affect the key: two calls whose
      arguments have the same names and agree on every triggered one get the
      same key (or the same error). */
  lemma {:induction false} UntriggeredArgumentsIgnored(triggerMap: TriggerMap, b1: Binding, b2: Binding)
    requires |b1| == |b2|
    requires forall i :: 0 <= i < |b1| ==> b1[i].0 == b2[i].0
    requires forall i :: 0 <= i < |b1| && b1[i].0 in triggerMap ==> b1[i].1 == b2[i].1
    ensures KeyOf(triggerMap, b1) == KeyOf(triggerMap, b2)
  {
    if b1 != [] {
      var n := |b1| - 1;
      UntriggeredArgumentsIgnored(triggerMap, b1[..n], b2[..n]);
    }
  }

  /** Tensors that agree on everything their triggers read get the same
      entries: the key caches by the triggered properties only. */
  lemma {:induction false} SameProjectionsSameEntries(name: string, t1: Tensor, t2: Tensor, fns: seq<TriggerFn>, count: nat)
    requires forall i :: 0 <= i < |fns| && fns[i].accessor.Some? ==> Apply(fns[i].accessor.value, t1) == Apply(fns[i].accessor.value, t2)
    ensures TensorEntries(name, t1, fns, count) == TensorEntries(name, t2, fns, count)
  {
    if fns != [] {
      var n := |fns| - 1;
      SameProjectionsSameEntries(name, t1, t2, fns[..n], count);
    }
  }

  /** A triggered argument that is not a tensor contributes its value; a
      tensor with a bare trigger makes the key fail. */
  lemma BareTriggerEntries(triggerMap: TriggerMap, name: string, value: Value)
    requires name in triggerMap && triggerMap[name] == [INFO]
    ensures !value.TensorVal? ==> EntriesFor(triggerMap, name, value) == Ok([ValueEntry(name, value)])
    ensures value.TensorVal? ==> EntriesFor(triggerMap, name, value) == Raise(TypeError)
  {
    if value.TensorVal? {
      var fns := triggerMap[name];
      assert fns[..|fns| - 1] == [];
      assert TensorEntries(name, value.tensor, fns[..0], 1) == Ok([]);
      assert TensorEntry1(name, value.tensor, fns[0], 1) == Raise(TypeError);
      assert TensorEntries(name, value.tensor, fns, 1) == Raise(TypeError);
    }
  }

  /** A non-tensor argument must carry exactly one bare trigger. */
  lemma NonTensorNeedsBareTrigger(triggerMap: TriggerMap, name: string, value: Value)
    requires name in triggerMap && !value.TensorVal?
    ensures EntriesFor(triggerMap, name, value).Ok? <==> |triggerMap[name]| == 1 && triggerMap[name][0].accessor.None?
  {
  }
}
