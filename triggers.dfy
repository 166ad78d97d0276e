/** Trigger strings (`_CutoTune._parse_trigger` and `_setup_trigger_map`,
    `utils/cutotune.py`). A trigger is `name` or `name.accessor`; it selects
    which argument properties make up the lookup key. */
module Triggers {
  import opened Exceptions

  // ---------------------------------------------------------------------
  // `str.split(".")`

  function DotCount(s: string): nat
  {
    if s == [] then 0 else (if s[0] == '.' then 1 else 0) + DotCount(s[1..])
  }

  /** `s.split(".")`: the pieces between separators, empty ones included. */
  function Split(s: string): (r: seq<string>)
    ensures |r| == DotCount(s) + 1
    ensures forall k :: 0 <= k < |r| ==> '.' !in r[k]
  {
    if s == [] then [""]
    else
      var rest := Split(s[1..]);
      if s[0] == '.' then [""] + rest
      else
        assert forall k :: 1 <= k < |rest| ==> rest[1..][k - 1] == rest[k];
        [[s[0]] + rest[0]] + rest[1..]
  }

  /** `".".join(parts)`. */
  function Join(parts: seq<string>): string
    requires |parts| >= 1
  {
    if |parts| == 1 then parts[0] else parts[0] + "." + Join(parts[1..])
  }

  /** Joining the pieces restores the string. */
  lemma {:induction false} SplitJoin(s: string)
    ensures Join(Split(s)) == s
  {
    if s != [] {
      SplitJoin(s[1..]);
      var rest := Split(s[1..]);
      if s[0] != '.' {
        if |rest| == 1 {
          assert Join(Split(s)) == [s[0]] + rest[0];
        } else {
          assert Split(s)[1..] == rest[1..];
          assert Join(Split(s)) == [s[0]] + rest[0] + "." + Join(rest[1..]);
        }
      }
    }
  }

  lemma {:induction false} SplitDotFreePrefix(p: string, rest: string)
    requires '.' !in p
    ensures Split(p + rest) == [p + Split(rest)[0]] + Split(rest)[1..]
  {
    if p != [] {
      var whole := p + rest;
      assert whole[0] == p[0] && whole[1..] == p[1..] + rest;
      SplitDotFreePrefix(p[1..], rest);
      var inner := Split(p[1..] + rest);
      assert inner == [p[1..] + Split(rest)[0]] + Split(rest)[1..];
      assert Split(whole) == [[p[0]] + inner[0]] + inner[1..];
      assert [p[0]] + (p[1..] + Split(rest)[0]) == p + Split(rest)[0];
    } else {
      assert p + rest == rest;
      assert p + Split(rest)[0] == Split(rest)[0];
      assert Split(rest) == [Split(rest)[0]] + Split(rest)[1..];
    }
  }

  /** Splitting a join of dot-free pieces gives the pieces back. */
  lemma {:induction false} JoinSplit(parts: seq<string>)
    requires |parts| >= 1 && forall k :: 0 <= k < |parts| ==> '.' !in parts[k]
    ensures Split(Join(parts)) == parts
  {
    if |parts| == 1 {
      SplitDotFreePrefix(parts[0], "");
      assert parts[0] + "" == parts[0];
    } else {
      JoinSplit(parts[1..]);
      var tail := "." + Join(parts[1..]);
      SplitDotFreePrefix(parts[0], tail);
      assert parts[0] + "." + Join(parts[1..]) == parts[0] + tail;
      assert tail[1..] == Join(parts[1..]);
      assert Split(tail) == [""] + parts[1..];
      assert parts[0] + "" == parts[0];
      assert [parts[0]] + parts[1..] == parts;
    }
  }

  // ---------------------------------------------------------------------
  // `int(text)` on the dimension inside `size(...)`

  predicate IsDigit(c: char)
  {
    '0' <= c <= '9'
  }

  predicate IsDigits(s: string)
  {
    |s| > 0 && forall k :: 0 <= k < |s| ==> IsDigit(s[k])
  }

  function DigitsValue(s: string): nat
    requires forall k :: 0 <= k < |s| ==> IsDigit(s[k])
  {
    if s == [] then 0 else 10 * DigitsValue(s[..|s| - 1]) + DigitOf(s[|s| - 1])
  }

  function DigitOf(c: char): nat
    requires IsDigit(c)
  {
    c as int - '0' as int
  }

  /** `int(s)` for a decimal literal: an optional sign and at least one
      digit; anything else raises `ValueError`. */
  function ParseInt(s: string): (r: Result<int>)
    ensures r.Ok? <==> IsDigits(s) || (|s| > 0 && (s[0] == '+' || s[0] == '-') && IsDigits(s[1..]))
    ensures r.Raise? ==> r.error == ValueError
  {
    if IsDigits(s) then Ok(DigitsValue(s) as int)
    else if |s| > 0 && s[0] == '+' && IsDigits(s[1..]) then Ok(DigitsValue(s[1..]) as int)
    else if |s| > 0 && s[0] == '-' && IsDigits(s[1..]) then Ok(-(DigitsValue(s[1..]) as int))
    else Raise(ValueError)
  }

  /** The decimal digits of `n`, without leading zeros. */
  function NatToString(n: nat): (r: string)
    ensures IsDigits(r)
  {
    var last := ['0' + (n % 10) as char];
    if n < 10 then last else NatToString(n / 10) + last
  }

  /** `str(i)` for an integer. */
  function IntToString(i: int): (r: string)
    ensures '.' !in r && r != []
  {
    if i < 0 then "-" + NatToString(-i) else NatToString(i)
  }

  lemma {:induction false} NatToStringValue(n: nat)
    ensures DigitsValue(NatToString(n)) == n
  {
    var r := NatToString(n);
    assert r[..|r| - 1] == if n < 10 then [] else NatToString(n / 10);
    if n >= 10 {
      NatToStringValue(n / 10);
    }
  }

  /** Reading back a printed integer gives the integer. */
  lemma ParseIntRoundTrip(i: int)
    ensures ParseInt(IntToString(i)) == Ok(i)
  {
    if i < 0 {
      NatToStringValue(-i);
      assert IntToString(i)[1..] == NatToString(-i);
    } else {
      NatToStringValue(i);
    }
  }

  // ---------------------------------------------------------------------
  // Parsing one trigger

  /** What a trigger reads from a tensor argument. `SizeDim(i)` and
      `StrideDim(i)` take one dimension, counting from the end when `i`
      is negative. */
  datatype Accessor = Dtype | Size | Stride | SizeDim(dim: int) | StrideDim(dim: int)

  /** `(func_name, func)`: the accessor's text and the accessor, or
      `("info", None)` for a bare variable name. */
  datatype TriggerFn = TriggerFn(funcName: string, accessor: Option<Accessor>)

  const INFO: TriggerFn := TriggerFn("info", None)

  datatype ParsedTrigger = ParsedTrigger(variable: string, fn: TriggerFn)

  predicate StartsWith(s: string, prefix: string)
  {
    |prefix| <= |s| && s[..|prefix|] == prefix
  }

  /** `func_name[start:][:-1]`, with Python's clamped slices. */
  function DimText(funcName: string, start: nat): string
  {
    var tail := if start <= |funcName| then funcName[start..] else [];
    if tail == [] then [] else tail[..|tail| - 1]
  }

  function ParseDim(funcName: string, start: nat, stride: bool): Result<Accessor>
  {
    match ParseInt(DimText(funcName, start))
    case Raise(e) => Raise(e)
    case Ok(dim) => Ok(if stride then StrideDim(dim) else SizeDim(dim))
  }

  /** The accessor branch of `_parse_trigger`, tried in the source's order. */
  function ParseAccessor(funcName: string): (r: Result<Accessor>)
    ensures r.Raise? ==> r.error == ValueError
    ensures !(funcName == "dtype" || StartsWith(funcName, "size") || StartsWith(funcName, "shape") ||
              StartsWith(funcName, "stride")) ==>
              r == Raise(ValueError)
  {
    if funcName == "dtype" then Ok(Dtype)
    else if funcName == "size()" || funcName == "shape" then Ok(Size)
    else if funcName == "stride()" then Ok(Stride)
    else if StartsWith(funcName, "size") then ParseDim(funcName, 5, false)
    else if StartsWith(funcName, "shape") then ParseDim(funcName, 6, false)
    else if StartsWith(funcName, "stride") then ParseDim(funcName, 7, true)
    else Raise(ValueError)
  }

  /** `_parse_trigger`. */
  function ParseTrigger(trigger: string): (r: Result<ParsedTrigger>)
    ensures r.Raise? ==> r.error == ValueError || r.error == UnboundLocalError
  {
    var parts := Split(trigger);
    if |parts| == 1 then Ok(ParsedTrigger(parts[0], INFO))
    else if |parts| == 2 then
      match ParseAccessor(parts[1])
      case Raise(e) => Raise(e)
      case Ok(accessor) => Ok(ParsedTrigger(parts[0], TriggerFn(parts[1], Some(accessor))))
    else Raise(UnboundLocalError)
  }

  /** No dot gives `("info", None)` for the whole string; one dot gives the
      accessor after it, the two halves rejoining to the trigger; with two or
      more dots `func_name` is never bound and parsing raises
      `UnboundLocalError`. */
  lemma ParseTriggerCases(trigger: string)
    ensures var r := ParseTrigger(trigger);
      && ((r.Raise? && r.error == UnboundLocalError) <==> DotCount(trigger) >= 2)
      && (DotCount(trigger) == 0 ==> r == Ok(ParsedTrigger(trigger, INFO)))
      && (r.Ok? ==> '.' !in r.value.variable)
      && (r.Ok? && DotCount(trigger) == 1 ==>
            r.value.fn.accessor.Some? && trigger == r.value.variable + "." + r.value.fn.funcName)
  {
    SplitJoin(trigger);
  }

  /** The canonical spelling of each accessor. */
  function RenderAccessor(a: Accessor): (r: string)
    ensures '.' !in r
  {
    match a
    case Dtype => "dtype"
    case Size => "size()"
    case Stride => "stride()"
    case SizeDim(d) => "size(" + IntToString(d) + ")"
    case StrideDim(d) => "stride(" + IntToString(d) + ")"
  }

  lemma DimTextOf(prefix: string, d: int)
    ensures DimText(prefix + IntToString(d) + ")", |prefix|) == IntToString(d)
  {
    var s := prefix + IntToString(d) + ")";
    assert s[|prefix|..] == IntToString(d) + ")";
  }

  /** Every accessor parses back from its canonical spelling. */
  lemma ParseRenderAccessor(a: Accessor)
    ensures ParseAccessor(RenderAccessor(a)) == Ok(a)
  {
    match a
    case SizeDim(d) =>
      var s := RenderAccessor(a);
      assert s[..4] == "size";
      assert s != "size()" by { assert s[5] != ')'; }
      DimTextOf("size(", d);
      ParseIntRoundTrip(d);
    case StrideDim(d) =>
      var s := RenderAccessor(a);
      assert s[..6] == "stride";
      assert s != "stride()" by { assert s[7] != ')'; }
      assert !StartsWith(s, "size") by { assert s[1] != "size"[1]; }
      assert !StartsWith(s, "shape") by { assert s[1] != "shape"[1]; }
      DimTextOf("stride(", d);
      ParseIntRoundTrip(d);
    case _ =>
  }

  /** `shape` and `shape(i)` are spellings of `size()` and `size(i)`. */
  lemma ShapeIsSize(d: int)
    ensures ParseAccessor("shape") == ParseAccessor("size()") == Ok(Size)
    ensures ParseAccessor("shape(" + IntToString(d) + ")") == Ok(SizeDim(d))
  {
    var s := "shape(" + IntToString(d) + ")";
    assert s[..5] == "shape";
    assert s != "shape";
    assert !StartsWith(s, "size") by { assert s[1] != "size"[1]; }
    DimTextOf("shape(", d);
    ParseIntRoundTrip(d);
  }

  /** A trigger written as `name.accessor` parses back to that accessor. */
  lemma TriggerRoundTrip(name: string, a: Accessor)
    requires '.' !in name
    ensures ParseTrigger(name + "." + RenderAccessor(a)) == Ok(ParsedTrigger(name, TriggerFn(RenderAccessor(a), Some(a))))
  {
    var parts := [name, RenderAccessor(a)];
    JoinSplit(parts);
    assert Join(parts) == name + "." + RenderAccessor(a);
    ParseRenderAccessor(a);
  }

  // ---------------------------------------------------------------------
  // The trigger map

  /** `variable_name_trigger_map`: each triggered variable with its
      triggers in the order they were seen. */
  type TriggerMap = map<string, seq<TriggerFn>>

  /** Parse every trigger, stopping at the first that fails. */
  function ParseAll(triggers: seq<string>): (r: Result<seq<ParsedTrigger>>)
    ensures r.Ok? ==> |r.value| == |triggers| && forall i :: 0 <= i < |triggers| ==> ParseTrigger(triggers[i]) == Ok(r.value[i])
    ensures r.Ok? <==> forall i :: 0 <= i < |triggers| ==> ParseTrigger(triggers[i]).Ok?
  {
    if triggers == [] then Ok([])
    else
      var n := |triggers| - 1;
      assert forall i :: 0 <= i < n ==> triggers[..n][i] == triggers[i];
      match ParseAll(triggers[..n])
      case Raise(e) => Raise(e)
      case Ok(parsed) =>
        match ParseTrigger(triggers[n])
        case Raise(e) => Raise(e)
        case Ok(p) => Ok(parsed + [p])
  }

  /** The first loop of `_setup_trigger_map`: append each trigger to its
      variable's list. */
  function Group(parsed: seq<ParsedTrigger>): (m: TriggerMap)
    ensures forall v :: v in m ==> m[v] != []
  {
    if parsed == [] then map[]
    else
      var n := |parsed| - 1;
      var m := Group(parsed[..n]);
      var p := parsed[n];
      m[p.variable := (if p.variable in m then m[p.variable] else []) + [p.fn]]
  }

  /** The variables in a grouped map are those of the parsed triggers, and a
      variable's list holds exactly its triggers. */
  lemma {:induction false} GroupContents(parsed: seq<ParsedTrigger>, v: string, fn: TriggerFn)
    ensures v in Group(parsed) <==> exists i :: 0 <= i < |parsed| && parsed[i].variable == v
    ensures (v in Group(parsed) && fn in Group(parsed)[v]) <==> exists i :: 0 <= i < |parsed| && parsed[i] == ParsedTrigger(v, fn)
  {
    if parsed != [] {
      var n := |parsed| - 1;
      GroupContents(parsed[..n], v, fn);
      assert forall i :: 0 <= i < n ==> parsed[..n][i] == parsed[i];
      if exists i :: 0 <= i < |parsed| && parsed[i] == ParsedTrigger(v, fn) {
        var i :| 0 <= i < |parsed| && parsed[i] == ParsedTrigger(v, fn);
        if i < n {
          assert parsed[..n][i] == ParsedTrigger(v, fn);
        }
      }
      if exists i :: 0 <= i < |parsed| && parsed[i].variable == v {
        var i :| 0 <= i < |parsed| && parsed[i].variable == v;
        if i < n {
          assert parsed[..n][i].variable == v;
        }
      }
    }
  }

  /** The filter of `_setup_trigger_map`: a variable with a bare trigger
      keeps only `("info", None)`. */
  function Collapse(m: TriggerMap): (r: TriggerMap)
    ensures r.Keys == m.Keys
    ensures forall v :: v in m ==> r[v] == if INFO in m[v] then [INFO] else m[v]
  {
    map v | v in m :: if INFO in m[v] then [INFO] else m[v]
  }

  /** The outcome `_setup_trigger_map` must have: a parse error, then an
      unknown variable, then a trigger on a tunable parameter, in that
      order of checking. */
  function TriggerMapSpec(triggers: seq<string>, signatureArgs: seq<string>, tunables: set<string>): Result<TriggerMap>
  {
    match ParseAll(triggers)
    case Raise(e) => Raise(e)
    case Ok(parsed) =>
      var m := Collapse(Group(parsed));
      if exists v :: v in m && v !in signatureArgs then Raise(AssertionError(UnexpectedTriggerVariable))
      else if exists t :: t in tunables && t in m then Raise(AssertionError(TriggerOnTunable))
      else Ok(m)
  }

  /** `_setup_trigger_map`. `triggers` lists the trigger set in its
      iteration order. */
  method SetupTriggerMap(triggers: seq<string>, signatureArgs: seq<string>, tunables: set<string>)
    returns (r: Result<TriggerMap>)
    ensures r == TriggerMapSpec(triggers, signatureArgs, tunables)
  {
    var grouped := GroupTriggers(triggers);
    if grouped.Raise? {
      return Raise(grouped.error);
    }
    var collapsed := CollapseTriggers(grouped.value, signatureArgs);
    if collapsed.Raise? {
      return collapsed;
    }
    var m := collapsed.value;
    var remaining := tunables;
    while remaining != {}
      invariant remaining <= tunables
      invariant forall t :: t in tunables && t !in remaining ==> t !in m
      decreases |remaining|
    {
      var t :| t in remaining;
      if t in m {
        return Raise(AssertionError(TriggerOnTunable));
      }
      remaining := remaining - {t};
    }
    r := Ok(m);
  }

  /** The first loop: parse each trigger and append it to its variable's
      list. */
  method GroupTriggers(triggers: seq<string>) returns (r: Result<TriggerMap>)
    ensures ParseAll(triggers).Raise? ==> r == Raise(ParseAll(triggers).error)
    ensures ParseAll(triggers).Ok? ==> r == Ok(Group(ParseAll(triggers).value))
  {
    var m: TriggerMap := map[];
    ghost var parsed: seq<ParsedTrigger> := [];
    var i := 0;
    while i < |triggers|
      invariant 0 <= i <= |triggers|
      invariant ParseAll(triggers[..i]) == Ok(parsed)
      invariant m == Group(parsed)
    {
      var p := ParseTrigger(triggers[i]);
      if p.Raise? {
        ParseAllFails(triggers, i + 1);
        return Raise(p.error);
      }
      ParseAllStep(triggers, i);
      GroupStep(parsed, p.value);
      var variable, fn := p.value.variable, p.value.fn;
      var existing := if variable in m then m[variable] else [];
      m := m[variable := existing + [fn]];
      parsed := parsed + [p.value];
      assert m == Group(parsed);
      assert ParseAll(triggers[..i + 1]) == Ok(parsed);
      i := i + 1;
    }
    assert triggers[..i] == triggers;
    r := Ok(m);
  }

  /** The second loop: collapse each variable's list and require the
      variable to be a parameter of the signature. */
  method CollapseTriggers(grouped: TriggerMap, signatureArgs: seq<string>) returns (r: Result<TriggerMap>)
    ensures (exists v :: v in grouped && v !in signatureArgs) ==> r == Raise(AssertionError(UnexpectedTriggerVariable))
    ensures (forall v :: v in grouped ==> v in signatureArgs) ==> r == Ok(Collapse(grouped))
  {
    var m := grouped;
    var pending := m.Keys;
    while pending != {}
      invariant pending <= m.Keys && m.Keys == grouped.Keys
      invariant forall v :: v in pending ==> m[v] == grouped[v]
      invariant forall v :: v in m && v !in pending ==> m[v] == Collapse(grouped)[v] && v in signatureArgs
      decreases |pending|
    {
      var v :| v in pending;
      if INFO in m[v] {
        m := m[v := [INFO]];
      }
      if v !in signatureArgs {
        return Raise(AssertionError(UnexpectedTriggerVariable));
      }
      pending := pending - {v};
    }
    assert m == Collapse(grouped);
    r := Ok(m);
  }

  lemma ParseAllStep(triggers: seq<string>, i: nat)
    requires i < |triggers| && ParseAll(triggers[..i]).Ok? && ParseTrigger(triggers[i]).Ok?
    ensures ParseAll(triggers[..i + 1]) == Ok(ParseAll(triggers[..i]).value + [ParseTrigger(triggers[i]).value])
  {
    assert triggers[..i + 1][..i] == triggers[..i];
  }

  lemma GroupStep(parsed: seq<ParsedTrigger>, p: ParsedTrigger)
    ensures Group(parsed + [p]) ==
      var m := Group(parsed);
      m[p.variable := (if p.variable in m then m[p.variable] else []) + [p.fn]]
  {
    assert (parsed + [p])[..|parsed|] == parsed;
  }

  lemma {:induction false} ParseAllFails(triggers: seq<string>, k: nat)
    requires 0 < k <= |triggers| && ParseAll(triggers[..k - 1]).Ok? && ParseTrigger(triggers[k - 1]).Raise?
    ensures ParseAll(triggers) == Raise(ParseTrigger(triggers[k - 1]).error)
  {
    assert triggers[..k][..k - 1] == triggers[..k - 1];
    if k < |triggers| {
      ParseAllPrefixFails(triggers, k);
    } else {
      assert triggers[..k] == triggers;
    }
  }

  lemma {:induction false} ParseAllPrefixFails(triggers: seq<string>, k: nat)
    requires 0 < k <= |triggers| && ParseAll(triggers[..k]).Raise?
    ensures ParseAll(triggers) == ParseAll(triggers[..k])
    decreases |triggers| - k
  {
    if k < |triggers| {
      ParseAllErrorPersists(triggers[..k], triggers[k]);
      assert triggers[..k] + [triggers[k]] == triggers[..k + 1];
      ParseAllPrefixFails(triggers, k + 1);
    } else {
      assert triggers[..k] == triggers;
    }
  }

  lemma ParseAllErrorPersists(triggers: seq<string>, t: string)
    requires ParseAll(triggers).Raise?
    ensures ParseAll(triggers + [t]) == ParseAll(triggers)
  {
    assert (triggers + [t])[..|triggers|] == triggers;
  }

  /** A successful map names only parameters of the signature, never a
      tunable one; every list is non-empty and a bare trigger stands alone. */
  lemma TriggerMapWellFormed(triggers: seq<string>, signatureArgs: seq<string>, tunables: set<string>)
    requires TriggerMapSpec(triggers, signatureArgs, tunables).Ok?
    ensures var m := TriggerMapSpec(triggers, signatureArgs, tunables).value;
      forall v :: v in m ==> v in signatureArgs && v !in tunables && m[v] != [] && (INFO in m[v] ==> m[v] == [INFO])
  {
  }

  /** Every trigger is recorded under its variable, unless that variable's
      bare trigger absorbed it. */
  lemma TriggerMapRecordsEveryTrigger(triggers: seq<string>, signatureArgs: seq<string>, tunables: set<string>, i: nat)
    requires TriggerMapSpec(triggers, signatureArgs, tunables).Ok? && i < |triggers|
    ensures var m := TriggerMapSpec(triggers, signatureArgs, tunables).value;
      var p := ParseTrigger(triggers[i]).value;
      p.variable in m && (p.fn in m[p.variable] || m[p.variable] == [INFO])
  {
    var parsed := ParseAll(triggers).value;
    GroupContents(parsed, parsed[i].variable, parsed[i].fn);
  }

  /** Every recorded trigger comes from the input. */
  lemma TriggerMapOnlyInputTriggers(triggers: seq<string>, signatureArgs: seq<string>, tunables: set<string>, v: string, fn: TriggerFn)
    requires TriggerMapSpec(triggers, signatureArgs, tunables).Ok?
    requires var m := TriggerMapSpec(triggers, signatureArgs, tunables).value; v in m && fn in m[v]
    ensures exists i :: 0 <= i < |triggers| && ParseTrigger(triggers[i]) == Ok(ParsedTrigger(v, fn))
  {
    var parsed := ParseAll(triggers).value;
    GroupContents(parsed, v, fn);
    GroupContents(parsed, v, INFO);
    var i :| 0 <= i < |parsed| && parsed[i] == ParsedTrigger(v, fn);
    assert ParseTrigger(triggers[i]) == Ok(parsed[i]);
  }
}
