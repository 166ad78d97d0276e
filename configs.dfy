/** `CutoTuneConfig` and `get_cartesian_product_cutotune_configs`
    (`utils/cutotune.py`). */
module Configs {
  import opened Values
  import opened Exceptions

  /** Keyword arguments as the condition callable receives them. */
  type Context = map<string, Value>

  /** A candidate assignment of the tunable parameters, with an optional
      applicability condition over the call's keyword arguments. */
  datatype CutoTuneConfig = CutoTuneConfig(values: map<string, Value>, condition: Option<Context -> bool>)

  /** `kwargs.update(self.get_key_values())`: the caller's arguments with the
      config's own values taking precedence. */
  function ConditionContext(config: CutoTuneConfig, kwargs: Context): (ctx: Context)
    ensures ctx.Keys == kwargs.Keys + config.values.Keys
    ensures forall k :: k in config.values ==> ctx[k] == config.values[k]
    ensures forall k :: k in kwargs && k !in config.values ==> ctx[k] == kwargs[k]
  {
    kwargs + config.values
  }

  /** `is_condition_valid`: a config without a condition always applies;
      otherwise its condition decides, seeing the config's values in place
      of the caller's. */
  function IsConditionValid(config: CutoTuneConfig, kwargs: Context): (ok: bool)
    ensures config.condition.None? ==> ok
    ensures config.condition.Some? ==> (ok <==> config.condition.value(ConditionContext(config, kwargs)))
  {
    match config.condition
    case None => true
    case Some(condition) => condition(ConditionContext(config, kwargs))
  }

  function ProductOfLengths(lists: seq<seq<Value>>): nat
  {
    if lists == [] then 1 else |lists[0]| * ProductOfLengths(lists[1..])
  }

  /** Every `head + tail` combination, heads outermost. */
  function Prepend(heads: seq<Value>, tails: seq<seq<Value>>): (r: seq<seq<Value>>)
    ensures |r| == |heads| * |tails|
  {
    if heads == [] then []
    else
      var first := seq(|tails|, b requires 0 <= b < |tails| => [heads[0]] + tails[b]);
      assert |heads| * |tails| == |tails| + (|heads| - 1) * |tails|;
      first + Prepend(heads[1..], tails)
  }

  lemma {:induction false} PrependIndex(heads: seq<Value>, tails: seq<seq<Value>>, a: nat, b: nat)
    requires a < |heads| && b < |tails|
    ensures a * |tails| + b < |Prepend(heads, tails)|
    ensures Prepend(heads, tails)[a * |tails| + b] == [heads[a]] + tails[b]
  {
    if a > 0 {
      PrependIndex(heads[1..], tails, a - 1, b);
      assert a * |tails| + b == |tails| + ((a - 1) * |tails| + b);
    }
  }

  lemma {:induction false} PrependMembership(heads: seq<Value>, tails: seq<seq<Value>>, t: seq<Value>)
    ensures t in Prepend(heads, tails) <==> t != [] && t[0] in heads && t[1..] in tails
  {
    if heads != [] {
      var first := seq(|tails|, b requires 0 <= b < |tails| => [heads[0]] + tails[b]);
      assert Prepend(heads, tails) == first + Prepend(heads[1..], tails);
      PrependMembership(heads[1..], tails, t);
      if t in first {
        var b :| 0 <= b < |tails| && first[b] == t;
        assert t[1..] == tails[b];
      }
      if t != [] && t[0] == heads[0] && t[1..] in tails {
        var b :| 0 <= b < |tails| && tails[b] == t[1..];
        assert first[b] == t;
      }
    }
  }

  /** `itertools.product(*lists)`: every tuple taking one element from each
      list, in lexicographic order of the positions. */
  function Tuples(lists: seq<seq<Value>>): (r: seq<seq<Value>>)
    ensures |r| == ProductOfLengths(lists)
  {
    if lists == [] then [[]] else Prepend(lists[0], Tuples(lists[1..]))
  }

  /** Order of the product: the first list varies slowest; inside each of
      its elements the remaining lists follow in their own product order. */
  lemma ProductOrder(lists: seq<seq<Value>>, a: nat, b: nat)
    requires lists != [] && a < |lists[0]| && b < |Tuples(lists[1..])|
    ensures a * |Tuples(lists[1..])| + b < |Tuples(lists)|
            && Tuples(lists)[a * |Tuples(lists[1..])| + b] == [lists[0][a]] + Tuples(lists[1..])[b]
  {
    var tails := Tuples(lists[1..]);
    assert Tuples(lists) == Prepend(lists[0], tails);
    PrependIndex(lists[0], tails, a, b);
  }

  /** A tuple is produced exactly when it picks one element of each list. */
  lemma {:induction false} TuplesMembership(lists: seq<seq<Value>>, t: seq<Value>)
    ensures t in Tuples(lists) <==> |t| == |lists| && forall j :: 0 <= j < |t| ==> t[j] in lists[j]
  {
    if lists != [] {
      PrependMembership(lists[0], Tuples(lists[1..]), t);
      if t != [] {
        TuplesMembership(lists[1..], t[1..]);
        assert forall j :: 1 <= j < |t| ==> t[j] == t[1..][j - 1];
        assert forall j :: 0 <= j < |t| - 1 ==> t[1..][j] == t[j + 1];
      }
    }
  }

  lemma TuplesLength(lists: seq<seq<Value>>)
    ensures forall i :: 0 <= i < |Tuples(lists)| ==> |Tuples(lists)[i]| == |lists|
  {
    forall i | 0 <= i < |Tuples(lists)|
      ensures |Tuples(lists)[i]| == |lists|
    {
      TuplesMembership(lists, Tuples(lists)[i]);
    }
  }

  function Names(kwargs: seq<(string, seq<Value>)>): (r: seq<string>)
    ensures |r| == |kwargs| && forall i :: 0 <= i < |kwargs| ==> r[i] == kwargs[i].0
  {
    seq(|kwargs|, i requires 0 <= i < |kwargs| => kwargs[i].0)
  }

  function Lists(kwargs: seq<(string, seq<Value>)>): (r: seq<seq<Value>>)
    ensures |r| == |kwargs| && forall i :: 0 <= i < |kwargs| ==> r[i] == kwargs[i].1
  {
    seq(|kwargs|, i requires 0 <= i < |kwargs| => kwargs[i].1)
  }

  predicate Distinct(names: seq<string>)
  {
    forall i, j :: 0 <= i < j < |names| ==> names[i] != names[j]
  }

  /** `{key: value for key, value in zip(names, values)}`. */
  function ZipConfig(names: seq<string>, values: seq<Value>): (r: map<string, Value>)
    requires |names| == |values| && Distinct(names)
    ensures r.Keys == set i | 0 <= i < |names| :: names[i]
    ensures forall i :: 0 <= i < |names| ==> r[names[i]] == values[i]
  {
    map i | 0 <= i < |names| :: names[i] := values[i]
  }

  /** `get_cartesian_product_cutotune_configs(condition, **kwargs)`: one
      config per tuple of the product of the keyword lists, in product
      order, each binding every keyword name and sharing `condition`.
      Keyword names are distinct, as Python keyword arguments always are. */
  function CartesianProductConfigs(condition: Option<Context -> bool>, kwargs: seq<(string, seq<Value>)>)
    : (r: seq<CutoTuneConfig>)
    requires Distinct(Names(kwargs))
    ensures |r| == ProductOfLengths(Lists(kwargs))
    ensures forall i :: 0 <= i < |r| ==> r[i].condition == condition
    ensures forall i :: 0 <= i < |r| ==> r[i].values.Keys == set j | 0 <= j < |kwargs| :: kwargs[j].0
    ensures forall i, j :: 0 <= i < |r| && 0 <= j < |kwargs| ==>
              j < |Tuples(Lists(kwargs))[i]| && r[i].values[kwargs[j].0] == Tuples(Lists(kwargs))[i][j]
  {
    var tuples := Tuples(Lists(kwargs));
    TuplesLength(Lists(kwargs));
    seq(|tuples|, i requires 0 <= i < |tuples| => CutoTuneConfig(ZipConfig(Names(kwargs), tuples[i]), condition))
  }

  /** The generated space holds exactly the assignments that give every
      keyword one of its listed values. */
  lemma CartesianProductComplete(condition: Option<Context -> bool>, kwargs: seq<(string, seq<Value>)>, choice: seq<Value>)
    requires Distinct(Names(kwargs)) && |choice| == |kwargs|
    ensures (exists i :: 0 <= i < |CartesianProductConfigs(condition, kwargs)|
                && CartesianProductConfigs(condition, kwargs)[i] == CutoTuneConfig(ZipConfig(Names(kwargs), choice), condition))
            <==> (forall j :: 0 <= j < |kwargs| ==> choice[j] in kwargs[j].1)
  {
    if exists i :: 0 <= i < |CartesianProductConfigs(condition, kwargs)|
                && CartesianProductConfigs(condition, kwargs)[i] == CutoTuneConfig(ZipConfig(Names(kwargs), choice), condition) {
      var i :| 0 <= i < |CartesianProductConfigs(condition, kwargs)|
                && CartesianProductConfigs(condition, kwargs)[i] == CutoTuneConfig(ZipConfig(Names(kwargs), choice), condition);
      GeneratedChoiceIsListed(condition, kwargs, choice, i);
    }
    if forall j :: 0 <= j < |kwargs| ==> choice[j] in kwargs[j].1 {
      ListedChoiceIsGenerated(condition, kwargs, choice);
    }
  }

  lemma GeneratedChoiceIsListed(condition: Option<Context -> bool>, kwargs: seq<(string, seq<Value>)>, choice: seq<Value>, i: nat)
    requires Distinct(Names(kwargs)) && |choice| == |kwargs|
    requires i < |CartesianProductConfigs(condition, kwargs)|
    requires CartesianProductConfigs(condition, kwargs)[i] == CutoTuneConfig(ZipConfig(Names(kwargs), choice), condition)
    ensures forall j :: 0 <= j < |kwargs| ==> choice[j] in kwargs[j].1
  {
    var lists := Lists(kwargs);
    var r := CartesianProductConfigs(condition, kwargs);
    TuplesMembership(lists, choice);
    TuplesLength(lists);
    forall j | 0 <= j < |kwargs|
      ensures Tuples(lists)[i][j] == choice[j]
    {
      assert r[i].values[Names(kwargs)[j]] == choice[j];
    }
    assert Tuples(lists)[i] == choice;
  }

  lemma ListedChoiceIsGenerated(condition: Option<Context -> bool>, kwargs: seq<(string, seq<Value>)>, choice: seq<Value>)
    requires Distinct(Names(kwargs)) && |choice| == |kwargs|
    requires forall j :: 0 <= j < |kwargs| ==> choice[j] in kwargs[j].1
    ensures exists i :: 0 <= i < |CartesianProductConfigs(condition, kwargs)|
              && CartesianProductConfigs(condition, kwargs)[i] == CutoTuneConfig(ZipConfig(Names(kwargs), choice), condition)
  {
    var lists := Lists(kwargs);
    var r := CartesianProductConfigs(condition, kwargs);
    TuplesMembership(lists, choice);
    TuplesLength(lists);
    var i :| 0 <= i < |Tuples(lists)| && Tuples(lists)[i] == choice;
    assert r[i] == CutoTuneConfig(ZipConfig(Names(kwargs), choice), condition);
  }
}
