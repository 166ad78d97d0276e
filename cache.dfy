/** The trial-history cache `_CutoTuneCache` and its module-level singleton
    (`cutotune/cache.py`): per function hash and lookup key, the list of
    `(config, time)` records seen so far. */
module CutoTuneCache {
  import opened Values
  import opened Exceptions
  import opened Configs
  import opened Selection

  datatype Record = Record(config: CutoTuneConfig, time: real)

  /** `full_cache`: function hash -> lookup key -> records in insertion order. */
  type FullCache = map<string, map<string, seq<Record>>>

  /** The records of one `(hash, key)` pair; a missing pair reads as the
      empty list the `defaultdict` would create. */
  function Get(cache: FullCache, hash: string, key: string): seq<Record>
  {
    if hash in cache && key in cache[hash] then cache[hash][key] else []
  }

  /** Every stored list holds at least one record. */
  predicate AllNonEmpty(cache: FullCache)
  {
    forall hash, key :: hash in cache && key in cache[hash] ==> cache[hash][key] != []
  }

  /** `full_cache[hash][key].append(record)`. */
  function AddRecord(cache: FullCache, hash: string, key: string, record: Record): FullCache
  {
    var inner := if hash in cache then cache[hash] else map[];
    cache[hash := inner[key := Get(cache, hash, key) + [record]]]
  }

  /** Appending extends exactly one list by exactly the new record, adds
      `hash` and `key` to the indexes, and leaves every other hash's table
      as it was. */
  lemma AddRecordContents(cache: FullCache, hash: string, key: string, record: Record, h: string, k: string)
    ensures Get(AddRecord(cache, hash, key, record), h, k) == Get(cache, h, k) + (if h == hash && k == key then [record] else [])
    ensures AddRecord(cache, hash, key, record).Keys == cache.Keys + {hash}
    ensures forall h :: h in cache && h != hash ==> AddRecord(cache, hash, key, record)[h] == cache[h]
    ensures AddRecord(cache, hash, key, record)[hash].Keys == (if hash in cache then cache[hash].Keys else {}) + {key}
  {
  }

  /** Appending keeps every stored list non-empty. */
  lemma AddRecordNonEmpty(cache: FullCache, hash: string, key: string, record: Record)
    requires AllNonEmpty(cache)
    ensures AllNonEmpty(AddRecord(cache, hash, key, record))
  {
  }

  // ---------------------------------------------------------------------
  // Loading

  /** A record of the loaded document: the config's fields in document
      order and the measured time. */
  datatype DocRecord = DocRecord(config: seq<(string, Value)>, time: real)

  /** The loaded document: function hash -> lookup key -> records, each
      level in document order. */
  type Document = seq<(string, seq<(string, seq<DocRecord>)>)>

  /** `KernelBackend(value)`: look a backend up by its serialised value. */
  function ParseBackend(value: Value): (r: Result<Value>)
    ensures r.Ok? ==> r.value.BackendVal?
    ensures r.Raise? ==> r.error == ValueError
  {
    match value
    case StrVal(s) =>
      if s == BackendName(Cuda) then Ok(BackendVal(Cuda))
      else if s == BackendName(Triton) then Ok(BackendVal(Triton))
      else Raise(ValueError)
    case BackendVal(b) => Ok(value)
    case _ => Raise(ValueError)
  }

  /** A backend's serialised name loads back as that backend, and no other
      string does. */
  lemma ParseBackendName(b: KernelBackend, s: string)
    ensures ParseBackend(StrVal(BackendName(b))) == Ok(BackendVal(b))
    ensures ParseBackend(StrVal(s)).Ok? <==> s == BackendName(Cuda) || s == BackendName(Triton)
  {
  }

  /** One field of a loaded config: `kernel_backend` becomes a
      `KernelBackend`, everything else is copied. */
  function ConvertField(name: string, value: Value): (r: Result<Value>)
    ensures name != "kernel_backend" ==> r == Ok(value)
  {
    if name == "kernel_backend" then ParseBackend(value) else Ok(value)
  }

  /** The dictionary a loaded config becomes, field by field in order. */
  function DeserializeConfig(fields: seq<(string, Value)>): Result<map<string, Value>>
  {
    if fields == [] then Ok(map[])
    else
      var n := |fields| - 1;
      match DeserializeConfig(fields[..n])
      case Raise(e) => Raise(e)
      case Ok(m) =>
        match ConvertField(fields[n].0, fields[n].1)
        case Raise(e) => Raise(e)
        case Ok(v) => Ok(m[fields[n].0 := v])
  }

  /** Loading a config fails exactly on a `kernel_backend` field that names
      no backend; otherwise each field holds its converted value. */
  lemma {:induction false} DeserializeConfigFields(fields: seq<(string, Value)>)
    requires forall i, j :: 0 <= i < j < |fields| ==> fields[i].0 != fields[j].0
    ensures DeserializeConfig(fields).Ok? <==> forall i :: 0 <= i < |fields| ==> ConvertField(fields[i].0, fields[i].1).Ok?
    ensures DeserializeConfig(fields).Ok? ==> DeserializeConfig(fields).value.Keys == set i | 0 <= i < |fields| :: fields[i].0
    ensures DeserializeConfig(fields).Ok? ==>
              forall i :: 0 <= i < |fields| ==> DeserializeConfig(fields).value[fields[i].0] == ConvertField(fields[i].0, fields[i].1).value
  {
    if fields != [] {
      var n := |fields| - 1;
      DeserializeConfigFields(fields[..n]);
      assert forall i :: 0 <= i < n ==> fields[..n][i] == fields[i];
    }
  }

  /** One flattened record of the document. */
  datatype Entry = Entry(hash: string, key: string, record: DocRecord)

  function FlattenKey(hash: string, key: string, records: seq<DocRecord>): (r: seq<Entry>)
    ensures |r| == |records| && forall i :: 0 <= i < |records| ==> r[i] == Entry(hash, key, records[i])
  {
    seq(|records|, i requires 0 <= i < |records| => Entry(hash, key, records[i]))
  }

  function FlattenHash(hash: string, keys: seq<(string, seq<DocRecord>)>): seq<Entry>
  {
    if keys == [] then []
    else FlattenHash(hash, keys[..|keys| - 1]) + FlattenKey(hash, keys[|keys| - 1].0, keys[|keys| - 1].1)
  }

  /** The document's records in the order the three loops of `load` visit
      them. */
  function Flatten(doc: Document): seq<Entry>
  {
    if doc == [] then [] else Flatten(doc[..|doc| - 1]) + FlattenHash(doc[|doc| - 1].0, doc[|doc| - 1].1)
  }

  /** `load`'s innermost step: convert one record and append it. */
  function LoadEntry(cache: FullCache, entry: Entry): Result<FullCache>
  {
    match DeserializeConfig(entry.record.config)
    case Raise(e) => Raise(e)
    case Ok(values) => Ok(AddRecord(cache, entry.hash, entry.key, Record(CutoTuneConfig(values, None), entry.record.time)))
  }

  /** The cache after loading `entries` in order, and the error that
      stopped the loading, if any; records before the error stay appended. */
  function LoadFold(cache: FullCache, entries: seq<Entry>): (FullCache, Option<Exception>)
  {
    if entries == [] then (cache, None)
    else
      var n := |entries| - 1;
      var (c, err) := LoadFold(cache, entries[..n]);
      if err.Some? then (c, err)
      else
        match LoadEntry(c, entries[n])
        case Raise(e) => (c, Some(e))
        case Ok(c2) => (c2, None)
  }

  lemma {:induction false} LoadFoldAppend(cache: FullCache, a: seq<Entry>, b: seq<Entry>)
    ensures LoadFold(cache, a + b) ==
      var (c, err) := LoadFold(cache, a);
      if err.Some? then (c, err) else LoadFold(c, b)
  {
    if b == [] {
      assert a + b == a;
    } else {
      var n := |b| - 1;
      assert (a + b)[..|a + b| - 1] == a + b[..n];
      LoadFoldAppend(cache, a, b[..n]);
    }
  }

  lemma LoadFoldStep(cache: FullCache, entries: seq<Entry>, e: Entry)
    ensures LoadFold(cache, entries + [e]) ==
      var (c, err) := LoadFold(cache, entries);
      if err.Some? then (c, err)
      else match LoadEntry(c, e)
        case Raise(x) => (c, Some(x))
        case Ok(c2) => (c2, None)
  {
    assert (entries + [e])[..|entries|] == entries;
  }

  /** Loading keeps every stored list non-empty. */
  lemma {:induction false} LoadFoldNonEmpty(cache: FullCache, entries: seq<Entry>)
    requires AllNonEmpty(cache)
    ensures AllNonEmpty(LoadFold(cache, entries).0)
  {
    if entries != [] {
      var n := |entries| - 1;
      LoadFoldNonEmpty(cache, entries[..n]);
      var (c, err) := LoadFold(cache, entries[..n]);
      var e := entries[n];
      if err.None? && DeserializeConfig(e.record.config).Ok? {
        AddRecordNonEmpty(c, e.hash, e.key, Record(CutoTuneConfig(DeserializeConfig(e.record.config).value, None), e.record.time));
      }
    }
  }

  /** The records a successful load appends to one `(hash, key)` list. */
  function LoadedRecords(entries: seq<Entry>, hash: string, key: string): seq<Record>
    requires forall i :: 0 <= i < |entries| ==> DeserializeConfig(entries[i].record.config).Ok?
  {
    if entries == [] then []
    else
      var n := |entries| - 1;
      var e := entries[n];
      LoadedRecords(entries[..n], hash, key)
      + if e.hash == hash && e.key == key
        then [Record(CutoTuneConfig(DeserializeConfig(e.record.config).value, None), e.record.time)]
        else []
  }

  /** `load` fails exactly when some record's config does not convert. */
  lemma {:induction false} LoadFoldFails(cache: FullCache, entries: seq<Entry>)
    ensures LoadFold(cache, entries).1.None? <==>
              forall i :: 0 <= i < |entries| ==> DeserializeConfig(entries[i].record.config).Ok?
  {
    if entries != [] {
      var n := |entries| - 1;
      LoadFoldFails(cache, entries[..n]);
      assert forall i :: 0 <= i < n ==> entries[..n][i] == entries[i];
      var (c, err) := LoadFold(cache, entries[..n]);
      if err.None? {
        assert LoadEntry(c, entries[n]).Ok? <==> DeserializeConfig(entries[n].record.config).Ok?;
      }
    }
  }

  lemma LoadFoldSucceedsStep(cache: FullCache, entries: seq<Entry>) returns (rec: Record)
    requires entries != [] && LoadFold(cache, entries[..|entries| - 1]).1.None?
    requires DeserializeConfig(entries[|entries| - 1].record.config).Ok?
    ensures var e := entries[|entries| - 1];
      && rec == Record(CutoTuneConfig(DeserializeConfig(e.record.config).value, None), e.record.time)
      && LoadFold(cache, entries) == (AddRecord(LoadFold(cache, entries[..|entries| - 1]).0, e.hash, e.key, rec), None)
  {
    var e := entries[|entries| - 1];
    rec := Record(CutoTuneConfig(DeserializeConfig(e.record.config).value, None), e.record.time);
  }

  /** A successful `load` appends every record, converted, after the
      records already stored for its `(hash, key)` pair, in document order. */
  lemma {:induction false} LoadFoldAppends(cache: FullCache, entries: seq<Entry>, hash: string, key: string)
    requires forall i :: 0 <= i < |entries| ==> DeserializeConfig(entries[i].record.config).Ok?
    ensures LoadFold(cache, entries).1.None?
    ensures Get(LoadFold(cache, entries).0, hash, key) == Get(cache, hash, key) + LoadedRecords(entries, hash, key)
  {
    if entries != [] {
      var n := |entries| - 1;
      assert forall i :: 0 <= i < n ==> entries[..n][i] == entries[i];
      LoadFoldAppends(cache, entries[..n], hash, key);
      LoadFoldAppendsStep(cache, entries, hash, key);
    }
  }

  lemma LoadFoldAppendsStep(cache: FullCache, entries: seq<Entry>, hash: string, key: string)
    requires entries != []
    requires forall i :: 0 <= i < |entries| ==> DeserializeConfig(entries[i].record.config).Ok?
    requires var prefix := entries[..|entries| - 1];
      && LoadFold(cache, prefix).1.None?
      && Get(LoadFold(cache, prefix).0, hash, key) == Get(cache, hash, key) + LoadedRecords(prefix, hash, key)
    ensures LoadFold(cache, entries).1.None?
    ensures Get(LoadFold(cache, entries).0, hash, key) == Get(cache, hash, key) + LoadedRecords(entries, hash, key)
  {
    var n := |entries| - 1;
    var e := entries[n];
    var c := LoadFold(cache, entries[..n]).0;
    var rec := LoadFoldSucceedsStep(cache, entries);
    AddRecordContents(c, e.hash, e.key, rec, hash, key);
    var added := if e.hash == hash && e.key == key then [rec] else [];
    assert LoadedRecords(entries, hash, key) == LoadedRecords(entries[..n], hash, key) + added;
    AppendAssociative(Get(cache, hash, key), LoadedRecords(entries[..n], hash, key), added);
  }

  lemma AppendAssociative<T>(a: seq<T>, b: seq<T>, c: seq<T>)
    ensures (a + b) + c == a + (b + c)
  {
  }

  // ---------------------------------------------------------------------
  // Best configs

  function RecordTimes(records: seq<Record>): (times: seq<Option<real>>)
    ensures |times| == |records| && forall i :: 0 <= i < |records| ==> times[i] == Some(records[i].time)
  {
    seq(|records|, i requires 0 <= i < |records| => Some(records[i].time))
  }

  /** `min(records, key=lambda x: x[1])`: the earliest record of least time. */
  function BestRecord(records: seq<Record>): (r: Record)
    requires records != []
    ensures exists i :: 0 <= i < |records| && records[i] == r
              && (forall j :: 0 <= j < |records| ==> r.time <= records[j].time)
              && (forall j :: 0 <= j < i ==> r.time < records[j].time)
  {
    var times := RecordTimes(records);
    assert times[0].Some?;
    var i := FirstMinimum(times).value;
    assert IsFirstMinimum(times, i);
    records[i]
  }

  // ---------------------------------------------------------------------
  // The cache object

  class CutoTuneCache {
    var fullCache: FullCache

    ghost predicate Valid()
      reads this
    {
      AllNonEmpty(fullCache)
    }

    constructor Empty()
      ensures fullCache == map[] && Valid()
    {
      fullCache := map[];
    }

    /** `_CutoTuneCache()`: load the cache file when `loadFlag` is set and
        the file exists (`file` is its parsed content); otherwise start
        empty. */
    static method Create(loadFlag: bool, file: Option<Document>) returns (r: Result<CutoTuneCache>)
      ensures !(loadFlag && file.Some?) ==> r.Ok? && fresh(r.value) && r.value.fullCache == map[] && r.value.Valid()
      ensures loadFlag && file.Some? ==>
                var (loaded, err) := LoadFold(map[], Flatten(file.value));
                (err.Some? ==> r == Raise(err.value))
                && (err.None? ==> r.Ok? && fresh(r.value) && r.value.fullCache == loaded && r.value.Valid())
    {
      var cache := new CutoTuneCache.Empty();
      if loadFlag && file.Some? {
        var loaded := cache.Load(file.value);
        if loaded.Raise? {
          return Raise(loaded.error);
        }
      }
      r := Ok(cache);
    }

    /** `add_config`: append one record to the list of `(hash, key)`. */
    method AddConfig(hash: string, key: string, config: CutoTuneConfig, time: real)
      requires Valid()
      modifies this
      ensures Valid()
      ensures fullCache == AddRecord(old(fullCache), hash, key, Record(config, time))
    {
      var inner := if hash in fullCache then fullCache[hash] else map[];
      var records := if key in inner then inner[key] else [];
      AddRecordNonEmpty(fullCache, hash, key, Record(config, time));
      fullCache := fullCache[hash := inner[key := records + [Record(config, time)]]];
    }

    /** `load`: the three nested loops over hashes, keys and records. On an
        error the records before it stay appended. */
    method Load(doc: Document) returns (r: Result<()>)
      requires Valid()
      modifies this
      ensures Valid()
      ensures (fullCache, if r.Raise? then Some(r.error) else None) == LoadFold(old(fullCache), Flatten(doc))
    {
      ghost var start := fullCache;
      LoadFoldNonEmpty(start, Flatten(doc));
      var i := 0;
      while i < |doc|
        invariant 0 <= i <= |doc|
        invariant (fullCache, None) == LoadFold(start, Flatten(doc[..i]))
        invariant Valid()
      {
        FlattenStep(doc, i);
        LoadFoldAppend(start, Flatten(doc[..i]), FlattenHash(doc[i].0, doc[i].1));
        var err := LoadHash(doc[i].0, doc[i].1);
        if err.Some? {
          FlattenPrefix(doc, i + 1);
          ErrorStops(start, Flatten(doc[..i + 1]), Flatten(doc));
          return Raise(err.value);
        }
        i := i + 1;
      }
      assert doc[..i] == doc;
      r := Ok(());
    }

    method LoadHash(hash: string, keys: seq<(string, seq<DocRecord>)>) returns (err: Option<Exception>)
      requires Valid()
      modifies this
      ensures Valid()
      ensures (fullCache, err) == LoadFold(old(fullCache), FlattenHash(hash, keys))
    {
      ghost var start := fullCache;
      var j := 0;
      while j < |keys|
        invariant 0 <= j <= |keys|
        invariant (fullCache, None) == LoadFold(start, FlattenHash(hash, keys[..j]))
        invariant Valid()
      {
        assert keys[..j + 1][..j] == keys[..j];
        LoadFoldAppend(start, FlattenHash(hash, keys[..j]), FlattenKey(hash, keys[j].0, keys[j].1));
        err := AddRecords(hash, keys[j].0, keys[j].1);
        if err.Some? {
          FlattenHashPrefix(hash, keys, j + 1);
          ErrorStops(start, FlattenHash(hash, keys[..j + 1]), FlattenHash(hash, keys));
          return err;
        }
        j := j + 1;
      }
      assert keys[..j] == keys;
      err := None;
    }

    method AddRecords(hash: string, key: string, records: seq<DocRecord>) returns (err: Option<Exception>)
      requires Valid()
      modifies this
      ensures Valid()
      ensures (fullCache, err) == LoadFold(old(fullCache), FlattenKey(hash, key, records))
    {
      ghost var start := fullCache;
      var k := 0;
      while k < |records|
        invariant 0 <= k <= |records|
        invariant (fullCache, None) == LoadFold(start, FlattenKey(hash, key, records[..k]))
        invariant Valid()
      {
        assert FlattenKey(hash, key, records[..k + 1]) == FlattenKey(hash, key, records[..k]) + [Entry(hash, key, records[k])];
        LoadFoldStep(start, FlattenKey(hash, key, records[..k]), Entry(hash, key, records[k]));
        var values := DeserializeConfig(records[k].config);
        if values.Raise? {
          assert FlattenKey(hash, key, records[..k + 1]) <= FlattenKey(hash, key, records);
          ErrorStops(start, FlattenKey(hash, key, records[..k + 1]), FlattenKey(hash, key, records));
          return Some(values.error);
        }
        AddConfig(hash, key, CutoTuneConfig(values.value, None), records[k].time);
        k := k + 1;
      }
      assert records[..k] == records;
      err := None;
    }

    /** `save`: its first statement reads the local `function_hash`, which
        is only assigned later in the method, so it raises before anything is
        computed or written. */
    method Save() returns (r: Result<()>)
      ensures r == Raise(UnboundLocalError)
    {
      r := Raise(UnboundLocalError);
    }

    /** `get_best_configs(hash)`: for every lookup key recorded under `hash`,
        the config of the earliest fastest record. Reading an unseen hash
        inserts an empty entry for it. */
    method GetBestConfigs(hash: string) returns (best: map<string, CutoTuneConfig>)
      requires Valid()
      modifies this
      ensures Valid()
      ensures fullCache == if hash in old(fullCache) then old(fullCache) else old(fullCache)[hash := map[]]
      ensures best.Keys == fullCache[hash].Keys
      ensures forall key :: key in best ==> best[key] == BestRecord(fullCache[hash][key]).config
    {
      if hash !in fullCache {
        fullCache := fullCache[hash := map[]];
      }
      var perKey := fullCache[hash];
      best := map[];
      var pending := perKey.Keys;
      while pending != {}
        invariant pending <= perKey.Keys
        invariant best.Keys == perKey.Keys - pending
        invariant forall key :: key in best ==> best[key] == BestRecord(perKey[key]).config
        decreases |pending|
      {
        var key :| key in pending;
        best := best[key := BestRecord(perKey[key]).config];
        pending := pending - {key};
      }
    }
  }

  lemma FlattenStep(doc: Document, i: nat)
    requires i < |doc|
    ensures Flatten(doc[..i + 1]) == Flatten(doc[..i]) + FlattenHash(doc[i].0, doc[i].1)
  {
    assert doc[..i + 1][..i] == doc[..i];
  }

  lemma {:induction false} FlattenPrefix(doc: Document, i: nat)
    requires i <= |doc|
    ensures Flatten(doc[..i]) <= Flatten(doc)
  {
    if i < |doc| {
      var n := |doc| - 1;
      assert doc[..n][..i] == doc[..i];
      FlattenPrefix(doc[..n], i);
      assert Flatten(doc) == Flatten(doc[..n]) + FlattenHash(doc[n].0, doc[n].1);
    } else {
      assert doc[..i] == doc;
    }
  }

  lemma {:induction false} FlattenHashPrefix(hash: string, keys: seq<(string, seq<DocRecord>)>, j: nat)
    requires j <= |keys|
    ensures FlattenHash(hash, keys[..j]) <= FlattenHash(hash, keys)
  {
    if j < |keys| {
      var n := |keys| - 1;
      assert keys[..n][..j] == keys[..j];
      FlattenHashPrefix(hash, keys[..n], j);
      assert FlattenHash(hash, keys) == FlattenHash(hash, keys[..n]) + FlattenKey(hash, keys[n].0, keys[n].1);
    } else {
      assert keys[..j] == keys;
    }
  }

  /** Once loading has failed, the records after the error are never read. */
  lemma ErrorStops(cache: FullCache, prefix: seq<Entry>, entries: seq<Entry>)
    requires prefix <= entries && LoadFold(cache, prefix).1.Some?
    ensures LoadFold(cache, entries) == LoadFold(cache, prefix)
  {
    LoadFoldAppend(cache, prefix, entries[|prefix|..]);
    assert prefix + entries[|prefix|..] == entries;
  }

  // ---------------------------------------------------------------------
  // The singleton

  /** The module global `_CUTOTUNE_CACHE`. */
  class CacheRegistry {
    var instance: CutoTuneCache?

    constructor()
      ensures instance == null
    {
      instance := null;
    }

    /** `get_cutotune_cache`: create the cache on first use, then return the
        same object on every later call. */
    method GetCutotuneCache(loadFlag: bool, file: Option<Document>) returns (r: Result<CutoTuneCache>)
      modifies this
      ensures old(instance) != null ==> r == Ok(old(instance)) && instance == old(instance)
      ensures old(instance) == null && r.Ok? ==> fresh(r.value) && instance == r.value && r.value.Valid()
      ensures old(instance) == null && r.Raise? ==> instance == null
      ensures r.Ok? ==> instance == r.value
    {
      if instance == null {
        var created := CutoTuneCache.Create(loadFlag, file);
        if created.Raise? {
          return Raise(created.error);
        }
        instance := created.value;
      }
      r := Ok(instance);
    }

    /** `save_cutotune_cache`: the cache must already exist, and then its
        `save` is called, which always fails. */
    method SaveCutotuneCache() returns (r: Result<()>)
      ensures r.Raise?
      ensures r == if instance == null then Raise(AssertionError(CacheNotCreated)) else Raise(UnboundLocalError)
    {
      if instance == null {
        return Raise(AssertionError(CacheNotCreated));
      }
      r := instance.Save();
    }
  }
}
