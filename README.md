# cute-kernels autotuner and launch geometry, modelled in Dafny

This project models the autotuning engine of the cute-kernels repository:

- **`_CutoTune` dispatcher.** A decorated kernel wrapper is built from a list of `CutoTuneConfig`s and a set of trigger strings. On each call it:
  - enforces the all-or-nothing `CutoTuneParameter` marker rule;
  - builds a lookup key from the triggered arguments;
  - on a miss, sweeps the configs and memoises the fastest applicable one;
  - calls the kernel with the config merged into the caller's arguments.
- **Config generator.** `get_cartesian_product_cutotune_configs` builds the config space.
- **`_CutoTuneCache`.** A table `function_hash -> lookup_key -> [(config, time)]` that can be loaded from a document, with a process-wide singleton.
- **Smaller helpers:**
  - `ensure_same_strides` / `make_contiguous`;
  - the CUDA launch-geometry helpers of `threads.h` and `math.h`;
  - the GEMM index linearisation;
  - the mixture-of-experts block layout `padded_block_indices` of scattermoe.

Modules follow the source files:

| source | Dafny module | file |
|---|---|---|
| exceptions | `Exceptions` (Python exceptions, `Result`, `Option`) | exceptions.dfy |
| argument values, tensors | `Values` | values.dfy |
| `cutotune.py`: conditions, cartesian product | `Configs` | configs.dfy |
| `cutotune.py`: marker rule, argument merge | `Arguments` | arguments.dfy |
| `cutotune.py`: trigger parsing, trigger map | `Triggers` | triggers.dfy |
| `cutotune.py`: lookup keys | `LookupKeys` | lookup_keys.dfy |
| first strict minimum (sweep and cache) | `Selection` | selection.dfy |
| `cutotune.py`: benchmark, sweep, `_CutoTune` | `CutoTune` | cutotune.dfy |
| `cache.py` | `CutoTuneCache` | cache.dfy |
| `contiguous.py` | `Contiguous` | contiguous.dfy |
| `math.h` | `CudaMath` | cuda_math.dfy |
| `threads.h` | `Threads` | threads.dfy |
| gemm `index.h` | `GemmIndex` | gemm_index.dfy |
| scattermoe `ops.py` | `ScatterMoE` | scattermoe.dfy |

How the Python world is represented:

- **Values and tensors.** An argument value is an int, bool, string, kernel backend, `None`, a `CutoTuneParameter` marker, or a tensor. A tensor is `(dtype, shape, stride)`.
- **Arguments.** `*args` is a sequence, and `**kwargs` is an ordered sequence of `(name, value)` pairs. Positional arguments are bound to `signature.args` by position.
- **Errors.** A failing `assert` or raised exception is a `Raise(e)` result carrying the Python exception kind. The `AssertionError` kind also carries which assertion failed.
- **The wrapped kernel.** It is opaque. A call is described by the arguments it would receive (`Invocation`), and its running time by a `CallTime` oracle given as a parameter.
- **The source's stateful parts are classes:**
  - `_CutoTune` (the `best_configs` memo table);
  - `_CutoTuneCache` (`full_cache`);
  - the module-level cache singleton.
- **The source's loops are methods with loop invariants:**
  - the sweep, the marker count, the trigger-map setup, the lookup key;
  - the stride scan;
  - the cache load and best-config selection.

  Each method is proved equal to a specification function, and the properties are lemmas about those functions.

## Model

| member | source | states |
|---|---|---|
| Configs.ConditionContext | cute_kernels/utils/cutotune.py:30-32 | the condition sees the caller's keyword arguments overridden by the config's own values: keys are the union, config values win |
| Configs.IsConditionValid | cute_kernels/utils/cutotune.py:30-33 | a config without condition is always valid; otherwise valid exactly when the condition holds on the merged context |
| Configs.Tuples | cute_kernels/utils/cutotune.py:317 | `itertools.product` yields as many tuples as the product of the list lengths |
| Configs.ProductOrder | cute_kernels/utils/cutotune.py:317 | product order: tuple number `a * len(rest) + b` is the first list's `a`-th value followed by the `b`-th tuple of the rest (last list varies fastest) |
| Configs.TuplesMembership | cute_kernels/utils/cutotune.py:317 | a tuple is produced iff it has one value per list and each value is drawn from its list |
| Configs.ZipConfig | cute_kernels/utils/cutotune.py:320 | zipping distinct names with values gives a dict whose keys are the names and whose entry for each name is its value |
| Configs.CartesianProductConfigs | cute_kernels/utils/cutotune.py:313-324 | one config per product tuple, in product order; every config has the keyword names as keys, the tuple's values, and the shared condition |
| Configs.CartesianProductComplete | cute_kernels/utils/cutotune.py:313-324 | a config built from a choice of values is generated iff every chosen value is in its keyword's list |
| Configs.GeneratedChoiceIsListed | cute_kernels/utils/cutotune.py:317-322 | every generated config takes each value from the corresponding keyword's list |
| Configs.ListedChoiceIsGenerated | cute_kernels/utils/cutotune.py:317-322 | every combination of listed values appears among the generated configs |
| Arguments.Positional | cute_kernels/utils/cutotune.py:113-114 | positional value i is bound to `signature.args[i]` |
| Arguments.BindArguments | cute_kernels/utils/cutotune.py:113-121 | binding succeeds iff there are no more positional values than signature names (else `IndexError`); the positional bindings come first, then the keyword ones in order |
| Arguments.NameSet | cute_kernels/utils/cutotune.py:136-144 | the set of names bound by a call |
| Arguments.MarkerCountIsMarkedTunables | cute_kernels/utils/cutotune.py:111-121 | for distinct names, the marker count is the number of tunable parameters passed a `CutoTuneParameter` |
| Arguments.FullCountMeansAllMarked | cute_kernels/utils/cutotune.py:123-126 | the count equals the number of tunables iff every tunable parameter was passed a marker |
| Arguments.CheckAllOrNoMarkers | cute_kernels/utils/cutotune.py:110-128 | the counting loop: `IndexError` iff too many positional values; otherwise an assertion error unless the count is 0 or the full tunable count, and the result is true exactly when the count is 0 |
| Arguments.MarkerCountAppend | cute_kernels/utils/cutotune.py:113-121 | the marker count of positional then keyword bindings is the sum of the two counts |
| Arguments.FirstMarker | cute_kernels/utils/cutotune.py:102-105 | the first positional marker at or after a position, or none |
| Arguments.CheckNoMarkers | cute_kernels/utils/cutotune.py:101-108 | with tuning disabled the call is accepted iff no argument is a marker; a positional marker beyond the signature raises `IndexError` (message formatting), any other marker an assertion error |
| Arguments.MergeArguments | cute_kernels/utils/cutotune.py:130-146 | the merged dictionary's keys are the config's names plus every name the caller bound |
| Arguments.MergeWithOverride | cute_kernels/utils/cutotune.py:139-144 | with override allowed, the last caller binding of a name wins over the config |
| Arguments.MergeKeepsUnpassed | cute_kernels/utils/cutotune.py:134 | a config value the caller did not pass is kept |
| Arguments.MergeWithoutOverrideKeepsConfig | cute_kernels/utils/cutotune.py:139-144 | without override, every config value is kept whatever the caller passed |
| Arguments.MergeWithoutOverrideFirstWins | cute_kernels/utils/cutotune.py:139-144 | without override, a name not in the config takes the caller's first binding of it |
| Triggers.Split | cute_kernels/utils/cutotune.py:257 | `str.split(".")` gives one more part than there are dots, none containing a dot |
| Triggers.SplitJoin | cute_kernels/utils/cutotune.py:257 | joining the parts with "." gives back the string |
| Triggers.JoinSplit | cute_kernels/utils/cutotune.py:257 | splitting a join of dot-free parts gives back the parts |
| Triggers.ParseInt | cute_kernels/utils/cutotune.py:273-279 | `int()` accepts exactly an optionally signed digit string, else `ValueError` |
| Triggers.ParseIntRoundTrip | cute_kernels/utils/cutotune.py:273-279 | `int(str(d)) == d` for every integer dimension |
| Triggers.ParseAccessor | cute_kernels/utils/cutotune.py:263-282 | accessor names other than `dtype` and the `size`/`shape`/`stride` families raise `ValueError`; failures are only `ValueError` |
| Triggers.ParseTrigger | cute_kernels/utils/cutotune.py:256-284 | parsing a trigger fails only with `ValueError` or the unbound-name error |
| Triggers.ParseTriggerCases | cute_kernels/utils/cutotune.py:256-284 | a bare name gives `(name, "info", None)`; one dot gives a variable and a callable accessor with `variable + "." + func_name == trigger`; two or more dots fail with `UnboundLocalError` |
| Triggers.RenderAccessor | cute_kernels/utils/cutotune.py:266-280 | every accessor has a dot-free textual form |
| Triggers.ParseRenderAccessor | cute_kernels/utils/cutotune.py:266-280 | parsing the textual form of an accessor gives the accessor back |
| Triggers.ShapeIsSize | cute_kernels/utils/cutotune.py:268-277 | `shape` means `size()` and `shape(d)` means `size(d)` |
| Triggers.TriggerRoundTrip | cute_kernels/utils/cutotune.py:256-284 | `name.accessor` parses to that name and accessor |
| Triggers.ParseAll | cute_kernels/utils/cutotune.py:238-240 | all triggers parse iff each one does, and then element by element |
| Triggers.Group | cute_kernels/utils/cutotune.py:236-240 | the per-variable `defaultdict(list)` never holds an empty list |
| Triggers.GroupContents | cute_kernels/utils/cutotune.py:236-240 | a variable (and a `(func_name, func)` pair under it) is in the grouping iff some parsed trigger has it |
| Triggers.Collapse | cute_kernels/utils/cutotune.py:243-245 | a variable with a bare trigger keeps only `("info", None)`; others are unchanged |
| Triggers.GroupTriggers | cute_kernels/utils/cutotune.py:238-240 | the append loop returns the first parse error, or the grouping of all parsed triggers |
| Triggers.CollapseTriggers | cute_kernels/utils/cutotune.py:243-249 | any variable outside the signature raises the assertion; otherwise the map is collapsed |
| Triggers.SetupTriggerMap | cute_kernels/utils/cutotune.py:233-254 | the method computes exactly the specified trigger map or error |
| Triggers.ParseAllFails | cute_kernels/utils/cutotune.py:238-239 | the first trigger that fails to parse decides the error |
| Triggers.ParseAllPrefixFails | cute_kernels/utils/cutotune.py:238-239 | once a prefix fails, later triggers do not change the error |
| Triggers.TriggerMapWellFormed | cute_kernels/utils/cutotune.py:243-254 | every variable of the trigger map is a signature parameter, not tunable, with a non-empty list that is `[info]` if it contains `info` |
| Triggers.TriggerMapRecordsEveryTrigger | cute_kernels/utils/cutotune.py:238-245 | every trigger is recorded under its variable, or that variable collapsed to `[info]` |
| Triggers.TriggerMapOnlyInputTriggers | cute_kernels/utils/cutotune.py:238-245 | every recorded trigger function came from some input trigger |
| LookupKeys.PythonIndex | cute_kernels/utils/cutotune.py:274-280 | Python indexing accepts `-n <= i < n` and maps negative indices from the end |
| LookupKeys.Apply | cute_kernels/utils/cutotune.py:266-280 | `size(d)`/`stride(d)` raise `IndexError` exactly when d is out of range; other accessors always succeed |
| LookupKeys.TensorEntry1 | cute_kernels/utils/cutotune.py:185-190 | a bare trigger on a tensor fails: the assertion if it is not the only trigger, else `TypeError` from calling `None` |
| LookupKeys.TensorEntries | cute_kernels/utils/cutotune.py:185-190 | a tensor contributes one key entry per trigger function |
| LookupKeys.MaybeAddKey | cute_kernels/utils/cutotune.py:178-198 | `_maybe_add_key` appends exactly the specified entries for one argument, or fails as specified |
| LookupKeys.GetLookupKey | cute_kernels/utils/cutotune.py:175-207 | the key-building loops compute exactly the specified key of the bound call |
| LookupKeys.ExtendKey | cute_kernels/utils/cutotune.py:204-205 | continuing the loop over keyword arguments from a prefix's key gives the whole call's key |
| LookupKeys.KeyErrorPersists | cute_kernels/utils/cutotune.py:200-205 | the first failing argument decides the error |
| LookupKeys.UntriggeredArgumentsIgnored | cute_kernels/utils/cutotune.py:179-180 | calls that agree on every triggered argument have the same key |
| LookupKeys.SameProjectionsSameEntries | cute_kernels/utils/cutotune.py:185-190 | tensors that agree on every triggered projection contribute the same entries |
| LookupKeys.BareTriggerEntries | cute_kernels/utils/cutotune.py:184-198 | a bare trigger records a non-tensor's value and fails on a tensor |
| LookupKeys.NonTensorNeedsBareTrigger | cute_kernels/utils/cutotune.py:191-198 | a non-tensor argument is accepted iff its only trigger is bare |
| Selection.FirstMinimum | cute_kernels/utils/cutotune.py:150-169 | the index of the first strict minimum among the measured times, none iff nothing was measured, and it is the only such index |
| Selection.FirstMinimumStep | cute_kernels/utils/cutotune.py:167-169 | one step of the `elapsed_time < best_time` update |
| CutoTune.RunBenchmark | cute_kernels/utils/cutotune.py:209-225 | `warmup + benchmark` calls are made; zero timed calls raise `ZeroDivisionError`, else the mean time of a call |
| CutoTune.SweepTimes | cute_kernels/utils/cutotune.py:155-165 | configs whose condition fails get no time; the others their benchmark time |
| CutoTune.TryConfig | cute_kernels/utils/cutotune.py:156-165 | one sweep step: skipped configs give nothing, otherwise the benchmark result |
| CutoTune.Sweep | cute_kernels/utils/cutotune.py:148-173 | the sweep loop computes exactly the specified winner or error |
| CutoTune.SweepWinner | cute_kernels/utils/cutotune.py:155-173 | the winner is an applicable config with minimal time, strictly faster than every earlier applicable config |
| CutoTune.SweepNeedsApplicableConfig | cute_kernels/utils/cutotune.py:171 | the sweep's assertion fails iff no config is applicable |
| CutoTune.CheckConfigs | cute_kernels/utils/cutotune.py:227-231 | succeeds iff every config has exactly the tunable names as keys |
| CutoTune.ConstructionSucceeds | cute_kernels/utils/cutotune.py:43-69 | construction succeeds iff configs are non-empty, share one key set, the triggers are valid and the op is not in place; the trigger map names only non-tunable signature parameters |
| CutoTune.CutoTune.Create | cute_kernels/utils/cutotune.py:293-310 | the decorator raises the specified construction error, or yields a fresh dispatcher with an empty memo table and the defaults 5 and 10 |
| CutoTune.CutoTune.Call | cute_kernels/utils/cutotune.py:71-99 | a call returns the specified outcome, leaves the specified memo table, and counts one sweep when it swept |
| CutoTune.CutoTune.CallOnKey | cute_kernels/utils/cutotune.py:80-97 | reuse the memoised config, or sweep and memoise the winner |
| CutoTune.DispatchKeepsMemo | cute_kernels/utils/cutotune.py:78-97 | a call never replaces or drops a memoised config, adds at most one key and only after a successful sweep; a disabled call changes nothing |
| CutoTune.DispatchOnKeyKeepsMemo | cute_kernels/utils/cutotune.py:80-97 | the same, once the key is known |
| CutoTune.DispatchSweepsOnMiss | cute_kernels/utils/cutotune.py:80-88 | a sweep runs iff the key is absent, and then the winner is stored under that key |
| CutoTune.RepeatCallNeedsNoSweep | cute_kernels/utils/cutotune.py:80-97 | repeating a successful call, with any timing, does no sweep and gives the same result |
| CutoTune.DispatchMergesBestConfig | cute_kernels/utils/cutotune.py:90-97 | the kernel is called with the memoised config merged with the caller's arguments, override allowed iff no marker was passed |
| CutoTuneCache.AddRecordContents | cute_kernels/cutotune/cache.py:22-23 | appending adds exactly one record to the `(hash, key)` list and leaves every other list unchanged |
| CutoTuneCache.AddRecordNonEmpty | cute_kernels/cutotune/cache.py:17-23 | appending keeps every stored list non-empty |
| CutoTuneCache.ParseBackend | cute_kernels/cutotune/cache.py:50-51 | `KernelBackend(value)` yields a backend or raises `ValueError` |
| CutoTuneCache.ParseBackendName | cute_kernels/cutotune/cache.py:50-51 | each backend's value converts back to it; only "cuda" and "triton" convert |
| CutoTuneCache.ConvertField | cute_kernels/cutotune/cache.py:49-53 | every field other than `kernel_backend` is copied unchanged |
| CutoTuneCache.DeserializeConfigFields | cute_kernels/cutotune/cache.py:48-55 | a record converts iff every field converts; the config has exactly the record's field names and each converted value |
| CutoTuneCache.FlattenKey | cute_kernels/cutotune/cache.py:44 | records of one key are visited in document order |
| CutoTuneCache.LoadFoldAppend | cute_kernels/cutotune/cache.py:42-56 | loading two stretches of records is loading the first, then (if it did not fail) the second |
| CutoTuneCache.LoadFoldStep | cute_kernels/cutotune/cache.py:44-56 | one record: stop at an earlier error, else convert and append it or raise |
| CutoTuneCache.LoadFoldNonEmpty | cute_kernels/cutotune/cache.py:42-56 | loading keeps every stored list non-empty |
| CutoTuneCache.LoadFoldFails | cute_kernels/cutotune/cache.py:42-56 | loading fails iff some record fails to convert |
| CutoTuneCache.LoadFoldSucceedsStep | cute_kernels/cutotune/cache.py:55-56 | a converted record is appended as `(CutoTuneConfig(config), time)` with no condition |
| CutoTuneCache.LoadFoldAppends | cute_kernels/cutotune/cache.py:42-56 | a successful load appends each key's records in document order after the ones already there |
| CutoTuneCache.ErrorStops | cute_kernels/cutotune/cache.py:42-56 | records after a failing one have no effect |
| CutoTuneCache.BestRecord | cute_kernels/cutotune/cache.py:62 | `min(..., key=time)` is a record of the list with minimal time, strictly faster than every earlier one |
| CutoTuneCache.CutoTuneCache.Create | cute_kernels/cutotune/cache.py:16-20 | the cache starts empty unless the load flag is set and the file exists; then it holds the loaded records or the load's error is raised |
| CutoTuneCache.CutoTuneCache.AddConfig | cute_kernels/cutotune/cache.py:22-23 | the table becomes the old table with the record appended |
| CutoTuneCache.CutoTuneCache.Load | cute_kernels/cutotune/cache.py:39-56 | the triple loop leaves the table (and error) of the specified load of the document |
| CutoTuneCache.CutoTuneCache.LoadHash | cute_kernels/cutotune/cache.py:43-56 | the loop over one hash's keys loads that hash's records |
| CutoTuneCache.CutoTuneCache.AddRecords | cute_kernels/cutotune/cache.py:44-56 | the loop over one key's records loads those records |
| CutoTuneCache.CutoTuneCache.GetBestConfigs | cute_kernels/cutotune/cache.py:58-64 | one entry per recorded key of the hash, holding the config of that key's best record; an unseen hash gets an empty entry and the result is empty |
| CutoTuneCache.CacheRegistry.GetCutotuneCache | cute_kernels/cutotune/cache.py:67-76 | the first successful call creates the instance; every later call returns that same object |
| CutoTuneCache.CutoTuneCache.Save | cute_kernels/cutotune/cache.py:25-26 | `save` always raises `UnboundLocalError`: its first line reads `function_hash` before the loop assigns it |
| CutoTuneCache.CacheRegistry.SaveCutotuneCache | cute_kernels/cutotune/cache.py:79-83 | always raises: `AssertionError` when no instance exists, otherwise the `UnboundLocalError` of `save` |
| Contiguous.ContiguousStrides | cute_kernels/utils/contiguous.py:11 | row-major strides: the last is 1, each other one is `max(next extent, 1)` times the next stride |
| Contiguous.MakeContiguous | cute_kernels/utils/contiguous.py:10-11 | a non-tensor is returned as is; a tensor keeps dtype and shape and comes back contiguous, unchanged iff it already was contiguous (empty, or every extent other than 1 has its row-major stride), otherwise with the row-major strides |
| Contiguous.MakeContiguousIdempotent | cute_kernels/utils/contiguous.py:10-11 | making a value contiguous twice is the same as once |
| Contiguous.MapContiguous | cute_kernels/utils/contiguous.py:16-29 | the comprehension keeps length and order, applying `make_contiguous` to each argument |
| Contiguous.FirstStride | cute_kernels/utils/contiguous.py:19-24 | the expected stride is the first tensor argument's stride, none iff there is no tensor |
| Contiguous.FirstStrideExtend | cute_kernels/utils/contiguous.py:21-24 | once a tensor has been seen, later arguments do not change the expected stride |
| Contiguous.EnsureSameStrides | cute_kernels/utils/contiguous.py:14-31 | with force, every argument is made contiguous; otherwise all are made contiguous iff some tensor's stride differs from the first tensor's, else the arguments come back unchanged |
| Contiguous.ContiguousStridesUnique | cute_kernels/utils/contiguous.py:11 | two contiguous tensors of the same shape with every extent at least 2 have the same strides |
| Contiguous.SameShapeSameStride | cute_kernels/utils/contiguous.py:14-31 | in the output, tensors of equal shape whose extents are all at least 2 have equal strides |
| Contiguous.SameShapeStridesMayDiffer | cute_kernels/utils/contiguous.py:14-31 | with an extent of 1, two contiguous tensors of shape (1, 3) can keep strides (3, 1) and (1, 1): the mismatch is seen but `make_contiguous` leaves both unchanged |
| CudaMath.CeilDivide | cute_kernels/include/math.h:1-5 | for `x, d > 0` the result r is at least 1, `r*d >= x > (r-1)*d`, and `r == x/d` iff d divides x |
| CudaMath.CeilDivideIsCeiling | cute_kernels/include/math.h:4 | the expression `x/d + (x%d != 0)` is the ceiling of x/d |
| CudaMath.CeilDivideUnique | cute_kernels/include/math.h:4 | the ceiling is the only value with that property |
| Threads.CheckValidThreadBlock | cute_kernels/include/threads.h:3-6 | a block size passes iff it is a multiple of `WARP_SIZE` = 32 |
| Threads.GetThreadsPerBlock | cute_kernels/include/threads.h:15 | the thread count is 0 iff some block dimension is 0, and otherwise at least each dimension |
| Threads.WarpAlignedBlockIsValid | cute_kernels/include/threads.h:6-15 | a warp-aligned x extent makes the whole block warp-aligned |
| Threads.GetNumBlocksOnDevice | cute_kernels/include/threads.h:17 | the block count is 0 iff some grid dimension is 0, and otherwise at least each dimension |
| Threads.GetBlockId | cute_kernels/include/threads.h:19 | the x-fastest linear id: modulo `gridDim.x` it gives back `blockIdx.x`, divided by it the linear `(y, z)` index |
| Threads.GetNumBlocksOnDeviceAsWritten | cute_kernels/include/threads.h:17 | the uint32 product is a 32-bit value |
| Threads.GetBlockIdAsWritten | cute_kernels/include/threads.h:19 | the uint32 id is a 32-bit value |
| Threads.BlockIdAsWrittenAgrees | cute_kernels/include/threads.h:17-19 | for a grid of fewer than 2^32 blocks, the uint32 block count and every in-grid block id equal the exact ones |
| Threads.BlockIdBelowNumBlocks | cute_kernels/include/threads.h:17-19 | for a grid of fewer than 2^32 blocks, the id of an in-grid block is below the number of blocks |
| Threads.BlockIdInjective | cute_kernels/include/threads.h:19 | for a grid of fewer than 2^32 blocks, distinct in-grid blocks have distinct ids |
| Threads.GetThreadIdAlongAxisAsWritten | cute_kernels/include/threads.h:21-25 | the as-written product is a 32-bit value |
| Threads.ThreadIdAsWrittenCollides | cute_kernels/include/threads.h:24 | two different blocks get the same thread id as written |
| Threads.GetThreadIdAlongAxis | cute_kernels/include/threads.h:21-25 | in the 64-bit result, for a thread inside its block, dividing by the block size gives the block id and the remainder the thread id |
| Threads.ThreadIdAlongAxisInjective | cute_kernels/include/threads.h:21-25 | distinct `(block, thread < block_size)` pairs have distinct ids |
| Threads.ThreadIdAlongAxisBound | cute_kernels/include/threads.h:21-25 | the id is below `block_size * num_blocks` |
| Threads.GetMaxThreadBlocks | cute_kernels/include/threads.h:27-34 | `sm_count` when divisible by the cluster size, otherwise the largest multiple of it not above `sm_count` |
| Threads.CappedBlockCount | cute_kernels/include/threads.h:40-43 | for a `ceil_divide` below 2^32: `ceil_divide(num_elements, BLOCK_SIZE)`, capped at `sm_count` only when `sm_count != 0` |
| Threads.GetNumBlocks | cute_kernels/include/threads.h:36-53 | for a `ceil_divide` below 2^32: the cluster size is min(max cluster size, capped count); the block count is the largest multiple of it not above the capped count |
| Threads.GetNumBlocksAsWritten | cute_kernels/include/threads.h:36-53 | with the uint32 store of line 40, the call divides by zero iff the cluster size is 0 or the stored block count is 0 |
| Threads.NumBlocksAsWrittenAgrees | cute_kernels/include/threads.h:36-53 | when `ceil_divide` fits in 32 bits and the cluster size is positive, the as-written call returns the intended pair |
| Threads.NumBlocksAsWrittenDividesByZero | cute_kernels/include/threads.h:40-50 | 2^32 elements in blocks of 1 store a block count of 0 and divide by zero |
| GemmIndex.GetMatrixIndexAsWritten | cute_kernels/kernels/gemm/cuda_implementation/index.h:8-18 | the as-written product is a 32-bit value |
| GemmIndex.AsWrittenIndexCollides | cute_kernels/kernels/gemm/cuda_implementation/index.h:14 | two different cells get the same index as written |
| GemmIndex.GetMatrixIndex | cute_kernels/kernels/gemm/cuda_implementation/index.h:8-18 | the 64-bit index: row-major `row*N + col` decodes back to `(row, col)` by `/ N` and `% N`; transposed, `col*M + row` decodes by `/ M` and `% M` |
| GemmIndex.MatrixIndexAsWrittenAgrees | cute_kernels/kernels/gemm/cuda_implementation/index.h:8-18 | for a matrix of fewer than 2^32 cells, the uint32 index equals the exact one for every cell |
| GemmIndex.MatrixIndexInBounds | cute_kernels/kernels/gemm/cuda_implementation/index.h:8-18 | in both layouts, a cell of the M×N grid has index below `M*N` |
| GemmIndex.MatrixIndexInjective | cute_kernels/kernels/gemm/cuda_implementation/index.h:8-18 | in a fixed layout, distinct cells have distinct indices |
| ScatterMoE.BincountCoversTokens | khd/scattermoe/triton_implementation/ops.py:13 | `bincount` has length at least k and above every expert id, entry e counts the tokens of expert e, and the counts sum to the token count |
| ScatterMoE.PaddedBlockCount | khd/scattermoe/triton_implementation/ops.py:14 | `((count-1)//N)+1` under floor division is 0 for an empty expert and `ceil(count/N)` otherwise |
| ScatterMoE.PaddedBlockIndices | khd/scattermoe/triton_implementation/ops.py:11-28 | fails (indexing an empty `cumsum`) iff there are no tokens and k is 0 |
| ScatterMoE.PrefixSums | khd/scattermoe/triton_implementation/ops.py:15-18 | `cumsum` is the inclusive prefix sum and `end - counts` the exclusive one |
| ScatterMoE.ExpertBoundaries | khd/scattermoe/triton_implementation/ops.py:16-17 | for sorted expert ids, token i lies in `[start[e], end[e])` iff it belongs to expert e |
| ScatterMoE.LayoutFromCounts | khd/scattermoe/triton_implementation/ops.py:13-28 | the result is the block layout of the counts and `expert_boundaries_end` |
| ScatterMoE.BlockCountIsSumOfPaddedCounts | khd/scattermoe/triton_implementation/ops.py:15-22 | the number of blocks is the sum of the padded block counts |
| ScatterMoE.BlockIdxs | khd/scattermoe/triton_implementation/ops.py:20-26 | one entry per block index in `arange(padded_end[-1])` |
| ScatterMoE.OwnerSegment | khd/scattermoe/triton_implementation/ops.py:24 | each block falls in exactly one expert's padded range |
| ScatterMoE.MaskedSumAtOwner | khd/scattermoe/triton_implementation/ops.py:24-26 | the masked row sum is the owner's term `N*(b - padded_start[e]) + boundaries_start[e]` |
| ScatterMoE.BlockOwner | khd/scattermoe/triton_implementation/ops.py:24-26 | block b has a unique owner e, its value is the owner's term, and it lies in `[boundaries_start[e], boundaries_end[e])` |
| ScatterMoE.ChunkInsideExpert | khd/scattermoe/triton_implementation/ops.py:14-25 | the j-th of an expert's padded blocks starts inside that expert's tokens |

## Left out

- I/O and environment:
  - YAML parsing and file access: the cache document is an abstract nested sequence, and file existence is a parameter.
  - `DISABLE_CUTOTUNE`, `DEBUG_CUTOTUNE` and `LOAD_CUTOTUNE_CACHE` are boolean parameters.
  - Debug printing, `tqdm` and the `torch.distributed` rank check have no effect on results.
- The YAML write of `_CutoTuneCache.save` (lines 28-37 of `cutotune/cache.py`) is not modelled: line 26 raises first on every call.
- The wrapped kernel's own output and exceptions are not modelled. `Invocation` records the arguments it is called with.
- Timing:
  - `perf_counter` and `device_synchronize` are replaced by the `CallTime` oracle;
  - one timed call stands for the mean of the timed loop.
- CutoTune.RunBenchmark: only counts the calls and models the division by the number of timed calls; elapsed time is an oracle.
- Integer widths:
  - iteration counts, shapes and strides are unbounded naturals;
  - Python `int` is unbounded;
  - the uint32 arithmetic of `get_num_blocks` (both), `get_block_id`, `get_thread_id_along_axis` and `get_matrix_index` has an as-written member; the other members use unbounded naturals and agree with it where the values fit;
  - `get_threads_per_block` is not given an as-written member: a CUDA block has at most 1024 threads, so the product cannot wrap;
  - in host `get_num_blocks`, the `uint32` to `int` conversion of the cluster size (line 45) is not modelled: it changes the value only for cluster sizes of 2^31 or more.
- Threads.BlockIdBelowNumBlocks: requires a grid of fewer than 2^32 blocks; above that the uint32 id wraps and no bound is promised.
- Threads.BlockIdInjective: requires a grid of fewer than 2^32 blocks, for the same reason.
- Threads.CappedBlockCount: requires `ceil_divide(num_elements, BLOCK_SIZE)` below 2^32; above that Threads.GetNumBlocksAsWritten models the truncation.
- Threads.GetNumBlocks: requires the same fit, and a positive cluster size; outside them Threads.GetNumBlocksAsWritten models the division by zero.
- ScatterMoE.PaddedBlockIndices: `N_BLOCK_SIZE = 0` (the floor division on line 14 raises) and negative expert ids or a negative `k` (on which `bincount` raises) are not modelled; the natural-number parameters exclude them.
- Lookup keys:
  - keys are sequences of structured entries, not the formatted strings of the source;
  - two different entries that would print alike (a collision of `str()`) are not modelled.
- Python `int()`: leading/trailing whitespace and `_` separators are not modelled; only an optionally signed digit string parses.
- The trigger `set` is given as a sequence in its iteration order. The `isinstance(triggers, set)` assertion is not modelled.
- `KernelBackend`:
  - the enum's definition is not part of this model;
  - only the members `cuda` and `triton`, with those string values, are assumed.
- CutoTuneCache.CutoTuneCache.Load: malformed records (a missing `config`/`time` key, a non-dict config) are not modelled; only a failing `KernelBackend` conversion is.
- `__enter__`, `__exit__` and `__repr__` have no modelled behaviour.
- `in_place_op=True` is modelled as the `NotImplementedError` it raises; in-place tuning itself does not exist in the source.
- `make_contiguous`: storage and object identity are not modelled; a tensor is its dtype, shape and strides.
- Contiguous.SameShapeSameStride: holds only when every extent is at least 2. With an extent of 0 or 1, contiguous tensors of one shape may keep different strides (Contiguous.SameShapeStridesMayDiffer).

## Findings

| source | as written | input that shows it | evidently intended | confidence | as-written member | corrected member |
|---|---|---|---|---|---|---|
| cute_kernels/include/threads.h:24 | `block_size * block_id + thread_id` is computed in uint32 and only then widened to the uint64 return type, so it wraps at 2^32 | block_size = 65536, block_id = 65536, thread_id = 0 gives 0, the same id as block 0 | the 64-bit product, whose ids are distinct per `(block, thread)` | not executed | Threads.ThreadIdAsWrittenCollides | Threads.ThreadIdAlongAxisInjective |
| cute_kernels/kernels/gemm/cuda_implementation/index.h:12-14 | `row * N + col` (and `col * M + row`) are computed in uint32 and widened afterwards, so they wrap at 2^32 | row = 65535, col = 1, M = 65536, N = 65537, not transposed, gives the same index as cell (0, 0) | the 64-bit index, injective on the M×N grid | not executed | GemmIndex.AsWrittenIndexCollides | GemmIndex.MatrixIndexInjective |
