# Column-update benchmark: a verified model

This project models the core of a microbenchmark for a key-indexed record store.
The benchmark compares two ways of changing some bytes of a stored binary record:

- **copy-rebuild** (`run_copy`) reads the record, builds a whole new one and `put`s it back;
- **positional splice** (`run_splices`) issues one one-byte `splice` per changed offset.

The model covers four parts of the core:

- **`Rnd`** (`src/rnd.rs`): the distinct-index sampler `generate_diff_sequence`.
  It runs a partial Fisher–Yates shuffle over a virtual array of `[l, r]`.
  Only the displaced slots are kept, in a map.
  The method is proved equal to an explicit-array reference shuffle (`Shuffle`).
  From that it follows that the result has `count` distinct values in `[l, r]`, and is a permutation of `[l, r]` when `count = r - l + 1`.
- **`Stat`** (`src/stat.rs`): `naive_sum` (at most 256 items) and `block_kahan_sum`, over exact reals.
  Over reals the Kahan correction stays 0 and the block sum equals the plain sum.
  On top of them sit `get_mean`, `get_variance` (population variance) and `Stats::try_from_slice`.
- **`Bench`** (`src/bench.rs`): the trial loop `run_bench`.
  The callbacks are functions that thread the state.
  The clock is an abstract monotonic function: `clock(j)` is the instant returned by the `j`-th reading.
  A ghost event trace records the loop's order of calls: `setup`, clock, `f`, clock, `teardown`.
- **`UpdateColumn`** (`src/benches/update_column/mod.rs`): the update plan `Data::from_config`, the initial population, `setup`, both strategies and `teardown`.
  `State` is a class whose fields `setup` updates.
  The store (`Store.Space`) is a class holding a map from id to a byte sequence, with `Put`, `Get` and `SpliceBindata`.
  The main result: after `setup`, either strategy leaves record `id` equal to `expected`, so `teardown`'s check passes, and every other record is unchanged.
  `SplicesRebuildPlan` states the same result on values: applying the splice list yields exactly the record a full rebuild writes.

Randomness is modelled as an oracle: every `gen_range` answer is a parameter, constrained to the range the call asks for.
Each `gen_range(0..u8::MAX)` answer lies in `0..=254`, because the upper bound 255 is excluded.
The code does this both for the deltas and for the initial bytes.
So no delta and no initial byte is ever 255.

Bytes are `Store.Byte` (`0..256`); `u8::overflowing_add` is `Store.OverflowingAdd`, addition mod 256.
`BinSpace` in src/space.rs has no `splice_bindata`; the model takes it to replace `bytes[offset .. offset + |patch|)` with `patch` (`Store.Splice`).

## Model

| member | source | states |
|---|---|---|
| `Store.OverflowingAdd` | src/benches/update_column/mod.rs:104 | wrapping `u8` addition: the plain sum below 256, the sum minus 256 otherwise |
| `Store.Splice` | src/benches/update_column/mod.rs:151 | the patched range holds the new bytes; every byte outside it and the length are unchanged |
| `Store.SpliceOne` | src/benches/update_column/mod.rs:151 | a one-byte splice at `offset` is the point update `bytes[offset := b]` |
| `Store.Space.Put` | src/space.rs:95-97 | the record under `id` becomes `data`; no other record changes |
| `Store.Space.Get` | src/space.rs:103-111 | `Some` exactly when a record exists under `id`, and then its bytes |
| `Store.Space.SpliceBindata` | src/benches/update_column/mod.rs:149-151 | record `id` becomes its splice with `patch` at `offset`; other records unchanged |
| `Rnd.Range` | src/rnd.rs:46 | `l..=r` has `r - l + 1` values, all distinct |
| `Rnd.SwapPermutes` | src/rnd.rs:24-29 | one virtual swap keeps the multiset of the virtual array |
| `Rnd.SwapDistinct` | src/rnd.rs:24-29 | one virtual swap of an array without repeats leaves it without repeats |
| `Rnd.Shuffle` | src/rnd.rs:15-30 | the reference partial Fisher–Yates keeps the array's length |
| `Rnd.ShufflePermutes` | src/rnd.rs:15-30 | after any number of steps the virtual array is a permutation of `[l, r]` |
| `Rnd.ShuffleDistinct` | src/rnd.rs:15-30 | the virtual array never holds a value twice |
| `Rnd.ShuffleInRange` | src/rnd.rs:3 | every slot of the virtual array holds a value of `[l, r]` |
| `Rnd.SlotsAfterStep` | src/rnd.rs:16-29 | after `replaced.insert(num, lbound_replace)` the map still reads every live slot above `l + i` correctly, and the pushed value is the one slot `num` held |
| `Rnd.SampledProperties` | src/rnd.rs:3-4 | the reference shuffle's first `count` entries are a `DistinctSample`: `count` values, all in `[l, r]`, pairwise distinct, and for `count = r - l + 1` a permutation of `l..=r` |
| `Rnd.GenerateDiffSequence` | src/rnd.rs:5-33 | given `l <= r`, `count <= r - l + 1` and draws in `[l + i, r]`: the result equals the first `count` entries of the reference shuffle, and is a `DistinctSample` of `[l, r]` |
| `Rnd.SortedFullRange` | src/rnd.rs:38-48 | sorted, `r - l + 1` distinct values of `[l, r]` are exactly `l..=r` (the test's `res.sort(); assert_eq!`) |
| `Stat.NaiveSum` | src/stat.rs:3-16 | `isOver` exactly when fewer than `block` items remain; then the sum of all of them and nothing left; otherwise the sum of the next `block` items, the rest untouched |
| `Stat.BlockKahanSum` | src/stat.rs:18-37 | the result is the plain sum of all items (0 for none); the loop calls `naive_sum` `n / 256 + 1` times |
| `Stat.SquaredDeviations` | src/stat.rs:49-53 | one squared deviation per sample |
| `Stat.Variance` | src/stat.rs:47-55 | population variance (divisor `n`) is non-negative |
| `Stat.GetMean` | src/stat.rs:39-45 | `None` exactly for the empty slice, otherwise the sum divided by the length |
| `Stat.GetVariance` | src/stat.rs:47-55 | the block sum of squared deviations divided by `n`, which is non-negative |
| `Stat.TryFromSlice` | src/stat.rs:63-72 | `None` exactly for no samples; otherwise the mean and the population variance of the samples, the variance non-negative |
| `Stat.OneToFive` | src/stat.rs:77-84 | samples 1..5 have mean 3 and variance 2 |
| `Bench.TraceLength` | src/bench.rs:12-19 | each trial contributes exactly five events |
| `Bench.TraceLast` | src/bench.rs:12-19 | the last trial's five events close the trace |
| `Bench.TraceExtends` | src/bench.rs:12-19 | a further trial leaves the events of the earlier trials in place |
| `Bench.TraceAt` | src/bench.rs:12-19 | trial `k` is the events `5k .. 5k+5`: `setup` on the state trial `k` starts from, a clock reading, `f` on what `setup` left, a clock reading, `teardown` on what `f` left |
| `Bench.SetupSeesTeardown` | src/bench.rs:9-18 | trial `k + 1`'s `setup` receives the state trial `k`'s `teardown` produced |
| `Bench.RunBench` | src/bench.rs:4-21 | exactly `retries` durations; duration `k` is the difference of the two clock readings that enclose the call of `f` in trial `k`, and is non-negative; the trace is `retries` trials in order, empty for `retries = 0` |
| `UpdateColumn.CountTrueSet` | src/benches/update_column/mod.rs:34-38 | marking an unmarked offset raises the number of selected offsets by one |
| `UpdateColumn.MarkIndices` | src/benches/update_column/mod.rs:29-38 | from distinct in-range indices: mask and deltas of length `block_size`, exactly the given indices marked, each with its own delta, 0 elsewhere |
| `UpdateColumn.FromConfig` | src/benches/update_column/mod.rs:24-44 | mask and deltas both have length `block_size`; exactly `to_update` offsets are selected, namely the sampled ones; each sampled index gets its own draw as delta; unselected offsets have delta 0; every delta is at most 254 |
| `UpdateColumn.PlanStep` | src/benches/update_column/mod.rs:102-107 | one iteration of `setup`'s loop extends the planned prefix of `expected` by offset `i` and leaves the rest original |
| `UpdateColumn.ApplyPlan` | src/benches/update_column/mod.rs:100-107 | applying the plan keeps the record's length |
| `UpdateColumn.NothingSelectedKeepsBytes` | src/benches/update_column/mod.rs:100-107 | a plan that selects nothing leaves the record unchanged |
| `UpdateColumn.EverythingSelectedAddsEverywhere` | src/benches/update_column/mod.rs:100-107 | a plan that selects every offset makes every byte `original + delta mod 256` |
| `UpdateColumn.ZeroDeltasOffMask` | src/benches/update_column/mod.rs:29-38 | when deltas are 0 off the mask, as `FromConfig` leaves them, each byte becomes `original + delta mod 256` |
| `UpdateColumn.SpliceList` | src/benches/update_column/mod.rs:137-144 | every splice offset lies in `[i, block_size)` |
| `UpdateColumn.SpliceAtApplied` | src/benches/update_column/mod.rs:148-152 | issuing offset `i`'s splice sets byte `i` to its planned value when selected, and otherwise changes nothing |
| `UpdateColumn.SpliceListLength` | src/benches/update_column/mod.rs:137-144 | one splice per selected offset |
| `UpdateColumn.SpliceListEntries` | src/benches/update_column/mod.rs:137-144 | each splice names a selected offset and carries its byte plus delta, wrapping |
| `UpdateColumn.SpliceListAscending` | src/benches/update_column/mod.rs:137-144 | splice offsets strictly ascend |
| `UpdateColumn.SpliceListComplete` | src/benches/update_column/mod.rs:137-144 | every selected offset appears with its new byte |
| `UpdateColumn.SplicesBelowThenList` | src/benches/update_column/mod.rs:137-144 | the splices the loop has built for offsets below `i`, followed by those from `i` on, are the whole splice list |
| `UpdateColumn.SpliceListFacts` | src/benches/update_column/mod.rs:137-144 | the whole splice list satisfies `SplicesMatchPlan`: one entry per selected offset, each with its byte plus delta, offsets strictly ascending, none missing |
| `UpdateColumn.ApplySplices` | src/benches/update_column/mod.rs:147-154 | applying splices keeps the record's length |
| `UpdateColumn.SplicesFinishPlan` | src/benches/update_column/mod.rs:130-164 | splices from offset `i` on, applied to a record whose bytes from `i` on are the original ones, complete the plan from `i` on and keep the bytes below `i` |
| `UpdateColumn.SplicesRebuildPlan` | src/benches/update_column/mod.rs:111-164 | the splice strategy and the copy-rebuild strategy produce the same record |
| `UpdateColumn.InitialRecords` | src/benches/update_column/mod.rs:78-85 | the initial population holds column `i` under id `i` for each `i < block_num`, and nothing else |
| `UpdateColumn.State.constructor` | src/benches/update_column/mod.rs:58-69 | a fresh state is unfilled, has `id = 0` and empty `expected`, and stores the plan `from_config` builds: exactly the `to_update` sampled offsets selected, each with its own delta, delta 0 elsewhere, every delta at most 254 |
| `UpdateColumn.GenerateInitialData` | src/benches/update_column/mod.rs:72-86 | the store gains, or has overwritten, records `0 .. block_num`, each the drawn column of `block_size` bytes |
| `UpdateColumn.Setup` | src/benches/update_column/mod.rs:88-108 | the store is populated on the first call only, and `filled` is then true; `id` is the drawn id below `block_num`; `expected` is the plan applied to record `id` |
| `UpdateColumn.RunCopy` | src/benches/update_column/mod.rs:111-128 | record `id` becomes the plan applied to it; no other record changes |
| `UpdateColumn.MakeSplices` | src/benches/update_column/mod.rs:134-144 | the built list is the splice list and satisfies `SplicesMatchPlan`: one `(offset, new byte)` pair per selected offset, offsets strictly ascending, each with its byte plus delta, none missing |
| `UpdateColumn.ApplySplicesTo` | src/benches/update_column/mod.rs:147-154 | record `id` becomes the result of the splices in list order; no other record changes |
| `UpdateColumn.RunSplices` | src/benches/update_column/mod.rs:130-164 | record `id` becomes the plan applied to it, as with `RunCopy`; no other record changes |
| `UpdateColumn.Teardown` | src/benches/update_column/mod.rs:166-170 | `ok` exactly when `expected` equals the stored record `id` |
| `UpdateColumn.Trial` | src/lib.rs:34-44 | `setup`, then the strategy `method` selects (0 is copy, anything else splices), then `teardown`: the check always passes; the first trial populates the store with `columns`; after that population only record `id` changes, and it becomes the update plan applied to its bytes before the trial (`expected == ApplyPlan(data, record id)`) |

## Left out

- `src/space.rs`: the unsafe tuple decoding, reference counting and MessagePack layer are not modelled. The store is the map in `Store.Space`. A missing `bindata` space (`State::try_new` returning `None`) is not modelled: the constructor receives an existing `Space`.
- `src/lib.rs`: the C entry point, the report printing, and `sqrt` for the standard deviation are not modelled. Only the strategy dispatch (`method == 0` selects copy) is modelled, in `Trial`.
- `to_update` is a natural-number parameter with `to_update <= block_size`. The `f32` product and `floor` that compute it are not modelled.
- Randomness: every `gen_range` answer is a parameter within its documented range. Uniformity and distribution are not claimed.
- Timing: `Instant::now` is the abstract clock of `Bench.RunBench`. Its readings do not depend on the work done between them.
- The `transaction_per_block` transaction wrapper, its commit and abort, and its memory-limit failure are not modelled. The splices are applied in order and always succeed.
- `f64` rounding: sums, mean and variance are over exact reals, where the Kahan correction is always 0.
- `usize` width: indices and counts are unbounded naturals. Overflow of `r + 1` at `usize::MAX`, and the `l > r` underflow in the assertion, are not modelled: `GenerateDiffSequence` requires `l <= r`, and `FromConfig` requires `block_size > 0`.
- GenerateDiffSequence: the `O(count)` memory bound (at most `i` map entries, all keys in `[l, r]`) is a loop invariant, not an `ensures`, because the map is local.
- BlockKahanSum: that the correction term stays 0 is a loop invariant, not an `ensures`, because the term is local.
- GetVariance: requires a non-empty slice. The source would return NaN (`0.0 / 0.0`) for an empty one, but its only caller passes a slice that has a mean.
- Teardown: the source panics on a mismatch; the model returns `ok = false` instead. `Bench.RunBench` takes total callbacks, so it does not model a run being aborted.
- Setup: requires `idDraw < block_num`, so `block_num = 0` is excluded. There the source's `gen_range(0..0)` panics, and `src/lib.rs` passes `block_num` through unchecked; the panic is not modelled. `Trial` inherits this precondition.
- Setup, RunCopy, RunSplices, Teardown: they require a state whose records `0 .. block_num` exist with `block_size` bytes. This always holds once `setup` has run. Otherwise the source's `get(...).unwrap()` or an index would panic.
- `Bench.RunBench` requires a monotonic clock, which is what Rust's `Instant` guarantees. A `Duration` is then non-negative.
- `retries = 0`: `RunBench` returns no durations, and `TryFromSlice` then returns `None`. `src/lib.rs` would then panic in `expect`; that is not modelled.
