# perfmon: a Dafny model of the perf-counter probe

perfmon is a small measurement probe. A host calls `prepare` once, then `begin` and `end`
around each measured region. `prepare` reads a comma-separated list of event names from the
`PERF_EVENTS` environment variable. It encodes each name with libpfm, opens one kernel counter
handle per event and starts them all. `begin` reads every counter into an `initial` buffer.
`end` reads them into a `final` buffer and appends one `{name, delta}` result per event to a
results buffer that is never cleared. It then reports the cumulative result count. A Rust
wrapper guards `prepare` so it runs only once and defaults the variable to the empty string. Its
`end` folds the cumulative results into a map from name to value.

This project models that core as pure functions over immutable state and proves its rules:

- `wrappers.dfy`: `Option`, `Result` (failure-compatible) and `Buffers.Resize` (`std::vector::resize`).
- `diagnostics.dfy`: one `Error` constructor per fatal check (`ASSERT` then `errx`) and one for the
  Rust panic.
- `event_list.dfy`: splitting `PERF_EVENTS`. `Fields` and `Join` are mutually inverse. `EventNames`
  keeps the non-empty fields. `SplitEventList` is the `getline` loop, proved equal to `EventNames`.
- `counter_data.dfy`: the counter reading (`PerfEventData`), overflow and contention, and the delta
  operator. `None` stands for the NaN sentinel.
- `counter_set.dfy`: `PerfEvents`. `Prepare` covers the constructor, `PerfPrepare` and the
  `PerfCreate` loop. `Enable` is `PerfEnable`. `ReadAll` is the `PerfRead` loop. libpfm and the kernel
  appear as a `Kernel` value: its fields give each call's answer, keyed by the call's arguments.
  Each `ReadAll` gets the answers to its own `read` calls: a return value and the three unsigned
  words written into the slot, read back as `long long` fields.
- `session.dfy`: `perfmon_prepare`, `perfmon_begin` and `perfmon_end` over the process-wide state
  (`Globals`), plus runs of `begin` and `end` calls in any order.
- `binding.dfy`: the Rust `initialize`, `begin` and `end`, and the fold into a map.
- `scenarios.dfy`: concrete runs (two events, a contended counter, a multiplexed counter, an unset
  variable).

Behaviour worth noting:

- An empty `PERF_EVENTS` is accepted and gives zero events. Only an unset variable is fatal
  (perfevent.cpp:124-125).
- The diagnostics of failed reads name no event index (perfevent.cpp:105-107). Those of encode,
  open and the per-handle enable do (perfevent.cpp:80-87). Those of `pfm_initialize` and `prctl`
  do not (perfevent.cpp:70, 93).
- `begin` and `end` may be called in any order after `prepare`. An `end` with no `begin` before it
  compares against zero readings, and the results buffer grows with every `end`.

## Model

| member | source | states |
|---|---|---|
| EventList.FindDelimiter | perfevent.cpp:130 | `getline` stops at the first `,` at or after the cursor, or at the end of input; no delimiter lies before that point |
| EventList.Fields | perfevent.cpp:127-131 | a string always has at least one comma-separated field, and no field contains a comma |
| EventList.JoinFields | perfevent.cpp:127-131 | joining the fields of any string with commas gives the string back |
| EventList.FieldsOfJoin | perfevent.cpp:127-131 | splitting a comma-join of one or more comma-free fields gives exactly those fields back |
| EventList.EventNames | perfevent.cpp:131 | every event name is non-empty and contains no comma |
| EventList.EventNamesOfJoin | perfevent.cpp:126-132 | any list of non-empty comma-free names, duplicates included, parses back to itself in the same order; the empty string gives no events |
| EventList.SplitEventList | perfevent.cpp:126-132 | the stringstream/getline loop yields exactly the non-empty comma-separated tokens, in input order, duplicates kept |
| CounterData.Snapshot.IsOverflowed | perfevent.cpp:23-25 | a reading is overflowed when any of its raw count, enabled time or running time is negative as a `long long` |
| CounterData.Snapshot.IsContended | perfevent.cpp:26-28 | a reading is contended when its enabled time is zero |
| CounterData.WordOf | perfevent.cpp:19-22 | every `long long` field value is the reading of exactly the kernel word that equals it modulo 2^64 |
| CounterData.AsSigned | perfevent.cpp:20-22 | a kernel word read as `long long` is negative exactly when its top bit is set, and agrees with the word modulo 2^64 |
| CounterData.OverflowedIffTopBitSet | perfevent.cpp:23-25 | a reading is overflowed exactly when one of its three unsigned kernel words exceeds 2^63 - 1 |
| CounterData.Delta | perfevent.cpp:29-33 | the sentinel exactly when either reading is overflowed or contended; otherwise the exact raw-count difference, which fits in `long long` and is non-negative iff the count did not decrease |
| CounterData.DeltaSelf | perfevent.cpp:26-33 | a sound reading against itself gives delta 0; an overflowed or contended one gives the sentinel |
| CounterData.DeltaAntisymmetric | perfevent.cpp:29-33 | swapping the readings negates the delta and keeps the sentinel |
| CounterData.DeltaTelescopes | perfevent.cpp:29-33 | deltas of consecutive intervals add up to the delta of the whole interval |
| CounterData.DeltaFromZeroIsSentinel | perfevent.cpp:26-31 | any delta against the zero reading is the sentinel, because that reading is contended |
| CounterSet.NewCounterSet | perfevent.cpp:64-66 | the constructor `PerfEvents(events)` (perfevent.cpp:42) keeps the event list and leaves the set uninitialised, with handle and attribute arrays that match the events only when there are none |
| CounterSet.PerfPrepare | perfevent.cpp:68-75 | fails with the libpfm status exactly when `pfm_initialize` fails; otherwise stamps every attribute block with its size and sets the initialised flag, leaving the handles alone |
| CounterSet.PerfCreate | perfevent.cpp:77-88 | succeeds exactly when encoding (user level), opening (this process, any CPU) and enabling event `i` all succeed; each failure names index and event; success changes only slot `i` |
| CounterSet.CreateFrom | perfevent.cpp:49-51 | creating from index `i` succeeds iff every later event can be created; on failure the error is that of the first failing index; each slot gets its own configured attribute block and opened handle, earlier slots untouched |
| CounterSet.Prepare | perfevent.cpp:45-52 | succeeds iff libpfm initialises and every event can be created; otherwise the error of the first failing step in index order; on success the set is initialised and slot `i` holds event `i`'s attribute block and handle |
| CounterSet.Enable | perfevent.cpp:90-94 | fails with "not initialised" unless `PerfPrepare` ran, then fails exactly when `prctl` is non-zero; never changes the set |
| CounterSet.EnableBeforePrepareFails | perfevent.cpp:90-91 | enabling a freshly constructed set is always the not-initialised error |
| CounterSet.EnableAfterPrepare | perfevent.cpp:54-56 | after a successful `Prepare`, `Enable` fails only when `prctl` does |
| CounterSet.ReplyOf | perfevent.cpp:102-104 | for every reading there is a `read` reply of any return value whose three words fill the slot with exactly that reading |
| CounterSet.PerfRead | perfevent.cpp:102-108 | accepts a reply exactly when it is 24 bytes with enabled time equal to running time; a negative result, a short read or a scaled counter are distinct errors, checked in that order |
| CounterSet.ReadFrom | perfevent.cpp:58-62 | reading slots `i..` succeeds iff each of them reads validly, returns their readings in slot order, or the error of the first failing slot |
| CounterSet.ReadAll | perfevent.cpp:58-62 | succeeds iff every handle reads validly; slot `i` holds the reading of handle `fds[i]` with equal enabled and running times; otherwise the error of the first failing slot |
| Session.Int32Of | perfevent.cpp:152 | storing the result count into an `int` keeps it modulo 2^32 in the signed range, and keeps it unchanged up to 2^31 - 1 |
| Session.PerfmonPrepare | perfevent.cpp:123-138 | fails with the configuration error exactly when `PERF_EVENTS` is unset; otherwise succeeds iff the set prepares and enables; events are the parsed names; both `initial` and `final` are resized to the event count (old prefix kept, new slots zero); results untouched; a failure with the variable set is the error of the first failing set-up step, or the `prctl` status |
| Session.EmptyEnvPreparesNoEvents | perfevent.cpp:124-135 | an empty `PERF_EVENTS` is not an error and prepares zero events |
| Session.PerfmonBegin | perfevent.cpp:140-142 | succeeds iff every counter reads validly, and then overwrites only `initial`, with the readings of the handles in slot order |
| Session.AppendDeltas | perfevent.cpp:146-151 | pushes exactly one `{events[j], delta_j}` per remaining index, in index order, after the unchanged earlier results |
| Session.PerfmonEnd | perfevent.cpp:144-154 | succeeds iff every counter reads validly; overwrites only `final` and `results`; appends one result per event, in order, with the delta of `final` against `initial`; earlier results unchanged; reports the new cumulative size |
| Session.EndWithoutBeginGivesSentinels | perfevent.cpp:133-151 | an `end` right after `prepare`, with no `begin`, reports the sentinel for every event |
| Session.Run | perfevent.cpp:140-154 | any sequence of `begin` and `end` calls keeps the state prepared and yields one reported count per `end` |
| Session.RunFirst | perfevent.cpp:140-153 | a `begin` leaves the results and counter set alone; an `end` grows the results by the event count with the old ones as prefix, and reports the new size |
| Session.RunAccumulates | perfevent.cpp:144-153 | after any run the results have grown by exactly the number of `end` calls times the event count, old results intact, counter set unchanged |
| Session.RunReportsCumulativeCounts | perfevent.cpp:150-152 | the `c`-th `end` of any run reports the previous size plus `c + 1` times the event count, wrapped to an `int` |
| Session.NthEndReportsNTimesEvents | perfevent.cpp:150-152 | from an empty results buffer, the `N`-th `end` of any interleaving of `begin` and `end` calls reports `N` times the event count |
| Binding.DefaultedEnv | src/lib.rs:28-30 | an unset (or non-Unicode) `PERF_EVENTS` becomes the empty string; a valid one is left unchanged; afterwards the variable is always set |
| Binding.Initialize | src/lib.rs:24-34 | a second call fails with the once-only panic and prepares nothing; the first never meets the unset-variable error, succeeds exactly when the C prepare does, sets the flag, and an unset variable gives zero events; the C state is the one the C prepare leaves, and a failed first call returns the C prepare's error |
| Binding.InitializeOnlyOnce | src/lib.rs:24-27 | after a successful `initialize`, every further one fails whatever the kernel answers |
| Binding.Begin | src/lib.rs:37-41 | succeeds iff every counter reads validly; the C state is the one `perfmon_begin` leaves, with `initial` holding each handle's reading and nothing else changed; a failure is `perfmon_begin`'s error |
| Binding.Collect | src/lib.rs:50-53 | the map's keys are exactly the names among the entries |
| Binding.CollectSize | src/lib.rs:50-53 | duplicate names collapse: the map has at most one key per entry |
| Binding.CollectLastWins | src/lib.rs:51-53 | the value kept for a name is the value of the last entry with that name |
| Binding.CollectLaterWins | src/lib.rs:51-53 | for every name carried by later entries, the fold of all entries agrees with the fold of the later ones |
| Binding.End | src/lib.rs:44-55 | succeeds iff every counter reads validly and the wrapped count is non-negative; a negative count is an error; folds exactly the first `count` entries, which is the whole cumulative buffer while its size is at most 2^31 - 1, and the keys are then the names among them |
| Binding.EndAppendsCycle | perfevent.cpp:146-151 | one `end` appends one result per event, in index order |
| Binding.EndLatestCycleWins | src/lib.rs:45-53 | for each event of the cycle just ended, the map holds that cycle's delta, from the event's last position if the name repeats; the map has at most as many keys as cumulative entries |
| Binding.EndKeysAreEventNames | src/lib.rs:45-53 | when all stored results name configured events, the map's keys are exactly the event names |
| Scenarios.TwoEventNames | perfevent.cpp:126-132 | `cycles,instructions` names two events in that order |
| Scenarios.PrepareTwoEvents | perfevent.cpp:123-138 | preparing those events against an accepting kernel succeeds with empty results |
| Scenarios.TwoSlotInterval | perfevent.cpp:140-153 | for two prepared events and no earlier results, one begin/end interval with valid readings gives exactly the two deltas in slot order and size 2 |
| Scenarios.TwoEventInterval | perfevent.cpp:144-153 | after preparing `cycles,instructions`, the readings 1000/2000 then 1500/3200 (times equal) give results cycles = 500 and instructions = 1200, and size 2 |
| Scenarios.ContendedCounterGivesSentinel | perfevent.cpp:29-31 | a counter whose final enabled time is 0 reports the sentinel while the other event is still computed |
| Scenarios.ScaledCounterIsFatal | perfevent.cpp:107 | a final reading with enabled 700 and running 600 makes `end` fail as scaled |
| Scenarios.UnsetEnvIsFatal | perfevent.cpp:124-125 | without `PERF_EVENTS`, prepare yields only the configuration error |

## Left out

- libpfm and the kernel (`pfm_initialize`, `pfm_get_perf_event_encoding`, `perf_event_open`, `ioctl`, `prctl`, `read`): their behaviour is not visible. Their answers are inputs (`Kernel` and the per-call `read` function). The encoding is an opaque `Encoding`, and `sizeof(perf_event_attr)` is a flag that says the size field was stamped.
- The `double` result of `operator-` and the `uint64_t(double)` cast when a result is stored (perfevent.cpp:149): floating point, with NaN-to-integer undefined behaviour and precision loss above 2^53. Results carry the delta as `Option<int>`. The number reported for the sentinel, and for a negative delta, is unspecified.
- `errx`/`exit` process termination: each fatal check returns an `Error` instead.
- `PerfDisable` (perfevent.cpp:96-100): it is never called.
- The `AtomicBool` memory ordering in src/lib.rs: the flag is a plain boolean, because the probe is single-threaded.
- FFI pointers and `CStr` conversion: names are compared as strings. `to_str().unwrap()` cannot fail, because `initialize` replaces a non-Unicode variable with the empty string.
- Calling `begin` or `end` before a successful `prepare` dereferences a null pointer: `PerfmonBegin`, `PerfmonEnd`, `Begin` and `End` require a prepared state.
- Binding.End: a negative wrapped count makes `count as usize` a length far past the buffer, and `slice::from_raw_parts` is then undefined behaviour. The model returns `NegativeCount` instead. A non-negative wrapped count (for example 5 after 2^32 + 5 results) is well defined, and the model folds only that prefix.
- Binding.End: with no cumulative results at all (for example when `PERF_EVENTS` was unset), `results.data()` of a never-grown `std::vector` may be null, and `slice::from_raw_parts(null, 0)` is undefined behaviour in Rust. The model returns the empty map, as a non-null empty buffer would give.
- CounterSet.Prepare: models the constructor and `Prepare` together on a fresh object, which is the only way the probe uses them.
- A failed `read` may leave a partly written slot; the process ends there, so the model returns only the error.
- tests/simple.rs and examples/sum.rs check hardware counters on a real machine. build.rs is build plumbing.
- Environment bytes are modelled as characters. Rust's Unicode check is a flag on the variable.
