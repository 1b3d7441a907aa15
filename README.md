# EventTracer, modelled in Dafny

`EventTracer` (src/EventTracer.php) writes timeline events in the Trace
Event Format: the JSON array of event objects that Chrome's trace viewer
reads. A tracer works in one of two modes:

- **Buffered.** It is built without a file name. Each event record is
  appended to an in-memory `buffer`. Later, `flush($filename)` splices the
  whole buffer into a file in one write.
- **Streaming.** It is built with a file name. It writes the opening `"[\n"`
  when the file is empty. After that, each event is appended at once as its
  JSON encoding followed by `",\n"`.

Either way the file stays an *open* array. The reader finalises it by
dropping the last two characters (the trailing `",\n"`) and appending
`"\n]"`.

This project models that class:

- **Records** (`TraceRecords`): `log_event` builds each record from the
  base fields `ph`, `ts`, `pid` and `tid`. It then merges in every non-null
  optional field, in order, so later fields override earlier ones.
- **Depth counters** (`Depths`): `begin` and `end` keep a counter per
  process, and `clear` uses it to close the spans still open.
- **File layout** (`TraceLayout`): the bracket and comma arithmetic of the
  streaming writes and of `flush`. It includes the shape of any file built
  from such writes, before and after finalisation.
- **The tracer object** (`Tracing.EventTracer`): a class with the buffer,
  the depth table and the file handle as fields. It has a trace file
  (`Tracing.TraceFile`) that can only be appended to.
- **Test scenarios** (`TracerScenarios`): the repository's own test
  scenarios (tests/EventTracerTest.php), replayed against the class.

JSON encoding of a single record is an abstract `Encoder`: any function
whose output starts with `{` and ends with `}`. An array of encodings is
`"[" + join(",", items) + "]"`, which is what `json_encode` produces for a
list. The current time and the process id are parameters of every
operation.

## Where the code and what its callers expect part ways

**Unmatched `end`.** A balanced trace is expected to end with the
counter at zero: as many ends as begins. `end` decrements the counter
with `$this->depths[getmypid()]--` (src/EventTracer.php:124). When the
process has no counter yet, PHP's `null--` leaves it null, and a null
entry is not `isset`, so that `end` is not counted. The expected property
therefore holds only when the counter starts at zero or the first call
is a `begin`:

- `Depths.BalancedReturnsToZero` states the property with that condition.
- `Depths.EndBeforeBeginIsLost` shows that end-then-begin leaves the
  counter at 1.
- `Depths.EndedCounting` is the decrement that counts an unset counter as
  0. With it, `Depths.CountingBalancedReturnsToZero` holds with no
  condition on the first call.
- `Depths.ReplayAgreesWhenSet` shows that the two decrements agree once
  the counter is set.

The tracer class itself follows the code's decrement.

**`flush` on a streaming tracer.** `buffer` is a typed property
(`public array $buffer`, src/EventTracer.php:8) that only the buffering
constructor sets. On a streaming tracer, the check `$this->buffer == null`
(line 54) reads it uninitialised, which raises a PHP `Error` before line
55 can throw its `Exception`. The test at tests/EventTracerTest.php:203-208
expects an `Exception`, and an `Error` is not one. `Tracing.EventTracer.Flush`
returns `Crash` for that case and `Fail` only for an empty buffer, and
`TracerScenarios.FlushUnbuffered` states that the test's expectation is not
met. The message at line 55 and the test both name the streaming case, so
the intended guard treats an unset buffer like an empty one:
`Tracing.IntendedFlushOutcome` is that outcome. It agrees with the source
on every buffering tracer (`Tracing.IntendedAgreesWhenBuffered`) and
throws the expected `Exception` on a streaming one
(`Tracing.IntendedFailsWhenStreaming`). The tracer class itself follows the
code.

## Model

| member | source | states |
|---|---|---|
| TraceRecords.BuildRecord | src/EventTracer.php:82-92 | the loop that starts from the base fields and copies in each non-null optional computes exactly the record `EventRecord` defines |
| TraceRecords.Base | src/EventTracer.php:82-87 | the base record has exactly the keys `ph`, `ts`, `pid` and `tid`, with the call's phase and time and `tid` equal to `pid` |
| TraceRecords.Merge | src/EventTracer.php:88-92 | definition: the optionals are put into the record one after another, in order |
| TraceRecords.Put | src/EventTracer.php:89-91 | definition: a non-null value is stored under its key, and a null one is skipped |
| TraceRecords.EventRecord | src/EventTracer.php:80-92 | definition: the record `log_event` builds is the base record with the optionals merged in |
| TraceRecords.DistinctKeys | src/EventTracer.php:80 | definition: the keys of the optionals are pairwise distinct, as in the PHP array `$optionals` |
| TraceRecords.LastNonNullDistinct | src/EventTracer.php:88-92 | with distinct keys, the optional under a key decides alone: its value when it is not null, no value when it is |
| TraceRecords.NullsGiveNoValue | src/EventTracer.php:88-92 | optionals whose every entry under a key is null give that key no value |
| TraceRecords.RecordFields | src/EventTracer.php:80-92 | every record has `ph`, `ts`, `pid` and `tid` with `tid == pid`; an optional key is present iff some optional with that key is non-null, and it then holds the last such value; base fields hold their base value unless overridden |
| TraceRecords.MergeAt | src/EventTracer.php:88-92 | merging optionals into a record keeps its keys, adds a key iff a non-null optional carries it, and the value is the last non-null one; with the distinct keys of a PHP array that is the one optional with that key |
| TraceRecords.MergeIsSparse | src/EventTracer.php:89-91 | a merged record holds a null only where the record it started from did: optionals never add a null value |
| TraceRecords.NullOptionalsAddNothing | src/EventTracer.php:89-91 | a key that the record lacks and every optional leaves null is not added: null arguments leave no trace in the record |
| TraceRecords.LastNonNull | src/EventTracer.php:88-92 | the value a merged key ends up with is never null |
| TraceRecords.BareEndHasBaseFieldsOnly | src/EventTracer.php:121-123 | `end()` without arguments logs a record with exactly the four base fields and phase "E", and no name, cat or args |
| TraceRecords.BeginRecordFields | src/EventTracer.php:109-111 | a Begin record has phase "B", the given name, the call's time and pid, and `cat`/`args` exactly when they are given |
| TraceRecords.CompleteStoresStart | src/EventTracer.php:130-133 | a Complete record stores the caller's `start` as `ts`, not the time of the call, and the duration as `dur` |
| TraceRecords.InstantRecordFields | src/EventTracer.php:138-142 | an Instant record has phase "I" and carries `scope` exactly when it is given |
| TraceRecords.AsyncStartRecordFields | src/EventTracer.php:155-158 | an async-start record has phase "b" and carries `id` exactly when it is given |
| TraceRecords.ClockSyncRecordFields | src/EventTracer.php:241-244 | a clock-sync record always has `args`, holding `sync_id` and `issue_ts`; each is null exactly when not given, because nulls nested in `args` are not filtered |
| TraceRecords.OptStr | src/EventTracer.php:89 | an absent string argument becomes the null value, and a given one never does |
| TraceRecords.OptArgs | src/EventTracer.php:89 | an absent args map becomes the null value, and a given one never does |
| TraceRecords.BeginFields | src/EventTracer.php:111 | the optionals of `begin` are `name`, `cat` and `args`, with distinct keys |
| TraceRecords.EndFields | src/EventTracer.php:123 | the optionals of `end` are `name`, `cat` and `args`, with distinct keys |
| TraceRecords.CompleteFields | src/EventTracer.php:132 | the optionals of `complete` are `ts`, `dur`, `name`, `cat` and `args`, with distinct keys |
| TraceRecords.InstantFields | src/EventTracer.php:141 | the optionals of `instant` are `name`, `cat`, `scope` and `args`, with distinct keys |
| TraceRecords.AsyncStartFields | src/EventTracer.php:157 | the optionals of `async_start` are `name`, `id`, `cat` and `args`, with distinct keys |
| TraceRecords.ClockSyncFields | src/EventTracer.php:243 | the optionals of `clock_sync` are `name` and an `args` array of `sync_id` and `issue_ts`, with distinct keys |
| TraceRecords.BareEnd | src/EventTracer.php:123 | definition: the record of `end()` with no arguments |
| TraceJson.EncodeArray | src/EventTracer.php:58 | definition: `json_encode` of a list is `[`, the comma-joined encodings, then `]` |
| TraceJson.EncodeAll | src/EventTracer.php:58 | the buffer is encoded record by record, in order |
| TraceJson.JoinSnoc | src/EventTracer.php:58 | joining one more encoding appends a comma and that encoding |
| Tracing.TraceFile.Append | src/EventTracer.php:96 | one `fwrite` to a file opened in append mode adds its text at the end and changes nothing before it |
| Tracing.StreamText | src/EventTracer.php:95-96 | definition: streaming records writes each encoding followed by `",\n"`, in order |
| Tracing.FlushOutcome | src/EventTracer.php:52-56 | how `flush` ends as written: it crashes iff the buffer was never set, throws iff it is empty, and passes otherwise |
| Tracing.IntendedFlushOutcome | src/EventTracer.php:54-55 | how `flush` was meant to end, with a nullable buffer that defaults to null: it throws "Called flush() on an unbuffered stream" iff the buffer is unset or empty, and never crashes |
| Tracing.IntendedAgreesWhenBuffered | src/EventTracer.php:54-55 | on a buffering tracer, the outcome as written and the intended one agree |
| Tracing.IntendedFailsWhenStreaming | tests/EventTracerTest.php:203-208 | on a streaming tracer the source crashes, while the intended guard throws the `Exception` the test expects |
| Tracing.EventTracer.constructor | src/EventTracer.php:20-35 | without a file the buffer is empty; with one, `"[\n"` is appended iff the file was empty, and nothing earlier is rewritten |
| Tracing.EventTracer.LogEvent | src/EventTracer.php:80-100 | buffered: exactly the new record is appended to the buffer and earlier entries are kept; streaming: exactly `encode(record) + ",\n"` is appended to the file and the buffer is untouched |
| Tracing.EventTracer.Begin | src/EventTracer.php:109-116 | logs the Begin record and sets the counter to old+1, an unset counter counting as 0 |
| Tracing.EventTracer.End | src/EventTracer.php:121-125 | logs the End record and decrements the counter without a lower bound, leaving an unset counter unset |
| Tracing.EventTracer.Complete | src/EventTracer.php:130-133 | logs exactly one Complete record and leaves the counters alone |
| Tracing.EventTracer.Instant | src/EventTracer.php:138-142 | logs exactly one Instant record and leaves the counters alone |
| Tracing.EventTracer.AsyncStart | src/EventTracer.php:155-158 | logs exactly one async-start record and leaves the counters alone |
| Tracing.EventTracer.ClockSync | src/EventTracer.php:241-244 | logs exactly one clock-sync record and leaves the counters alone |
| Tracing.EventTracer.Clear | src/EventTracer.php:41-50 | with no counter for the process it does nothing; with counter d it logs exactly max(d,0) bare End records and leaves the counter at min(d,0), other processes untouched |
| Tracing.EventTracer.Flush | src/EventTracer.php:52-75 | ends as `FlushOutcome` of the old buffer: crashes iff the buffer was never set (a streaming tracer), and throws iff it is empty (`[] == null` in PHP), changing nothing in either case; otherwise it empties the buffer even when the lock fails, and under the lock appends the encoded array, minus its `[` when the file is non-empty, minus its `]`, plus `",\n"` |
| Tracing.StreamTextSnoc | src/EventTracer.php:95-96 | streaming one more record appends its encoding, a comma and a newline |
| Depths.Begun | src/EventTracer.php:112-115 | definition of the counter after `begin`: an unset counter starts from 0, then 1 is added |
| Depths.Ended | src/EventTracer.php:124 | definition of the counter after `end`: a set counter loses 1 with no lower bound, and an unset one stays unset |
| Depths.OnlyOwnCounter | src/EventTracer.php:112-124 | `begin` and `end` change only the calling process's counter: +1 from 0 or the old value, and −1 only when it is set |
| Depths.EndUndoesBegin | src/EventTracer.php:112-124 | an `end` after a `begin` restores the counter, except that an unset counter is now 0 |
| Depths.Replay | src/EventTracer.php:109-125 | definition: the counter after a series of `begin` and `end` calls in one process |
| Depths.Count | src/EventTracer.php:109-125 | definition: how many calls of one kind a series holds |
| Depths.ReplayCounts | src/EventTracer.php:112-124 | from a set counter, any series of calls adds the begins and subtracts the ends |
| Depths.BalancedReturnsToZero | src/EventTracer.php:112-124 | equally many begins and ends bring the counter to 0, when it starts at 0 or the first call is a `begin` |
| Depths.EndBeforeBeginIsLost | src/EventTracer.php:124 | an `end` on an unset counter is lost: end-then-begin leaves the counter at 1, where the counting decrement gives 0 |
| Depths.EndedCounting | src/EventTracer.php:124 | the decrement a balanced trace expects: the counter always exists afterwards, an unset one counting as 0 |
| Depths.ReplayCounting | src/EventTracer.php:109-125 | definition: `Replay` with the counting decrement |
| Depths.ReplayCountingCounts | src/EventTracer.php:109-125 | with the counting decrement, any series of calls adds the begins and subtracts the ends from the counter, an unset one counting as 0 |
| Depths.CountingBalancedReturnsToZero | src/EventTracer.php:109-125 | with the counting decrement, equally many begins and ends always take a zero or unset counter back to 0 |
| Depths.ReplayAgreesWhenSet | src/EventTracer.php:124 | once the counter is set, the source's decrement and the counting one give the same counters for every series of calls |
| Depths.ClearCount | src/EventTracer.php:41-50 | definition: `clear` makes as many `end` calls as the counter, when it is set and positive, else none |
| Depths.ClearBalances | src/EventTracer.php:41-50 | the `end` calls `clear` makes bring a positive counter to 0, leave one at or below 0 as it is, and leave an unset counter unset |
| Depths.ClearAfterBegins | src/EventTracer.php:41-50 | after n unmatched begins from a zero or unset counter, `clear` makes exactly n `end` calls |
| Depths.CountAll | src/EventTracer.php:47-49 | a series of calls of one kind counts each of them and none of the other kind |
| Depths.Ends | src/EventTracer.php:47-49 | definition: `clear`'s run of n `end` calls |
| Depths.Begins | tests/EventTracerTest.php:213-228 | definition: a run of n `begin` calls |
| TraceLayout.DropFirst | src/EventTracer.php:67 | `substr($s, 1)` drops the first character, or gives "" for the empty string |
| TraceLayout.DropLast | src/EventTracer.php:69 | `substr($s, 0, strlen($s) - 1)` drops the last character, or gives "" for the empty string |
| TraceLayout.OpenText | src/EventTracer.php:28-96 | definition of an open array, the file while it is written: `[`, then each event after its layout newline and followed by a comma, then a final newline |
| TraceLayout.ArrayText | tests/EventTracerTest.php:238-241 | definition of a finalised array: `[`, the events separated by commas, each after its layout newline, then `"\n]"` |
| TraceLayout.ItemsOf | src/EventTracer.php:28-96 | definition: the events one write adds, none for the constructor's `"[\n"`, one for a streamed line, the buffer's for a flush |
| TraceLayout.Written | src/EventTracer.php:28-96 | definition: the events of a series of writes, in the order written |
| TraceLayout.Opened | src/EventTracer.php:28-31 | definition: some streaming tracer has been constructed on the file |
| TraceLayout.Ordered | src/EventTracer.php:20-35 | definition of an ordered history: every streamed line comes after some streaming tracer was constructed on the file |
| TraceLayout.Spliced | src/EventTracer.php:64-70 | definition: what `flush` writes for an encoded buffer, without its `[` when the file is non-empty, without its `]`, then `",\n"` |
| TraceLayout.Finalise | tests/EventTracerTest.php:241 | definition: the reader's finalisation, dropping the last two characters and appending `"\n]"` |
| TraceLayout.Apply | src/EventTracer.php:28-96 | definition: the file after one write, the constructor's `"[\n"` when empty, a streamed line, or a non-empty flush |
| TraceLayout.Run | src/EventTracer.php:28-96 | definition: the file, initially empty, after a series of writes |
| TraceLayout.StreamLine | src/EventTracer.php:95-96 | a streamed line appended to an open array gives an open array with one more element |
| TraceLayout.FlushIntoEmpty | src/EventTracer.php:64-70 | flushing a buffer into an empty file writes an open array holding exactly the buffer's encodings |
| TraceLayout.FlushIntoOpen | src/EventTracer.php:64-70 | flushing into a file that holds an open array extends it with exactly the buffer's encodings, in order |
| TraceLayout.EmptyFlushIntoEmpty | src/EventTracer.php:54-56 | without the emptiness guard an empty buffer would write `"[,\n"`, which is no open array of events |
| TraceLayout.EmptyFlushIntoOpen | src/EventTracer.php:54-56 | without the guard an empty buffer flushed into an open array leaves a trailing comma once the file is finalised |
| TraceLayout.ArrayTextWithoutLayout | src/EventTracer.php:58 | a finalised array without line breaks is the encoded array with its `]` moved after a newline |
| TraceLayout.EntriesAreElements | src/EventTracer.php:69-70 | the open entries of a file, minus their final comma, are its finalised elements |
| TraceLayout.EntriesAppend | src/EventTracer.php:70 | appending entries to an open array concatenates items and line breaks |
| TraceLayout.ElementsJoin | src/EventTracer.php:58 | elements without line breaks are the comma-joined encodings |
| TraceLayout.FinaliseOpenText | tests/EventTracerTest.php:238-241 | finalising an open array (drop the last 2 characters, append `"\n]"`) gives a closed array of the same elements |
| TraceLayout.HistoryIsOpenText | src/EventTracer.php:28-31 | after any series of opens, streamed lines and non-empty flushes on one file, in which every line follows an open, the file is empty iff nothing was opened or written, and otherwise is one open array of every written event, in order |
| TraceLayout.FinalisedHistory | src/EventTracer.php:64-70 | such a file, once at least one event is written and the file is finalised, is a single array holding every writer's events in order, opened by a single `[` |
| TraceLayout.FinaliseTwoStreamed | tests/EventTracerTest.php:230-246 | two streamed events finalise to `"[\n" + e1 + ",\n" + e2 + "\n]"`, an array of exactly those two |
| TraceLayout.FinaliseTwoFlushed | tests/EventTracerTest.php:248-266 | two single-event flushes finalise to `"[" + e1 + ",\n" + e2 + "\n]"`, an array of exactly those two |
| TracerScenarios.BeginThenEnd | tests/EventTracerTest.php:74-82 | `begin("running program")` then `end()` buffers two records: a "B" with that name, then an "E" without one |
| TracerScenarios.EndOutstanding | tests/EventTracerTest.php:213-228 | `clear` on an unused tracer is harmless; three begins give 3 records, `clear` adds three bare Ends (6 in all), and `flush` empties the buffer |
| TracerScenarios.StreamingWrites | tests/EventTracerTest.php:230-246 | two streaming tracers on one empty file write `"[\n"` once, and the finalised file is the array of their two events |
| TracerScenarios.FlushingWrites | tests/EventTracerTest.php:248-266 | two buffering tracers flushed in turn to one empty file give a finalised file that is one array: the first tracer's event, then the second's |
| TracerScenarios.FlushUnbuffered | tests/EventTracerTest.php:203-208 | `flush` on a streaming tracer raises the uninitialised-property `Error`, which is neither the `Exception` "Called flush() on an unbuffered stream" the test expects nor the intended outcome |

## Left out

- Raw overrides (`raw:`): tests/EventTracerTest.php:271-289 passes a `raw:` argument to `begin` and `end`, but neither accepts one. The closest real behaviour is optionals overriding base fields, which `TraceRecords.RecordFields` and `TraceRecords.CompleteStoresStart` state.
- The bytes `json_encode` produces and the order of keys in a record: one record's encoding is an abstract `Encoder` that is only known to be bracketed by `{` and `}`. Records are maps, so key order is not modelled.
- A failing `json_encode`: it returns false, for instance on a name that is not valid UTF-8. A streamed write is then a bare `",\n"` (src/EventTracer.php:96), and `flush`'s `substr` and `strlen` on false raise a `TypeError` under `strict_types` (lines 67 and 69). The `Encoder` is total and always yields object text.
- Lists, booleans and floats as field values: `Value` has null, strings, integers and string-keyed arrays only, so an `args` list or a float argument has no model.
- Floating-point time: `microtime(true) * 1000000`, `complete`'s `start` and `duration`, and `clock_sync`'s `issue_ts` are integers in the model.
- `getmypid()`: the process id is a parameter of every operation.
- PHP diagnostics: `end` on a process without a counter reads an undefined array key, for which PHP 8 emits a warning and PHP 8.3 also a deprecation for decrementing null. Only the resulting counter is modelled.
- File plumbing:
  - `fopen`, `fseek`/`ftell`, `flock`, `fflush` and `fclose` become a string that can only be appended to.
  - Whether `flock` succeeds is a boolean parameter of `Flush`.
  - A failing `fopen` (an `assert` in the source) is not modelled: the model always has a file.
- Interleaving between processes and the atomicity of concurrent writes: this is operating-system behaviour. `TraceLayout.HistoryIsOpenText` covers any sequential order of writes.
- A file name of `""` or `"0"`: PHP treats it as false, so such a tracer buffers. The model's constructor takes the file itself (or null), not a name.
- The remaining one-line event methods: `counter`, `async_instant`, `async_end`, `flow_start`, `flow_instant`, `flow_end`, `object_created`, `object_snapshot`, `object_destroyed`, `metadata`, `mark`, `context_enter` and `context_leave`. Each is `log_event` with a fixed phase code and key list, which `Tracing.EventTracer.LogEvent` covers for every phase and every key list without duplicate keys.
- Tracing.EventTracer.Clear: all the End records it logs carry the one `now` passed in, where the source reads the clock afresh for each of them.
- TraceLayout.FinalisedHistory: it requires at least one written event. Finalising a file that holds only `"[\n"` gives `"\n]"`, which is not an array, and the model does not claim otherwise.
