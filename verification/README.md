# whisper.wasm binding core, modelled in Dafny

This project models the logic in the WebAssembly binding of the whisper
speech-recognition engine (`examples/whisper.wasm/emscripten.cpp`). The
binding exports three calls to JavaScript: `init`, `free` and `full_default`.
They share a table of four engine contexts and a single background worker.
Four pieces of that file are modelled and proved:

- **Timestamp formatter** (`to_timestamp`, module `Timestamp`). A centisecond
  count is scaled to milliseconds and split into hours, minutes, seconds and
  milliseconds. The fields are printed as `%02d:%02d:%02d` followed by `.` or
  `,` and `%03d`. Zero padding and digit rendering live in module `Decimal`.
  The formatter is proved to lose nothing: a parser reads every output back
  to `t * 10` ms and the separator choice.
- **Thread budget** (`mpow2` and the `n_threads` clamp, module
  `ThreadBudget`). The doubling loop is proved equal to a reference
  definition of "largest power of two not above n". The clamp
  `min(nthreads, min(16, mpow2(hc)))` is bounded and monotone in `hc`.
- **Context table** (`init`, `free` and the handle check of `full_default`,
  module `ContextPool`). This is a pure state machine over four nullable
  slots. Handles are 1-based `size_t` values, so `--index` wraps handle 0 to
  the largest 32-bit value, which lies out of range. The model loader is an
  abstract outcome (`LoadOutcome`): a context, or null.
- **The exported calls** (module `Binding`). Each call first joins the
  worker, modelled as the running job finishing. `full_default` then starts
  a job that records its slot, its settings and its own copy of the audio.
  An invariant is proved over any sequence of calls: a running job's slot is
  always bound, because `free` and `init` join first.
- **Incremental segment output** (the new-segment callback, module
  `SegmentEmission`). Each callback prints one `TIME` line per new segment,
  followed by one `TEXT` line per token. The nested loops are proved to
  print exactly the window `[n_segments - n_new, n_segments)`. Over a whole
  run, every segment is printed once and in order. The abstract sequence of
  `TIME`/`TEXT` events reads back to the segment list; the printed text
  itself does not (see "Left out").

Facts about the binding that the model keeps:

- `free` returns nothing and reports no error. It always joins the worker;
  on an out-of-range or already-null handle it leaves the table unchanged.
- `full_default` ignores `lang` and always sets the language to `"auto"`
  (line 123).
- The comment above `to_timestamp` shows `00:05.000` for 500, but the code
  also prints the hours field, giving `00:00:05.000`.

## Model

| member | source | states |
|---|---|---|
| Decimal.Pad | examples/whisper.wasm/emscripten.cpp:26 | `%0<w>d` of a non-negative value reads back to that value and is at least w characters long; it is exactly w when the value is below 10^w, and a longer rendering has no leading zero |
| Decimal.ValueOfDigits | examples/whisper.wasm/emscripten.cpp:26 | the decimal digits printed for n read back to n |
| Timestamp.Decompose | examples/whisper.wasm/emscripten.cpp:17-23 | the split of `t*10` ms gives `hr*3600000 + min*60000 + sec*1000 + msec == t*10` with `min < 60`, `sec < 60`, `msec < 1000`, and `hr` fits the `(int)` cast |
| Timestamp.DecomposeUnique | examples/whisper.wasm/emscripten.cpp:17-23 | any clock reading with those bounds and that total equals the split, so the split is the only one |
| Timestamp.Format | examples/whisper.wasm/emscripten.cpp:16-29 | the output ends in `:MM:SS` followed by `,` when `comma` is set and `.` otherwise, then three characters; it is 12 characters long exactly when the hour count is below 100 |
| Timestamp.FormatFields | examples/whisper.wasm/emscripten.cpp:26 | the output is the zero-padded hours, minutes and seconds (width 2) and milliseconds (width 3), at their fixed positions from the end |
| Timestamp.ParseFormat | examples/whisper.wasm/emscripten.cpp:16-29 | reading the output back gives `t*10` ms and the separator choice, so the formatter loses no information |
| Timestamp.FormatInjective | examples/whisper.wasm/emscripten.cpp:16-29 | distinct inputs or separator choices give distinct strings |
| Timestamp.FormatExamples | examples/whisper.wasm/emscripten.cpp:14-26 | 500 gives `00:00:05.000`, 6000 gives `00:01:00.000`, and 500 with a comma gives `00:00:05,000` |
| ThreadBudget.FloorPow2 | examples/whisper.wasm/emscripten.cpp:31-36 | for n >= 1 the result p is a power of two with `p <= n < 2p`; for n <= 0 it is 0 |
| ThreadBudget.FloorPow2Unique | examples/whisper.wasm/emscripten.cpp:31 | only one power of two p satisfies `p <= n < 2p` |
| ThreadBudget.LargestPowerOfTwoAtMost | examples/whisper.wasm/emscripten.cpp:32-36 | the doubling-then-halving loop of `mpow2` computes the largest power of two not above n (0 when n <= 0), and no doubling exceeds a 32-bit int |
| ThreadBudget.ThreadCount | examples/whisper.wasm/emscripten.cpp:124 | the thread count is the least of the request, 16 and the largest power of two not above the hardware concurrency: it is at most each of the three and equal to one of them; so a request within both ceilings is honoured and a clamped request gets the lower ceiling |
| ThreadBudget.ThreadCountMonotone | examples/whisper.wasm/emscripten.cpp:124 | more hardware concurrency never gives fewer threads |
| ThreadBudget.ThreadCountExamples | examples/whisper.wasm/emscripten.cpp:124 | a request of 32 on 12 cores gets 8 threads; a request of 2 on 64 cores gets 2 |
| ContextPool.FirstFree | examples/whisper.wasm/emscripten.cpp:52-53 | the scan finds the lowest null slot; it finds none exactly when all four slots are bound |
| ContextPool.SlotOf | examples/whisper.wasm/emscripten.cpp:77-79 | after the wrapping `--index`, a handle names a slot exactly when it is in 1..4, and that slot is handle - 1; handle 0 wraps out of range |
| ContextPool.Init | examples/whisper.wasm/emscripten.cpp:52-63 | the loader is called exactly when some slot is null; 0 is returned exactly when the table is full or the load fails, and then the table is unchanged; otherwise the handle is 1 + the lowest null slot, only that slot is bound, and the handle was not live before |
| ContextPool.Free | examples/whisper.wasm/emscripten.cpp:77-82 | for a handle in 1..4 that slot becomes null and no other slot changes; any other handle, 0 included, leaves the table as it was |
| ContextPool.Resolve | examples/whisper.wasm/emscripten.cpp:103-111 | -1 exactly when the handle is outside 1..4, -2 exactly when it is in range but its slot is null, and success with slot handle - 1 exactly when that slot is bound |
| ContextPool.InitLive | examples/whisper.wasm/emscripten.cpp:52-63 | a successful `init` adds exactly one live context, and a failed one adds none; the live count never exceeds 4 |
| ContextPool.FreeLive | examples/whisper.wasm/emscripten.cpp:77-82 | `free` of a bound handle removes exactly one live context; any other `free` changes nothing |
| ContextPool.InitWhenFull | examples/whisper.wasm/emscripten.cpp:52-63 | with four live contexts, `init` returns 0 and the loader is not called, whatever it would have returned |
| ContextPool.FreeThenInitReuses | examples/whisper.wasm/emscripten.cpp:52-82 | after `free(h)`, with every lower slot still bound, the next successful `init` returns h again |
| Binding.InitCall | examples/whisper.wasm/emscripten.cpp:47-64 | `init` joins the worker, so no job is left running, and it otherwise acts as the table's `init` |
| Binding.FreeCall | examples/whisper.wasm/emscripten.cpp:72-83 | `free` joins the worker before it nulls the slot, so no job is left running |
| Binding.JobParams | examples/whisper.wasm/emscripten.cpp:114-127 | the job's language is `"auto"`, its thread count is within the request and 16, and token timestamps and word splitting are on |
| Binding.FullDefault | examples/whisper.wasm/emscripten.cpp:98-202 | never changes the table; returns -1 exactly for a handle outside 1..4 and -2 exactly for a null slot, and then starts no job; returns 0 exactly when the slot is bound, and then starts a job on slot handle - 1 with a copy of the audio, language `"auto"` and the clamped thread count |
| Binding.RunSafe | examples/whisper.wasm/emscripten.cpp:48-50 | after any sequence of calls, a running job's slot is bound, because every call joins first and only `full_default` starts a job; at most four contexts are live |
| Binding.LanguageIgnored | examples/whisper.wasm/emscripten.cpp:123 | the `lang` argument has no effect on the outcome |
| Binding.AtMostOneJob | examples/whisper.wasm/emscripten.cpp:192-198 | a job is running after a call only if that call was a `full_default` |
| Binding.FreeThenFullDefault | examples/whisper.wasm/emscripten.cpp:77-111 | `full_default(h)` right after `free(h)` returns -2 |
| Binding.Scenarios | examples/whisper.wasm/emscripten.cpp:52-107 | the first successful `init` on an empty table returns 1; `init` on a full table returns 0; handles 5 and 0 give -1 |
| SegmentEmission.SegmentLinesShape | examples/whisper.wasm/emscripten.cpp:145-158 | a segment prints one `TIME(t0, t1)` line, then one `TEXT` line per token, in token order |
| SegmentEmission.NewSegmentCallback | examples/whisper.wasm/emscripten.cpp:132-160 | the callback's nested loops print exactly the lines of the segments with index in `[n_segments - n_new, n_segments)`, in order, and nothing when `n_new <= 0` |
| SegmentEmission.EmittedWindow | examples/whisper.wasm/emscripten.cpp:140-143 | a callback reporting k new segments after d earlier ones prints the window `[d, d + k)` of the final segment list |
| SegmentEmission.StreamEmitsEachOnce | examples/whisper.wasm/emscripten.cpp:140-159 | over successive callbacks whose `n_new` sum to N, the printed stream is the lines of the first N segments, each once and in order |
| SegmentEmission.RegroupLines | examples/whisper.wasm/emscripten.cpp:143-159 | the abstract sequence of `TIME`/`TEXT` events (times, token text and probability as separate values) reads back to exactly the segments it was produced from |
| SegmentEmission.StreamRegroups | examples/whisper.wasm/emscripten.cpp:140-159 | a whole run's abstract event sequence reads back to exactly the segments reported in it |

## Left out

- The background worker (`std::thread`, `join`, the job lambda) is not modelled as concurrency. A join is the running job finishing. The job's execution is not modelled: timing resets, the decode call and the final `DONE##` line.
- The copy of the JavaScript `Float32Array` into the WebAssembly heap is host memory marshalling through foreign calls. A job simply holds a copy of the sample sequence.
- All engine calls are foreign and are not modelled: model loading, `whisper_free`, decoding, timings, and the segment and token getters. The loader is an abstract outcome. The engine's segment list is an abstract sequence.
- `printf` output is not modelled as text, and neither is float formatting. This covers the `TIME`/`TEXT` lines, `%f` probabilities and the `system_info` and processing diagnostics. Lines are abstract values and probabilities are opaque.
- The remaining `whisper_full_params` stores are not modelled (`print_realtime`, `print_timestamps`, `print_special`, `offset_ms`, the sampling strategy and callback user data). They are plain stores with no logic.
- The conversion of JavaScript numbers to `size_t` and `int` arguments is not modelled: handles are taken as `size_t` values already.
- Timestamp.Format: requires `0 <= t < 2^31 * 360000`. Negative inputs would need C's truncating division, which differs from Dafny's. Larger inputs overflow the `(int)` casts of the hour field.
- Timestamp.Decompose: the same input range as `Timestamp.Format`, for the same reasons.
- ThreadBudget.LargestPowerOfTwoAtMost: requires `n < 2^30`. For larger `n` the doubling overflows a 32-bit `int`, which is undefined behaviour in C.
- ThreadBudget.ThreadCount: uses the reference `FloorPow2` on the mathematical integer value of the hardware concurrency. The `unsigned`-to-`int` conversion of values of 2^31 and above is not modelled. For a concurrency in `[2^30, 2^31)` the model gives `FloorPow2 = 2^30` (so 16 after the clamp), whereas `mpow2`'s doubling overflows a 32-bit `int`: that is undefined behaviour, and if it wraps, `p` goes from 2^30 to -2^31 to 0 and the loop never ends.
- SegmentEmission.RegroupLines: the inverse holds for the abstract `Line` values only. The printed text cannot be read back in general: `p` is printed with `%f`, which keeps six decimals, and token text is printed raw with `%s`, so a token holding a newline or `##` breaks the line structure. The same limit applies to SegmentEmission.StreamRegroups.
- SegmentEmission.NewSegmentCallback: requires `n_new` to be at most the number of segments. The engine never reports more new segments than it holds; the C loop would index before segment 0 otherwise.
- SegmentEmission.Stream: models callbacks with non-negative `n_new` only, since segments are only ever appended.
