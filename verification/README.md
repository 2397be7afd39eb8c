# ReportResource request lifecycle, modelled in Dafny

This project models the request handler of the Cryostat reports service,
`ReportResource`. It accepts an uploaded JFR recording and decompresses it
when it is compressed. It admits or refuses it against a heap-size ceiling
and a wall-clock deadline, parses the rule filter, and submits the evaluation
to the report generator. It then waits for the result within what is left of
the deadline and maps the outcome to an HTTP status. Whatever happened inside
the `try` block, it cancels the generator's future and deletes the analysed
file.

The model has three modules:

- `JavaLang` (`java_lang.dfy`): the Java `long` range, Java's `/` (rounds
  toward zero; `Long.MIN_VALUE / -1` wraps), and
  `TimeUnit.MILLISECONDS.toNanos` (saturates instead of overflowing).
- `Admission` (`admission.dfy`): the size and deadline decision of
  `handleUpload`, as a pure function over integers, and the remaining budget
  handed to `Future.get`.
- `Lifecycle` (`lifecycle.dfy`): the exit paths and cleanup. The filesystem
  is the set of paths that exist. The future is `NoFuture` (null), `Running`,
  `Done` or `Cancelled`. A call log records every `deleteIfExists`, submission,
  bounded wait and cancellation. Every outcome of an external call (a
  throwing `createTempFile`, a failing copy, an unparsable filter, the event
  that ends the wait, a failing serialisation, stream close or delete) is a
  field of `Env`. `GetEval` runs the whole handler on one such environment.

Exceptions are modelled as `Threw(e)`. `WebApplicationException(s)` stands
for the JAX-RS exceptions the handler throws on purpose, which carry HTTP
status `s`: 413, 500 or 504. Any other exception escapes the handler
unmapped.

What the code does, and the model with it, in places where one might expect
otherwise:

- The cleanup runs only for exits from the `try` block (lines 109-120).
  Failures earlier skip it: the decompression failures, 413, 504 and a
  memory factor of 0 inside `handleUpload`, and a failing filter parse.
  After such a failure the file to be analysed stays on disk, once it
  exists. For a compressed upload that file is the decompressed temp file,
  which exists once `Files.createTempFile` has returned. A reader might
  expect every error path to clean up; the model follows the code.
- An upload whose elapsed time equals the deadline is admitted. The bounded
  wait then gets a budget of zero. A reader might expect the remaining
  budget to be positive; the code only refuses a strictly later upload, and
  the model follows the code.
- `decompress` deletes the original upload in its `finally`, whether or not
  the copy worked. `Files.createTempFile` sits outside that `try`, so when it
  throws, the original is kept. A failed copy leaves the new temp file
  behind.
- A `deleteIfExists` that throws inside a `finally` replaces whatever that
  block was about to return or throw. This holds for the delete in
  `decompress` and for the one in `cleanupHelper`. When it returns `false`
  instead, `decompress` ignores the result and `cleanupHelper` only logs
  it.
- A stream-close failure replaces a normal completion. Behind an exception
  the body already threw, it is suppressed. After a completed evaluation, a
  failed serialisation or close therefore escapes as `IOException`.
- After a timed-out or interrupted wait the job is still running. It may
  finish before any cancel reaches it, for instance when closing the input
  stream makes it fail; the future then ends `Done`, and otherwise
  `Cancelled`. The input `Env.finishesFirst` decides which.
- A memory factor of 0 throws `ArithmeticException` at the division. With a
  negative factor and non-negative available memory the ceiling is at most
  0, following Java's truncating division.

## Model

| member | source | states |
|---|---|---|
| `JavaLang.DivTruncates` | src/main/java/io/cryostat/reports/ReportResource.java:147 | The `long` division computing the size ceiling rounds toward zero. What it leaves over is smaller than the divisor and has the dividend's sign. This is the contract of `Div`, the model of Java's `/` on `long`. |
| `JavaLang.DivMatchesEuclidean` | src/main/java/io/cryostat/reports/ReportResource.java:147 | For non-negative memory and a positive factor, the ceiling is the ordinary floor quotient. |
| `JavaLang.ToNanosExactOrClamped` | src/main/java/io/cryostat/reports/ReportResource.java:126 | The millisecond timeout becomes nanoseconds exactly when the product fits in a `long`. Otherwise it clamps to the nearest bound. This is the contract of `ToNanos`, the model of `toNanos`. |
| `JavaLang.ToNanosMonotonic` | src/main/java/io/cryostat/reports/ReportResource.java:101 | Converting the timeout preserves order and sign. |
| `Admission.Admit` | src/main/java/io/cryostat/reports/ReportResource.java:146-157 | 413 comes out exactly when the factor is non-zero and the length is strictly greater than `availableMemory / memoryFactor`. An admitted upload fits under the ceiling and arrived within the deadline. |
| `Admission.OversizedIffProductExceedsMemory` | src/main/java/io/cryostat/reports/ReportResource.java:146-150 | For a positive factor and non-negative memory, an upload is refused as too large exactly when its length times the factor exceeds the available memory. |
| `Admission.CeilingIsInclusive` | src/main/java/io/cryostat/reports/ReportResource.java:147-150 | A file exactly at the ceiling is admitted, and one byte more is refused. |
| `Admission.SizeCheckedBeforeDeadline` | src/main/java/io/cryostat/reports/ReportResource.java:148-156 | An upload that is both oversized and late gets 413, not 504. |
| `Admission.DeadlineIsStrict` | src/main/java/io/cryostat/reports/ReportResource.java:152-156 | Among uploads that fit, 504 comes out exactly when elapsed time is strictly greater than the timeout. Equality is admitted with a zero budget. |
| `Admission.AdmittedBudget` | src/main/java/io/cryostat/reports/ReportResource.java:101-113 | On admission, the budget `timeout - elapsed` passed to the bounded wait is between 0 and the timeout. |
| `Admission.AdmissionMonotonic` | src/main/java/io/cryostat/reports/ReportResource.java:146-156 | A smaller upload that arrives no later is admitted whenever a larger, later one is, and it gets at least as much budget. |
| `Admission.ZeroFactorAlwaysThrows` | src/main/java/io/cryostat/reports/ReportResource.java:147 | A memory factor of 0 refuses every upload with the division's `ArithmeticException`. |
| `Lifecycle.Cancel` | src/main/java/io/cryostat/reports/ReportResource.java:160-174 | `cancel(true)` from a disconnect handler or the cleanup leaves no future running. It is a no-op on a finished future. |
| `Lifecycle.ApplyCancels` | src/main/java/io/cryostat/reports/ReportResource.java:160-174 | The three disconnect handlers may each cancel the same future, whichever of them fire and however often. With none the future is unchanged; with any the result is that of one cancellation: a running future ends cancelled and a finished one stays finished. The cleanup's own cancel comes after them. |
| `Lifecycle.DeleteFile` | src/main/java/io/cryostat/reports/ReportResource.java:182 | `deleteIfExists` is always called. Unless it throws, exactly that path is removed from the filesystem and the result says whether it was there. A throwing delete changes no file. |
| `Lifecycle.Decompress` | src/main/java/io/cryostat/reports/ReportResource.java:193-201 | Once the temp file exists, the original upload is deleted whether or not the copy succeeds. Success returns the fresh temp path, which differs from the original. A failed copy leaves the temp file behind. The filesystem afterwards is exactly the old one plus the temp file, minus the original unless its delete threw; if the temp file cannot be created nothing changes. |
| `Lifecycle.HandleUpload` | src/main/java/io/cryostat/reports/ReportResource.java:123-158 | Decompression comes first, then admission. The result is 413 or 504 exactly as admission decides. No future is created and nothing is cleaned up, so on a rejection the admitted file is still on disk. A failed decompression throws `IOException`, and a memory factor of 0 throws `ArithmeticException`. No file other than the upload and the temp file is touched. |
| `Lifecycle.TryBlock` | src/main/java/io/cryostat/reports/ReportResource.java:109-117 | Completion gives the evaluation map, unless serialisation or the stream close fails, which escapes as `IOException`. Execution failure or interruption gives 500, and a timed-out wait gives 504. A client cancellation escapes as `CancellationException`. The future exists exactly when the generator returned one. Without a future, a failed stream open escapes as `IOException` and a failed submission as `GeneratorException`. A completed or failed evaluation leaves the future `Done`, a client cancellation leaves it `Cancelled`, and a timed-out or interrupted wait leaves it running. This row covers the models of the generator call and wait (`Generate`), of closing the input stream in try-with-resources (`CloseStream`), and of the two `catch` clauses (`Catch`). |
| `Lifecycle.Cleanup` | src/main/java/io/cryostat/reports/ReportResource.java:176-191 | The future is cancelled exactly when it is non-null, after whichever disconnect handlers fired first, and it is never left running. Then the file is deleted: unless the delete throws, exactly that file is removed and the outcome is kept; a throwing delete changes no file and replaces the outcome. Whether the file existed never changes the outcome. |
| `Lifecycle.TryWithCleanup` | src/main/java/io/cryostat/reports/ReportResource.java:109-120 | Every exit from the `try` ends with the cancel (if non-null) and the delete. The future is never left running, and the status mapping survives a successful cleanup, including the `IOException` of a failed serialisation or close. The future ends `Done` after a completed or failed evaluation and `Cancelled` after a client cancellation. After a timed-out or interrupted wait it ends `Done` if the job finished before any cancel reached it, and `Cancelled` otherwise. Without a future, the stream-open or submission failure escapes unless the delete throws. The only file removed is the analysed one, and only when its delete does not throw. |
| `Lifecycle.GetEval` | src/main/java/io/cryostat/reports/ReportResource.java:95-121 | The full handler gives 200, 413, 500 and 504 each for exactly the stated inputs. Every in-`try` exit cancels a non-null future and then, as the last call, deletes the admitted file. Pre-`try` failures submit nothing, cancel nothing and leave the admitted file in place. Once the temp file exists, the compressed original is deleted unless that delete throws. A failed decompression escapes as `IOException`, a memory factor of 0 as `ArithmeticException`, and a failed filter parse as `FilterParseException`. Inside the `try`, a failed serialisation or close after completion escapes as `IOException`. A completed or failed evaluation leaves the future `Done`, and a client cancellation leaves it `Cancelled`. A timed-out or interrupted wait leaves it `Done` if the job finished before any cancel reached it, and `Cancelled` otherwise. Every bounded wait gets the non-negative budget `timeout - elapsed`. No file other than the upload and the temp file is ever touched. |

## Left out

- Memory measurement (`System.gc`, `Runtime.maxMemory/totalMemory/freeMemory`)
  and the clock (`System.nanoTime`): the available-memory estimate and the
  elapsed nanoseconds are inputs. Elapsed time is non-negative because the
  clock is monotonic. The elapsed time measured right after decompression is
  only logged and is not modelled.
- Parsing the configuration strings with `Long.parseLong`: `Config` holds the
  parsed values, so a malformed setting (a `NumberFormatException`) is not
  modelled.
- Decompression itself (`IOToolkit.isCompressedFile`,
  `openUncompressedStream`, `fs.copy`): the detection is a boolean, and the
  copy either succeeds or throws an `IOException`. The length of the admitted
  file is an input.
- `RuleFilterParser` and the rule catalogue are not part of this model:
  parsing either yields a predicate or throws.
- The report generator and the analysis it runs, and JSON rendering with
  `ObjectMapper`: the evaluation map is opaque, and serialisation either
  yields it unchanged or throws.
- The concurrency of the Vert.x handlers registered in `ctxHelper`: the
  handlers appear at two points only. A client cancellation is one possible
  event that ends the wait first. The handlers that fire after the wait
  returns and before the cleanup are the input `Env.lateCancels`. Handlers
  firing after the cleanup meet a future that is no longer running, on which
  `cancel` does nothing, so they are not modelled.
- The moment a still-running job finishes relative to the disconnect
  handlers: `Env.finishesFirst` says whether it finishes before the first
  cancel after the wait, not which handler it races with.
- How the web framework turns escaping exceptions into responses is outside
  the handler. The model reports them as `Threw(e)` for the Java class `e`.
- Logging, `onStart`, the empty `healthCheck` endpoint, `Producers` and
  `RecordingFormData` (dependency-injection and form-binding declarations),
  and the HTTP integration tests, whose assertions depend on the external
  analysis engine.
