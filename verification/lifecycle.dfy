/** The request lifecycle of `ReportResource.getEval`: decompress the
    upload, admit it, parse the filter, submit the evaluation, wait for it
    within what is left of the deadline, map the outcome to an HTTP status,
    and clean up. The filesystem is a set of existing paths, the report
    generator's future is a four-state value, and every effect the cleanup
    guarantees are about (deleting a file, submitting, waiting, cancelling)
    is recorded in a call log. Whatever an external call does (throw,
    complete, time out, get cancelled by the client) is an input. */
module Lifecycle {
  import opened JavaLang
  import opened Admission

  type Path = string

  /** One rule's evaluation as the generator reports it. */
  datatype AnalysisResult = AnalysisResult(score: real, name: string, topic: string, explanation: string)

  /** The map the JSON body serialises: rule id to evaluation. */
  type EvalMap = map<string, AnalysisResult>

  /** The exceptions the handler can see, by Java class. The JAX-RS
      exceptions the handler throws on purpose all carry their status. */
  datatype JavaException =
    | IOException            // filesystem, decompression, stream close, JSON serialisation
    | ArithmeticException    // a memory factor of 0
    | FilterParseException   // whatever the rule filter parser throws
    | GeneratorException     // whatever submitting to the report generator throws
    | ExecutionException
    | InterruptedException
    | TimeoutException
    | CancellationException
    | WebApplicationException(status: int)

  const PAYLOAD_TOO_LARGE: int := 413
  const INTERNAL_SERVER_ERROR: int := 500
  const GATEWAY_TIMEOUT: int := 504

  /** A step's result: a value, or the exception it completed with. */
  datatype Result<T> = Ok(value: T) | Threw(exception: JavaException)

  /** The report generator's future: not created (`null`), still running,
      completed (normally or exceptionally), or cancelled. */
  datatype FutureState = NoFuture | Running | Done | Cancelled

  /** The effects the lifecycle guarantees are about. */
  datatype Call =
    | DeleteIfExists(path: Path)
    | Submit
    | AwaitResult(budget: int)
    | CancelFuture

  datatype World = World(files: set<Path>, future: FutureState, calls: seq<Call>)

  datatype Step<T> = Step(result: Result<T>, world: World)

  /** What ends the bounded `Future.get`: the evaluation completes, it
      fails inside the generator, the handler thread is interrupted, the
      budget runs out, or a client-disconnect handler cancels the future
      first. */
  datatype WaitEvent =
    | Completes(evaluation: EvalMap)
    | ExecutionFails
    | Interrupted
    | TimesOut
    | CancelledByClient

  /** The configuration, already parsed to `long`s. */
  datatype Config = Config(memoryFactor: Long, timeoutMs: Long)

  /** Everything the environment decides for one request. */
  datatype Env = Env(
    compressed: bool,            // IOToolkit.isCompressedFile
    tempCreated: bool,           // Files.createTempFile succeeds
    copied: bool,                // opening the uncompressed stream and copying it succeed
    originalDeleteThrows: bool,  // deleting the upload after decompression throws
    fileLength: nat,             // length of the admitted file
    availableMemory: Long,       // heap estimate after a GC
    elapsed: nat,                // nanoseconds since the start, read after the size check
    filterParses: bool,          // the rule filter parser returns a predicate
    streamOpens: bool,           // fs.newInputStream on the admitted file succeeds
    submitted: bool,             // generateEvalMapInterruptibly returns a future
    wait: WaitEvent,
    serialises: bool,            // ObjectMapper.writeValueAsString succeeds
    streamCloses: bool,          // closing the input stream succeeds
    finishesFirst: bool,         // a job still running after the wait ends before it is cancelled
    lateCancels: seq<CancelTrigger>,  // ctxHelper handlers firing between the wait and the cleanup
    cleanupDeleteThrows: bool    // deleting the admitted file in cleanup throws
  )

  /** `Future.cancel(true)`, as the client-disconnect handlers and the
      cleanup issue it: a running future becomes cancelled, and cancelling
      one that already finished changes nothing. */
  function Cancel(f: FutureState): (g: FutureState)
    requires f != NoFuture
    ensures g == Done <==> f == Done
    ensures g == Cancelled <==> f == Running || f == Cancelled
  {
    if f == Running then Cancelled else f
  }

  /** The three handlers `ctxHelper` registers, each of which calls
      `cancel(true)` on the request's future: a response error, a request
      error, and the end of the request. */
  datatype CancelTrigger = ResponseError | RequestError | RequestEnded

  /** The future after the given handlers fire, in order. However many fire,
      and whichever they are, the effect is that of a single cancellation:
      with none the future is unchanged, with any it is no longer running,
      and a future that had finished stays finished. */
  function ApplyCancels(f: FutureState, triggers: seq<CancelTrigger>): (g: FutureState)
    requires f != NoFuture
    ensures |triggers| == 0 ==> g == f
    ensures |triggers| > 0 ==> g == Cancel(f)
    decreases |triggers|
  {
    if |triggers| == 0 then f else ApplyCancels(Cancel(f), triggers[1..])
  }

  /** `FileSystem.deleteIfExists`: the call is made; it either throws and
      leaves the files as they were, or removes the path and reports whether
      it was there. */
  function DeleteFile(w: World, p: Path, throws: bool): (s: Step<bool>)
    ensures s.world.calls == w.calls + [DeleteIfExists(p)] && s.world.future == w.future
    ensures s.result.Ok? <==> !throws
    ensures s.result.Ok? ==> s.world.files == w.files - {p} && s.result.value == (p in w.files)
    ensures s.result.Threw? ==> s.world.files == w.files
    ensures s.world.files <= w.files
  {
    var called := w.(calls := w.calls + [DeleteIfExists(p)]);
    if throws then Step(Threw(IOException), called)
    else Step(Ok(p in w.files), called.(files := w.files - {p}))
  }

  /** `decompress`: create a fresh temp file, copy the uncompressed stream
      into it, and in the `finally` delete the original upload, whether or
      not the copy worked. Only a failure to create the temp file, which
      happens before the `try`, leaves the original alone. A failed copy
      leaves the new temp file behind. `tmp` is the path `createTempFile`
      picks, which is not in use; the upload exists, since it has just been
      inspected for compression. */
  function Decompress(w: World, original: Path, tmp: Path,
                      tempCreated: bool, copied: bool, deleteThrows: bool): (s: Step<Path>)
    requires original in w.files && tmp !in w.files
    ensures s.world.future == w.future
    ensures !tempCreated ==> s.world == w
    ensures tempCreated ==> s.world.calls == w.calls + [DeleteIfExists(original)]
    ensures tempCreated && !deleteThrows ==> original !in s.world.files
    ensures tempCreated ==> tmp in s.world.files
    ensures s.result.Ok? <==> tempCreated && copied && !deleteThrows
    ensures s.result.Ok? ==> s.result.value == tmp && s.result.value != original
    ensures s.result.Threw? ==> s.result.exception == IOException
    ensures tempCreated && !deleteThrows ==> s.world.files == (w.files + {tmp}) - {original}
    ensures tempCreated && deleteThrows ==> s.world.files == w.files + {tmp}
    ensures s.world.files <= w.files + {tmp}
  {
    if !tempCreated then Step(Threw(IOException), w)
    else
      var created := w.(files := w.files + {tmp});
      var deleted := DeleteFile(created, original, deleteThrows);
      if deleted.result.Threw? then Step(Threw(IOException), deleted.world)
      else if copied then Step(Ok(tmp), deleted.world)
      else Step(Threw(IOException), deleted.world)
  }

  /** What `handleUpload` hands back: the file to analyse and the elapsed
      nanoseconds measured at admission. */
  datatype Upload = Upload(file: Path, elapsed: nat)

  /** The upload gets past decompression: it was not compressed, or every
      step of decompressing it worked. */
  predicate Decompressed(env: Env)
  {
    !env.compressed || (env.tempCreated && env.copied && !env.originalDeleteThrows)
  }

  /** The file the rest of the request works on. */
  function AdmittedPath(env: Env, upload: Path, tmp: Path): (p: Path)
  {
    if env.compressed then tmp else upload
  }

  function AdmissionOf(cfg: Config, env: Env): (d: Decision)
  {
    Admit(env.fileLength, env.availableMemory, cfg.memoryFactor, ToNanos(cfg.timeoutMs), env.elapsed)
  }

  /** `handleUpload`: decompress if needed, then admit. Every failure here
      propagates as it is; nothing is cleaned up, so a rejected file stays
      on disk. */
  method HandleUpload(cfg: Config, env: Env, w0: World, upload: Path, tmp: Path)
    returns (result: Result<Upload>, w: World)
    requires upload in w0.files && tmp !in w0.files
    ensures result.Ok? <==> Decompressed(env) && AdmissionOf(cfg, env).Admitted?
    ensures result.Ok? ==> result.value.file == AdmittedPath(env, upload, tmp)
                           && result.value.elapsed == env.elapsed <= ToNanos(cfg.timeoutMs)
    ensures result == Threw(WebApplicationException(PAYLOAD_TOO_LARGE))
            <==> Decompressed(env) && AdmissionOf(cfg, env) == Rejected(PayloadTooLarge)
    ensures result == Threw(WebApplicationException(GATEWAY_TIMEOUT))
            <==> Decompressed(env) && AdmissionOf(cfg, env) == Rejected(DeadlineExceeded)
    ensures result.Threw? ==> result.exception in {IOException, ArithmeticException,
              WebApplicationException(PAYLOAD_TOO_LARGE), WebApplicationException(GATEWAY_TIMEOUT)}
    ensures !Decompressed(env) ==> result == Threw(IOException)
    ensures Decompressed(env) && cfg.memoryFactor == 0 ==> result == Threw(ArithmeticException)
    ensures Decompressed(env) ==> AdmittedPath(env, upload, tmp) in w.files
    ensures env.compressed && env.tempCreated && !env.originalDeleteThrows ==> upload !in w.files
    ensures w.files <= w0.files + {tmp}
    ensures w.files - {upload, tmp} == w0.files - {upload, tmp}
    ensures w.future == w0.future
    ensures w.calls == if env.compressed && env.tempCreated
                       then w0.calls + [DeleteIfExists(upload)] else w0.calls
  {
    var file := upload;
    w := w0;
    if env.compressed {
      var d := Decompress(w, upload, tmp, env.tempCreated, env.copied, env.originalDeleteThrows);
      w := d.world;
      if d.result.Threw? {
        return Threw(d.result.exception), w;
      }
      file := d.result.value;
    }
    match AdmissionOf(cfg, env)
    case Rejected(DivisionByZero) => result := Threw(ArithmeticException);
    case Rejected(PayloadTooLarge) => result := Threw(WebApplicationException(PAYLOAD_TOO_LARGE));
    case Rejected(DeadlineExceeded) => result := Threw(WebApplicationException(GATEWAY_TIMEOUT));
    case Admitted => result := Ok(Upload(file, env.elapsed));
  }

  /** The body of the try-with-resources once the stream is open: submit,
      then wait at most `budget` nanoseconds and serialise the result. */
  function Generate(env: Env, w: World, budget: int): (s: Step<EvalMap>)
  {
    if !env.submitted then Step(Threw(GeneratorException), w)
    else
      var waiting := w.(future := Running, calls := w.calls + [Submit, AwaitResult(budget)]);
      match env.wait
      case Completes(m) =>
        Step(if env.serialises then Ok(m) else Threw(IOException), waiting.(future := Done))
      case ExecutionFails => Step(Threw(ExecutionException), waiting.(future := Done))
      case Interrupted => Step(Threw(InterruptedException), waiting)
      case TimesOut => Step(Threw(TimeoutException), waiting)
      case CancelledByClient =>
        Step(Threw(CancellationException),
             waiting.(future := Cancel(Running), calls := waiting.calls + [CancelFuture]))
  }

  /** Closing the resource: a close failure replaces a normal completion and
      is suppressed behind an exception the body already threw. */
  function CloseStream(r: Result<EvalMap>, closes: bool): (closed: Result<EvalMap>)
  {
    if r.Ok? && !closes then Threw(IOException) else r
  }

  /** The two catch clauses: execution failure and interruption become 500,
      a timed-out wait becomes 504, and everything else passes through. */
  function Catch(r: Result<EvalMap>): (caught: Result<EvalMap>)
  {
    if r == Threw(ExecutionException) || r == Threw(InterruptedException)
    then Threw(WebApplicationException(INTERNAL_SERVER_ERROR))
    else if r == Threw(TimeoutException) then Threw(WebApplicationException(GATEWAY_TIMEOUT))
    else r
  }

  /** The effects the `try` block records: submitting and waiting once the
      future exists, plus the client's cancellation if that ends the wait. */
  function TryCalls(env: Env, budget: int): (calls: seq<Call>)
  {
    if !FutureReturned(env) then []
    else [Submit, AwaitResult(budget)] + (if env.wait == CancelledByClient then [CancelFuture] else [])
  }

  /** The `try` block with its resource and catch clauses, without the
      `finally`. */
  function TryBlock(env: Env, w: World, budget: int): (s: Step<EvalMap>)
    requires w.future == NoFuture
    ensures s.world.files == w.files
    ensures s.world.future == NoFuture <==> !FutureReturned(env)
    ensures FutureReturned(env) && (env.wait == TimesOut || env.wait == Interrupted)
            ==> s.world.future == Running
    ensures s.world.calls == w.calls + TryCalls(env, budget)
    ensures s.result == Threw(WebApplicationException(GATEWAY_TIMEOUT))
            <==> FutureReturned(env) && env.wait == TimesOut
    ensures s.result == Threw(WebApplicationException(INTERNAL_SERVER_ERROR))
            <==> FutureReturned(env) && (env.wait == ExecutionFails || env.wait == Interrupted)
    ensures s.result.Ok?
            <==> FutureReturned(env) && env.wait.Completes? && env.serialises && env.streamCloses
    ensures s.result.Ok? ==> s.result.value == env.wait.evaluation
    ensures FutureReturned(env) && env.wait.Completes? && !(env.serialises && env.streamCloses)
            ==> s.result == Threw(IOException)
    ensures s.result == Threw(CancellationException)
            <==> FutureReturned(env) && env.wait == CancelledByClient
    ensures s.result != Threw(WebApplicationException(PAYLOAD_TOO_LARGE))
    ensures !FutureReturned(env)
            ==> s.result == Threw(if env.streamOpens then GeneratorException else IOException)
    ensures FutureReturned(env) && (env.wait.Completes? || env.wait == ExecutionFails)
            ==> s.world.future == Done
    ensures FutureReturned(env) && env.wait == CancelledByClient ==> s.world.future == Cancelled
  {
    if !env.streamOpens then Step(Threw(IOException), w)
    else
      var g := Generate(env, w, budget);
      Step(Catch(CloseStream(g.result, env.streamCloses)), g.world)
  }

  /** One `CancelFuture` per handler that fires. */
  function HandlerCalls(late: seq<CancelTrigger>): (calls: seq<Call>)
  {
    seq(|late|, _ => CancelFuture)
  }

  /** `cleanupHelper`, entered after the handlers in `late` have fired:
      cancel the future unless it is null, then delete the file. Whether the
      file was still there is only logged; a delete that throws replaces the
      outcome, since it escapes from the `finally`. */
  function Cleanup(w: World, file: Path, primary: Result<EvalMap>, late: seq<CancelTrigger>,
                   deleteThrows: bool): (s: Step<EvalMap>)
    ensures s.world.calls == w.calls + (if w.future == NoFuture then []
                                        else HandlerCalls(late) + [CancelFuture])
                                      + [DeleteIfExists(file)]
    ensures s.world.future == (if w.future == NoFuture then NoFuture else Cancel(w.future))
    ensures s.world.future != Running
    ensures !deleteThrows ==> s.result == primary && s.world.files == w.files - {file}
    ensures deleteThrows ==> s.result == Threw(IOException) && s.world.files == w.files
  {
    var cancelled :=
      if w.future == NoFuture then w
      else w.(future := Cancel(ApplyCancels(w.future, late)),
              calls := w.calls + HandlerCalls(late) + [CancelFuture]);
    var deleted := DeleteFile(cancelled, file, deleteThrows);
    if deleted.result.Threw? then Step(Threw(IOException), deleted.world)
    else Step(primary, deleted.world)
  }

  /** The request reaches the `try` block: decompressed, admitted, and the
      filter parsed. */
  predicate EntersTry(cfg: Config, env: Env)
  {
    Decompressed(env) && AdmissionOf(cfg, env).Admitted? && env.filterParses
  }

  /** `generateEvalMapInterruptibly` returned, so the future is not null. */
  predicate FutureReturned(env: Env)
  {
    env.streamOpens && env.submitted
  }

  /** `getEval` from start to finish, on a filesystem in which `upload`
      exists and `tmp`, the name a temp file would get, does not. */
  method GetEval(cfg: Config, env: Env, files: set<Path>, upload: Path, tmp: Path)
    returns (outcome: Result<EvalMap>, w: World)
    requires upload in files && tmp !in files
    // which status comes out for which inputs
    ensures outcome == Threw(WebApplicationException(PAYLOAD_TOO_LARGE))
            <==> Decompressed(env) && cfg.memoryFactor != 0
                 && env.fileLength > Div(env.availableMemory, cfg.memoryFactor)
    ensures outcome == Threw(WebApplicationException(GATEWAY_TIMEOUT))
            <==> (Decompressed(env) && AdmissionOf(cfg, env) == Rejected(DeadlineExceeded))
                 || (EntersTry(cfg, env) && FutureReturned(env) && env.wait == TimesOut
                     && !env.cleanupDeleteThrows)
    ensures outcome == Threw(WebApplicationException(INTERNAL_SERVER_ERROR))
            <==> EntersTry(cfg, env) && FutureReturned(env)
                 && (env.wait == ExecutionFails || env.wait == Interrupted)
                 && !env.cleanupDeleteThrows
    ensures outcome.Ok?
            <==> EntersTry(cfg, env) && FutureReturned(env) && env.wait.Completes?
                 && env.serialises && env.streamCloses && !env.cleanupDeleteThrows
    ensures outcome.Ok? ==> outcome.value == env.wait.evaluation
    ensures EntersTry(cfg, env) && FutureReturned(env) && env.wait.Completes?
            && !(env.serialises && env.streamCloses) && !env.cleanupDeleteThrows
            ==> outcome == Threw(IOException)
    ensures outcome == Threw(CancellationException)
            <==> EntersTry(cfg, env) && FutureReturned(env) && env.wait == CancelledByClient
                 && !env.cleanupDeleteThrows
    ensures EntersTry(cfg, env) && env.cleanupDeleteThrows ==> outcome == Threw(IOException)
    // which exception escapes unmapped
    ensures !Decompressed(env) ==> outcome == Threw(IOException)
    ensures Decompressed(env) && cfg.memoryFactor == 0 ==> outcome == Threw(ArithmeticException)
    ensures Decompressed(env) && AdmissionOf(cfg, env).Admitted? && !env.filterParses
            ==> outcome == Threw(FilterParseException)
    ensures EntersTry(cfg, env) && !FutureReturned(env) && !env.cleanupDeleteThrows
            ==> outcome == Threw(if env.streamOpens then GeneratorException else IOException)
    // every exit from the try block runs the cleanup
    ensures EntersTry(cfg, env) ==> |w.calls| > 0
                                    && w.calls[|w.calls| - 1] == DeleteIfExists(AdmittedPath(env, upload, tmp))
    ensures EntersTry(cfg, env) ==> (CancelFuture in w.calls <==> FutureReturned(env))
    ensures EntersTry(cfg, env) && FutureReturned(env)
            ==> |w.calls| >= 2 && w.calls[|w.calls| - 2] == CancelFuture
    ensures EntersTry(cfg, env) ==> w.future != Running
    ensures EntersTry(cfg, env) && FutureReturned(env) && (env.wait.Completes? || env.wait == ExecutionFails)
            ==> w.future == Done
    ensures EntersTry(cfg, env) && FutureReturned(env) && env.wait == CancelledByClient
            ==> w.future == Cancelled
    ensures EntersTry(cfg, env) && FutureReturned(env) && (env.wait == TimesOut || env.wait == Interrupted)
            ==> w.future == (if env.finishesFirst then Done else Cancelled)
    ensures EntersTry(cfg, env) && !env.cleanupDeleteThrows ==> AdmittedPath(env, upload, tmp) !in w.files
    // failures before the try block clean nothing up
    ensures !EntersTry(cfg, env) ==> w.future == NoFuture && CancelFuture !in w.calls && Submit !in w.calls
    ensures !EntersTry(cfg, env) && Decompressed(env)
            ==> AdmittedPath(env, upload, tmp) in w.files
                && DeleteIfExists(AdmittedPath(env, upload, tmp)) !in w.calls
    // decompression removes the original upload once the temp file exists
    ensures env.compressed && env.tempCreated && !env.originalDeleteThrows ==> upload !in w.files
    // the evaluation is submitted only after admission, and waited for within the remaining budget
    ensures Submit in w.calls <==> EntersTry(cfg, env) && FutureReturned(env)
    ensures AwaitsWithin(w.calls, ToNanos(cfg.timeoutMs) - env.elapsed)
    ensures w.files <= files + {tmp}
    ensures w.files - {upload, tmp} == files - {upload, tmp}
  {
    w := World(files, NoFuture, []);
    var handled;
    handled, w := HandleUpload(cfg, env, w, upload, tmp);
    if handled.Threw? {
      outcome := Threw(handled.exception);
      return;
    }
    var file := handled.value.file;
    var timeout := ToNanos(cfg.timeoutMs);
    var elapsed := handled.value.elapsed;
    if !env.filterParses {
      outcome := Threw(FilterParseException);
      return;
    }
    assert AwaitsWithin(w.calls, RemainingBudget(timeout, elapsed));
    assert EntersTry(cfg, env);
    assert file == upload || file == tmp;
    var admitted := w;
    outcome, w := TryWithCleanup(env, w, file, RemainingBudget(timeout, elapsed));
    CleanupCallLog(admitted.calls, env, RemainingBudget(timeout, elapsed), file);
    assert w.files - {upload, tmp} == admitted.files - {upload, tmp};
  }

  /** The shape of the call log a `try` block and its cleanup leave behind. */
  lemma CleanupCallLog(before: seq<Call>, env: Env, budget: int, file: Path)
    ensures var calls := before + TryCalls(env, budget)
                         + (if FutureReturned(env) then HandlerCalls(env.lateCancels) + [CancelFuture] else [])
                         + [DeleteIfExists(file)];
            && calls[|calls| - 1] == DeleteIfExists(file)
            && (FutureReturned(env) ==> calls[|calls| - 2] == CancelFuture)
            && (CancelFuture in calls <==> CancelFuture in before || FutureReturned(env))
            && (Submit in calls <==> Submit in before || FutureReturned(env))
  {
  }

  /** Every bounded wait in `calls` is given `budget`, and `budget` is not
      negative. */
  predicate AwaitsWithin(calls: seq<Call>, budget: int)
  {
    forall i | 0 <= i < |calls| && calls[i].AwaitResult? :: 0 <= calls[i].budget == budget
  }

  /** Lines 109-120 on their own: the `try` block followed by its
      `finally`, starting with no future. */
  method TryWithCleanup(env: Env, w0: World, file: Path, budget: int)
    returns (outcome: Result<EvalMap>, w: World)
    requires w0.future == NoFuture
    ensures outcome == Threw(WebApplicationException(GATEWAY_TIMEOUT))
            <==> FutureReturned(env) && env.wait == TimesOut && !env.cleanupDeleteThrows
    ensures outcome == Threw(WebApplicationException(INTERNAL_SERVER_ERROR))
            <==> FutureReturned(env) && (env.wait == ExecutionFails || env.wait == Interrupted)
                 && !env.cleanupDeleteThrows
    ensures outcome.Ok?
            <==> FutureReturned(env) && env.wait.Completes? && env.serialises && env.streamCloses
                 && !env.cleanupDeleteThrows
    ensures outcome.Ok? ==> outcome.value == env.wait.evaluation
    ensures FutureReturned(env) && env.wait.Completes? && !(env.serialises && env.streamCloses)
            && !env.cleanupDeleteThrows
            ==> outcome == Threw(IOException)
    ensures outcome == Threw(CancellationException)
            <==> FutureReturned(env) && env.wait == CancelledByClient && !env.cleanupDeleteThrows
    ensures env.cleanupDeleteThrows ==> outcome == Threw(IOException)
    ensures !FutureReturned(env) && !env.cleanupDeleteThrows
            ==> outcome == Threw(if env.streamOpens then GeneratorException else IOException)
    ensures outcome != Threw(WebApplicationException(PAYLOAD_TOO_LARGE))
    ensures w.calls == w0.calls + TryCalls(env, budget)
                       + (if FutureReturned(env) then HandlerCalls(env.lateCancels) + [CancelFuture] else [])
                       + [DeleteIfExists(file)]
    ensures w.future != Running
    ensures w.future == NoFuture <==> !FutureReturned(env)
    ensures FutureReturned(env) && (env.wait.Completes? || env.wait == ExecutionFails) ==> w.future == Done
    ensures FutureReturned(env) && env.wait == CancelledByClient ==> w.future == Cancelled
    ensures FutureReturned(env) && (env.wait == TimesOut || env.wait == Interrupted)
            ==> w.future == (if env.finishesFirst then Done else Cancelled)
    ensures !env.cleanupDeleteThrows ==> w.files == w0.files - {file}
    ensures env.cleanupDeleteThrows ==> w.files == w0.files
    ensures AwaitsWithin(w0.calls, budget) && budget >= 0 ==> AwaitsWithin(w.calls, budget)
  {
    var attempt := TryBlock(env, w0, budget);
    var settled := attempt.world;
    if settled.future == Running && env.finishesFirst {
      // the job completes after the wait gave up and before any cancel reaches it
      settled := settled.(future := Done);
    }
    var cleaned := Cleanup(settled, file, attempt.result, env.lateCancels, env.cleanupDeleteThrows);
    outcome, w := cleaned.result, cleaned.world;
  }
}
