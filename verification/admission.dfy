/** The admission decision `ReportResource.handleUpload` takes once the
    upload is on disk (and decompressed if it was compressed): refuse it when
    it is larger than the heap can afford, refuse it when decompression and
    the size check have already used up the request's deadline, and
    otherwise hand the rest of the deadline to the bounded wait on the
    report generator. Memory and clock readings arrive as numbers. */
module Admission {
  import opened JavaLang

  /** Why an upload is not admitted. `DivisionByZero` is the
      `ArithmeticException` a configured memory factor of 0 raises at the
      division; the other two become HTTP 413 and 504. */
  datatype Rejection = PayloadTooLarge | DeadlineExceeded | DivisionByZero

  datatype Decision = Admitted | Rejected(reason: Rejection)

  /** The decision, checks in source order.
      `fileLength`: length of the (decompressed) file in bytes.
      `availableMemory`: `maxMemory - totalMemory + freeMemory` after a GC.
      `memoryFactor`: the configured divisor.
      `timeout`: the configured deadline, already in nanoseconds.
      `elapsed`: nanoseconds since the request started, read after the size
      check. A monotonic clock makes it non-negative. */
  function Admit(fileLength: nat, availableMemory: Long, memoryFactor: Long,
                 timeout: Long, elapsed: nat): (a: Decision)
    ensures a == Rejected(PayloadTooLarge)
            <==> memoryFactor != 0 && fileLength > Div(availableMemory, memoryFactor)
    ensures a.Admitted? ==> elapsed <= timeout
    ensures a.Admitted? ==> memoryFactor != 0 && fileLength <= Div(availableMemory, memoryFactor)
  {
    if memoryFactor == 0 then Rejected(DivisionByZero)
    else if fileLength > Div(availableMemory, memoryFactor) then Rejected(PayloadTooLarge)
    else if elapsed > timeout then Rejected(DeadlineExceeded)
    else Admitted
  }

  /** The budget `getEval` gives the bounded wait: what is left of the
      deadline after admission. */
  function RemainingBudget(timeout: Long, elapsed: nat): (r: Long)
    requires elapsed <= timeout
  {
    timeout - elapsed
  }

  /** Whenever an upload is admitted the remaining budget is a well-formed
      wait time: never negative, never more than the whole deadline, and
      exactly what elapsed time leaves of it. */
  lemma AdmittedBudget(fileLength: nat, availableMemory: Long, memoryFactor: Long,
                       timeout: Long, elapsed: nat)
    requires Admit(fileLength, availableMemory, memoryFactor, timeout, elapsed).Admitted?
    ensures 0 <= RemainingBudget(timeout, elapsed) <= timeout
    ensures elapsed + RemainingBudget(timeout, elapsed) == timeout
  {
  }

  lemma MulMonotonic(a: int, b: int, c: nat)
    requires a <= b
    ensures a * c <= b * c
  {
  }

  /** With a positive factor and a non-negative memory estimate, the size
      check is "length times factor exceeds the available memory": the
      integer division rounds the ceiling down but never refuses a file that
      would fit, nor admits one that would not. */
  lemma OversizedIffProductExceedsMemory(fileLength: nat, availableMemory: Long,
                                         memoryFactor: Long, timeout: Long, elapsed: nat)
    requires memoryFactor > 0 && availableMemory >= 0
    ensures Admit(fileLength, availableMemory, memoryFactor, timeout, elapsed) == Rejected(PayloadTooLarge)
            <==> fileLength * memoryFactor > availableMemory
  {
    DivMatchesEuclidean(availableMemory, memoryFactor);
    var q := availableMemory / memoryFactor;
    assert availableMemory == q * memoryFactor + availableMemory % memoryFactor;
    if fileLength > q {
      MulMonotonic(q + 1, fileLength, memoryFactor);
      assert fileLength * memoryFactor >= q * memoryFactor + memoryFactor;
    } else {
      MulMonotonic(fileLength, q, memoryFactor);
    }
  }

  /** A file exactly at the ceiling is admitted (the comparison is strict),
      and one byte more is refused. */
  lemma CeilingIsInclusive(availableMemory: Long, memoryFactor: Long, timeout: Long, elapsed: nat)
    requires memoryFactor != 0 && Div(availableMemory, memoryFactor) >= 0
    ensures var ceiling := Div(availableMemory, memoryFactor);
            Admit(ceiling, availableMemory, memoryFactor, timeout, elapsed) != Rejected(PayloadTooLarge)
            && Admit(ceiling + 1, availableMemory, memoryFactor, timeout, elapsed) == Rejected(PayloadTooLarge)
  {
  }

  /** The size check comes first: an upload that is both too large and too
      late is reported as too large. */
  lemma SizeCheckedBeforeDeadline(fileLength: nat, availableMemory: Long, memoryFactor: Long,
                                  timeout: Long, elapsed: nat)
    requires memoryFactor != 0 && fileLength > Div(availableMemory, memoryFactor)
    requires elapsed > timeout
    ensures Admit(fileLength, availableMemory, memoryFactor, timeout, elapsed) == Rejected(PayloadTooLarge)
  {
  }

  /** Among uploads that fit, the deadline check refuses exactly those whose
      elapsed time is strictly greater than the deadline; using the whole
      deadline is still admitted, with a budget of zero. */
  lemma DeadlineIsStrict(fileLength: nat, availableMemory: Long, memoryFactor: Long,
                         timeout: Long, elapsed: nat)
    requires memoryFactor != 0 && fileLength <= Div(availableMemory, memoryFactor)
    ensures Admit(fileLength, availableMemory, memoryFactor, timeout, elapsed) == Rejected(DeadlineExceeded)
            <==> elapsed > timeout
    ensures elapsed == timeout ==>
              Admit(fileLength, availableMemory, memoryFactor, timeout, elapsed).Admitted?
              && RemainingBudget(timeout, elapsed) == 0
  {
  }

  /** Admission is monotonic: a smaller file that arrives no later is
      admitted whenever a larger, later one is. */
  lemma AdmissionMonotonic(fileLength: nat, smaller: nat, availableMemory: Long, memoryFactor: Long,
                           timeout: Long, elapsed: nat, earlier: nat)
    requires smaller <= fileLength && earlier <= elapsed
    requires Admit(fileLength, availableMemory, memoryFactor, timeout, elapsed).Admitted?
    ensures Admit(smaller, availableMemory, memoryFactor, timeout, earlier).Admitted?
    ensures RemainingBudget(timeout, earlier) >= RemainingBudget(timeout, elapsed)
  {
  }

  /** A memory factor of 0 never admits anything: the division throws
      before either check can pass. */
  lemma ZeroFactorAlwaysThrows(fileLength: nat, availableMemory: Long, timeout: Long, elapsed: nat)
    ensures Admit(fileLength, availableMemory, 0, timeout, elapsed) == Rejected(DivisionByZero)
  {
  }
}
