/** The asynchronous result handlers built by `succeeding` and `failing`.
    Only their decision is modelled: which outcome fails the context and
    what is forwarded to the user's next handler, whose body is not. */
module ResultHandlers {
  import opened Wrappers
  import opened TestContext

  const NullHandlerMessage: string := "The handler cannot be null"
  const ExpectedFailureMessage: string := "The asynchronous result was expected to have failed"

  /** An asynchronous result: a value, or a failure with a cause that Java
      allows to be null. */
  datatype AsyncResult<+T> = AsyncSuccess(result: T) | AsyncFailure(cause: Option<Throwable>)

  /** The `nextHandler` argument of the one-argument factories. */
  datatype NextHandler = NullHandler | UserHandler

  /** A handler made by a factory: which outcome it expects and whether it
      forwards the expected outcome to a user handler. */
  datatype ResultHandler = ExpectSuccess(forwards: bool) | ExpectFailure(forwards: bool)

  /** What the handler passes on to the user's handler, if anything. */
  datatype Forward<+T> = Nothing | ValueTo(value: T) | CauseTo(cause: Option<Throwable>)

  /** The context after the handler ran, and what it forwarded. */
  datatype Delivery<+T> = Delivery(context: Context, forward: Forward<T>)

  /** `succeeding()`. */
  function Succeeding(): (h: ResultHandler)
    ensures h.ExpectSuccess? && !h.forwards
  {
    ExpectSuccess(false)
  }

  /** `succeeding(nextHandler)`: a null handler is rejected when the
      handler is made, not when it runs. */
  function SucceedingWith(next: NextHandler): (r: Result<ResultHandler, Thrown>)
    ensures next.NullHandler? <==> r.Failure?
    ensures r.Failure? ==> r.error == NullPointer(NullHandlerMessage)
    ensures r.Success? ==> r.value.ExpectSuccess? && r.value.forwards
  {
    if next.NullHandler? then Failure(NullPointer(NullHandlerMessage)) else Success(ExpectSuccess(true))
  }

  /** `failing()`. */
  function Failing(): (h: ResultHandler)
    ensures h.ExpectFailure? && !h.forwards
  {
    ExpectFailure(false)
  }

  /** `failing(nextHandler)`. */
  function FailingWith(next: NextHandler): (r: Result<ResultHandler, Thrown>)
    ensures next.NullHandler? <==> r.Failure?
    ensures r.Failure? ==> r.error == NullPointer(NullHandlerMessage)
    ensures r.Success? ==> r.value.ExpectFailure? && r.value.forwards
  {
    if next.NullHandler? then Failure(NullPointer(NullHandlerMessage)) else Success(ExpectFailure(true))
  }

  /** Whether the result has the outcome the handler expects. */
  predicate Expected<T>(h: ResultHandler, ar: AsyncResult<T>) {
    h.ExpectSuccess? == ar.AsyncSuccess?
  }

  /** Runs a handler on an asynchronous result. The unexpected outcome goes
      to `FailNow` (the result's own cause, or a new assertion error); the
      expected one is forwarded when the handler forwards, and the context
      is left as it was. A null cause makes `FailNow` throw. */
  function Handle<T>(h: ResultHandler, c: Context, ar: AsyncResult<T>): (r: Result<Delivery<T>, Thrown>)
    // only a failed result with a null cause throws, out of failNow
    ensures r.Failure? <==> h.ExpectSuccess? && ar == AsyncFailure(None)
    ensures r.Failure? ==> r.error == NullPointer(NullCauseMessage)
    // the expected outcome leaves the context alone and is forwarded on request
    ensures Expected(h, ar) ==> r.Success? && r.value.context == c
    ensures Expected(h, ar) ==> (r.value.forward.Nothing? <==> !h.forwards)
    ensures Expected(h, ar) && h.forwards && ar.AsyncSuccess? ==> r.value.forward == ValueTo(ar.result)
    ensures Expected(h, ar) && h.forwards && ar.AsyncFailure? ==> r.value.forward == CauseTo(ar.cause)
    // the unexpected outcome forwards nothing and fails a context that has not completed
    ensures !Expected(h, ar) && r.Success? ==> r.value.forward.Nothing?
    ensures !Expected(h, ar) && r.Success? && Completed(c) ==> r.value.context == c
    ensures !Expected(h, ar) && r.Success? && !Completed(c) ==>
      && Failed(r.value.context)
      && r.value.context.cause == Some(if ar.AsyncFailure? then ar.cause.value else AssertionError(ExpectedFailureMessage))
  {
    match (h, ar)
    case (ExpectSuccess(fwd), AsyncSuccess(v)) =>
      Success(Delivery(c, if fwd then ValueTo(v) else Nothing))
    case (ExpectSuccess(_), AsyncFailure(t)) =>
      (match FailNow(c, t)
       case Success(c') => Success(Delivery(c', Nothing))
       case Failure(e) => Failure(e))
    case (ExpectFailure(_), AsyncSuccess(_)) =>
      Success(Delivery(FailNow(c, Some(AssertionError(ExpectedFailureMessage))).value, Nothing))
    case (ExpectFailure(fwd), AsyncFailure(t)) =>
      Success(Delivery(c, if fwd then CauseTo(t) else Nothing))
  }
}
