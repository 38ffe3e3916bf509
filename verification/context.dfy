/** The state of a Vert.x test context and its direct transitions:
    the failure cause, the one-shot release latch and the set of
    checkpoints that have not been satisfied yet. Every Java method that
    changes these fields, and every observer, is `synchronized`, so each
    change is an atomic step on an immutable record. The wait reads the
    thread-safe latch outside the monitor; it is modelled in `Traces`. */
module TestContext {
  import opened Wrappers

  /** A throwable the context may record as its cause of failure. The only
      one the context creates itself is the assertion error of the
      `failing` handlers; every other throwable is opaque. */
  datatype Throwable = AssertionError(message: string) | Raised(id: nat)

  /** Exceptions thrown back to the caller instead of being recorded. */
  datatype Thrown = NullPointer(message: string) | Interrupted

  const NullCauseMessage: string := "The exception cannot be null"
  const NullBlockMessage: string := "The block cannot be null"

  /** The identity of a checkpoint object registered with a context. */
  type CheckpointId = nat

  /** `cause` is the throwable reference (None for null), `released` says
      whether the count-down latch of count 1 has reached 0, `pending` holds
      the checkpoints not satisfied yet, and `nextId` is the identity the
      next checkpoint object will get (Java never reuses a live identity). */
  datatype Context = Context(
    cause: Option<Throwable>,
    released: bool,
    pending: set<CheckpointId>,
    nextId: CheckpointId)

  /** A freshly constructed context. */
  const Fresh: Context := Context(None, false, {}, 0)

  /** What every reachable context satisfies: a recorded failure has
      released the latch, and every pending checkpoint was issued. */
  predicate Valid(c: Context) {
    && (c.cause.Some? ==> c.released)
    && forall id :: id in c.pending ==> id < c.nextId
  }

  // ----------------------------------------------------------------------
  // Observers

  /** `failed()`: a cause has been recorded. */
  predicate Failed(c: Context)
    ensures Failed(c) <==> OutcomeOf(c).FailedWith?
  {
    c.cause.Some?
  }

  /** `causeOfFailure()`: the recorded cause, None for null. */
  function CauseOfFailure(c: Context): (r: Option<Throwable>)
    ensures r.Some? <==> Failed(c)
  {
    c.cause
  }

  /** `completed()`: the latch is released and no cause is recorded. */
  predicate Completed(c: Context)
    ensures Completed(c) <==> OutcomeOf(c) == Succeeded
    ensures Completed(c) ==> !Failed(c)
  {
    !Failed(c) && c.released
  }

  /** The three outcomes a test can have, read independently of the
      observers above. */
  datatype Outcome = Pending | Succeeded | FailedWith(cause: Throwable)

  function OutcomeOf(c: Context): Outcome {
    match c.cause
    case Some(t) => FailedWith(t)
    case None => if c.released then Succeeded else Pending
  }

  /** The observers agree with the outcome: `failed()` is exactly the
      failed outcome, `completed()` exactly success, so they never hold
      together, and a valid context that is neither is still pending. */
  lemma ObserversMatchOutcome(c: Context)
    ensures Failed(c) <==> OutcomeOf(c).FailedWith?
    ensures Completed(c) <==> OutcomeOf(c) == Succeeded
    ensures !(Failed(c) && Completed(c))
    ensures Valid(c) && !Failed(c) && !Completed(c) ==> OutcomeOf(c) == Pending && !c.released
    ensures Failed(c) ==> CauseOfFailure(c) == Some(OutcomeOf(c).cause)
  {
  }

  // ----------------------------------------------------------------------
  // Completion and failure

  /** `completeNow()`: counts the latch down, which does nothing once it
      is already released. */
  function CompleteNow(c: Context): (r: Context)
    ensures r.released
    ensures r.cause == c.cause && r.pending == c.pending && r.nextId == c.nextId
    ensures c.released ==> r == c
    ensures Valid(c) ==> Valid(r)
  {
    c.(released := true)
  }

  /** `failNow(t)`: a null cause is rejected; otherwise, unless the context
      has completed, `t` replaces whatever cause was recorded and the latch
      is released. */
  function FailNow(c: Context, t: Option<Throwable>): (r: Result<Context, Thrown>)
    ensures t.None? <==> r.Failure?
    ensures r.Failure? ==> r.error == NullPointer(NullCauseMessage)
    ensures r.Success? && Completed(c) ==> r.value == c
    ensures r.Success? && !Completed(c) ==>
      && r.value.cause == t && Failed(r.value) && r.value.released
      && r.value.pending == c.pending && r.value.nextId == c.nextId
    ensures r.Success? && Valid(c) ==> Valid(r.value)
  {
    if t.None? then Failure(NullPointer(NullCauseMessage))
    else if !Completed(c) then Success(c.(cause := t, released := true))
    else Success(c)
  }

  // ----------------------------------------------------------------------
  // Checkpoints

  /** A checkpoint handed out by the context. Its pass counting lives in
      the checkpoint object, which reports back only through
      `CheckpointSatisfied` (and, when strict, through `FailNow`). */
  datatype Checkpoint = Checkpoint(id: CheckpointId, strict: bool, requiredPasses: int)

  datatype Registration = Registration(context: Context, checkpoint: Checkpoint)

  /** Creates a checkpoint object and adds it to the pending set. */
  function NewCheckpoint(c: Context, strict: bool, requiredPasses: int): (r: Registration)
    ensures r.context.pending == c.pending + {r.checkpoint.id}
    ensures Valid(c) ==> r.checkpoint.id !in c.pending
    ensures r.checkpoint.strict == strict && r.checkpoint.requiredPasses == requiredPasses
    ensures r.context.cause == c.cause && r.context.released == c.released
    ensures Valid(c) ==> Valid(r.context)
  {
    var id := c.nextId;
    Registration(c.(pending := c.pending + {id}, nextId := id + 1), Checkpoint(id, strict, requiredPasses))
  }

  /** `checkpoint(n)`; `checkpoint()` is the case n = 1. */
  function LaxCheckpoint(c: Context, requiredPasses: int): (r: Registration)
    ensures !r.checkpoint.strict && r.checkpoint.requiredPasses == requiredPasses
    ensures Valid(c) ==> r.checkpoint.id !in c.pending && Valid(r.context)
    ensures r.context.pending == c.pending + {r.checkpoint.id}
    ensures r.context.cause == c.cause && r.context.released == c.released
  {
    NewCheckpoint(c, false, requiredPasses)
  }

  /** `strictCheckpoint(n)`; `strictCheckpoint()` is the case n = 1. */
  function StrictCheckpoint(c: Context, requiredPasses: int): (r: Registration)
    ensures r.checkpoint.strict && r.checkpoint.requiredPasses == requiredPasses
    ensures Valid(c) ==> r.checkpoint.id !in c.pending && Valid(r.context)
    ensures r.context.pending == c.pending + {r.checkpoint.id}
    ensures r.context.cause == c.cause && r.context.released == c.released
  {
    NewCheckpoint(c, true, requiredPasses)
  }

  /** `checkpointSatisfied(id)`: removes the checkpoint and completes the
      context when nothing is left pending. */
  function CheckpointSatisfied(c: Context, id: CheckpointId): (r: Context)
    ensures r.pending == c.pending - {id}
    ensures r.released <==> c.released || r.pending == {}
    ensures r.cause == c.cause && r.nextId == c.nextId
    ensures Valid(c) ==> Valid(r)
  {
    var left := c.pending - {id};
    if left == {} then CompleteNow(c.(pending := left)) else c.(pending := left)
  }

  // ----------------------------------------------------------------------
  // Verification blocks

  /** A `Runnable` passed to `verify`: null, one that returns normally, or
      one that throws. */
  datatype Block = NullBlock | Returns | Throws(thrown: Throwable)

  /** `verify(block)`: runs the block and hands anything it throws to
      `failNow`; the context itself is returned for chaining. */
  function Verify(c: Context, block: Block): (r: Result<Context, Thrown>)
    ensures block.NullBlock? <==> r.Failure?
    ensures r.Failure? ==> r.error == NullPointer(NullBlockMessage)
    ensures block.Returns? ==> r == Success(c)
    ensures block.Throws? && Completed(c) ==> r == Success(c)
    ensures block.Throws? && !Completed(c) ==>
      r.Success? && OutcomeOf(r.value) == FailedWith(block.thrown) && r.value.pending == c.pending
  {
    match block
    case NullBlock => Failure(NullPointer(NullBlockMessage))
    case Returns => Success(c)
    case Throws(t) => FailNow(c, Some(t))
  }
}
