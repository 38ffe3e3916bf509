# VertxTestContext as a state machine

A Dafny model of the test context of vertx-junit5 (`io.vertx.junit5.VertxTestContext`):
the object a JUnit 5 test uses to wait for the outcome of asynchronous Vert.x work.
Its state has three parts:

- an optional failure cause (the throwable reference, `null` while the test has not failed);
- a one-shot release latch (a count-down latch of count 1);
- the set of checkpoints created by the context and not yet satisfied.

The model is an immutable record `TestContext.Context` with one pure transition
function per operation. Every method that changes the three fields, and every observer, is `synchronized`
(VertxTestContext.java:45, 54, 63, 72, 81, 91, 113, 134), so each state change is one
atomic step. The `verify` block and the handlers' branch run outside the monitor and reach
the state only through those methods. `awaitCompletion` reads the latch directly through
`await` (:242). That is safe because the count-down latch is itself thread-safe, and the
model gives the wait the calls other threads make meanwhile (`during`) rather than treating
it as one atomic step.
`Traces.Run` applies an arbitrary sequence of calls. The lemmas in `Traces` and
`Properties` state what holds over every such sequence.

Files:

- `wrappers.dfy`: `Option` (a nullable reference) and `Result` (a return value or a thrown exception).
- `context.dfy`: the state, the observers `failed`/`causeOfFailure`/`completed`,
  `completeNow`, `failNow`, checkpoint registration, the satisfaction callback and `verify`.
- `handlers.dfy`: the `succeeding`/`failing` handler factories and what their handlers decide.
- `traces.dfy`: calls as events, runs of calls, `awaitCompletion`, and the invariants over runs.
- `properties.dfy`: properties of single operations.

Two behaviours of the code are worth stating up front.

- `failNow` checks only `completed()` (VertxTestContext.java:83), which is false once the
  context has failed. So a repeated failure overwrites the cause (:84): the last failure
  wins (`Properties.LastFailureWins`).
- The Javadoc of `strictCheckpoint` promises that a strict checkpoint makes the context
  fail when it is flagged more than once (:122, :132). The code breaks that promise when the
  strict checkpoint was the last one pending. Its satisfaction has already completed the
  context, so the overflow's `failNow` is ignored
  (`Properties.StrictOverflowAfterCompletionIgnored`). With another checkpoint still
  pending, the overflow does fail the context (`Properties.OverflowWithAnotherPending`).

Java `null` arguments are modelled explicitly. A null cause, handler or block is
`Failure(NullPointer(message))` with the message the code passes to
`Objects.requireNonNull`. A call that throws leaves the state unchanged (`Traces.Step`).

## Model

| member | source | states |
|---|---|---|
| TestContext.ObserversMatchOutcome | src/main/java/io/vertx/junit5/VertxTestContext.java:45-65 | `failed()` holds exactly for the failed outcome and `completed()` exactly for success, so they never hold together; a valid context that is neither has an unreleased latch; the cause is the failed outcome's throwable |
| TestContext.Failed | src/main/java/io/vertx/junit5/VertxTestContext.java:45-47 | `failed()` holds exactly when a cause is recorded, i.e. exactly for the failed outcome |
| TestContext.Completed | src/main/java/io/vertx/junit5/VertxTestContext.java:63-65 | `completed()` holds exactly when the latch is released and no cause is recorded, i.e. exactly for the successful outcome, so never together with `failed()` |
| TestContext.CauseOfFailure | src/main/java/io/vertx/junit5/VertxTestContext.java:54-56 | the cause is non-null exactly when the context has failed |
| TestContext.CompleteNow | src/main/java/io/vertx/junit5/VertxTestContext.java:72-74 | the latch is released and nothing else changes; on a released latch the call is a no-op; the invariant is kept |
| TestContext.FailNow | src/main/java/io/vertx/junit5/VertxTestContext.java:81-87 | a null cause throws a NullPointerException with the source's message; on a completed context the call changes nothing; otherwise the given cause is recorded (replacing any earlier one) and the latch released, pending checkpoints untouched |
| TestContext.LaxCheckpoint | src/main/java/io/vertx/junit5/VertxTestContext.java:103-117 | the new lax checkpoint has a fresh identity that is added to the pending set; neither the cause nor the release flag changes |
| TestContext.StrictCheckpoint | src/main/java/io/vertx/junit5/VertxTestContext.java:124-138 | the same for a strict checkpoint |
| TestContext.CheckpointSatisfied | src/main/java/io/vertx/junit5/VertxTestContext.java:91-96 | the checkpoint leaves the pending set; the latch is released exactly when it was released already or the pending set is now empty; the cause is untouched |
| TestContext.Verify | src/main/java/io/vertx/junit5/VertxTestContext.java:218-226 | a null block throws a NullPointerException with the source's message, and only a null block throws; a block that returns leaves the context unchanged; a block that throws `t` fails a non-completed context with cause `t` (pending checkpoints untouched) and leaves a completed one unchanged |
| ResultHandlers.Succeeding | src/main/java/io/vertx/junit5/VertxTestContext.java:148-154 | the handler expects success and forwards nothing |
| ResultHandlers.SucceedingWith | src/main/java/io/vertx/junit5/VertxTestContext.java:163-172 | a null next handler is rejected when the handler is made; otherwise the handler expects success and forwards the value |
| ResultHandlers.Failing | src/main/java/io/vertx/junit5/VertxTestContext.java:180-186 | the handler expects failure and forwards nothing |
| ResultHandlers.FailingWith | src/main/java/io/vertx/junit5/VertxTestContext.java:195-204 | a null next handler is rejected when the handler is made; otherwise the handler expects failure and forwards the cause |
| ResultHandlers.Handle | src/main/java/io/vertx/junit5/VertxTestContext.java:148-204 | the expected outcome leaves the context unchanged and is forwarded exactly when the handler forwards. The unexpected outcome forwards nothing. It fails a non-completed context with the result's cause or with the assertion error. Only a failed result with a null cause makes the handler throw |
| Traces.Step | src/main/java/io/vertx/junit5/VertxTestContext.java:63-96 | a call that throws leaves the context unchanged; no call breaks the invariant, re-arms the latch, un-completes a completed context or un-fails a failed one |
| Traces.Run | src/main/java/io/vertx/junit5/VertxTestContext.java:34-36 | every sequence of calls keeps the invariant (a cause implies a released latch; pending checkpoints were issued) |
| Traces.ReachableExclusive | src/main/java/io/vertx/junit5/VertxTestContext.java:45-65 | in every context reachable from a fresh one, `failed()` and `completed()` are not both true |
| Traces.ReleaseMonotonic | src/main/java/io/vertx/junit5/VertxTestContext.java:72-87 | once released, the latch stays released under every later sequence of calls |
| Traces.SuccessSticky | src/main/java/io/vertx/junit5/VertxTestContext.java:81-87 | a completed context stays completed with a null cause under every later sequence of calls, failures included |
| Traces.FailureSticky | src/main/java/io/vertx/junit5/VertxTestContext.java:72-87 | a failed context stays failed and never becomes completed |
| Traces.AwaitCompletion | src/main/java/io/vertx/junit5/VertxTestContext.java:241-243 | a failed context answers true without waiting, even for an interrupted waiter; otherwise an interrupted waiter gets InterruptedException; a true answer means the context ended failed or completed, a false one that it is still pending |
| Traces.AwaitReleased | src/main/java/io/vertx/junit5/VertxTestContext.java:241-243 | an uninterrupted waiter on a context whose latch is already released gets true, whatever the other threads call |
| Traces.AwaitTimesOut | src/main/java/io/vertx/junit5/VertxTestContext.java:241-243 | when nothing releases the latch before the timeout, the answer is false, and the context was and remains neither failed nor completed |
| Traces.SatisfyingReleases | src/main/java/io/vertx/junit5/VertxTestContext.java:91-96 | satisfying a sequence of checkpoints removes exactly those from the pending set; it releases the latch exactly when every pending checkpoint is among them (or the latch was released already); the cause is unchanged |
| Traces.CompletesAtLast | src/main/java/io/vertx/junit5/VertxTestContext.java:91-96 | satisfying all pending checkpoints one by one, in any order, leaves the context pending after every proper prefix and completed after the last |
| Properties.CompleteNowIdempotent | src/main/java/io/vertx/junit5/VertxTestContext.java:72-74 | a second `completeNow` changes nothing; it completes the context unless it failed; after a failure the failure and its cause remain; a pending context becomes successful |
| Properties.FailNowFailsUnlessCompleted | src/main/java/io/vertx/junit5/VertxTestContext.java:81-87 | `failNow` with a cause fails the context exactly when it had not completed, with that cause; on a completed context it is a no-op and the cause stays null |
| Properties.LastFailureWins | src/main/java/io/vertx/junit5/VertxTestContext.java:81-87 | on a non-completed context, a second `failNow` replaces the first cause |
| Properties.FailNowNullRejected | src/main/java/io/vertx/junit5/VertxTestContext.java:82 | `failNow(null)` throws and leaves the context unchanged |
| Properties.SatisfactionCompletesWhenEmpty | src/main/java/io/vertx/junit5/VertxTestContext.java:91-96 | on a pending context, a satisfied checkpoint completes the context exactly when no other checkpoint is pending, and otherwise leaves the latch as it was |
| Properties.VerifyIsFailNow | src/main/java/io/vertx/junit5/VertxTestContext.java:218-226 | `verify` with a block that throws `t` is `failNow(t)`; with a block that returns normally it returns the context unchanged |
| Properties.UnexpectedOutcomeFails | src/main/java/io/vertx/junit5/VertxTestContext.java:148-199 | a `succeeding` handler on a failed result is `failNow` with its cause; a `failing` handler on a successful result is `failNow` with the assertion error "The asynchronous result was expected to have failed" |
| Properties.StrictOverflowAfterCompletionIgnored | src/main/java/io/vertx/junit5/VertxTestContext.java:81-96 | on any valid, non-failed context whose only pending checkpoint is the one satisfied, the satisfaction completes the context and a later overflow `failNow` leaves it completed with a null cause |
| Properties.OverflowWithAnotherPending | src/main/java/io/vertx/junit5/VertxTestContext.java:81-96 | on a pending context where another checkpoint stays pending, an overflow `failNow` after the satisfaction fails the context with the overflow's cause |

## Left out

- Mutual exclusion (`synchronized`) and thread interleavings: every call is one atomic step, and a run is any sequence of such steps.
- Real blocking and wall-clock timeouts of the latch's `await`. `Traces.AwaitCompletion` takes the calls other threads make before the timeout (`during`) and an `interrupted` flag instead.
- The bodies of user-supplied next handlers and blocks. A handler's decision is modelled as what it forwards. What the user handler then does to the context is a separate call. An exception a next handler throws is not caught by the wrappers and is not modelled.
- `CountingCheckpoint` (pass counting, the strict overflow error, rejection of a non-positive required pass count) is not part of this model. A checkpoint reaches the context only as the `Satisfy(id)` event, and a strict overflow only as a `Fail` event. The required pass count is recorded on the checkpoint handle but never checked.
- The overloads `checkpoint()` and `strictCheckpoint()` are the one-argument forms with a count of 1, so they have no members of their own.
- Object identity of throwables: two assertion errors with the same message are equal in the model, whereas Java creates a new object for each.
