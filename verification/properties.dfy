/** Properties of the individual operations of a test context, stated
    against the outcome they produce. */
module Properties {
  import opened Wrappers
  import opened TestContext
  import opened ResultHandlers
  import opened Traces

  /** `completeNow` releases the context and a second call changes
      nothing; on a failed context the failure and its cause stay. */
  lemma CompleteNowIdempotent(c: Context)
    ensures CompleteNow(CompleteNow(c)) == CompleteNow(c)
    ensures Completed(CompleteNow(c)) <==> !Failed(c)
    ensures Failed(c) ==> Failed(CompleteNow(c)) && CauseOfFailure(CompleteNow(c)) == CauseOfFailure(c)
    ensures OutcomeOf(c) == Pending ==> OutcomeOf(CompleteNow(c)) == Succeeded
  {
  }

  /** `failNow` with a cause fails the context exactly when it had not
      completed; on a completed context it changes nothing and the cause
      stays null. */
  lemma FailNowFailsUnlessCompleted(c: Context, t: Throwable)
    ensures FailNow(c, Some(t)).Success?
    ensures Failed(FailNow(c, Some(t)).value) <==> !Completed(c)
    ensures !Completed(c) ==> OutcomeOf(FailNow(c, Some(t)).value) == FailedWith(t)
    ensures Completed(c) ==> FailNow(c, Some(t)).value == c && CauseOfFailure(c) == None
  {
  }

  /** A second failure replaces the first: the last cause wins. */
  lemma LastFailureWins(c: Context, first: Throwable, second: Throwable)
    requires !Completed(c)
    ensures var c1 := FailNow(c, Some(first)).value;
      CauseOfFailure(c1) == Some(first) && CauseOfFailure(FailNow(c1, Some(second)).value) == Some(second)
  {
  }

  /** `failNow(null)` throws and leaves the context as it was. */
  lemma FailNowNullRejected<T>(c: Context)
    ensures FailNow(c, None).Failure?
    ensures Step<T>(c, Fail(None)) == c
  {
  }

  /** A satisfied checkpoint releases the context exactly when it was the
      last one pending; otherwise the latch is untouched. */
  lemma SatisfactionCompletesWhenEmpty(c: Context, id: CheckpointId)
    requires Valid(c) && OutcomeOf(c) == Pending
    ensures Completed(CheckpointSatisfied(c, id)) <==> c.pending <= {id}
    ensures !(c.pending <= {id}) ==> CheckpointSatisfied(c, id).released == c.released
  {
  }

  /** `verify` with a throwing block is `failNow` with what it threw; with
      a block that returns normally it changes nothing. */
  lemma VerifyIsFailNow(c: Context, t: Throwable)
    ensures Verify(c, Throws(t)) == FailNow(c, Some(t))
    ensures Verify(c, Returns) == Success(c)
  {
  }

  /** A `succeeding` handler given a failed result calls `failNow` with its
      cause; a `failing` handler given a successful result calls `failNow`
      with an assertion error. */
  lemma UnexpectedOutcomeFails<T>(c: Context, forwards: bool, t: Throwable, v: T)
    ensures Handle<T>(ExpectSuccess(forwards), c, AsyncFailure(Some(t))) == Success(Delivery(FailNow(c, Some(t)).value, Nothing))
    ensures Handle(ExpectFailure(forwards), c, AsyncSuccess(v)) ==
      Success(Delivery(FailNow(c, Some(AssertionError(ExpectedFailureMessage))).value, Nothing))
  {
  }

  /** The strict checkpoint satisfied was the last one pending: its
      satisfaction completes the context, so the overflow's `failNow` when
      it is flagged once too often is ignored and the test still passes. */
  lemma StrictOverflowAfterCompletionIgnored<T>(c: Context, id: CheckpointId, overflow: Throwable)
    requires Valid(c) && !Failed(c) && c.pending <= {id}
    ensures var done := Step<T>(c, Satisfy(id));
      && Completed(done)
      && Completed(Step<T>(done, Fail(Some(overflow))))
      && CauseOfFailure(Step<T>(done, Fail(Some(overflow)))) == None
  {
    var done := Step<T>(c, Satisfy(id));
    assert done == CheckpointSatisfied(c, id);
    assert done.pending == {};
  }

  /** With another checkpoint still pending, the same overflow does fail
      the context, with the overflow's cause. */
  lemma OverflowWithAnotherPending<T>(c: Context, id: CheckpointId, other: CheckpointId, overflow: Throwable)
    requires Valid(c) && OutcomeOf(c) == Pending && other in c.pending && other != id
    ensures var done := Step<T>(c, Satisfy(id));
      && OutcomeOf(done) == Pending
      && OutcomeOf(Step<T>(done, Fail(Some(overflow)))) == FailedWith(overflow)
  {
    var done := Step<T>(c, Satisfy(id));
    assert other in done.pending;
  }
}
