/** Arbitrary sequences of operations on a test context, and the
    invariants every such sequence keeps. Each event is one call that
    some thread makes on the context; the calls are serialised by the
    context's monitor, so a run is a sequence of atomic steps. */
module Traces {
  import opened Wrappers
  import opened TestContext
  import opened ResultHandlers

  /** One call on the context. `Satisfy` is the callback a checkpoint
      makes when it reaches its required passes; a strict checkpoint
      flagged too often calls `Fail` with its own error. */
  datatype Event<T> =
    | Complete
    | Fail(cause: Option<Throwable>)
    | Register(strict: bool, requiredPasses: int)
    | Satisfy(id: CheckpointId)
    | Check(block: Block)
    | Deliver(handler: ResultHandler, result: AsyncResult<T>)

  /** The call's effect, or the exception it throws. */
  function Apply<T>(c: Context, e: Event<T>): Result<Context, Thrown> {
    match e
    case Complete => Success(CompleteNow(c))
    case Fail(t) => FailNow(c, t)
    case Register(strict, n) => Success(NewCheckpoint(c, strict, n).context)
    case Satisfy(id) => Success(CheckpointSatisfied(c, id))
    case Check(block) => Verify(c, block)
    case Deliver(h, ar) =>
      (match Handle(h, c, ar)
       case Success(d) => Success(d.context)
       case Failure(x) => Failure(x))
  }

  /** The context after the call. Every call that throws does so before it
      touches the state, so a throwing call leaves the context as it was. */
  function Step<T>(c: Context, e: Event<T>): (r: Context)
    ensures Apply(c, e).Failure? ==> r == c
    ensures Valid(c) ==> Valid(r)
    ensures c.released ==> r.released
    ensures Completed(c) ==> Completed(r)
    ensures Failed(c) ==> Failed(r)
  {
    match Apply(c, e)
    case Success(c') => c'
    case Failure(_) => c
  }

  /** The context after a sequence of calls. */
  function Run<T>(c: Context, es: seq<Event<T>>): (r: Context)
    ensures Valid(c) ==> Valid(r)
    decreases |es|
  {
    if es == [] then c else Run(Step(c, es[0]), es[1..])
  }

  /** In every reachable context the invariant holds, and `failed()` and
      `completed()` are never true together. */
  lemma ReachableExclusive<T>(es: seq<Event<T>>)
    ensures Valid(Run(Fresh, es))
    ensures !(Failed(Run(Fresh, es)) && Completed(Run(Fresh, es)))
  {
  }

  /** Once released, the latch stays released. */
  lemma {:induction false} ReleaseMonotonic<T>(c: Context, es: seq<Event<T>>)
    requires c.released
    ensures Run(c, es).released
    decreases |es|
  {
    if es != [] {
      ReleaseMonotonic(Step(c, es[0]), es[1..]);
    }
  }

  /** Success is sticky: a completed context stays completed, with no
      cause, whatever is called on it afterwards. */
  lemma {:induction false} SuccessSticky<T>(c: Context, es: seq<Event<T>>)
    requires Completed(c)
    ensures Completed(Run(c, es))
    ensures CauseOfFailure(Run(c, es)) == None
    decreases |es|
  {
    if es != [] {
      SuccessSticky(Step(c, es[0]), es[1..]);
    }
  }

  /** Failure is sticky too, although its cause may be replaced. */
  lemma {:induction false} FailureSticky<T>(c: Context, es: seq<Event<T>>)
    requires Failed(c)
    ensures Failed(Run(c, es)) && !Completed(Run(c, es))
    decreases |es|
  {
    if es != [] {
      FailureSticky(Step(c, es[0]), es[1..]);
    }
  }

  // ----------------------------------------------------------------------
  // Waiting

  /** `awaitCompletion(timeout, unit)`. A failed context answers true at
      once, without touching the latch, so even an interrupted waiter gets
      true. Otherwise the waiter blocks on the latch: `during` is what the
      other threads call before the timeout elapses, and the answer is
      whether the latch is released by then. An interrupted waiter that
      reaches the latch gets `InterruptedException`. */
  function AwaitCompletion<T>(c: Context, during: seq<Event<T>>, interrupted: bool): (r: Result<bool, Thrown>)
    ensures Failed(c) ==> r == Success(true)
    ensures !Failed(c) ==> (r.Failure? <==> interrupted)
    ensures r.Failure? ==> r.error == Interrupted
    ensures Valid(c) && r == Success(true) ==> Failed(Run(c, during)) || Completed(Run(c, during))
    ensures Valid(c) && r == Success(false) ==> OutcomeOf(Run(c, during)) == Pending
  {
    if Failed(c) then
      FailureSticky(c, during);
      Success(true)
    else if interrupted then Failure(Interrupted)
    else Success(Run(c, during).released)
  }

  /** A context already released answers true whatever happens meanwhile. */
  lemma AwaitReleased<T>(c: Context, during: seq<Event<T>>)
    requires c.released
    ensures AwaitCompletion(c, during, false) == Success(true)
  {
    ReleaseMonotonic(c, during);
  }

  /** A context nobody releases before the timeout answers false and was,
      and stays, pending: neither failed nor completed. */
  lemma AwaitTimesOut<T>(c: Context, during: seq<Event<T>>)
    requires Valid(c)
    requires !Run(c, during).released
    ensures AwaitCompletion(c, during, false) == Success(false)
    ensures OutcomeOf(c) == Pending && OutcomeOf(Run(c, during)) == Pending
  {
    if c.released {
      ReleaseMonotonic(c, during);
    }
  }

  // ----------------------------------------------------------------------
  // Checkpoints satisfied in some order

  /** The satisfaction callbacks of the given checkpoints, in order. */
  function Satisfactions<T>(ids: seq<CheckpointId>): (es: seq<Event<T>>)
    ensures |es| == |ids|
    ensures forall i :: 0 <= i < |ids| ==> es[i] == Satisfy(ids[i])
  {
    if ids == [] then [] else [Satisfy(ids[0])] + Satisfactions(ids[1..])
  }

  /** Satisfying checkpoints removes exactly them from the pending set and
      releases the latch exactly when every pending checkpoint is among
      them (or it was released already); the cause is untouched. */
  lemma {:induction false} SatisfyingReleases<T>(c: Context, ids: seq<CheckpointId>)
    requires |ids| > 0
    ensures Run(c, Satisfactions<T>(ids)).pending == c.pending - set i | i in ids
    ensures Run(c, Satisfactions<T>(ids)).released <==>
      c.released || forall p :: p in c.pending ==> p in ids
    ensures Run(c, Satisfactions<T>(ids)).cause == c.cause
    decreases |ids|
  {
    var es := Satisfactions<T>(ids);
    var c' := CheckpointSatisfied(c, ids[0]);
    assert Step(c, es[0]) == c';
    assert es[1..] == Satisfactions<T>(ids[1..]);
    if |ids| == 1 {
      assert Run(c, es) == c';
      assert forall p :: p in ids <==> p == ids[0];
      if forall p :: p in c.pending ==> p in ids {
        assert c'.pending == {};
      }
      if c'.pending == {} {
        forall p | p in c.pending ensures p in ids {
          assert p == ids[0] || p in c'.pending;
        }
      }
    } else {
      var rest := ids[1..];
      SatisfyingReleases<T>(c', rest);
      assert Run(c, es) == Run(c', Satisfactions<T>(rest));
      assert (set i | i in ids) == {ids[0]} + set i | i in rest;
      if c'.released && !c.released {
        forall p | p in c.pending ensures p in ids {
          assert p == ids[0] || p in c'.pending;
        }
      }
      if forall p :: p in c'.pending ==> p in rest {
        forall p | p in c.pending ensures p in ids {
          if p != ids[0] {
            assert p in c'.pending;
            var j :| 0 <= j < |rest| && rest[j] == p;
            assert ids[j + 1] == p;
          }
        }
      }
      if forall p :: p in c.pending ==> p in ids {
        forall p | p in c'.pending ensures p in rest {
          assert p in ids && p != ids[0];
          var j :| 0 <= j < |ids| && ids[j] == p;
          assert rest[j - 1] == p;
        }
      }
    }
  }

  /** No identity appears twice. */
  predicate Distinct(ids: seq<CheckpointId>) {
    forall i, j :: 0 <= i < j < |ids| ==> ids[i] != ids[j]
  }

  /** Satisfying the pending checkpoints one by one, in any order, leaves
      the context pending until the last one and completes it then. */
  lemma CompletesAtLast<T>(c: Context, ids: seq<CheckpointId>, k: nat)
    requires Valid(c) && !c.released
    requires Distinct(ids) && (set i | i in ids) == c.pending && |ids| > 0
    requires k <= |ids|
    ensures Completed(Run(c, Satisfactions<T>(ids[..k]))) <==> k == |ids|
    ensures k < |ids| ==> OutcomeOf(Run(c, Satisfactions<T>(ids[..k]))) == Pending
  {
    if k == 0 {
      assert Satisfactions<T>(ids[..k]) == [];
    } else {
      SatisfyingReleases<T>(c, ids[..k]);
      if k < |ids| {
        assert ids[k] in c.pending;
        assert ids[k] !in ids[..k];
      } else {
        assert ids[..k] == ids;
      }
    }
  }
}
