/**
  The composable success/failure value the commands return, and the two
  ways a chained step can end: it returns a result, or it throws a fault.
  Throwing is not a control-flow mechanism in Dafny, so a step is a function
  into `Attempt`, and `Then` is the single place where a thrown fault is
  turned into a failure.
 */
module Results {
  import opened Wrappers

  /** The exception classes that appear in the source. */
  datatype FaultKind = ArgumentError | InvalidOperation | InvalidCast | GeneralFault

  /** A thrown exception: its class and its message. */
  datatype Fault = Fault(kind: FaultKind, message: string)

  /** What a call left behind: a value, or a fault that it threw. */
  datatype Attempt<+T> = Value(value: T) | Thrown(fault: Fault)

  /** The payload of a failure: the reasons, in order, and the exception it was caused by, if any. */
  datatype Failed = Failed(reasons: seq<string>, exception: Option<Fault>)

  datatype Result<+T> = Success(value: T) | Failure(failure: Failed)

  /** A step of a chain: it receives the value of the previous step. */
  type Step<!T, +U> = T -> Attempt<Result<U>>

  /** `Result.Failure(reasons...)`. */
  function Fail<T>(reasons: seq<string>): (r: Result<T>)
    ensures r.Failure? && r.failure.reasons == reasons && r.failure.exception.None?
  {
    Failure(Failed(reasons, None))
  }

  /** `Result.Success()`: the unit-valued success. */
  function Done(): (r: Result<()>)
    ensures r.Success?
  {
    Success(())
  }

  /** The failure a captured fault becomes: one reason, the message, and the fault itself. */
  function Captured<T>(e: Fault): (r: Result<T>)
    ensures r.Failure? && r.failure.reasons == [e.message] && r.failure.exception == Some(e)
  {
    Failure(Failed([e.message], Some(e)))
  }

  /**
    `Then`: on a success run the step and keep what it returns, turning a
    thrown fault into a captured failure; on a failure the step is not run
    and the same failure is passed on.
   */
  function Then<T, U>(r: Result<T>, step: Step<T, U>): (o: Result<U>)
    ensures r.Failure? ==> o == Failure(r.failure)
    ensures r.Success? && step(r.value).Value? ==> o == step(r.value).value
    ensures r.Success? && step(r.value).Thrown? ==> o == Captured(step(r.value).fault)
  {
    match r
    case Failure(f) => Failure(f)
    case Success(v) =>
      match step(v)
      case Value(next) => next
      case Thrown(e) => Captured(e)
  }

  /** `Succeeded`. */
  predicate Succeeded<T>(r: Result<T>) {
    r.Success?
  }

  /** `Failed`. */
  predicate HasFailed<T>(r: Result<T>) {
    r.Failure?
  }

  /** Every result either succeeded or failed, never both. */
  lemma SucceededOrFailed<T>(r: Result<T>)
    ensures Succeeded(r) <==> !HasFailed(r)
  {
  }

  /** `ExpectSuccessAndGet`: the value of a success; called on a failure it throws. */
  function ExpectSuccessAndGet<T>(r: Result<T>): (a: Attempt<T>)
    ensures a.Value? <==> r.Success?
    ensures a.Value? ==> a.value == r.value
    ensures a.Thrown? ==> a.fault.kind == InvalidOperation
  {
    match r
    case Success(v) => Value(v)
    case Failure(_) => Thrown(Fault(InvalidOperation, "The result is not a success"))
  }

  /** `ExpectFailureAndGet`: the payload of a failure; called on a success it throws. */
  function ExpectFailureAndGet<T>(r: Result<T>): (a: Attempt<Failed>)
    ensures a.Value? <==> r.Failure?
    ensures a.Value? ==> a.value == r.failure
    ensures a.Thrown? ==> a.fault.kind == InvalidOperation
  {
    match r
    case Failure(f) => Value(f)
    case Success(_) => Thrown(Fault(InvalidOperation, "The result is not a failure"))
  }

  /** A failure always gives at least one reason. */
  ghost predicate WellFormed<T>(r: Result<T>) {
    r.Failure? ==> |r.failure.reasons| > 0
  }

  /** Chaining keeps results well-formed: a captured fault always carries its message as a reason. */
  lemma ThenWellFormed<T, U>(r: Result<T>, step: Step<T, U>)
    requires WellFormed(r)
    requires r.Success? && step(r.value).Value? ==> WellFormed(step(r.value).value)
    ensures WellFormed(Then(r, step))
  {
  }

  /** Running a chain of steps of the same type, one `Then` after another, left to right. */
  function Chain<T>(r: Result<T>, steps: seq<Step<T, T>>): Result<T>
    decreases |steps|
  {
    if steps == [] then r else Chain(Then(r, steps[0]), steps[1..])
  }

  /** A chain that starts from a failure ends with that failure: no step runs. */
  lemma {:induction false} ChainFromFailure<T>(r: Result<T>, steps: seq<Step<T, T>>)
    requires r.Failure?
    ensures Chain(r, steps) == r
    decreases |steps|
  {
    if steps != [] {
      ChainFromFailure(Then(r, steps[0]), steps[1..]);
    }
  }

  /** Running a longer chain is running its head, then the rest from where the head ended. */
  lemma {:induction false} ChainSplit<T>(r: Result<T>, steps: seq<Step<T, T>>, k: nat)
    requires k <= |steps|
    ensures Chain(r, steps) == Chain(Chain(r, steps[..k]), steps[k..])
    decreases k
  {
    if k > 0 {
      ChainSplit(Then(r, steps[0]), steps[1..], k - 1);
      assert steps[1..][..k - 1] == steps[1..k];
      assert steps[..k][1..] == steps[1..k];
      assert steps[1..][k - 1..] == steps[k..];
    }
  }

  /**
    Once a prefix of the chain has failed, the later steps are never run: the
    failure of the whole chain is the failure of that prefix, with its reasons.
   */
  lemma {:induction false} ChainStopsAtFailure<T>(r: Result<T>, steps: seq<Step<T, T>>, k: nat)
    requires k <= |steps| && Chain(r, steps[..k]).Failure?
    ensures Chain(r, steps) == Chain(r, steps[..k])
  {
    ChainSplit(r, steps, k);
    ChainFromFailure(Chain(r, steps[..k]), steps[k..]);
  }

  /**
    A chain of steps that each return well-formed results keeps the result
    well-formed: a chain that fails reports at least one reason.
   */
  lemma {:induction false} ChainWellFormed<T>(r: Result<T>, steps: seq<Step<T, T>>)
    requires WellFormed(r)
    requires forall i, x :: 0 <= i < |steps| && steps[i](x).Value? ==> WellFormed(steps[i](x).value)
    ensures WellFormed(Chain(r, steps))
    decreases |steps|
  {
    if steps != [] {
      ThenWellFormed(r, steps[0]);
      assert forall i, x :: 0 <= i < |steps[1..]| && steps[1..][i](x).Value? ==> WellFormed(steps[1..][i](x).value) by {
        forall i, x | 0 <= i < |steps[1..]| && steps[1..][i](x).Value? ensures WellFormed(steps[1..][i](x).value) {
          assert steps[1..][i] == steps[i + 1];
        }
      }
      ChainWellFormed(Then(r, steps[0]), steps[1..]);
    }
  }

  /** A chain whose every step returns a success on every input succeeds. */
  lemma {:induction false} ChainOfSuccesses<T>(r: Result<T>, steps: seq<Step<T, T>>)
    requires r.Success?
    requires forall i, x :: 0 <= i < |steps| ==> steps[i](x).Value? && steps[i](x).value.Success?
    ensures Chain(r, steps).Success?
    decreases |steps|
  {
    if steps != [] {
      ChainOfSuccesses(Then(r, steps[0]), steps[1..]);
    }
  }

  /** Chaining is associative: two steps in a row are one step that runs both. */
  function Compose<T, U, V>(f: Step<T, U>, g: Step<U, V>): Step<T, V> {
    x => match f(x)
         case Thrown(e) => Thrown(e)
         case Value(r) => Value(Then(r, g))
  }

  lemma ThenAssociative<T, U, V>(r: Result<T>, f: Step<T, U>, g: Step<U, V>)
    ensures Then(Then(r, f), g) == Then(r, Compose(f, g))
  {
  }
}
