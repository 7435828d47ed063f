/**
 * One suspension of the bridge as objects: the underlying call, whose
 * `cancel()` flips its flag and may throw, and the suspension that the
 * enqueued callback and the job's cancellation drive. Every method is
 * specified by the state machine of module CallAwait.
 */
module Bridge {
  import opened Http
  import opened CallAwait

  /**
   * The underlying Retrofit call, as far as the bridge sees it: `cancel()` sets
   * the cancelled flag and then throws `cancelFailure` when there is one. How
   * often `cancel()` was invoked is ghost bookkeeping.
   */
  class Call {
    var cancelled: bool
    ghost var cancelCalls: nat
    const cancelFailure: Option<Throwable>

    constructor (cancelFailure: Option<Throwable>)
      ensures State() == CallState(false, 0, cancelFailure)
    {
      this.cancelled := false;
      this.cancelCalls := 0;
      this.cancelFailure := cancelFailure;
    }

    ghost function State(): CallState
      reads this
    {
      CallState(cancelled, cancelCalls, cancelFailure)
    }

    /** `cancel()`: what it throws is returned in `raised`. */
    method Cancel() returns (raised: Option<Throwable>)
      modifies this
      ensures (State(), raised) == CancelCall(old(State()))
    {
      cancelled := true;
      cancelCalls := cancelCalls + 1;
      raised := cancelFailure;
    }
  }

  /**
   * One `suspendCancellableCoroutine` block: the continuation's phase, the call
   * it enqueued `callback` on, and, as ghost bookkeeping, the events delivered,
   * the resumptions attempted, the throwables a resumption threw back and the
   * exceptions the runtime reported after cancellation.
   */
  class Suspension<T, V> {
    var phase: Phase<V>
    ghost var callbacks: nat
    ghost var resumeCalls: nat
    ghost var escaped: seq<Throwable>
    ghost var reported: seq<Throwable>
    const call: Call
    const callback: (CallbackEvent<T>, bool) -> Option<Resumption<V>>

    ghost function Snapshot(): SuspensionState<V>
      reads this, call
    {
      SuspensionState(phase, call.State(), callbacks, resumeCalls, escaped, reported)
    }

    /** The continuation's `isCancelled`. */
    predicate IsCancelled()
      reads this
    {
      phase.Cancelled?
    }

    /** `enqueue(callback)` followed by `registerOnCompletion(continuation)`. */
    constructor (call: Call, callback: (CallbackEvent<T>, bool) -> Option<Resumption<V>>)
      ensures this.call == call && this.callback == callback
      ensures Snapshot() == Init(call.State())
    {
      this.phase := Suspended;
      this.callbacks := 0;
      this.resumeCalls := 0;
      this.escaped := [];
      this.reported := [];
      this.call := call;
      this.callback := callback;
    }

    /** The handler of `registerOnCompletion`: cancels the call when the continuation is cancelled, ignoring what `cancel()` throws. */
    method RunHandler()
      modifies call
      ensures call.State() == OnCancellation(IsCancelled(), old(call.State()))
    {
      if IsCancelled() {
        var ignored := call.Cancel();
      }
    }

    /** `resume` / `resumeWithException` on the continuation. */
    method Resume(resumption: Resumption<V>)
      modifies this
      ensures Snapshot() == CallAwait.Resume(old(Snapshot()), resumption)
    {
      resumeCalls := resumeCalls + 1;
      match phase
      case Suspended =>
        phase := Resumed(resumption);
      case Cancelled =>
        if resumption.ResumeException? {
          reported := reported + [resumption.exception];
        }
      case Resumed(_) =>
        escaped := escaped + [AlreadyResumed];
    }

    /** The call invokes the callback's `onResponse`. */
    method OnResponse(response: Response<T>)
      modifies this, call
      ensures Snapshot() == Step(old(Snapshot()), Input.Deliver(CallbackEvent.OnResponse(response)), callback)
    {
      Dispatch(CallbackEvent.OnResponse(response));
    }

    /** The call invokes the callback's `onFailure`. */
    method OnFailure(t: Throwable)
      modifies this, call
      ensures Snapshot() == Step(old(Snapshot()), Input.Deliver(CallbackEvent.OnFailure(t)), callback)
    {
      Dispatch(CallbackEvent.OnFailure(t));
    }

    method Dispatch(e: CallbackEvent<T>)
      modifies this, call
      ensures Snapshot() == Step(old(Snapshot()), Input.Deliver(e), callback)
    {
      var action := callback(e, IsCancelled());
      callbacks := callbacks + 1;
      if action.Some? {
        Resume(action.value);
      }
    }

    /** The job awaiting the suspension is cancelled. */
    method CancelJob()
      modifies this, call
      ensures Snapshot() == Step(old(Snapshot()), Input.CancelJob, callback)
    {
      if phase.Suspended? {
        phase := Cancelled;
        RunHandler();
      }
    }
  }

  /**
   * `await` on a call that is started only after its job was cancelled, and
   * that then fails: the job stays cancelled, the call was cancelled once even
   * when `cancel()` throws, the failure is not handed to `resume` and nothing
   * is reported.
   */
  method AwaitCancelledBeforeFailure(t: Throwable, cancelFailure: Option<Throwable>)
    returns (phase: Phase<string>, callCancelled: bool, ghost cancelCalls: nat, ghost resumeCalls: nat,
             ghost reported: seq<Throwable>)
    ensures phase == Cancelled && callCancelled && cancelCalls == 1
    ensures resumeCalls == 0 && reported == []
  {
    var call := new Call(cancelFailure);
    var s := new Suspension(call, AwaitCallback<string>);
    s.CancelJob();
    s.OnFailure(t);
    phase, callCancelled := s.phase, call.cancelled;
    cancelCalls, resumeCalls, reported := call.cancelCalls, s.resumeCalls, s.reported;
  }

  /**
   * `await` on a call whose job is cancelled before the server answers: the
   * job stays cancelled; an error status or a missing body is reported as the
   * failure `await` would have thrown, and a body is dropped.
   */
  method AwaitCancelledThenResponse(response: Response<string>)
    returns (phase: Phase<string>, ghost reported: seq<Throwable>)
    ensures phase == Cancelled
    ensures !response.IsSuccessful() ==> reported == [HttpExceptionOf(response)]
    ensures response.IsSuccessful() && response.body.None? ==>
              reported == [NullPointerException(AwaitNullBodyMessage(response))]
    ensures response.IsSuccessful() && response.body.Some? ==> reported == []
  {
    var call := new Call(None);
    var s := new Suspension(call, AwaitCallback<string>);
    s.CancelJob();
    s.OnResponse(response);
    phase, reported := s.phase, s.reported;
  }

  /**
   * `awaitResult` on a call that answers before anyone cancels: the job is
   * resumed with the outcome of the response, and a later cancellation neither
   * changes it nor cancels the call.
   */
  method AwaitResultThenCancel(response: Response<string>)
    returns (phase: Phase<Results.Result<string>>, callCancelled: bool)
    ensures phase == Resumed(ResumeValue(AwaitResultOnResponse(response))) && !callCancelled
  {
    var call := new Call(None);
    var s := new Suspension(call, AwaitResultCallback<string>);
    s.OnResponse(response);
    s.CancelJob();
    phase, callCancelled := s.phase, call.cancelled;
  }
}
