/**
 * The suspension bridge: what the callback of each entry point (`await`,
 * `awaitResponse`, `awaitResult`) does with a callback event, the cancellation
 * hook that `registerOnCompletion` installs, and one suspension as a state
 * machine driven by an interleaving of callback events and job cancellations.
 */
module CallAwait {
  import opened Http
  import opened Results

  /** What Retrofit's call reports to the callback: `onResponse(response)` or `onFailure(t)`. */
  datatype CallbackEvent<+T> = OnResponse(response: Response<T>) | OnFailure(t: Throwable)

  /** A resumption of the continuation: `resume(value)` or `resumeWithException(exception)`. */
  datatype Resumption<+V> = ResumeValue(value: V) | ResumeException(exception: Throwable)

  /** The message of the null-body failure that `awaitResult` wraps. */
  const ResultNullBodyMessage: string := "Response body is null"

  /**
   * The message of the null-body failure that `await` raises: `awaitResult`'s
   * message, then the response's rendering, which can be read back from its
   * end.
   */
  function AwaitNullBodyMessage<T>(response: Response<T>): (m: string)
    ensures IsPrefix(ResultNullBodyMessage, m) && m != ResultNullBodyMessage
    ensures |m| == |ResultNullBodyMessage| + 2 + |response.raw.text|
    ensures m[|ResultNullBodyMessage|..|ResultNullBodyMessage| + 2] == ": "
    ensures m[|m| - |response.raw.text|..] == response.raw.text
  {
    ResultNullBodyMessage + ": " + response.raw.text
  }

  // ---------------------------------------------------------------------------
  // onResponse of each entry point

  /**
   * `await`'s `onResponse`: a successful response with a body resumes with the
   * body; a successful response without one resumes with a
   * `NullPointerException`; any other response resumes with the `HttpException`
   * built from it.
   */
  function AwaitOnResponse<T>(response: Response<T>): (r: Resumption<T>)
    ensures r.ResumeValue? <==> response.IsSuccessful() && response.body.Some?
    ensures r.ResumeValue? ==> r.value == response.body.value
    ensures response.IsSuccessful() && response.body.None? ==>
              r == ResumeException(NullPointerException(AwaitNullBodyMessage(response)))
    ensures !response.IsSuccessful() ==> r == ResumeException(HttpExceptionOf(response))
  {
    if response.IsSuccessful() then
      match response.body
      case None => ResumeException(NullPointerException(AwaitNullBodyMessage(response)))
      case Some(body) => ResumeValue(body)
    else
      ResumeException(HttpExceptionOf(response))
  }

  /** `awaitResponse`'s `onResponse`: resumes with the response itself, whatever its code or body. */
  function AwaitResponseOnResponse<T>(response: Response<T>): (r: Resumption<Response<T>>)
    ensures r.ResumeValue? && r.value == response
  {
    ResumeValue(response)
  }

  /**
   * `awaitResult`'s `onResponse`: the outcome it resumes with. A successful
   * response with a body is `Ok(body, raw)`, one without a body is an
   * `Exception` holding a `NullPointerException`, any other response is
   * `Error(HttpException(response), raw)`.
   */
  function AwaitResultOnResponse<T>(response: Response<T>): (r: Result<T>)
    ensures r.Ok? <==> response.IsSuccessful() && response.body.Some?
    ensures r.Ok? ==> r.value == response.body.value && r.response == response.raw
    ensures r.Error? <==> !response.IsSuccessful()
    ensures r.Error? ==> r.httpException == HttpExceptionOf(response) && r.response == response.raw
    ensures r.Exception? ==> r.cause == NullPointerException(ResultNullBodyMessage)
  {
    if response.IsSuccessful() then
      match response.body
      case None => Exception(NullPointerException(ResultNullBodyMessage))
      case Some(body) => Ok(body, response.raw)
    else
      Error(HttpExceptionOf(response), response.raw)
  }

  // ---------------------------------------------------------------------------
  // The callback objects: the continuation's `isCancelled` is an argument, and
  // `None` means the callback returned without resuming.

  /** `onFailure` of every entry point: return early on a cancelled continuation, else resume with `resumption`. */
  function UnlessCancelled<V>(isCancelled: bool, resumption: Resumption<V>): (a: Option<Resumption<V>>)
    ensures a.None? <==> isCancelled
    ensures a.Some? ==> a.value == resumption
  {
    if isCancelled then None else Some(resumption)
  }

  /** The callback `await` enqueues. */
  function AwaitCallback<T>(e: CallbackEvent<T>, isCancelled: bool): (a: Option<Resumption<T>>)
    ensures a.None? <==> e.OnFailure? && isCancelled
    ensures e.OnResponse? ==> a == Some(AwaitOnResponse(e.response))
    ensures e.OnFailure? && !isCancelled ==> a == Some(ResumeException(e.t))
  {
    match e
    case OnResponse(response) => Some(AwaitOnResponse(response))
    case OnFailure(t) => UnlessCancelled(isCancelled, ResumeException(t))
  }

  /** The callback `awaitResponse` enqueues. */
  function AwaitResponseCallback<T>(e: CallbackEvent<T>, isCancelled: bool): (a: Option<Resumption<Response<T>>>)
    ensures a.None? <==> e.OnFailure? && isCancelled
    ensures e.OnResponse? ==> a == Some(ResumeValue(e.response))
    ensures e.OnFailure? && !isCancelled ==> a == Some(ResumeException(e.t))
  {
    match e
    case OnResponse(response) => Some(AwaitResponseOnResponse(response))
    case OnFailure(t) => UnlessCancelled(isCancelled, ResumeException(t))
  }

  /** The callback `awaitResult` enqueues: it never resumes with an exception. */
  function AwaitResultCallback<T>(e: CallbackEvent<T>, isCancelled: bool): (a: Option<Resumption<Result<T>>>)
    ensures a.None? <==> e.OnFailure? && isCancelled
    ensures a.Some? ==> a.value.ResumeValue?
    ensures e.OnResponse? ==> a == Some(ResumeValue(AwaitResultOnResponse(e.response)))
    ensures e.OnFailure? && !isCancelled ==> a == Some(ResumeValue(Exception(e.t)))
  {
    match e
    case OnResponse(response) => Some(ResumeValue(AwaitResultOnResponse(response)))
    case OnFailure(t) => UnlessCancelled(isCancelled, ResumeValue(Exception(t)))
  }

  /** `awaitResult(...).getOrThrow()` as what `await` would have resumed with. */
  function Unwrap<T>(r: Resumption<Result<T>>): (u: Resumption<T>)
    ensures r.ResumeException? ==> u == ResumeException(r.exception)
    ensures r.ResumeValue? ==> (u.ResumeValue? <==> r.value.Ok?)
    ensures r.ResumeValue? && r.value.Ok? ==> u.value == r.value.value
    ensures r.ResumeValue? && !r.value.Ok? ==> u == ResumeException(r.value.ErrorFacet().value)
  {
    match r
    case ResumeException(e) => ResumeException(e)
    case ResumeValue(result) =>
      (match result.GetOrThrow(None)
       case Returned(v) => ResumeValue(v)
       case Thrown(e) => ResumeException(e))
  }

  /** The two resumptions agree, except that a null-body failure's message may differ. */
  ghost predicate SameUpToNullBodyMessage<T>(a: Resumption<T>, b: Resumption<T>) {
    if a.ResumeException? && a.exception.NullPointerException? then
      b.ResumeException? && b.exception.NullPointerException?
    else
      a == b
  }

  /**
   * The entry points agree on every event and in every cancellation state:
   * they resume or skip alike; `awaitResult` followed by `getOrThrow()` resumes
   * as `await` does, up to the text of the null-body failure; and
   * `awaitResponse` hands over the response that `await` inspects.
   */
  lemma EntryPointsAgree<T>(e: CallbackEvent<T>, isCancelled: bool)
    ensures AwaitCallback(e, isCancelled).Some? == AwaitResponseCallback(e, isCancelled).Some?
                                               == AwaitResultCallback(e, isCancelled).Some?
    ensures AwaitCallback(e, isCancelled).Some? ==>
              SameUpToNullBodyMessage(AwaitCallback(e, isCancelled).value, Unwrap(AwaitResultCallback(e, isCancelled).value))
    ensures e.OnResponse? ==> AwaitResponseCallback(e, isCancelled) == Some(ResumeValue(e.response))
  {
  }

  // ---------------------------------------------------------------------------
  // The underlying call and the cancellation hook

  /**
   * The part of the underlying call the hook touches: its cancelled flag, how
   * many times `cancel()` was invoked on it, and what `cancel()` throws, if
   * anything.
   */
  datatype CallState = CallState(cancelled: bool, cancelCalls: nat, cancelFailure: Option<Throwable>)

  /** `Call.cancel()`: marks the call cancelled, then throws `cancelFailure` if there is one. */
  function CancelCall(call: CallState): (r: (CallState, Option<Throwable>))
    ensures r.0.cancelled && r.0.cancelCalls == call.cancelCalls + 1
    ensures r.0.cancelFailure == call.cancelFailure
    ensures r.1 == call.cancelFailure
  {
    (call.(cancelled := true, cancelCalls := call.cancelCalls + 1), call.cancelFailure)
  }

  /**
   * The handler `registerOnCompletion` installs with `invokeOnCancellation`:
   * when the continuation is cancelled it cancels the call once and discards
   * whatever `cancel()` throws, so its only effect is the call's new state;
   * otherwise it does nothing.
   */
  function OnCancellation(isCancelled: bool, call: CallState): (c: CallState)
    ensures c.cancelled <==> call.cancelled || isCancelled
    ensures c.cancelCalls == call.cancelCalls + (if isCancelled then 1 else 0)
    ensures c.cancelFailure == call.cancelFailure
  {
    if isCancelled then
      var (cancelledCall, _) := CancelCall(call);
      cancelledCall
    else
      call
  }

  // ---------------------------------------------------------------------------
  // One suspension as a state machine

  /** The continuation: waiting, resumed once with a resumption, or cancelled. */
  datatype Phase<+V> = Suspended | Resumed(resumption: Resumption<V>) | Cancelled

  /**
   * One suspension: the continuation's phase, the underlying call, how many
   * callback events the call delivered, how many times the bridge called
   * `resume`/`resumeWithException`, the throwables a `resume` threw back into
   * the callback, and the exceptions that reached an already cancelled
   * continuation, which the coroutine runtime reports to the coroutine's
   * exception handler instead of delivering them.
   */
  datatype SuspensionState<+V> = SuspensionState(
    phase: Phase<V>,
    call: CallState,
    callbacks: nat,
    resumeCalls: nat,
    escaped: seq<Throwable>,
    reported: seq<Throwable>)

  /** What happens to a suspension: the call reports an event, or the job that awaits it is cancelled. */
  datatype Input<+T> = Deliver(event: CallbackEvent<T>) | CancelJob

  /** What a continuation throws when it is resumed a second time. */
  const AlreadyResumed: Throwable := Other("java.lang.IllegalStateException", "Already resumed")

  /** The state right after `enqueue` and `registerOnCompletion`. */
  function Init<V>(call: CallState): (s: SuspensionState<V>) {
    SuspensionState(Suspended, call, 0, 0, [], [])
  }

  /**
   * `resume`/`resumeWithException` on the continuation. A suspended one is
   * resumed. A cancelled one stays cancelled: a value is dropped silently and
   * an exception is reported. A resumed one throws. The call is never touched.
   */
  function Resume<V>(s: SuspensionState<V>, resumption: Resumption<V>): (r: SuspensionState<V>)
    ensures r.resumeCalls == s.resumeCalls + 1 && r.callbacks == s.callbacks && r.call == s.call
    ensures s.phase.Suspended? ==> r.phase == Resumed(resumption) && r.escaped == s.escaped && r.reported == s.reported
    ensures s.phase.Cancelled? ==> r.phase.Cancelled? && r.escaped == s.escaped
    ensures s.phase.Cancelled? ==>
              r.reported == s.reported + (if resumption.ResumeException? then [resumption.exception] else [])
    ensures s.phase.Resumed? ==>
              r.phase == s.phase && r.escaped == s.escaped + [AlreadyResumed] && r.reported == s.reported
  {
    var s := s.(resumeCalls := s.resumeCalls + 1);
    match s.phase
    case Suspended => s.(phase := Resumed(resumption))
    case Cancelled =>
      (match resumption
       case ResumeValue(_) => s
       case ResumeException(exception) => s.(reported := s.reported + [exception]))
    case Resumed(_) => s.(escaped := s.escaped + [AlreadyResumed])
  }

  /**
   * One input. A callback event goes through `callback` (one of the three
   * above), which reads the continuation's `isCancelled`, and the bridge calls
   * `resume` exactly when the callback asks for it; an event never touches the
   * call. Cancelling the job cancels a suspended continuation and runs its
   * handler; a continuation that already completed is left as it is, and a
   * cancelled one stays cancelled.
   */
  function Step<T, V>(s: SuspensionState<V>, input: Input<T>,
                      callback: (CallbackEvent<T>, bool) -> Option<Resumption<V>>): (r: SuspensionState<V>)
    ensures r.callbacks == s.callbacks + (if input.Deliver? then 1 else 0)
    ensures input.Deliver? ==> r.call == s.call
    ensures input.Deliver? ==>
              (r.resumeCalls == s.resumeCalls <==> callback(input.event, s.phase.Cancelled?).None?)
    ensures input.Deliver? && callback(input.event, s.phase.Cancelled?).None? ==>
              r == s.(callbacks := s.callbacks + 1)
    ensures input.Deliver? && callback(input.event, s.phase.Cancelled?).Some? ==>
              r == Resume(s.(callbacks := s.callbacks + 1), callback(input.event, s.phase.Cancelled?).value)
    ensures input.CancelJob? ==> r.resumeCalls == s.resumeCalls && r.escaped == s.escaped && r.reported == s.reported
    ensures input.CancelJob? && s.phase.Suspended? ==> r.phase.Cancelled? && r.call == OnCancellation(true, s.call)
    ensures input.CancelJob? && !s.phase.Suspended? ==> r == s
    ensures s.phase.Cancelled? ==> r.phase.Cancelled? && r.call == s.call
  {
    match input
    case Deliver(e) =>
      var s' := s.(callbacks := s.callbacks + 1);
      (match callback(e, s.phase.Cancelled?)
       case None => s'
       case Some(resumption) => Resume(s', resumption))
    case CancelJob =>
      if s.phase.Suspended? then
        var s' := s.(phase := Cancelled);
        s'.(call := OnCancellation(s'.phase.Cancelled?, s'.call))
      else
        s
  }

  /** The inputs, one after another. */
  function Run<T, V>(s: SuspensionState<V>, inputs: seq<Input<T>>,
                     callback: (CallbackEvent<T>, bool) -> Option<Resumption<V>>): (r: SuspensionState<V>)
    decreases |inputs|
  {
    if inputs == [] then s else Run(Step(s, inputs[0], callback), inputs[1..], callback)
  }

  /** How many callback events the inputs hold. */
  function CallbackCount<T>(inputs: seq<Input<T>>): (n: nat)
    ensures n <= |inputs|
  {
    if inputs == [] then 0 else (if inputs[0].Deliver? then 1 else 0) + CallbackCount(inputs[1..])
  }

  /** No input is an `onResponse` event. */
  ghost predicate NoResponseEvent<T>(inputs: seq<Input<T>>) {
    forall i :: 0 <= i < |inputs| ==> !(inputs[i].Deliver? && inputs[i].event.OnResponse?)
  }

  /** A callback that returns early on `onFailure` when the continuation is cancelled, as all three entry points do. */
  ghost predicate GuardsFailure<T, V>(callback: (CallbackEvent<T>, bool) -> Option<Resumption<V>>) {
    forall t :: callback(OnFailure(t), true) == None
  }

  /**
   * Only `onFailure` checks `isCancelled`: all three callbacks skip a failure
   * on a cancelled continuation and still resume on a response.
   */
  lemma EntryPointGuards<T>()
    ensures GuardsFailure(AwaitCallback<T>)
    ensures GuardsFailure(AwaitResponseCallback<T>)
    ensures GuardsFailure(AwaitResultCallback<T>)
    ensures forall r: Response<T> :: AwaitCallback(OnResponse(r), true).Some?
    ensures forall r: Response<T> :: AwaitResponseCallback(OnResponse(r), true).Some?
    ensures forall r: Response<T> :: AwaitResultCallback(OnResponse(r), true).Some?
  {
  }

  /**
   * The invariant of a suspension that started on the call `start` and whose
   * call has delivered at most one event: nothing escaped, the bridge resumed
   * at most once and only for a delivered event, each exception reported
   * stands for one resumption, a resumed continuation was resumed exactly once
   * and reported nothing, and the call is `start` with the hook's effect
   * applied exactly when the continuation was cancelled.
   */
  ghost predicate Inv<V>(s: SuspensionState<V>, start: CallState) {
    && s.escaped == []
    && s.resumeCalls <= s.callbacks <= 1
    && |s.reported| <= s.resumeCalls
    && (s.phase.Resumed? ==> s.resumeCalls == 1 && s.reported == [])
    && s.call == OnCancellation(s.phase.Cancelled?, start)
  }

  lemma StepKeepsInv<T, V>(s: SuspensionState<V>, start: CallState, input: Input<T>,
                           callback: (CallbackEvent<T>, bool) -> Option<Resumption<V>>)
    requires Inv(s, start) && s.callbacks + (if input.Deliver? then 1 else 0) <= 1
    ensures Inv(Step(s, input, callback), start)
  {
  }

  /** Any interleaving in which the call delivers at most one event keeps the invariant. */
  lemma {:induction false} RunKeepsInv<T, V>(s: SuspensionState<V>, start: CallState, inputs: seq<Input<T>>,
                                             callback: (CallbackEvent<T>, bool) -> Option<Resumption<V>>)
    requires Inv(s, start) && s.callbacks + CallbackCount(inputs) <= 1
    ensures Inv(Run(s, inputs, callback), start)
    ensures Run(s, inputs, callback).callbacks == s.callbacks + CallbackCount(inputs)
    decreases |inputs|
  {
    if inputs != [] {
      StepKeepsInv(s, start, inputs[0], callback);
      RunKeepsInv(Step(s, inputs[0], callback), start, inputs[1..], callback);
    }
  }

  /**
   * At most one resumption: whatever the order of job cancellations around the
   * single event the call may deliver, and whether or not the call was already
   * cancelled, the bridge calls `resume` at most once, the continuation never
   * throws "already resumed", at most one exception is reported, no throwable
   * of `cancel()` escapes, and `cancel()` is invoked once exactly when the
   * continuation ended up cancelled.
   */
  lemma AtMostOneResumption<T, V>(call: CallState, inputs: seq<Input<T>>,
                                  callback: (CallbackEvent<T>, bool) -> Option<Resumption<V>>)
    requires CallbackCount(inputs) <= 1
    ensures var r := Run(Init(call), inputs, callback);
            r.escaped == [] && r.resumeCalls <= 1 && |r.reported| <= r.resumeCalls
    ensures var r := Run(Init(call), inputs, callback);
            r.phase.Resumed? ==> r.resumeCalls == 1 && r.reported == []
    ensures var r := Run(Init(call), inputs, callback);
            r.call.cancelled <==> call.cancelled || r.phase.Cancelled?
    ensures var r := Run(Init(call), inputs, callback);
            r.call.cancelCalls == call.cancelCalls + (if r.phase.Cancelled? then 1 else 0)
    ensures Run(Init(call), inputs, callback).call.cancelFailure == call.cancelFailure
  {
    RunKeepsInv(Init<V>(call), call, inputs, callback);
  }

  /** Running two stretches of inputs is running their concatenation. */
  lemma {:induction false} RunAppend<T, V>(s: SuspensionState<V>, a: seq<Input<T>>, b: seq<Input<T>>,
                                           callback: (CallbackEvent<T>, bool) -> Option<Resumption<V>>)
    ensures Run(s, a + b, callback) == Run(Run(s, a, callback), b, callback)
    ensures CallbackCount(a + b) == CallbackCount(a) + CallbackCount(b)
    decreases |a|
  {
    if a == [] {
      assert a + b == b;
    } else {
      assert (a + b)[0] == a[0];
      assert (a + b)[1..] == a[1..] + b;
      RunAppend(Step(s, a[0], callback), a[1..], b, callback);
    }
  }

  /**
   * A cancelled continuation stays cancelled and its call is left alone; a
   * callback that guards `onFailure` never resumes it on a failure, so for
   * such inputs the bridge makes no `resume` call and nothing is reported.
   */
  lemma {:induction false} CancelledStaysCancelled<T, V>(s: SuspensionState<V>, inputs: seq<Input<T>>,
                                                         callback: (CallbackEvent<T>, bool) -> Option<Resumption<V>>)
    requires s.phase.Cancelled?
    ensures Run(s, inputs, callback).phase.Cancelled?
    ensures Run(s, inputs, callback).call == s.call
    ensures Run(s, inputs, callback).escaped == s.escaped
    ensures GuardsFailure(callback) && NoResponseEvent(inputs) ==>
              Run(s, inputs, callback).resumeCalls == s.resumeCalls && Run(s, inputs, callback).reported == s.reported
    decreases |inputs|
  {
    if inputs != [] {
      var s' := Step(s, inputs[0], callback);
      if GuardsFailure(callback) && NoResponseEvent(inputs) {
        if inputs[0].Deliver? {
          assert inputs[0].event.OnFailure?;
          assert callback(OnFailure(inputs[0].event.t), true) == None;
        }
        assert s'.resumeCalls == s.resumeCalls && s'.reported == s.reported;
        forall i | 0 <= i < |inputs[1..]|
          ensures !(inputs[1..][i].Deliver? && inputs[1..][i].event.OnResponse?)
        {
          assert inputs[1..][i] == inputs[i + 1];
        }
      }
      CancelledStaysCancelled(s', inputs[1..], callback);
    }
  }

  /** `awaitResult` never resumes with an exception, so whatever happens nothing is ever reported. */
  lemma {:induction false} AwaitResultNeverReports<T>(s: SuspensionState<Result<T>>, inputs: seq<Input<T>>)
    ensures Run(s, inputs, AwaitResultCallback<T>).reported == s.reported
    decreases |inputs|
  {
    if inputs != [] {
      var s' := Step(s, inputs[0], AwaitResultCallback<T>);
      assert s'.reported == s.reported;
      AwaitResultNeverReports(s', inputs[1..]);
    }
  }

  /**
   * A resumed continuation keeps its resumption, and the call is left alone,
   * while the job is cancelled any number of times afterwards.
   */
  lemma {:induction false} ResumedStaysResumed<T, V>(s: SuspensionState<V>, inputs: seq<Input<T>>,
                                                     callback: (CallbackEvent<T>, bool) -> Option<Resumption<V>>)
    requires s.phase.Resumed? && CallbackCount(inputs) == 0
    ensures Run(s, inputs, callback) == s
    decreases |inputs|
  {
    if inputs != [] {
      assert !inputs[0].Deliver?;
      ResumedStaysResumed(s, inputs[1..], callback);
    }
  }

  /** Running one input and then the rest. */
  lemma RunCons<T, V>(s: SuspensionState<V>, input: Input<T>, rest: seq<Input<T>>,
                      callback: (CallbackEvent<T>, bool) -> Option<Resumption<V>>)
    ensures Run(s, [input] + rest, callback) == Run(Step(s, input, callback), rest, callback)
  {
    assert ([input] + rest)[1..] == rest;
  }

  /**
   * No resumption after cancellation on the failure path: when the job is
   * cancelled before the call reports a failure, and whatever other
   * cancellations or failures come before or after, the continuation ends
   * cancelled, the bridge never calls `resume`, nothing is reported, the call
   * was cancelled through the hook with exactly one `cancel()`, and what
   * `cancel()` threw did not escape.
   */
  lemma CancelThenFailureNeverResumes<T, V>(call: CallState, before: seq<Input<T>>, rest: seq<Input<T>>,
                                            callback: (CallbackEvent<T>, bool) -> Option<Resumption<V>>)
    requires GuardsFailure(callback)
    requires CallbackCount(before) == 0 && NoResponseEvent(rest)
    ensures var r := Run(Init(call), before + [CancelJob] + rest, callback);
            r.phase.Cancelled? && r.resumeCalls == 0 && r.reported == [] && r.escaped == []
    ensures Run(Init(call), before + [CancelJob] + rest, callback).call
            == call.(cancelled := true, cancelCalls := call.cancelCalls + 1)
  {
    var s0 := Init<V>(call);
    assert before + [CancelJob] + rest == before + ([CancelJob] + rest);
    RunAppend(s0, before, [CancelJob] + rest, callback);
    var s1 := Run(s0, before, callback);
    RunKeepsInv(s0, call, before, callback);
    RunCons(s1, CancelJob, rest, callback);
    CancelledStaysCancelled(Step(s1, CancelJob, callback), rest, callback);
  }

  /**
   * `onResponse` does not look at `isCancelled`: on a cancelled continuation
   * every entry point still calls `resume`. The job stays cancelled and nothing
   * escapes; a value is dropped, an exception is reported.
   */
  lemma ResponseAfterCancel<T, V>(s: SuspensionState<V>, response: Response<T>,
                                  callback: (CallbackEvent<T>, bool) -> Option<Resumption<V>>)
    requires s.phase.Cancelled? && callback(OnResponse(response), true).Some?
    ensures var r := Step(s, Deliver(OnResponse(response)), callback);
            r.resumeCalls == s.resumeCalls + 1 && r.phase.Cancelled? && r.call == s.call && r.escaped == s.escaped
    ensures var r := Step(s, Deliver(OnResponse(response)), callback);
            var resumption := callback(OnResponse(response), true).value;
            r.reported == s.reported + (if resumption.ResumeException? then [resumption.exception] else [])
  {
  }

  /**
   * `await` answered after its job was cancelled: a response outside 2xx or
   * without a body is reported as the failure it would have thrown, and a body
   * is dropped.
   */
  lemma AwaitResponseAfterCancel<T>(s: SuspensionState<T>, response: Response<T>)
    requires s.phase.Cancelled?
    ensures var r := Step(s, Deliver(OnResponse(response)), AwaitCallback<T>);
            !response.IsSuccessful() ==> r.reported == s.reported + [HttpExceptionOf(response)]
    ensures var r := Step(s, Deliver(OnResponse(response)), AwaitCallback<T>);
            response.IsSuccessful() && response.body.None? ==>
              r.reported == s.reported + [NullPointerException(AwaitNullBodyMessage(response))]
    ensures var r := Step(s, Deliver(OnResponse(response)), AwaitCallback<T>);
            response.IsSuccessful() && response.body.Some? ==> r.reported == s.reported
  {
  }

  /**
   * The call delivers its event before the job is cancelled: the continuation
   * is resumed with what the callback makes of the event, later cancellations
   * change nothing, nothing is reported, and the call's `cancel()` is never
   * invoked.
   */
  lemma CallbackThenCancelKeepsResumption<T, V>(call: CallState, e: CallbackEvent<T>, after: seq<Input<T>>,
                                                callback: (CallbackEvent<T>, bool) -> Option<Resumption<V>>)
    requires callback(e, false).Some? && CallbackCount(after) == 0
    ensures var r := Run(Init(call), [Deliver(e)] + after, callback);
            r.phase == Resumed(callback(e, false).value) && r.resumeCalls == 1 && r.call == call
    ensures var r := Run(Init(call), [Deliver(e)] + after, callback);
            r.escaped == [] && r.reported == []
  {
    var s1 := Step(Init<V>(call), Deliver(e), callback);
    assert ([Deliver(e)] + after)[0] == Deliver(e);
    assert ([Deliver(e)] + after)[1..] == after;
    ResumedStaysResumed(s1, after, callback);
  }

  /**
   * Cancelling the job while it waits cancels the call with one `cancel()`,
   * even when `cancel()` throws; the throwable does not escape and nothing is
   * resumed or reported.
   */
  lemma CancelWhileSuspended<T, V>(s: SuspensionState<V>, callback: (CallbackEvent<T>, bool) -> Option<Resumption<V>>)
    requires s.phase.Suspended?
    ensures Step(s, CancelJob, callback).phase.Cancelled?
    ensures Step(s, CancelJob, callback).call == s.call.(cancelled := true, cancelCalls := s.call.cancelCalls + 1)
    ensures Step(s, CancelJob, callback).escaped == s.escaped && Step(s, CancelJob, callback).reported == s.reported
    ensures Step(s, CancelJob, callback).resumeCalls == s.resumeCalls
  {
  }
}
