# kotlin-coroutines-retrofit, modelled in Dafny

The library turns a callback-based Retrofit `Call` into one coroutine
suspension. Its three entry points are `await`, `awaitResponse` and
`awaitResult`. Each one enqueues a callback on the call and resumes the
suspended coroutine at most once. It also registers a cancellation handler:
when the coroutine is cancelled, the handler cancels the call and swallows
anything `cancel()` throws. `awaitResult` never fails. It hands back a
`Result`, a closed three-variant outcome:

- `Ok(value, response)`
- `Error(httpException, response)`
- `Exception(throwable)`

`Result` has two facets (`ResponseResult`, `ErrorResult`) and three
accessors: `getOrNull`, `getOrDefault` and `getOrThrow`.

The model has four modules, one file each:

- `http.dfy` (`Http`): the Retrofit and OkHttp records the bridge reads. These
  are the raw OkHttp response, Retrofit's `Response<T>` around it, and the
  throwables that can reach a continuation (`HttpException`,
  `NullPointerException`, any other throwable).
- `result.dfy` (`Results`): `Result<T>` with its facets, accessors and
  `toString`, and lemmas relating them.
- `call_await.dfy` (`CallAwait`): what each entry point's `onResponse` and
  `onFailure` do with an event, the cancellation handler, and one suspension
  as a pure state machine. The machine has three inputs: the call delivering
  `onResponse`, the call delivering `onFailure`, and the job being cancelled.
  Its lemmas hold over every interleaving of cancellations with the one event
  the call may deliver.
- `bridge.dfy` (`Bridge`): the same suspension as objects. `Call` has a
  cancelled flag and a `cancel()` that may throw. `Suspension` has methods
  `OnResponse`, `OnFailure` and `CancelJob`. Each method's postcondition ties
  its new state to the state machine's `Step`.

The coroutine runtime is modelled as kotlinx.coroutines behaves:

- resuming a suspended continuation completes it;
- resuming a cancelled continuation leaves it cancelled: a value is dropped
  silently, and an exception is handed to the coroutine's exception handler,
  which the model records as "reported";
- resuming a completed one throws "Already resumed";
- cancelling a suspended continuation runs the handler installed with
  `invokeOnCancellation`, which sees `isCancelled` true;
- cancelling a completed continuation does nothing.

So a call that answers `await` after its job was cancelled, with an error
status or without a body, has its failure reported (CallAwait.kt:22-29); the
`isCancelled` guard of `onFailure` (CallAwait.kt:35) is what keeps a
transport failure that arrives after cancellation from being reported too.
Each callback runs as one step, so a cancellation cannot fall between that
check and the resumption at line 36.

Throwing is modelled as a value. `getOrThrow` returns `Raised.Thrown(e)`.
`Call.cancel()` returns the throwable it would throw, and the handler drops it.

A response outside 2xx fails with Retrofit's `HttpException`
(CallAwait.kt:29, :86); `HttpError.kt` is not used by the bridge. The
null-body failure of `await` names the response in its message, and
`awaitResult`'s does not (CallAwait.kt:23 against :81).

## Model

| member | source | states |
|---|---|---|
| `Http.HttpExceptionOf` | src/main/kotlin/ru/gildor/coroutines/retrofit/CallAwait.kt:29 | the `HttpException` built from a response carries that response's code, status message and error body |
| `Results.Result.ResponseFacet` | src/main/kotlin/ru/gildor/coroutines/retrofit/Result.kt:62-64 | the `ResponseResult` facet is present exactly for `Ok` and `Error`, and gives their response |
| `Results.Result.ErrorFacet` | src/main/kotlin/ru/gildor/coroutines/retrofit/Result.kt:69-71 | the `ErrorResult` facet is present exactly for `Error` and `Exception`, and gives the HTTP exception or the cause |
| `Results.Result.GetOrNull` | src/main/kotlin/ru/gildor/coroutines/retrofit/Result.kt:76 | the value is present exactly for `Ok` and is its value; it is absent exactly when the result has a failure |
| `Results.Result.GetOrDefault` | src/main/kotlin/ru/gildor/coroutines/retrofit/Result.kt:81 | the `Ok` value, else the default; equal to "getOrNull if present, else the default" |
| `Results.Result.GetOrThrow` | src/main/kotlin/ru/gildor/coroutines/retrofit/Result.kt:86-92 | returns exactly when `getOrNull` has a value, and returns that value; otherwise throws the override when one is given, else what the `ErrorResult` facet holds |
| `Results.FacetsCoverVariants` | src/main/kotlin/ru/gildor/coroutines/retrofit/Result.kt:30-55 | every result has a facet; only `Error` has both; `Ok` has no failure and `Exception` no response |
| `Results.GetOrThrowFailure` | src/main/kotlin/ru/gildor/coroutines/retrofit/Result.kt:89-90 | on `Error`/`Exception`, `getOrThrow()` throws the HTTP exception or the cause, and `getOrThrow(x)` throws exactly `x` |
| `Results.GetOrThrowOk` | src/main/kotlin/ru/gildor/coroutines/retrofit/Result.kt:86-88 | on `Ok`, `getOrThrow` returns the value whatever the override |
| `Results.Result.ToString` | src/main/kotlin/ru/gildor/coroutines/retrofit/Result.kt:34-54 | the rendering is `Result.Ok{value=V, response=R}`, `Result.Error{exception=E}` or `Result.Exception{C}`: the fixed labels are at their places, and the value, response, exception and cause can be read back from theirs |
| `Results.RenderingNamesVariant` | src/main/kotlin/ru/gildor/coroutines/retrofit/Result.kt:34-54 | the rendering starts with `Result.Ok{`, `Result.Error{` or `Result.Exception{` exactly for that variant |
| `Results.ErrorRenderingOmitsResponse` | src/main/kotlin/ru/gildor/coroutines/retrofit/Result.kt:44 | an `Error` renders its exception only: the response does not affect the rendering |
| `Results.ExceptionRenderingFaithful` | src/main/kotlin/ru/gildor/coroutines/retrofit/Result.kt:54 | two `Exception`s render alike exactly when their throwables render alike |
| `CallAwait.AwaitNullBodyMessage` | src/main/kotlin/ru/gildor/coroutines/retrofit/CallAwait.kt:23 | `await`'s null-body message is `awaitResult`'s message (line 81), then `: `, then the response's rendering |
| `CallAwait.AwaitOnResponse` | src/main/kotlin/ru/gildor/coroutines/retrofit/CallAwait.kt:18-31 | `await` resumes with a value exactly for a 2xx response with a body, and the value is that body; a 2xx response without a body gives a `NullPointerException`; any other response gives the `HttpException` of that response |
| `CallAwait.AwaitResponseOnResponse` | src/main/kotlin/ru/gildor/coroutines/retrofit/CallAwait.kt:52-54 | `awaitResponse` resumes with the response unchanged, whatever its code or body |
| `CallAwait.AwaitResultOnResponse` | src/main/kotlin/ru/gildor/coroutines/retrofit/CallAwait.kt:76-89 | `Ok(body, raw)` exactly for 2xx with a body; `Error(HttpException(response), raw)` exactly for non-2xx; otherwise `Exception(NullPointerException)` |
| `CallAwait.AwaitCallback` | src/main/kotlin/ru/gildor/coroutines/retrofit/CallAwait.kt:17-38 | `await`'s callback skips resuming exactly on a failure after cancellation; a response goes through `AwaitOnResponse`; a failure is passed through as the same throwable |
| `CallAwait.AwaitResponseCallback` | src/main/kotlin/ru/gildor/coroutines/retrofit/CallAwait.kt:51-61 | `awaitResponse`'s callback skips resuming exactly on a failure after cancellation, resumes with the response itself, and passes a failure through unchanged |
| `CallAwait.AwaitResultCallback` | src/main/kotlin/ru/gildor/coroutines/retrofit/CallAwait.kt:75-96 | `awaitResult`'s callback never resumes with an exception; it skips exactly on a failure after cancellation; a failure `t` becomes `Exception(t)` |
| `CallAwait.EntryPointsAgree` | src/main/kotlin/ru/gildor/coroutines/retrofit/CallAwait.kt:15-100 | the three entry points resume or skip alike on every event; `awaitResult` then `getOrThrow()` resumes as `await` does, up to the null-body message |
| `CallAwait.EntryPointGuards` | src/main/kotlin/ru/gildor/coroutines/retrofit/CallAwait.kt:33-37 | only `onFailure` checks `isCancelled` (here and at lines 56-59 and 91-94); `onResponse` resumes even on a cancelled continuation |
| `CallAwait.CancelCall` | src/test/kotlin/ru/gildor/coroutines/retrofit/util/MockedCall.kt:72-77 | `cancel()` leaves the call cancelled, counts one more invocation, and throws the call's cancel failure, if any |
| `CallAwait.OnCancellation` | src/main/kotlin/ru/gildor/coroutines/retrofit/CallAwait.kt:102-111 | the handler cancels the call, with one `cancel()`, exactly when the continuation is cancelled; what `cancel()` throws has no way out of it |
| `CallAwait.Resume` | src/main/kotlin/ru/gildor/coroutines/retrofit/CallAwait.kt:22-36 | the runtime's `resume`: a waiting continuation takes the resumption; a cancelled one stays cancelled, dropping a value and reporting an exception; a resumed one throws "already resumed"; the call is never touched |
| `CallAwait.Step` | src/main/kotlin/ru/gildor/coroutines/retrofit/CallAwait.kt:16-40 | an event is counted and then either changes nothing else, when the callback skips, or is exactly the runtime's `Resume` with the callback's resumption; it never touches the call; a cancellation never resumes, cancels a waiting continuation through the handler, and leaves a completed one as it is; a cancelled continuation stays cancelled |
| `CallAwait.StepKeepsInv` | src/main/kotlin/ru/gildor/coroutines/retrofit/CallAwait.kt:16-40 | one callback event or cancellation keeps the suspension invariant, provided the call delivers at most one event |
| `CallAwait.RunKeepsInv` | src/main/kotlin/ru/gildor/coroutines/retrofit/CallAwait.kt:16-40 | every interleaving with at most one callback event keeps the invariant: nothing escapes, at most one resume, the call is its starting state with the handler's effect applied exactly when the continuation is cancelled |
| `CallAwait.AtMostOneResumption` | src/main/kotlin/ru/gildor/coroutines/retrofit/CallAwait.kt:16-40 | from any call state, any interleaving gives at most one `resume` call and at most one reported exception; "already resumed" is never thrown and nothing from `cancel()` escapes; the call is cancelled exactly when it already was or the job ended cancelled, and `cancel()` ran once exactly in the latter case |
| `CallAwait.CancelledStaysCancelled` | src/main/kotlin/ru/gildor/coroutines/retrofit/CallAwait.kt:33-37 | a cancelled suspension stays cancelled and its call is untouched; with guarded failure callbacks and no response, the bridge makes no `resume` call and nothing is reported |
| `CallAwait.AwaitResultNeverReports` | src/main/kotlin/ru/gildor/coroutines/retrofit/CallAwait.kt:76-95 | `awaitResult` resumes only with values, so in any interleaving nothing is ever reported |
| `CallAwait.ResumedStaysResumed` | src/main/kotlin/ru/gildor/coroutines/retrofit/CallAwait.kt:102-111 | once resumed, later cancellations leave the resumption and the call untouched |
| `CallAwait.CancelThenFailureNeverResumes` | src/main/kotlin/ru/gildor/coroutines/retrofit/CallAwait.kt:33-36 | a job cancelled before the call fails ends cancelled; no `resume` call is made, nothing is reported or escapes, and the call was cancelled with exactly one `cancel()` |
| `CallAwait.ResponseAfterCancel` | src/main/kotlin/ru/gildor/coroutines/retrofit/CallAwait.kt:18-31 | a response after cancellation still calls `resume`; the job stays cancelled and nothing escapes; a value is dropped and an exception is reported |
| `CallAwait.AwaitResponseAfterCancel` | src/main/kotlin/ru/gildor/coroutines/retrofit/CallAwait.kt:18-31 | after cancellation, `await` reports the `HttpException` of a non-2xx response and the `NullPointerException` of a missing body, and drops a body |
| `CallAwait.CallbackThenCancelKeepsResumption` | src/main/kotlin/ru/gildor/coroutines/retrofit/CallAwait.kt:102-106 | if the event comes first, the job is resumed with the callback's resumption, nothing is reported, and the call is left exactly as it was: later cancellations never invoke `cancel()` |
| `CallAwait.CancelWhileSuspended` | src/main/kotlin/ru/gildor/coroutines/retrofit/CallAwait.kt:102-111 | cancelling a waiting job cancels the call with one `cancel()` even when it throws; the throwable does not escape and nothing is resumed or reported |
| `Bridge.Call.Cancel` | src/test/kotlin/ru/gildor/coroutines/retrofit/util/MockedCall.kt:72-77 | sets the cancelled flag, counts the invocation and yields the cancel failure, as `CancelCall` says |
| `Bridge.Suspension.constructor` | src/main/kotlin/ru/gildor/coroutines/retrofit/CallAwait.kt:16-40 | a new suspension is waiting, has seen no event and has resumed nothing |
| `Bridge.Suspension.RunHandler` | src/main/kotlin/ru/gildor/coroutines/retrofit/CallAwait.kt:102-111 | the call's new state is `OnCancellation` of the continuation's `isCancelled` |
| `Bridge.Suspension.Resume` | src/main/kotlin/ru/gildor/coroutines/retrofit/CallAwait.kt:22-36 | the new state is the runtime's `Resume` of the old one |
| `Bridge.Suspension.OnResponse` | src/main/kotlin/ru/gildor/coroutines/retrofit/CallAwait.kt:18-31 | the new state is one `Step` of the state machine on an `onResponse` event |
| `Bridge.Suspension.OnFailure` | src/main/kotlin/ru/gildor/coroutines/retrofit/CallAwait.kt:33-37 | the new state is one `Step` on an `onFailure` event |
| `Bridge.Suspension.CancelJob` | src/main/kotlin/ru/gildor/coroutines/retrofit/CallAwait.kt:102-111 | the new state is one `Step` on a job cancellation |
| `Bridge.AwaitCancelledBeforeFailure` | src/test/kotlin/ru/gildor/coroutines/retrofit/CallAwaitTest.kt:275-286 | job cancelled, then the call fails: the job ends cancelled and the call cancelled by one `cancel()`, whether or not it throws; no `resume` call is made and nothing is reported |
| `Bridge.AwaitCancelledThenResponse` | src/main/kotlin/ru/gildor/coroutines/retrofit/CallAwait.kt:18-31 | job cancelled, then the call answers `await`: the job stays cancelled; an error status reports its `HttpException`, a missing body its `NullPointerException`, and a body is dropped |
| `Bridge.AwaitResultThenCancel` | src/main/kotlin/ru/gildor/coroutines/retrofit/CallAwait.kt:76-89 | a response first: the job holds `awaitResult`'s outcome, and a later cancellation leaves it and the call alone |

## Left out

- Threads, dispatchers and `suspendCancellableCoroutine` itself. The race
  between a callback and a cancellation is an interleaving of inputs to a
  sequential state machine. Each callback runs with no cancellation inside
  it: the window between the `isCancelled` check of `onFailure`
  (CallAwait.kt:35) and its `resumeWithException` (CallAwait.kt:36), in which
  a cancellation would make the runtime report the failure, is not modelled.
- The order of `enqueue` and `registerOnCompletion`. A call that answers
  synchronously inside `enqueue` runs before the handler is registered. The
  model registers the handler when the suspension is created. This makes no
  difference, because cancelling a completed continuation does nothing. A job
  that is already cancelled when `await` starts has its continuation
  cancelled as it is created, and the handler then runs right after
  `enqueue`; the model expresses this as a `CancelJob` before the event,
  which ends in the same state.
- The Retrofit and OkHttp internals:
  - `isSuccessful` is taken as Retrofit defines it: a code in [200, 300).
  - The message text of `HttpException` is left out. The model keeps its
    code, status message and error body.
  - The `toString` of foreign objects is left out. The value's and the
    throwable's renderings are function parameters of `Result.ToString`. The
    raw response's rendering is its `text` field.
- `Call.enqueue`, `execute`, `clone`, `request` and `isExecuted`, and the
  test doubles' "already executed" error. The bridge uses none of them beyond
  `enqueue`. Enqueuing is the creation of a `Suspension`.
- `HttpError.kt`: nothing in the bridge uses it.
- Kotlin's nullable `T?` for `awaitResponse`'s body is `Option`. Java object
  identity (`assertSame`) is value equality.
- What the coroutine's exception handler does with a reported exception
  (log it, crash the thread). The model only records which exceptions were
  reported, in order.
- A continuation that was cancelled and has already seen one resumption is
  treated like any cancelled continuation (value dropped, exception
  reported). Under the callback protocol a second event never arrives.
