/**
 * The collaborators of the bridge that belong to Retrofit and OkHttp, reduced to
 * the records the bridge reads: the raw OkHttp response, Retrofit's typed
 * response around it, and the throwables that can reach a continuation.
 */
module Http {

  /** An optional value: Kotlin's nullable `T?`. */
  datatype Option<+T> = None | Some(value: T)

  /**
   * An OkHttp response (`okhttp3.Response`): its status code, its status message
   * and its `toString()` rendering, which the model treats as an opaque string.
   */
  datatype RawResponse = RawResponse(code: int, message: string, text: string)

  /**
   * A Retrofit response (`retrofit2.Response<T>`): the raw response it wraps, the
   * converted body (absent when the server sent none, or on an HTTP error) and
   * the error body of an HTTP error.
   */
  datatype Response<+T> = Response(raw: RawResponse, body: Option<T>, errorBody: Option<string>) {

    function Code(): int {
      raw.code
    }

    /** Retrofit's `isSuccessful`: the status code lies in [200, 300). */
    predicate IsSuccessful() {
      200 <= Code() < 300
    }
  }

  /**
   * The throwables the bridge creates or passes through. `Other` stands for any
   * other throwable (a transport failure, or what a call's `cancel()` throws),
   * known by its class name and message.
   */
  datatype Throwable =
    | HttpException(code: int, statusMessage: string, errorBody: Option<string>)
    | NullPointerException(message: string)
    | Other(className: string, message: string)

  /** Retrofit's `HttpException`, the only throwable a `Result.Error` may carry. */
  type HttpExceptionT = t: Throwable | t.HttpException? witness HttpException(500, "", None)

  /** `HttpException(response)`: the failure for a response outside 2xx, keeping its code, status message and error body. */
  function HttpExceptionOf<T>(response: Response<T>): (e: HttpExceptionT)
    ensures e.code == response.Code()
    ensures e.statusMessage == response.raw.message && e.errorBody == response.errorBody
  {
    HttpException(response.Code(), response.raw.message, response.errorBody)
  }
}
