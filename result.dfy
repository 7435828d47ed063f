/**
 * The outcome of one HTTP call as a closed set of three variants, with the two
 * capability facets (`ResponseResult`, `ErrorResult`), the three accessors and
 * the `toString` renderings.
 */
module Results {
  import opened Http

  /**
   * What `getOrThrow` does: return a value, or throw a throwable.
   */
  datatype Raised<+T> = Returned(value: T) | Thrown(exception: Throwable)

  /**
   * `Result<T>`: `Ok` carries the body and the raw response, `Error` the HTTP
   * failure and the raw response, `Exception` any other throwable.
   */
  datatype Result<+T> =
    | Ok(value: T, response: RawResponse)
    | Error(httpException: HttpExceptionT, response: RawResponse)
    | Exception(cause: Throwable)
  {
    /** The `ResponseResult` facet: the raw response when the variant has one. */
    function ResponseFacet(): (r: Option<RawResponse>)
      ensures r.Some? <==> Ok? || Error?
      ensures r.Some? ==> r.value == response
    {
      match this
      case Ok(_, response) => Some(response)
      case Error(_, response) => Some(response)
      case Exception(_) => None
    }

    /** The `ErrorResult` facet: the carried throwable when the variant has one. */
    function ErrorFacet(): (e: Option<Throwable>)
      ensures e.Some? <==> Error? || Exception?
      ensures Error? ==> e == Some(httpException)
      ensures Exception? ==> e == Some(cause)
    {
      match this
      case Ok(_, _) => None
      case Error(httpException, _) => Some(httpException)
      case Exception(cause) => Some(cause)
    }

    /** `getOrNull()`: the value of an `Ok`, and nothing for the two failure variants. */
    function GetOrNull(): (v: Option<T>)
      ensures v.Some? <==> Ok?
      ensures v.Some? ==> v.value == value
      ensures v.None? <==> ErrorFacet().Some?
    {
      if Ok? then Some(value) else None
    }

    /** `getOrDefault(default)`: the value of an `Ok`, otherwise `default`. */
    function GetOrDefault(default: T): (v: T)
      ensures Ok? ==> v == value
      ensures !Ok? ==> v == default
      ensures v == (if GetOrNull().Some? then GetOrNull().value else default)
    {
      match this
      case Ok(value, _) => value
      case _ => default
    }

    /**
     * `getOrThrow(throwable)`: the value of an `Ok` whatever `throwable` is;
     * otherwise `throwable` when one is given, else the carried failure.
     */
    function GetOrThrow(throwable: Option<Throwable>): (o: Raised<T>)
      ensures o.Returned? <==> GetOrNull().Some?
      ensures o.Returned? ==> o.value == value
      ensures o.Thrown? && throwable.Some? ==> o.exception == throwable.value
      ensures o.Thrown? && throwable.None? ==> Some(o.exception) == ErrorFacet()
    {
      match this
      case Ok(value, _) => Returned(value)
      case Error(httpException, _) => Thrown(if throwable.Some? then throwable.value else httpException)
      case Exception(cause) => Thrown(if throwable.Some? then throwable.value else cause)
    }

    /**
     * `toString()`. The renderings of the value and of the throwable are the
     * foreign `toString()` results, given as functions; the raw response's is its
     * `text`.
     */
    function ToString(showValue: T -> string, showThrowable: Throwable -> string): (s: string)
      ensures |s| > 0 && s[|s| - 1] == '}'
      ensures Ok? ==> |"Result.Ok{value="| + |showValue(value)| <= |s| - 1 - |response.text|
      ensures Ok? ==> s[|"Result.Ok{value="|..|"Result.Ok{value="| + |showValue(value)|] == showValue(value)
      ensures Ok? ==> s[|s| - 1 - |response.text|..|s| - 1] == response.text
      ensures Ok? ==> s[..|"Result.Ok{value="|] == "Result.Ok{value="
      ensures Ok? ==> s[|"Result.Ok{value="| + |showValue(value)|..|s| - 1 - |response.text|] == ", response="
      ensures Error? ==> |"Result.Error{exception="| < |s| && s[..|"Result.Error{exception="|] == "Result.Error{exception="
      ensures Exception? ==> |"Result.Exception{"| < |s| && s[..|"Result.Exception{"|] == "Result.Exception{"
      ensures Error? ==> |"Result.Error{exception="| < |s| && s[|"Result.Error{exception="|..|s| - 1] == showThrowable(httpException)
      ensures Exception? ==> |"Result.Exception{"| < |s| && s[|"Result.Exception{"|..|s| - 1] == showThrowable(cause)
    {
      match this
      case Ok(value, response) => "Result.Ok{value=" + showValue(value) + ", response=" + response.text + "}"
      case Error(httpException, _) => "Result.Error{exception=" + showThrowable(httpException) + "}"
      case Exception(cause) => "Result.Exception{" + showThrowable(cause) + "}"
    }
  }

  predicate IsPrefix(p: string, s: string) {
    |p| <= |s| && s[..|p|] == p
  }

  /**
   * Every result has at least one facet; `Error` is the only variant with both,
   * `Ok` has no failure and `Exception` has no response.
   */
  lemma FacetsCoverVariants<T>(r: Result<T>)
    ensures r.ResponseFacet().Some? || r.ErrorFacet().Some?
    ensures r.ResponseFacet().Some? && r.ErrorFacet().Some? <==> r.Error?
    ensures r.Ok? <==> r.ErrorFacet().None?
    ensures r.Exception? <==> r.ResponseFacet().None?
  {
  }

  /**
   * `getOrThrow()` without an override throws what the `ErrorResult` facet holds,
   * and with an override throws exactly that override, for every non-`Ok` variant.
   */
  lemma GetOrThrowFailure<T>(r: Result<T>, x: Throwable)
    requires !r.Ok?
    ensures r.GetOrThrow(None) == Thrown(r.ErrorFacet().value)
    ensures r.GetOrThrow(Some(x)) == Thrown(x)
    ensures r.Error? ==> r.GetOrThrow(None) == Thrown(r.httpException)
    ensures r.Exception? ==> r.GetOrThrow(None) == Thrown(r.cause)
  {
  }

  /** On `Ok`, `getOrThrow` returns the value whatever the override is. */
  lemma GetOrThrowOk<T>(r: Result<T>, x: Option<Throwable>)
    requires r.Ok?
    ensures r.GetOrThrow(x) == Returned(r.value) == r.GetOrThrow(None)
  {
  }

  /**
   * The rendering names its variant: it starts with `Result.Ok{`,
   * `Result.Error{` or `Result.Exception{` exactly for that variant.
   */
  lemma {:induction false} RenderingNamesVariant<T>(r: Result<T>, showValue: T -> string, showThrowable: Throwable -> string)
    ensures IsPrefix("Result.Ok{", r.ToString(showValue, showThrowable)) <==> r.Ok?
    ensures IsPrefix("Result.Error{", r.ToString(showValue, showThrowable)) <==> r.Error?
    ensures IsPrefix("Result.Exception{", r.ToString(showValue, showThrowable)) <==> r.Exception?
  {
    var s := r.ToString(showValue, showThrowable);
    match r
    case Ok(v, resp) =>
      var rest := showValue(v) + ", response=" + resp.text + "}";
      assert s == "Result.Ok{value=" + rest;
      assert s[..10] == "Result.Ok{";
      assert s[7] == 'O';
    case Error(e, _) =>
      assert s == "Result.Error{exception=" + (showThrowable(e) + "}");
      assert s[..13] == "Result.Error{";
      assert s[7] == 'E' && s[8] == 'r';
    case Exception(c) =>
      assert s == "Result.Exception{" + (showThrowable(c) + "}");
      assert s[..17] == "Result.Exception{";
      assert s[7] == 'E' && s[8] == 'x';
  }

  /** An `Error` renders its exception only: two errors with the same exception render alike whatever their responses. */
  lemma ErrorRenderingOmitsResponse<T>(a: Result<T>, b: Result<T>, showValue: T -> string, showThrowable: Throwable -> string)
    requires a.Error? && b.Error? && a.httpException == b.httpException
    ensures a.ToString(showValue, showThrowable) == b.ToString(showValue, showThrowable)
  {
  }

  /**
   * The rendering of an `Exception` determines the rendering of its throwable:
   * two exceptions render alike exactly when their throwables do.
   */
  lemma {:induction false} ExceptionRenderingFaithful<T>(a: Result<T>, b: Result<T>, showValue: T -> string, showThrowable: Throwable -> string)
    requires a.Exception? && b.Exception?
    ensures a.ToString(showValue, showThrowable) == b.ToString(showValue, showThrowable)
            <==> showThrowable(a.cause) == showThrowable(b.cause)
  {
    var pre := "Result.Exception{";
    var sa := a.ToString(showValue, showThrowable);
    var sb := b.ToString(showValue, showThrowable);
    if sa == sb {
      assert sa == pre + showThrowable(a.cause) + "}";
      assert sb == pre + showThrowable(b.cause) + "}";
      assert showThrowable(a.cause) == sa[|pre|..|sa| - 1];
      assert showThrowable(b.cause) == sb[|pre|..|sb| - 1];
    }
  }
}
