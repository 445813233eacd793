/**
 The HTTP error helpers of the server runtime
 (packages/app/src/server/http/errors.ts). Throwing is modelled as an
 `Outcome`: a helper either returns normally or throws an `HttpError`.
 `isHttpError` is the constructor test of `Caught`; the `HttpError` class
 itself is not part of this model beyond the three values it carries.
 */
module Errors {

  import opened Wrappers
  import opened OrderedMap
  import opened Json
  import opened Response

  /** A JavaScript value as `invariant` sees it: `undefined` or a JSON-like value. */
  datatype Value = Undefined | Defined(json: Json)

  /** `new HttpError(message, init, data)`; `data` is `None` when it was not given. */
  datatype HttpError = HttpError(message: string, init: Option<InitArg>, data: Option<Entries<Json>>)

  /** How a call ends: normally, or by throwing an `HttpError`. */
  datatype Outcome = Returned | Thrown(error: HttpError)

  /** What a request handler's `catch` receives. */
  datatype Caught = CaughtHttpError(error: HttpError) | CaughtOther

  const InvalidFalsyMessage: string := "invalid falsy value"
  const ValidationFailedMessage: string := "validation failed"
  const InternalErrorMessage: string := "internal server error"

  const BadRequestStatus: int := 400
  const UnprocessableStatus: int := 422
  const InternalErrorStatus: int := 500

  /** `false`, `null` and `undefined`: the values `invariant` rejects. */
  predicate Rejected(v: Value)
  {
    v == Undefined || v == Defined(JNull) || v == Defined(JBool(false))
  }

  /**
   `invariant(value, message)`: throws a 400 error carrying the message
   (by default "invalid falsy value") for `false`, `null` and `undefined`,
   and returns for every other value.
   */
  function Invariant(value: Value, message: Option<string>): (r: Outcome)
    ensures r.Thrown? <==> Rejected(value)
    ensures r.Thrown? ==> r.error.message == message.GetOr(InvalidFalsyMessage)
                          && r.error.init == Some(StatusInit(BadRequestStatus)) && r.error.data.None?
  {
    if value == Defined(JBool(false)) || value == Defined(JNull) || value.Undefined? then
      HttpErrorThrow(message.GetOr(InvalidFalsyMessage), Some(StatusInit(BadRequestStatus)), None)
    else Returned
  }

  /**
   `invariant` is not a truthiness test: every value it rejects is falsy,
   but the falsy values `0` and `''` pass.
   */
  lemma InvariantIsNotTruthiness(value: Value, message: Option<string>)
    ensures Invariant(value, message).Thrown? ==> value.Undefined? || !Truthy(value.json)
    ensures Invariant(Defined(JNum(0)), message).Returned? && !Truthy(JNum(0))
    ensures Invariant(Defined(JStr("")), message).Returned? && !Truthy(JStr(""))
  {
  }

  /** `validate(condition, message)`: throws a 422 error (by default "validation failed") iff the condition is false. */
  function Validate(condition: bool, message: Option<string>): (r: Outcome)
    ensures r.Thrown? <==> !condition
    ensures r.Thrown? ==> r.error.message == message.GetOr(ValidationFailedMessage)
                          && r.error.init == Some(StatusInit(UnprocessableStatus)) && r.error.data.None?
  {
    if !condition then HttpErrorThrow(message.GetOr(ValidationFailedMessage), Some(StatusInit(UnprocessableStatus)), None)
    else Returned
  }

  /** `httpError(message, init, data)`: never returns normally; it throws an error carrying its arguments. */
  function HttpErrorThrow(message: string, init: Option<InitArg>, data: Option<Entries<Json>>): (r: Outcome)
    ensures r.Thrown?
    ensures r.error.message == message && r.error.init == init && r.error.data == data
  {
    Thrown(HttpError(message, init, data))
  }

  /** `{ error: { message, data } }`; an absent `data` is dropped by serialisation. */
  function ErrorBody(message: string, data: Option<Entries<Json>>): Json
  {
    JObj([("error", JObj([("message", JStr(message))] + if data.Some? then [("data", JObj(data.value))] else []))])
  }

  /**
   `handleHttpError(error)`: an `HttpError` becomes a JSON response of its
   message and data with the error's own init; anything else becomes a 500
   response with the message "internal server error". Either way the
   response is JSON-typed.
   */
  function HandleHttpError(caught: Caught): (r: Response)
    ensures caught.CaughtHttpError? ==> r.status == JsonStatus(caught.error.init)
                                        && r.body == Some(Stringify(ErrorBody(caught.error.message, caught.error.data)))
    ensures caught.CaughtOther? ==> r.status == InternalErrorStatus
                                    && r.body == Some(Stringify(ErrorBody(InternalErrorMessage, None)))
    ensures caught.CaughtOther? ==> Get(r.headers, ContentTypeName) == Some(JsonContentType)
    ensures caught.CaughtHttpError? && !SuppliesContentType(caught.error.init) ==>
              Get(r.headers, ContentTypeName) == Some(JsonContentType)
    ensures caught.CaughtHttpError? && SuppliesContentType(caught.error.init) ==>
              Get(r.headers, ContentTypeName) == Get(HeadersOf(InitHeaders(caught.error.init)), ContentTypeName)
    ensures caught.CaughtHttpError? ==>
              forall k :: k != ContentTypeName ==> Get(r.headers, k) == Get(HeadersOf(InitHeaders(caught.error.init)), k)
  {
    match caught
    case CaughtHttpError(e) => JsonResponse(ErrorBody(e.message, e.data), e.init)
    case CaughtOther => JsonResponse(ErrorBody(InternalErrorMessage, None), Some(StatusInit(InternalErrorStatus)))
  }

  /**
   An error thrown by `invariant` or `validate`, once handled, answers
   with its status (400 or 422), its message and the JSON content type.
   */
  lemma HandledHelperErrors(value: Value, condition: bool, message: Option<string>)
    ensures var o := Invariant(value, message);
            o.Thrown? ==> var r := HandleHttpError(CaughtHttpError(o.error));
                          r.status == BadRequestStatus
                          && r.body == Some(Stringify(ErrorBody(message.GetOr(InvalidFalsyMessage), None)))
                          && Get(r.headers, ContentTypeName) == Some(JsonContentType)
    ensures var o := Validate(condition, message);
            o.Thrown? ==> var r := HandleHttpError(CaughtHttpError(o.error));
                          r.status == UnprocessableStatus
                          && r.body == Some(Stringify(ErrorBody(message.GetOr(ValidationFailedMessage), None)))
                          && Get(r.headers, ContentTypeName) == Some(JsonContentType)
  {
    assert !SuppliesContentType(Some(StatusInit(BadRequestStatus)));
    assert !SuppliesContentType(Some(StatusInit(UnprocessableStatus)));
  }
}
