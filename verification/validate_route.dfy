/**
 * The token-validation endpoint (`GET /api/galleries/validate-token`): reads
 * the `token` query parameter, resolves it, and maps the outcome to a status
 * code and a JSON body.
 */
module ValidateRoute {
  import opened Wrappers
  import opened TokenUtils
  import SearchParams
  import JsDate

  const NoTokenError: string := "No token provided"
  const InvalidTokenError: string := "Invalid or expired token"
  const ValidationFailedError: string := "Token validation failed"
  const BadRequestError: string := "Invalid request format"

  /** The JSON body; `expiresAt` is the instant (ms) the ISO string denotes. */
  datatype ValidateBody =
    | Valid(galleryId: string, slug: string, expiresAt: int)
    | Invalid(error: string)

  datatype ValidateResponse = ValidateResponse(status: int, body: ValidateBody)

  /**
   * The answer for a payload the resolver returned; building the ISO date may
   * throw. The resolver has already formatted the same date, so for its
   * payloads the 500 branch is never taken (see `Get`).
   */
  function Success(p: Payload): (resp: ValidateResponse)
    // the status and the body agree: a 200 always carries a valid body, a 500 never does
    ensures resp.status in {200, 500}
    ensures resp.status == 200 <==> resp.body.Valid?
  {
    if JsDate.IsoRepresentable(p.exp * 1000) then
      ValidateResponse(200, Valid(p.galleryId, p.slug, p.exp * 1000))
    else
      ValidateResponse(500, Invalid(ValidationFailedError))
  }

  /**
   * `GET` at instant `now`; `query` is None when the request URL cannot be
   * parsed. Returns the response and the token store afterwards.
   */
  function Get(query: Option<SearchParams.Query>, store: TokenStore, now: int, verify: Verifier)
    : (r: (ValidateResponse, TokenStore))
    // valid is true exactly for a 200 response
    ensures r.0.body.Valid? <==> r.0.status == 200
    // the 500 of the inner catch is unreachable: the resolver only returns payloads whose expiry formats
    ensures r.0.status in {200, 400, 401}
    // an unparsable URL, or a missing or empty token, is a client error and resolves nothing
    ensures query.None? ==> r == (ValidateResponse(400, Invalid(BadRequestError)), store)
    ensures query.Some? && SearchParams.Get(query.value, "token") in {None, Some("")} ==>
              r == (ValidateResponse(400, Invalid(NoTokenError)), store)
    // otherwise the resolver decides, and its store update is kept
    ensures query.Some? && SearchParams.Get(query.value, "token") !in {None, Some("")} ==>
              var res := ValidateShareToken(store, SearchParams.Get(query.value, "token").value, now, verify);
              && r.1 == res.store
              && (res.payload.None? <==> r.0 == ValidateResponse(401, Invalid(InvalidTokenError)))
              && (res.payload.Some? ==>
                    r.0 == ValidateResponse(200, Valid(res.payload.value.galleryId, res.payload.value.slug,
                                                       res.payload.value.exp * 1000)))
  {
    match query
    case None => (ValidateResponse(400, Invalid(BadRequestError)), store)
    case Some(q) =>
      match SearchParams.Get(q, "token")
      case None => (ValidateResponse(400, Invalid(NoTokenError)), store)
      case Some(token) =>
        if token == "" then (ValidateResponse(400, Invalid(NoTokenError)), store)
        else
          var res := ValidateShareToken(store, token, now, verify);
          match res.payload
          case None => (ValidateResponse(401, Invalid(InvalidTokenError)), res.store)
          case Some(p) => (Success(p), res.store)
  }

  /** Every invalid-token cause, expired handle or bad JWT or wrong purpose, gets the same answer. */
  lemma SingleFailureMessage(query: SearchParams.Query, store: TokenStore, now: int, verify: Verifier)
    requires SearchParams.Get(query, "token").Some? && SearchParams.Get(query, "token").value != ""
    requires ValidateShareToken(store, SearchParams.Get(query, "token").value, now, verify).payload.None?
    ensures Get(Some(query), store, now, verify).0 == ValidateResponse(401, Invalid(InvalidTokenError))
  {
  }

  /** A 200 answer is only ever given for a payload whose purpose is gallery-share. */
  lemma ValidAnswerIsShare(query: SearchParams.Query, store: TokenStore, now: int, verify: Verifier)
    requires Get(Some(query), store, now, verify).0.status == 200
    ensures var token := SearchParams.Get(query, "token").value;
            var p := ValidateShareToken(store, token, now, verify).payload;
            p.Some? && IsShare(p.value)
  {
  }
}
