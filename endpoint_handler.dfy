/**
 * The HTTP-facing decisions: the Bearer-token gate and status choice of the retrieval
 * endpoint, the 400 answer of a failed verification, and the ingestion endpoint that
 * answers 200 whatever happens to the payload.
 */
module Endpoint {
  import opened Wrappers
  import opened Sequences
  import opened Text
  import opened JsonValues
  import opened Http
  import opened Config
  import opened Cache
  import opened Verification
  import opened DataPolling

  const AuthorizationHeader: string := "authorization"
  const BearerPrefix: string := "Bearer "
  const MissingHeaderMessage: string := "Missing or invalid Authorization header. Use 'Bearer <token>' format."
  const InvalidTokenMessage: string := "Invalid token"

  /** The error text of a body that `serde_json::from_slice` rejects; the library's wording is not modelled. */
  const InvalidJsonError: string := "invalid JSON body"

  // ---------------------------------------------------------------- retrieval

  /** How the Authorization header is judged. */
  datatype Gate = NoBearer | WrongToken | Authorized

  /** The header must be readable text starting with `Bearer `; the rest must be the token, exactly. */
  function Authorize(req: Request, token: string): (r: Gate)
    ensures r != NoBearer <==>
      HeaderText(req, AuthorizationHeader).Some? && IsPrefix(BearerPrefix, HeaderText(req, AuthorizationHeader).value)
    ensures r == Authorized <==> HeaderText(req, AuthorizationHeader) == Some(BearerPrefix + token)
  {
    match HeaderText(req, AuthorizationHeader)
    case None => NoBearer
    case Some(auth) =>
      if !IsPrefix(BearerPrefix, auth) then NoBearer
      else if auth[|BearerPrefix|..] == token then
        assert auth == auth[..|BearerPrefix|] + auth[|BearerPrefix|..];
        Authorized
      else WrongToken
  }

  /** The JSON document `.json(response)` sends for a `DataResponse`. */
  function DataResponseJson(d: DataResponse): Json
  {
    JObject(map[
      "status" := JString(d.status),
      "message" := JString(d.message),
      "count" := JNumber(d.count),
      "data" := JArray(d.data)])
  }

  /** The 500 body, with the fields as the handler writes them. */
  function FailureJson(e: string): Json
  {
    JObject(map[
      "success" := JBool(false),
      "message" := JString("Failed to retrieve data: " + e),
      "count" := JNumber(0),
      "data" := JArray([])])
  }

  function UnauthorizedResponse(message: string): Response
  {
    JsonResponse(StatusUnauthorized, JObject(map["error" := JString("Unauthorized"), "message" := JString(message)]))
  }

  /** The answer once polling has run: 200 with its response, or 500 when it failed. */
  function RetrievalReply(outcome: Result<DataResponse, string>): Response
  {
    match outcome
    case Ok(d) => JsonResponse(StatusOk, DataResponseJson(d))
    case Err(e) => JsonResponse(StatusInternalServerError, FailureJson(e))
  }

  /** `data_retrieval_handler_with_auth`: the cache is only drained behind a valid token. */
  method DataRetrievalHandlerWithAuth(req: Request, alias: string, config: PollingConfig, cache: OrderedCache<Json>, token: string)
    returns (resp: Response)
    requires cache.Valid()
    modifies cache
    ensures cache.Valid()
    ensures Authorize(req, token) == NoBearer ==>
      resp == UnauthorizedResponse(MissingHeaderMessage) && cache.caches == old(cache.caches) && cache.orders == old(cache.orders)
    ensures Authorize(req, token) == WrongToken ==>
      resp == UnauthorizedResponse(InvalidTokenMessage) && cache.caches == old(cache.caches) && cache.orders == old(cache.orders)
    ensures Authorize(req, token) == Authorized && alias !in old(cache.caches) ==>
      resp == RetrievalReply(Ok(Respond(alias, false, Elapsed)))
      && cache.caches == old(cache.caches) && cache.orders == old(cache.orders)
    ensures Authorize(req, token) == Authorized && alias in old(cache.caches) ==>
      var p := Poll(old(cache.caches)[alias], old(cache.orders)[alias], config.maxPolledItems, Retries(config));
      resp == RetrievalReply(Ok(Respond(alias, true, p.result)))
      && cache.caches == old(cache.caches)[alias := p.live] && cache.orders == old(cache.orders)[alias := p.order]
    ensures resp.status != StatusInternalServerError
  {
    var auth := HeaderText(req, AuthorizationHeader);
    if auth.Some? && IsPrefix(BearerPrefix, auth.value) {
      var provided := auth.value[|BearerPrefix|..];
      if provided == token {
        var outcome := RetrieveDataWithPolling(alias, cache, config);
        resp := RetrievalReply(outcome);
      } else {
        resp := UnauthorizedResponse(InvalidTokenMessage);
      }
    } else {
      resp := UnauthorizedResponse(MissingHeaderMessage);
    }
  }

  // ---------------------------------------------------------------- verification

  /** `verification_endpoint_handler`'s answer for the outcome of the verification handler. */
  function VerificationReply(outcome: Result<Response, string>): Response
  {
    match outcome
    case Ok(r) => r
    case Err(e) => Response(StatusBadRequest, None, TextBody("Verification failed: " + e))
  }

  /** `verification_endpoint_handler`. */
  method VerificationEndpointHandler(req: Request, body: seq<Byte>, parsed: Option<Json>, c: VerificationConfig)
    returns (resp: Response)
    ensures resp == VerificationReply(Handle(req, body, parsed, c))
  {
    var outcome := VerificationHandler(req, body, parsed, c);
    resp := VerificationReply(outcome);
  }

  // ---------------------------------------------------------------- ingestion

  /**
   * `data_receiver`: a body that is a JSON document is stored for `alias` under the key
   * `fingerprint(body)` (the hex SHA-256 digest of the bytes in the service).
   */
  method DataReceiver(body: seq<Byte>, parsed: Option<Json>, alias: string, cache: OrderedCache<Json>, fingerprint: seq<Byte> -> string)
    returns (r: Result<(string, string), string>)
    requires cache.Valid()
    modifies cache
    ensures cache.Valid()
    ensures parsed.None? ==> r == Err(InvalidJsonError) && cache.caches == old(cache.caches) && cache.orders == old(cache.orders)
    ensures parsed.Some? && alias !in old(cache.caches) ==>
      r == Err(AliasNotFound) && cache.caches == old(cache.caches) && cache.orders == old(cache.orders)
    ensures parsed.Some? && alias in old(cache.caches) ==>
      var key := fingerprint(body);
      r == Ok((alias, key))
      && cache.caches == old(cache.caches)[alias := old(cache.caches)[alias][key := parsed.value]]
      && cache.orders == old(cache.orders)[alias := Requeue(old(cache.orders)[alias], key)]
  {
    if parsed.None? {
      return Err(InvalidJsonError);
    }
    var key := fingerprint(body);
    var stored := cache.Insert(alias, key, parsed.value);
    if stored.Err? {
      return Err(stored.error);
    }
    r := Ok((alias, key));
  }

  /** `data_endpoint_handler`: 200 with no body, whether or not the payload was stored. */
  method DataEndpointHandler(body: seq<Byte>, parsed: Option<Json>, alias: string, cache: OrderedCache<Json>, fingerprint: seq<Byte> -> string)
    returns (resp: Response)
    requires cache.Valid()
    modifies cache
    ensures cache.Valid()
    ensures resp == Response(StatusOk, None, NoBody)
    ensures (parsed.None? || alias !in old(cache.caches)) ==> cache.caches == old(cache.caches) && cache.orders == old(cache.orders)
    ensures parsed.Some? && alias in old(cache.caches) ==>
      cache.caches == old(cache.caches)[alias := old(cache.caches)[alias][fingerprint(body) := parsed.value]]
      && cache.orders == old(cache.orders)[alias := Requeue(old(cache.orders)[alias], fingerprint(body))]
    ensures parsed.Some? && alias in old(cache.caches) ==> cache.Get(alias, fingerprint(body)) == Some(parsed.value)
  {
    var received := DataReceiver(body, parsed, alias, cache, fingerprint);
    resp := Response(StatusOk, None, NoBody);
  }

  // ---------------------------------------------------------------- properties

  /** The gate opens exactly for a readable header that is `Bearer ` followed by the token, nothing trimmed. */
  lemma AuthorizedExactly(req: Request, token: string)
    ensures Authorize(req, token) == Authorized <==> HeaderText(req, AuthorizationHeader) == Some(BearerPrefix + token)
  {
    match HeaderText(req, AuthorizationHeader)
    case None =>
    case Some(auth) =>
      if Authorize(req, token) == Authorized {
        assert auth == auth[..|BearerPrefix|] + auth[|BearerPrefix|..];
      }
      if auth == BearerPrefix + token {
        assert auth[|BearerPrefix|..] == token;
      }
  }

  /** The header is refused outright when it is missing, unreadable, or lacks the prefix. */
  lemma MissingBearer(req: Request, token: string)
    ensures Authorize(req, token) == NoBearer <==>
      HeaderText(req, AuthorizationHeader).None? || !IsPrefix(BearerPrefix, HeaderText(req, AuthorizationHeader).value)
  {
  }

  /** The prefix is case-sensitive: `bearer <token>` is a missing header, not a wrong token. */
  lemma BearerIsCaseSensitive(req: Request, token: string)
    requires req.headers == map["authorization" := "bearer " + token]
    ensures Authorize(req, token) == NoBearer
  {
    assert AsciiLower(AuthorizationHeader) == AuthorizationHeader by {
      AsciiLowerFixed(AuthorizationHeader);
    }
    assert ("bearer " + token)[0] == 'b';
  }

  /** The token is not trimmed: an extra space after `Bearer ` makes it a wrong token. */
  lemma TokenNotTrimmed(req: Request, token: string)
    requires IsHeaderText(token)
    requires req.headers == map["authorization" := BearerPrefix + " " + token]
    ensures Authorize(req, token) == WrongToken
  {
    AsciiLowerFixed(AuthorizationHeader);
    var auth := BearerPrefix + " " + token;
    assert auth[..|BearerPrefix|] == BearerPrefix;
    assert auth[|BearerPrefix|..] == " " + token;
    assert |" " + token| != |token|;
  }

  /**
   * The retrieval endpoint answers 401 without a valid token, 200 with the polling
   * response after one, and 500 (with count 0 and no data) only for a polling failure.
   */
  lemma RetrievalStatuses(outcome: Result<DataResponse, string>)
    ensures outcome.Ok? ==> RetrievalReply(outcome) == JsonResponse(StatusOk, DataResponseJson(outcome.value))
    ensures outcome.Err? ==>
      var r := RetrievalReply(outcome);
      r.status == StatusInternalServerError && r.body.JsonBody?
      && Get(r.body.json, "count") == Some(JNumber(0)) && Get(r.body.json, "data") == Some(JArray([]))
      && Get(r.body.json, "message") == Some(JString("Failed to retrieve data: " + outcome.error))
    ensures UnauthorizedResponse(MissingHeaderMessage).status == StatusUnauthorized
    ensures UnauthorizedResponse(InvalidTokenMessage).status == StatusUnauthorized
  {
  }

  /**
   * A verification answers 400 exactly when the handler failed, with the failure in the
   * text; otherwise it is the handshake's own answer, 200 or 403.
   */
  lemma VerificationStatuses(req: Request, body: seq<Byte>, parsed: Option<Json>, c: VerificationConfig)
    ensures var h := Handle(req, body, parsed, c);
      h.Err? ==> VerificationReply(h) == Response(StatusBadRequest, None, TextBody("Verification failed: " + h.error))
    ensures var r := VerificationReply(Handle(req, body, parsed, c));
      r.status == StatusOk || r.status == StatusBadRequest || r.status == StatusForbidden
    ensures VerificationReply(Handle(req, body, parsed, c)).status == StatusBadRequest <==> Handle(req, body, parsed, c).Err?
  {
    if PathMatches(c, req.path) {
      HandshakeOutcomes(req, Some(Payload(body, parsed)), c);
    }
  }
}
