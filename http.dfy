/**
 * The request and response records the handlers see, after the web framework has
 * decoded the query string, read the headers and collected the body.
 */
module Http {
  import opened Wrappers
  import opened JsonValues
  import opened Text

  type Byte = b: int | 0 <= b < 256

  /** A collected request body: its bytes and, when they are a JSON document, that document. */
  datatype Payload = Payload(raw: seq<Byte>, parsed: Option<Json>)

  /**
   * An incoming request. `query` is the query string decoded into a map, or `None` when
   * it cannot be decoded; `headers` maps lower-case header names to their raw values,
   * whose characters stand for the bytes on the wire.
   */
  datatype Request = Request(
    httpMethod: string,
    path: string,
    query: Option<map<string, string>>,
    headers: map<string, string>)

  /** `HeaderValue::to_str` succeeds: every byte is visible ASCII or a tab. */
  predicate IsHeaderText(v: string)
  {
    forall i :: 0 <= i < |v| ==> v[i] == '\t' || (' ' <= v[i] <= '~')
  }

  /** `headers().get(name)`: header names compare without regard to ASCII case. */
  function HeaderValue(req: Request, name: string): Option<string>
  {
    var key := AsciiLower(name);
    if key in req.headers then Some(req.headers[key]) else None
  }

  /** `headers().get(name).and_then(|h| h.to_str().ok())`. */
  function HeaderText(req: Request, name: string): (r: Option<string>)
    ensures r.Some? <==> HeaderValue(req, name).Some? && IsHeaderText(HeaderValue(req, name).value)
    ensures r.Some? ==> r == HeaderValue(req, name)
  {
    match HeaderValue(req, name)
    case Some(v) => if IsHeaderText(v) then Some(v) else None
    case None => None
  }

  datatype ResponseBody = NoBody | TextBody(text: string) | JsonBody(json: Json)

  datatype Response = Response(status: nat, contentType: Option<string>, body: ResponseBody)

  const StatusOk: nat := 200
  const StatusBadRequest: nat := 400
  const StatusUnauthorized: nat := 401
  const StatusForbidden: nat := 403
  const StatusInternalServerError: nat := 500

  const ApplicationJsonType: string := "application/json"

  /** `HttpResponse::<status>().json(value)`. */
  function JsonResponse(status: nat, value: Json): Response
  {
    Response(status, Some(ApplicationJsonType), JsonBody(value))
  }
}
