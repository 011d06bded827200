/**
 * Reading the token or the challenge out of a request: from the decoded query, from a
 * header, from a `/`-piece of the path, or by following `::`-separated keys through
 * the JSON body. Every failure is an error message for a 400 answer.
 */
module Extractors {
  import opened Wrappers
  import opened Sequences
  import opened Text
  import opened JsonValues
  import opened Http
  import opened Config

  /** The text of the framework's error for a query string it cannot decode. */
  const QueryDecodeError: string := "Query deserialize error"

  /** Separator of the keys in a body location. */
  const KeySeparator: string := "::"

  /** The outcome of `extract_value(req, location, locate, body, value_type)`. */
  function ValueAt(req: Request, location: string, locate: string, body: Option<Payload>, valueType: string)
    : (r: Result<string, string>)
    ensures r.Ok? ==> location == "query" || location == "header" || location == "path" || location == "body"
    ensures r.Ok? && location == "body" ==> body.Some? && body.value.parsed.Some?
    ensures r.Ok? && location == "query" ==> req.query.Some? && locate in req.query.value
  {
    if location == "query" then QueryValue(req, locate, valueType)
    else if location == "header" then HeaderValueAt(req, locate, valueType)
    else if location == "path" then PathValue(req, locate)
    else if location == "body" then BodyValue(body, locate, valueType)
    else Err("Unsupported " + valueType + " location")
  }

  /** The `query` branch. */
  function QueryValue(req: Request, locate: string, valueType: string): Result<string, string>
  {
    match req.query
    case None => Err(QueryDecodeError)
    case Some(q) => if locate in q then Ok(q[locate]) else Err(valueType + " not found in query")
  }

  /** The `header` branch. */
  function HeaderValueAt(req: Request, locate: string, valueType: string): Result<string, string>
  {
    match HeaderValue(req, locate)
    case None => Err(valueType + " not found in header")
    case Some(v) => if IsHeaderText(v) then Ok(v) else Err("Invalid header value")
  }

  /** The `path` branch: piece `locate` of the path split at every `/`. */
  function PathValue(req: Request, locate: string): Result<string, string>
  {
    match ParseUsize(locate)
    case None => Err("Invalid path segment index")
    case Some(index) =>
      var pieces := SplitOn(req.path, "/");
      if index < |pieces| then Ok(pieces[index]) else Err("Path segment index out of bounds")
  }

  /** The `body` branch: follow the `::`-separated keys; the value found must be a string. */
  function BodyValue(body: Option<Payload>, locate: string, valueType: string): Result<string, string>
  {
    match body
    case None => Err("Body expected but not provided")
    case Some(b) =>
      match b.parsed
      case None => Err("Failed to parse body as JSON")
      case Some(json) =>
        match Descend(json, SplitOn(locate, KeySeparator))
        case None => Err(valueType + " path not found in body")
        case Some(v) => if v.JString? then Ok(v.s) else Err(valueType + " value in body is not a string")
  }

  /** Each of the four location names selects its own branch. */
  lemma DispatchQuery(req: Request, locate: string, body: Option<Payload>, valueType: string)
    ensures ValueAt(req, "query", locate, body, valueType) == QueryValue(req, locate, valueType)
  {
  }

  lemma DispatchHeader(req: Request, locate: string, body: Option<Payload>, valueType: string)
    ensures ValueAt(req, "header", locate, body, valueType) == HeaderValueAt(req, locate, valueType)
  {
    assert "header" != "query" by { assert |"header"| != |"query"|; }
  }

  lemma DispatchPath(req: Request, locate: string, body: Option<Payload>, valueType: string)
    ensures ValueAt(req, "path", locate, body, valueType) == PathValue(req, locate)
  {
    assert "path" != "query" && "path" != "header" by { assert |"path"| != |"query"| && |"path"| != |"header"|; }
  }

  lemma DispatchBody(req: Request, locate: string, body: Option<Payload>, valueType: string)
    ensures ValueAt(req, "body", locate, body, valueType) == BodyValue(body, locate, valueType)
  {
    assert "body" != "query" && "body" != "header" && "body" != "path" by {
      assert |"body"| != |"query"| && |"body"| != |"header"| && "body"[0] != "path"[0];
    }
  }

  /** `extract_value`; the body branch walks the keys with a loop, as the source does. */
  method ExtractValue(req: Request, location: string, locate: string, body: Option<Payload>, valueType: string)
    returns (r: Result<string, string>)
    ensures r == ValueAt(req, location, locate, body, valueType)
  {
    if location != "body" {
      return ValueAt(req, location, locate, body, valueType);
    }
    if body.None? {
      return Err("Body expected but not provided");
    }
    if body.value.parsed.None? {
      return Err("Failed to parse body as JSON");
    }
    var json := body.value.parsed.value;
    var parts := SplitOn(locate, KeySeparator);
    var current := json;
    for i := 0 to |parts|
      invariant Descend(json, parts) == Descend(current, parts[i..])
    {
      assert parts[i..][1..] == parts[i + 1..];
      match Get(current, parts[i]) {
        case None =>
          return Err(valueType + " path not found in body");
        case Some(next) =>
          current := next;
      }
    }
    if current.JString? {
      r := Ok(current.s);
    } else {
      r := Err(valueType + " value in body is not a string");
    }
  }

  /** `extract_token`: the token's configured location, reported as "Token". */
  method ExtractToken(req: Request, tokenConfig: TokenConfig, body: Option<Payload>) returns (r: Result<string, string>)
    ensures r == ValueAt(req, tokenConfig.location, tokenConfig.locate, body, "Token")
  {
    r := ExtractValue(req, tokenConfig.location, tokenConfig.locate, body, "Token");
  }

  /** `extract_challenge`: the challenge's configured location, reported as "Challenge". */
  method ExtractChallenge(req: Request, challengeConfig: ChallengeConfig, body: Option<Payload>)
    returns (r: Result<string, string>)
    ensures r == ValueAt(req, challengeConfig.location, challengeConfig.locate, body, "Challenge")
  {
    r := ExtractValue(req, challengeConfig.location, challengeConfig.locate, body, "Challenge");
  }

  // ---------------------------------------------------------------- properties

  /** Only the four named locations are read; any other location is an error, whatever the request. */
  lemma UnsupportedLocation(req: Request, location: string, locate: string, body: Option<Payload>, valueType: string)
    ensures ValueAt(req, location, locate, body, valueType).Err?
      <== location !in {"query", "header", "path", "body"}
    ensures location !in {"query", "header", "path", "body"}
      ==> ValueAt(req, location, locate, body, valueType) == Err("Unsupported " + valueType + " location")
  {
  }

  /** A query value is found exactly when the decoded query holds the parameter. */
  lemma QueryLookup(req: Request, locate: string, body: Option<Payload>, valueType: string)
    ensures ValueAt(req, "query", locate, body, valueType).Ok?
      <==> req.query.Some? && locate in req.query.value
    ensures ValueAt(req, "query", locate, body, valueType).Ok?
      ==> ValueAt(req, "query", locate, body, valueType).value == req.query.value[locate]
  {
    DispatchQuery(req, locate, body, valueType);
  }

  /** A header is found under any ASCII spelling of its name, provided its value is plain text. */
  lemma HeaderLookup(req: Request, name: string, body: Option<Payload>, valueType: string)
    ensures ValueAt(req, "header", name, body, valueType)
      == ValueAt(req, "header", AsciiLower(name), body, valueType)
    ensures ValueAt(req, "header", name, body, valueType).Ok?
      <==> AsciiLower(name) in req.headers && IsHeaderText(req.headers[AsciiLower(name)])
  {
    DispatchHeader(req, name, body, valueType);
    DispatchHeader(req, AsciiLower(name), body, valueType);
    AsciiLowerIdempotent(name);
  }

  /**
   * For a path made of `/`-free pieces, the decimal index `i` reads piece `i`, counting the
   * empty piece before a leading `/`, and an index past the last piece is an error.
   */
  lemma PathIndex(req: Request, pieces: seq<string>, i: nat, body: Option<Payload>, valueType: string)
    requires |pieces| > 0 && FreeOf(pieces, '/') && req.path == Join(pieces, "/") && i <= UsizeMax
    ensures ValueAt(req, "path", NatToString(i), body, valueType)
      == if i < |pieces| then Ok(pieces[i]) else Err("Path segment index out of bounds")
  {
    DispatchPath(req, NatToString(i), body, valueType);
    ParseNatToString(i);
    SplitJoin(pieces, "/");
  }

  /** A path index that is not a decimal number is an error. */
  lemma PathIndexNotANumber(req: Request, locate: string, body: Option<Payload>, valueType: string)
    requires locate != [] && locate[0] != '+' && !IsDigit(locate[0])
    ensures ValueAt(req, "path", locate, body, valueType) == Err("Invalid path segment index")
  {
    DispatchPath(req, locate, body, valueType);
  }

  /**
   * Following `k0::…::kn` through a body that nests a string under exactly those keys
   * yields that string; any other kind of value at the end is an error.
   */
  lemma BodyNest(req: Request, keys: seq<string>, leaf: Json, raw: seq<Byte>, valueType: string)
    requires |keys| > 0 && FreeOf(keys, ':')
    ensures ValueAt(req, "body", Join(keys, KeySeparator), Some(Payload(raw, Some(Nest(keys, leaf)))), valueType)
      == if leaf.JString? then Ok(leaf.s) else Err(valueType + " value in body is not a string")
  {
    DispatchBody(req, Join(keys, KeySeparator), Some(Payload(raw, Some(Nest(keys, leaf)))), valueType);
    SplitJoin(keys, KeySeparator);
    DescendNest(keys, leaf);
  }

  /** A body location written as `::`-joined keys follows exactly those keys. */
  lemma BodyKeys(req: Request, keys: seq<string>, body: Payload, valueType: string)
    requires |keys| > 0 && FreeOf(keys, ':') && body.parsed.Some?
    ensures ValueAt(req, "body", Join(keys, KeySeparator), Some(body), valueType)
      == match Descend(body.parsed.value, keys)
         case None => Err(valueType + " path not found in body")
         case Some(v) => if v.JString? then Ok(v.s) else Err(valueType + " value in body is not a string")
  {
    DispatchBody(req, Join(keys, KeySeparator), Some(body), valueType);
    SplitJoin(keys, KeySeparator);
  }

  /** In a body location, a key that is missing along the way is an error, as is an absent or unparsable body. */
  lemma BodyFailures(req: Request, locate: string, body: Option<Payload>, valueType: string)
    ensures body.None? ==> ValueAt(req, "body", locate, body, valueType) == Err("Body expected but not provided")
    ensures body.Some? && body.value.parsed.None?
      ==> ValueAt(req, "body", locate, body, valueType) == Err("Failed to parse body as JSON")
    ensures body.Some? && body.value.parsed.Some? && Descend(body.value.parsed.value, SplitOn(locate, KeySeparator)).None?
      ==> ValueAt(req, "body", locate, body, valueType) == Err(valueType + " path not found in body")
  {
    DispatchBody(req, locate, body, valueType);
  }

  // ---------------------------------------------------------------- the documented cases

  /** test_extract_from_query: `?param=value` yields `value`; a query without `param` is an error. */
  lemma QueryExamples(req: Request, q: map<string, string>)
    requires req.query == Some(q)
    ensures q == map["param" := "value"] ==> ValueAt(req, "query", "param", None, "Test") == Ok("value")
    ensures q == map["other" := "value"] ==> ValueAt(req, "query", "param", None, "Test") == Err("Test not found in query")
  {
    DispatchQuery(req, "param", None, "Test");
    assert "param"[0] != "other"[0];
    assert "Test" + " not found in query" == "Test not found in query";
  }

  /** test_extract_from_header: a present header is returned verbatim; an absent one is an error. */
  lemma HeaderExamples(req: Request)
    requires req.headers in {map["authorization" := "Bearer token123"], map[]}
    ensures req.headers != map[] ==> ValueAt(req, "header", "authorization", None, "Test") == Ok("Bearer token123")
    ensures req.headers == map[] ==> ValueAt(req, "header", "authorization", None, "Test") == Err("Test not found in header")
  {
    DispatchHeader(req, "authorization", None, "Test");
    AsciiLowerFixed("authorization");
    assert IsHeaderText("Bearer token123");
    assert "Test" + " not found in header" == "Test not found in header";
  }

  /** test_unsupported_location and test_invalid_json_body. */
  lemma UnsupportedAndInvalidExamples(req: Request, raw: seq<Byte>)
    ensures ValueAt(req, "unsupported", "param", None, "Test").Err?
    ensures ValueAt(req, "body", "data", Some(Payload(raw, None)), "Test") == Err("Failed to parse body as JSON")
  {
    DispatchBody(req, "data", Some(Payload(raw, None)), "Test");
  }

  /** test_extract_from_path: pieces of `/api/v1/resource` are "", "api", "v1", "resource". */
  lemma PathExamples(req: Request)
    requires req.path == Join(["", "api", "v1", "resource"], "/")
    ensures ValueAt(req, "path", [DigitChar(3)], None, "Test") == Ok("resource")
    ensures ValueAt(req, "path", [DigitChar(5)], None, "Test") == Err("Path segment index out of bounds")
    ensures ValueAt(req, "path", "not-a-number", None, "Test") == Err("Invalid path segment index")
  {
    PathIndex(req, ["", "api", "v1", "resource"], 3, None, "Test");
    PathIndex(req, ["", "api", "v1", "resource"], 5, None, "Test");
    PathIndexNotANumber(req, "not-a-number", None, "Test");
  }

  /** The request body of test_extract_from_body. */
  const TestUser: Json := JObject(map["id" := JString("user123"), "name" := JString("John Doe")])
  const TestData: Json := JObject(map["user" := TestUser, "token" := JString("secret-token")])

  predicate IsTestBody(body: Payload)
  {
    body.parsed == Some(JObject(map["data" := TestData]))
  }

  /** The lookups the body examples make in that document. */
  lemma TestBodyLookups(j: Json)
    requires j == JObject(map["data" := TestData])
    ensures Descend(j, ["data", "token"]) == Some(JString("secret-token"))
    ensures Descend(j, ["data", "user", "id"]) == Some(JString("user123"))
    ensures Descend(j, ["data", "user"]) == Some(TestUser)
    ensures Descend(j, ["data", "missing"]) == None
  {
    assert "missing" != "user" && "missing" != "token" by { assert "missing"[0] != "user"[0] && "missing"[0] != "token"[0]; }
    assert "user" != "token";
    assert "id" != "name";
    assert Get(j, "data") == Some(TestData);
    assert Get(TestData, "user") == Some(TestUser);
    assert Get(TestData, "token") == Some(JString("secret-token"));
    assert Get(TestData, "missing") == None;
    assert Get(TestUser, "id") == Some(JString("user123"));
    DescendOne(TestData, "token");
    DescendOne(TestData, "user");
    DescendOne(TestUser, "id");
    assert ["data", "token"] == ["data"] + ["token"];
    assert ["data", "user"] == ["data"] + ["user"];
    assert ["data", "missing"] == ["data"] + ["missing"];
    assert ["data", "user", "id"] == ["data"] + ["user"] + ["id"];
    DescendAppend(j, ["data"], ["token"]);
    DescendAppend(j, ["data"], ["user"]);
    DescendAppend(j, ["data"], ["missing"]);
    DescendAppend(j, ["data"] + ["user"], ["id"]);
    DescendAppend(j, ["data"], ["user"]);
    DescendOne(j, "data");
    DescendOne(TestData, "missing");
  }

  lemma DescendOne(j: Json, k: string)
    ensures Descend(j, [k]) == Get(j, k)
  {
    assert [k][1..] == [];
  }

  /** test_extract_from_body: a nested string member is found. */
  lemma BodyExampleToken(req: Request, body: Payload, keys: seq<string>, locate: string)
    requires IsTestBody(body) && keys == ["data", "token"] && locate == Join(keys, KeySeparator)
    ensures ValueAt(req, "body", locate, Some(body), "Test") == Ok("secret-token")
  {
    BodyKeys(req, keys, body, "Test");
    TestBodyLookups(body.parsed.value);
  }

  /** test_extract_from_body: a string two objects down is found. */
  lemma BodyExampleUserId(req: Request, body: Payload, keys: seq<string>, locate: string)
    requires IsTestBody(body) && keys == ["data", "user", "id"] && locate == Join(keys, KeySeparator)
    ensures ValueAt(req, "body", locate, Some(body), "Test") == Ok("user123")
  {
    BodyKeys(req, keys, body, "Test");
    TestBodyLookups(body.parsed.value);
  }

  /** test_extract_from_body: a missing member, or no body at all, is an error. */
  lemma BodyExamplesMissing(req: Request, body: Payload, keys: seq<string>, locate: string)
    requires IsTestBody(body) && keys == ["data", "missing"] && locate == Join(keys, KeySeparator)
    ensures ValueAt(req, "body", locate, Some(body), "Test") == Err("Test" + " path not found in body")
    ensures ValueAt(req, "body", locate, None, "Test") == Err("Body expected but not provided")
  {
    DispatchBody(req, locate, None, "Test");
    BodyKeys(req, keys, body, "Test");
    TestBodyLookups(body.parsed.value);
  }

  /** test_extract_from_body: an object where a string is wanted is an error. */
  lemma BodyExamplesNotString(req: Request, body: Payload, keys: seq<string>, locate: string)
    requires IsTestBody(body) && keys == ["data", "user"] && locate == Join(keys, KeySeparator)
    ensures ValueAt(req, "body", locate, Some(body), "Test") == Err("Test" + " value in body is not a string")
  {
    BodyKeys(req, keys, body, "Test");
    TestBodyLookups(body.parsed.value);
    assert Descend(body.parsed.value, keys) == Some(TestUser);
    assert !TestUser.JString?;
  }
}
