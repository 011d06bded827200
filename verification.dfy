/**
 * The verification handshake a webhook provider performs: the request path must match
 * the template, then the token is read and compared, then the challenge is read and
 * echoed back inside the configured response.
 */
module Verification {
  import opened Wrappers
  import opened Sequences
  import opened Text
  import opened JsonValues
  import opened Http
  import opened Config
  import opened Extractors

  /** The placeholder in the response data that the challenge replaces. */
  const ChallengePlaceholder: string := "@challenge"

  const InvalidPathError: string := "Invalid verification path"

  /**
   * The body of a successful answer: the data with every placeholder replaced, either as
   * it stands or as a string nested under the `::`-separated keys of `in_path`.
   */
  function ResponseData(rc: ResponseConfig, challenge: string): (r: ResponseBody)
    ensures r.TextBody? <==> rc.inPath.None?
    ensures r.JsonBody? <==> rc.inPath.Some?
  {
    var value := Replace(rc.data, ChallengePlaceholder, challenge);
    match rc.inPath
    case None => TextBody(value)
    case Some(p) => JsonBody(Nest(SplitOn(p, KeySeparator), JString(value)))
  }

  /** The outcome of `verify_from_config`: token, then its check, then challenge. */
  function Handshake(req: Request, body: Option<Payload>, c: VerificationConfig): (r: Result<Response, string>)
    ensures r.Ok? ==> r.value.status == StatusOk || r.value.status == StatusForbidden
    ensures r.Ok? && r.value.status == StatusForbidden ==> r.value.body == NoBody && r.value.contentType.None?
    ensures r.Ok? && r.value.status == StatusOk ==> r.value.body != NoBody && r.value.contentType.Some?
    ensures r.Ok? ==> ValueAt(req, c.token.location, c.token.locate, body, "Token").Ok?
    ensures r.Ok? && r.value.status == StatusOk ==>
      IsTokenValid(c, ValueAt(req, c.token.location, c.token.locate, body, "Token").value)
  {
    match ValueAt(req, c.token.location, c.token.locate, body, "Token")
    case Err(e) => Err(e)
    case Ok(token) =>
      if !IsTokenValid(c, token) then Ok(Response(StatusForbidden, None, NoBody))
      else
        match ValueAt(req, c.challenge.location, c.challenge.locate, body, "Challenge")
        case Err(e) => Err(e)
        case Ok(challenge) =>
          Ok(Response(StatusOk, Some(AsStr(c.response.contentType)), ResponseData(c.response, challenge)))
  }

  /** The outcome of `verification_handler` once the whole body has been collected. */
  function Handle(req: Request, body: seq<Byte>, parsed: Option<Json>, c: VerificationConfig): (r: Result<Response, string>)
    ensures !PathMatches(c, req.path) ==> r == Err(InvalidPathError)
    ensures r.Ok? ==> PathMatches(c, req.path) && (r.value.status == StatusOk || r.value.status == StatusForbidden)
  {
    if !PathMatches(c, req.path) then Err(InvalidPathError)
    else Handshake(req, Some(Payload(body, parsed)), c)
  }

  /**
   * The nesting loop of `verify_from_config`: walk down the keys, creating an empty
   * object for each key but the last, and put the value under the last one.
   */
  method BuildNested(parts: seq<string>, value: Json) returns (root: Json)
    requires |parts| > 0
    ensures root == Nest(parts, value)
  {
    root := JObject(map[]);
    for i := 0 to |parts|
      invariant i < |parts| ==> root == Nest(parts[..i], JObject(map[]))
      invariant i == |parts| ==> root == Nest(parts, value)
    {
      DescendNest(parts[..i], JObject(map[]));
      var current := Descend(root, parts[..i]).value;
      assert parts[..i] + [parts[i]] == parts[..i + 1];
      if i < |parts| - 1 {
        if Get(current, parts[i]).None? {
          SetAtNest(parts[..i], parts[i], JObject(map[]));
          root := SetAt(root, parts[..i], parts[i], JObject(map[]));
        }
      } else {
        SetAtNest(parts[..i], parts[i], value);
        root := SetAt(root, parts[..i], parts[i], value);
        assert parts[..i + 1] == parts;
      }
    }
  }

  /** The response-building part of `verify_from_config`. */
  method BuildResponseData(rc: ResponseConfig, challenge: string) returns (data: ResponseBody)
    ensures data == ResponseData(rc, challenge)
  {
    var value := Replace(rc.data, ChallengePlaceholder, challenge);
    if rc.inPath.Some? {
      var nested := BuildNested(SplitOn(rc.inPath.value, KeySeparator), JString(value));
      data := JsonBody(nested);
    } else {
      data := TextBody(value);
    }
  }

  /** `verify_from_config`. */
  method VerifyFromConfig(req: Request, body: Option<Payload>, c: VerificationConfig) returns (r: Result<Response, string>)
    ensures r == Handshake(req, body, c)
  {
    var token := ExtractToken(req, c.token, body);
    if token.Err? {
      return Err(token.error);
    }
    if !IsTokenValid(c, token.value) {
      return Ok(Response(StatusForbidden, None, NoBody));
    }
    var challenge := ExtractChallenge(req, c.challenge, body);
    if challenge.Err? {
      return Err(challenge.error);
    }
    var data := BuildResponseData(c.response, challenge.value);
    r := Ok(Response(StatusOk, Some(AsStr(c.response.contentType)), data));
  }

  /** `verification_handler`: the path is checked before anything else is looked at. */
  method VerificationHandler(req: Request, body: seq<Byte>, parsed: Option<Json>, c: VerificationConfig)
    returns (r: Result<Response, string>)
    ensures r == Handle(req, body, parsed, c)
  {
    var matches := IsVerificationPath(c, req.path);
    if !matches {
      return Err(InvalidPathError);
    }
    r := VerifyFromConfig(req, Some(Payload(body, parsed)), c);
  }

  // ---------------------------------------------------------------- properties

  /** A path that fails the template is rejected whatever the body, the token and the challenge settings. */
  lemma PathCheckedFirst(req: Request, body: seq<Byte>, parsed: Option<Json>, c: VerificationConfig)
    requires !PathMatches(c, req.path)
    ensures Handle(req, body, parsed, c) == Err(InvalidPathError)
    ensures forall t: TokenConfig, ch: ChallengeConfig :: Handle(req, body, parsed, c.(token := t, challenge := ch)) == Err(InvalidPathError)
  {
  }

  /**
   * When the token cannot be read, or does not match, the challenge settings are never
   * consulted: the outcome is the same for every challenge location.
   */
  lemma ChallengeReadAfterToken(req: Request, body: Option<Payload>, c: VerificationConfig, other: ChallengeConfig)
    requires match ValueAt(req, c.token.location, c.token.locate, body, "Token")
             case Err(_) => true
             case Ok(t) => !IsTokenValid(c, t)
    ensures Handshake(req, body, c.(challenge := other)) == Handshake(req, body, c)
  {
  }

  /** The three ways the handshake can end, and what decides each. */
  lemma HandshakeOutcomes(req: Request, body: Option<Payload>, c: VerificationConfig)
    ensures var token := ValueAt(req, c.token.location, c.token.locate, body, "Token");
      token.Err? ==> Handshake(req, body, c) == Err(token.error)
    ensures var token := ValueAt(req, c.token.location, c.token.locate, body, "Token");
      token.Ok? && !IsTokenValid(c, token.value) ==> Handshake(req, body, c) == Ok(Response(StatusForbidden, None, NoBody))
    ensures Handshake(req, body, c).Ok? && Handshake(req, body, c).value.status == StatusOk
      <==> (var token := ValueAt(req, c.token.location, c.token.locate, body, "Token");
            token.Ok? && IsTokenValid(c, token.value)
            && ValueAt(req, c.challenge.location, c.challenge.locate, body, "Challenge").Ok?)
    ensures Handshake(req, body, c).Ok? && Handshake(req, body, c).value.status == StatusOk
      ==> Handshake(req, body, c).value.contentType == Some(AsStr(c.response.contentType))
  {
  }

  /** Without `in_path` the answer is the data itself when it holds no placeholder. */
  lemma PlainDataUnchanged(rc: ResponseConfig, challenge: string)
    requires rc.inPath.None? && !Contains(rc.data, ChallengePlaceholder)
    ensures ResponseData(rc, challenge) == TextBody(rc.data)
  {
    ReplaceAbsent(rc.data, ChallengePlaceholder, challenge);
  }

  /** Without `in_path`, a placeholder in the data is replaced by the challenge: `x@challenge!` answers `x42!` to `42`. */
  lemma PlaceholderFilledIn(rc: ResponseConfig, challenge: string)
    requires rc.inPath.None? && rc.data == "x" + ChallengePlaceholder + "!" && challenge == "42"
    ensures ResponseData(rc, challenge) == TextBody("x42!")
  {
    ReplaceFirst("x", ChallengePlaceholder, challenge, "!");
    ReplaceAbsent("!", ChallengePlaceholder, challenge);
    assert "x" + challenge + "!" == "x42!";
  }

  /**
   * With `in_path` = `k0::…::kn`, every level of the answer is an object with the one
   * next key, and reading the same location back from the answer (as a body extractor
   * would) yields the substituted data.
   */
  lemma NestedAnswerReadsBack(req: Request, rc: ResponseConfig, challenge: string, keys: seq<string>, raw: seq<Byte>)
    requires |keys| > 0 && FreeOf(keys, ':') && rc.inPath == Some(Join(keys, KeySeparator))
    ensures ResponseData(rc, challenge).JsonBody?
    ensures forall i :: 0 <= i < |keys| ==>
      Descend(ResponseData(rc, challenge).json, keys[..i])
        == Some(JObject(map[keys[i] := Nest(keys[i + 1..], JString(Replace(rc.data, ChallengePlaceholder, challenge)))]))
    ensures ValueAt(req, "body", rc.inPath.value, Some(Payload(raw, Some(ResponseData(rc, challenge).json))), "Challenge")
      == Ok(Replace(rc.data, ChallengePlaceholder, challenge))
  {
    SplitJoin(keys, KeySeparator);
    var leaf := JString(Replace(rc.data, ChallengePlaceholder, challenge));
    forall i | 0 <= i < |keys|
      ensures Descend(Nest(keys, leaf), keys[..i]) == Some(JObject(map[keys[i] := Nest(keys[i + 1..], leaf)]))
    {
      NestLevels(keys, leaf, i);
    }
    BodyNest(req, keys, leaf, raw, "Challenge");
  }
}
