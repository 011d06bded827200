/**
 * The verification settings: which request path is the provider's handshake
 * endpoint, where the token and the challenge are found, and what to answer.
 * Holds the path-template matcher with its `...` wildcard.
 */
module Config {
  import opened Wrappers
  import opened Sequences
  import opened Text

  /** The literal every verification path template must begin with. */
  const CallbackPath: string := "callhook"

  /** The wildcard segment of a path template. */
  const Wildcard: string := "..."

  /** Where a value is read from (`in`: query, header, path or body) and under which name (`locate`). */
  datatype SourceConfig = SourceConfig(location: string, locate: string)
  type TokenConfig = SourceConfig
  type ChallengeConfig = SourceConfig

  datatype ContentType = TextPlain | ApplicationJson

  /** `ContentType::as_str`. */
  function AsStr(c: ContentType): (r: string)
    ensures r == "text/plain" || r == "application/json"
    ensures r == "text/plain" <==> c == TextPlain
  {
    match c
    case TextPlain => "text/plain"
    case ApplicationJson => "application/json"
  }

  /** `ContentType::deserialize` applied to the configured string. */
  function ParseContentType(s: string): (r: Result<ContentType, string>)
    ensures r.Ok? <==> s == "text/plain" || s == "application/json"
    ensures r.Ok? ==> (r.value == TextPlain <==> s == "text/plain")
    ensures r.Err? ==> r.error == "Invalid content type: " + s + ". Expected 'text/plain' or 'application/json'"
  {
    if s == "text/plain" then Ok(TextPlain)
    else if s == "application/json" then Ok(ApplicationJson)
    else Err("Invalid content type: " + s + ". Expected 'text/plain' or 'application/json'")
  }

  /** The two content types and their names are in one-to-one correspondence. */
  lemma ContentTypeRoundTrip(s: string, c: ContentType)
    ensures ParseContentType(AsStr(c)) == Ok(c)
    ensures ParseContentType(s) == Ok(c) <==> AsStr(c) == s
    ensures ParseContentType(s).Err? <==> s != "text/plain" && s != "application/json"
  {
  }

  /** What the handshake answers: `data` with `@challenge` filled in, optionally nested under `in_path`. */
  datatype ResponseConfig = ResponseConfig(contentType: ContentType, data: string, inPath: Option<string>)

  datatype VerificationConfig = VerificationConfig(
    path: string,
    httpMethod: string,
    rawToken: string,
    token: TokenConfig,
    challenge: ChallengeConfig,
    response: ResponseConfig)

  /** The method used when the configuration names none. */
  const DefaultMethod: string := "GET"

  /** `get_verification_method`: the configured method in upper case (ASCII letters only in this model). */
  function GetVerificationMethod(c: VerificationConfig): (r: string)
    ensures |r| == |c.httpMethod|
    ensures forall i :: 0 <= i < |r| ==> !('a' <= r[i] <= 'z')
    ensures forall i :: 0 <= i < |r| && !('a' <= c.httpMethod[i] <= 'z') ==> r[i] == c.httpMethod[i]
  {
    AsciiUpper(c.httpMethod)
  }

  lemma GetVerificationMethodExample(c: VerificationConfig)
    requires c.httpMethod == "post"
    ensures GetVerificationMethod(c) == "POST"
    ensures GetVerificationMethod(c.(httpMethod := GetVerificationMethod(c))) == GetVerificationMethod(c)
  {
    AsciiUpperIdempotent(c.httpMethod);
  }

  /** `set_expected_token`: the stored token becomes `t`. */
  function SetExpectedToken(c: VerificationConfig, t: string): (r: VerificationConfig)
    ensures r.rawToken == t
    ensures r.path == c.path && r.httpMethod == c.httpMethod && r.token == c.token
      && r.challenge == c.challenge && r.response == c.response
  {
    c.(rawToken := t)
  }

  lemma SetExpectedTokenReadsBack(c: VerificationConfig, t: string)
    ensures SetExpectedToken(c, t).rawToken == t
    ensures SetExpectedToken(c, t).(rawToken := c.rawToken) == c
  {
  }

  /** `is_token_valid`: the presented and the stored token agree once both are trimmed. */
  predicate IsTokenValid(c: VerificationConfig, token: string)
    ensures token == c.rawToken ==> IsTokenValid(c, token)
    ensures IsTokenValid(c, token) ==> |Trim(token)| == |Trim(c.rawToken)|
  {
    Trim(c.rawToken) == Trim(token)
  }

  /** Validity is symmetric: swapping the stored and the presented token gives the same answer. */
  lemma TokenValiditySymmetric(c: VerificationConfig, token: string)
    ensures IsTokenValid(c, token) <==> IsTokenValid(c.(rawToken := token), c.rawToken)
  {
  }

  /** Surrounding whitespace on the presented token never matters; the stored token always accepts itself. */
  lemma TokenValidityIgnoresPadding(c: VerificationConfig, w1: string, token: string, w2: string)
    requires AllSatisfy(w1, IsWhitespace) && AllSatisfy(w2, IsWhitespace)
    ensures IsTokenValid(c, w1 + token + w2) <==> IsTokenValid(c, token)
    ensures IsTokenValid(c, w1 + c.rawToken + w2)
  {
    TrimPadded(w1, token, w2);
    TrimPadded(w1, c.rawToken, w2);
  }

  // ---------------------------------------------------------------- path templates

  /** `is_verification_path_valid`: the first `/`-piece, or the second after a leading `/`, is the prefix. */
  predicate IsVerificationPathValid(c: VerificationConfig)
    ensures c.path == "" ==> !IsVerificationPathValid(c)
    ensures c.path == "/" ==> !IsVerificationPathValid(c)
  {
    var pieces := SplitOn(c.path, "/");
    if pieces[0] == "" then |pieces| > 1 && pieces[1] == CallbackPath else pieces[0] == CallbackPath
  }

  /**
   * A template is valid exactly when it is the prefix, or the prefix followed by `/`,
   * each optionally behind one leading `/`.
   */
  lemma ValidTemplateShape(c: VerificationConfig)
    ensures IsVerificationPathValid(c) <==>
      c.path == CallbackPath || IsPrefix(CallbackPath + "/", c.path)
      || c.path == "/" + CallbackPath || IsPrefix("/" + CallbackPath + "/", c.path)
  {
    LeadingPieceShape(c.path, CallbackPath);
  }

  lemma LeadingPieceShape(t: string, p: string)
    requires p != "" && '/' !in p
    ensures (var pieces := SplitOn(t, "/");
             if pieces[0] == "" then |pieces| > 1 && pieces[1] == p else pieces[0] == p)
        <==> t == p || IsPrefix(p + "/", t) || t == "/" + p || IsPrefix("/" + p + "/", t)
  {
    var pieces := SplitOn(t, "/");
    FirstPiece(t, "");
    FirstPiece(t, p);
    assert "" + "/" == "/";
    assert (p + "/")[0] == p[0] != '/';
    assert ("/" + p + "/")[0] == '/' && ("/" + p)[0] == '/';
    assert |t| > 0 ==> t[..1][0] == t[0];
    assert |p + "/"| <= |t| ==> t[..|p + "/"|][0] == t[0];
    if IsPrefix("/", t) {
      var rest := t[1..];
      assert t == "/" + rest;
      assert pieces == [""] + SplitOn(rest, "/");
      FirstPiece(rest, p);
      assert "/" + p + "/" == "/" + (p + "/");
      PrefixBehindSlash(p + "/", rest);
      PrefixBehindSlash(p, rest);
    }
  }

  /** A valid template is at least as long as the prefix itself. */
  lemma ValidTemplateLength(c: VerificationConfig)
    ensures IsVerificationPathValid(c) ==> |c.path| >= |CallbackPath|
  {
    ValidTemplateShape(c);
  }

  lemma PrefixBehindSlash(p: string, rest: string)
    ensures IsPrefix("/" + p, "/" + rest) <==> IsPrefix(p, rest)
    ensures "/" + p == "/" + rest <==> p == rest
  {
    if IsPrefix(p, rest) { assert ("/" + rest)[..|"/" + p|] == "/" + rest[..|p|]; }
    if IsPrefix("/" + p, "/" + rest) { assert rest[..|p|] == ("/" + rest)[1..|"/" + p|]; }
    if "/" + p == "/" + rest { assert p == ("/" + p)[1..] == ("/" + rest)[1..] == rest; }
  }

  /**
   * The templates test_is_verification_path_valid accepts: `<prefix>` and `<prefix>/endpoint`,
   * each with and without a leading `/`.
   */
  lemma ValidTemplatesAccepted(c: VerificationConfig, lead: string, rest: string)
    requires lead in {"", "/"} && rest in {"", "/endpoint"} && c.path == lead + CallbackPath + rest
    ensures IsVerificationPathValid(c)
  {
    ValidTemplateShape(c);
    var t := c.path;
    if rest == "" {
      assert t == lead + CallbackPath;
    } else {
      var base := lead + CallbackPath;
      assert rest == "/" + "endpoint";
      assert t == base + ("/" + "endpoint");
      assert base + ("/" + "endpoint") == (base + "/") + "endpoint";
      assert t[..|base + "/"|] == base + "/";
    }
  }

  /** The templates test_is_verification_path_valid rejects: empty, bare `/`, or the wrong prefix. */
  lemma ValidTemplatesRejected(c: VerificationConfig)
    requires c.path in {"", "/", "invalid", "/invalid", "/invalid/callhook"}
    ensures !IsVerificationPathValid(c)
  {
    ValidTemplateShape(c);
    var t := c.path;
    assert |CallbackPath + "/"| == 9 && |"/" + CallbackPath + "/"| == 10;
    assert ("/" + CallbackPath + "/")[1] == 'c' && ("/" + CallbackPath)[1] == 'c';
    if t == "/invalid/callhook" {
      assert (CallbackPath + "/")[0] == 'c';
      assert t[..9][0] == '/' && t[..10][1] == 'i';
    } else if t == "invalid" || t == "/invalid" {
      assert t[1] != 'c';
    }
  }

  /** The non-empty `/`-separated segments of a path. */
  function Segments(s: string): seq<string>
  {
    DropEmpty(SplitOn(s, "/"))
  }

  predicate AllWildcards(c: seq<string>)
  {
    forall i :: 0 <= i < |c| ==> c[i] == Wildcard
  }

  predicate NoWildcards(c: seq<string>)
  {
    forall i :: 0 <= i < |c| ==> c[i] != Wildcard
  }

  /**
   * The segment walk of `is_verification_path`, from template segments `c` and request
   * segments `r` onwards: a literal must equal the request segment; a wildcard that is
   * last accepts; a wildcard before another wildcard steps over it; a wildcard before a
   * literal jumps to that literal's first occurrence, which must not be the current
   * segment. When either side runs out, the rest of the template must be wildcards.
   */
  function Walk(c: seq<string>, r: seq<string>): bool
    ensures c == [] ==> Walk(c, r)
    ensures Walk(c, r) && c != [] && r != [] && c[0] != Wildcard ==> c[0] == r[0]
    decreases |c|
  {
    if c == [] || r == [] then AllWildcards(c)
    else if c[0] == Wildcard then
      if |c| == 1 then true
      else if c[1] == Wildcard then Walk(c[1..], r)
      else
        var k := IndexOf(r, c[1]);
        if k == |r| || k == 0 then false else Walk(c[1..], r[k..])
    else c[0] == r[0] && Walk(c[1..], r[1..])
  }

  /** The whole matcher: invalid templates match nothing; templates without `...` compare after slash-stripping. */
  predicate PathMatches(c: VerificationConfig, pathToCheck: string)
    ensures PathMatches(c, pathToCheck) ==> IsVerificationPathValid(c)
  {
    IsVerificationPathValid(c)
    && if Contains(c.path, Wildcard) then Walk(Segments(c.path), Segments(pathToCheck))
       else StripSlashes(c.path) == StripSlashes(pathToCheck)
  }

  /** `is_verification_path`. */
  method IsVerificationPath(c: VerificationConfig, pathToCheck: string) returns (b: bool)
    ensures b == PathMatches(c, pathToCheck)
  {
    if !IsVerificationPathValid(c) {
      return false;
    }
    if !Contains(c.path, Wildcard) {
      return StripSlashes(c.path) == StripSlashes(pathToCheck);
    }
    b := WalkSegments(Segments(c.path), Segments(pathToCheck));
  }

  /** The wildcard branch of `is_verification_path`: two cursors advancing over the segments. */
  method WalkSegments(configSegments: seq<string>, requestSegments: seq<string>) returns (b: bool)
    ensures b == Walk(configSegments, requestSegments)
  {
    var requestIdx, configIdx := 0, 0;
    while configIdx < |configSegments| && requestIdx < |requestSegments|
      invariant configIdx <= |configSegments| && requestIdx <= |requestSegments|
      invariant Walk(configSegments[configIdx..], requestSegments[requestIdx..]) == Walk(configSegments, requestSegments)
      decreases |configSegments| - configIdx
    {
      ghost var c, r := configSegments[configIdx..], requestSegments[requestIdx..];
      if configSegments[configIdx] == Wildcard {
        if configIdx == |configSegments| - 1 {
          return |requestSegments| - requestIdx >= 1;
        }
        var nextSegment := configSegments[configIdx + 1];
        assert c[1] == nextSegment && c[1..] == configSegments[configIdx + 1..];
        if nextSegment == Wildcard {
          configIdx := configIdx + 1;
          continue;
        }
        var savedRequestIdx := requestIdx;
        while requestIdx < |requestSegments| && requestSegments[requestIdx] != nextSegment
          invariant savedRequestIdx <= requestIdx <= |requestSegments|
          invariant forall j :: savedRequestIdx <= j < requestIdx ==> requestSegments[j] != nextSegment
        {
          requestIdx := requestIdx + 1;
        }
        IndexOfIs(r, nextSegment, requestIdx - savedRequestIdx);
        if requestIdx >= |requestSegments| {
          return false;
        }
        if requestIdx == savedRequestIdx {
          return false;
        }
        assert r[requestIdx - savedRequestIdx..] == requestSegments[requestIdx..];
        configIdx := configIdx + 1;
      } else if configSegments[configIdx] == requestSegments[requestIdx] {
        assert c[1..] == configSegments[configIdx + 1..] && r[1..] == requestSegments[requestIdx + 1..];
        requestIdx := requestIdx + 1;
        configIdx := configIdx + 1;
      } else {
        return false;
      }
    }
    return configIdx >= |configSegments| || AllWildcards(configSegments[configIdx..]);
  }

  // ---------------------------------------------------------------- properties of the walk

  /** Without wildcards the walk accepts exactly the requests that begin with the template's segments. */
  lemma {:induction false} WalkLiteral(c: seq<string>, r: seq<string>)
    requires NoWildcards(c)
    ensures Walk(c, r) <==> IsPrefix(c, r)
  {
    if c != [] {
      assert c[0] != Wildcard;
    }
    if c != [] && r != [] {
      WalkLiteral(c[1..], r[1..]);
      assert IsPrefix(c, r) <==> c[0] == r[0] && IsPrefix(c[1..], r[1..]) by {
        if |c| <= |r| { assert r[..|c|] == [r[0]] + r[1..][..|c| - 1]; assert c == [c[0]] + c[1..]; }
      }
    }
  }

  /**
   * A trailing wildcard after literal segments may consume zero or more further
   * segments: the template accepts exactly the requests that begin with its literals.
   */
  lemma {:induction false} WalkTrailingWildcard(c: seq<string>, r: seq<string>)
    requires NoWildcards(c)
    ensures Walk(c + [Wildcard], r) <==> IsPrefix(c, r)
  {
    var t := c + [Wildcard];
    if c == [] {
      assert t == [Wildcard];
    } else if r == [] {
      assert t[0] == c[0] != Wildcard;
    } else {
      assert t[0] == c[0] && t[1..] == c[1..] + [Wildcard];
      WalkTrailingWildcard(c[1..], r[1..]);
      assert IsPrefix(c, r) <==> c[0] == r[0] && IsPrefix(c[1..], r[1..]) by {
        if |c| <= |r| { assert r[..|c|] == [r[0]] + r[1..][..|c| - 1]; assert c == [c[0]] + c[1..]; }
      }
    }
  }

  /** A template of wildcards only accepts every request. */
  lemma {:induction false} WalkAllWildcards(c: seq<string>, r: seq<string>)
    requires AllWildcards(c)
    ensures Walk(c, r)
  {
    if c != [] && r != [] && |c| > 1 {
      WalkAllWildcards(c[1..], r);
    }
  }

  /** A run of adjacent wildcards behaves as one wildcard. */
  lemma {:induction false} WildcardRunCollapses(n: nat, c: seq<string>, r: seq<string>)
    requires n >= 1
    ensures Walk(seq(n, _ => Wildcard) + c, r) == Walk([Wildcard] + c, r)
  {
    var t := seq(n, _ => Wildcard) + c;
    if n > 1 {
      var t' := seq(n - 1, _ => Wildcard) + c;
      assert t[0] == Wildcard && t[1] == Wildcard && t[1..] == t';
      if r != [] {
        assert Walk(t, r) == Walk(t', r);
      } else {
        assert AllWildcards(t) <==> AllWildcards(t') by {
          assert forall i :: 0 <= i < |t'| ==> t'[i] == t[i + 1];
        }
      }
      WildcardRunCollapses(n - 1, c, r);
    } else {
      assert t == [Wildcard] + c;
    }
  }

  /** A literal segment must equal the request segment, and the walk then moves on from both. */
  lemma LiteralStep(c: seq<string>, r: seq<string>)
    requires c != [] && r != [] && c[0] != Wildcard
    ensures Walk(c, r) <==> c[0] == r[0] && Walk(c[1..], r[1..])
  {
  }

  /** A wildcard before a literal resumes at that literal's first occurrence, past at least one segment. */
  lemma WildcardJump(c: seq<string>, r: seq<string>, k: nat)
    requires |c| >= 2 && c[0] == Wildcard && c[1] != Wildcard
    requires 0 < k < |r| && r[k] == c[1] && c[1] !in r[..k]
    ensures Walk(c, r) == Walk(c[1..], r[k..])
  {
    IndexOfIs(r, c[1], k);
  }

  /** A wildcard before a literal that never occurs in the request fails. */
  lemma WildcardMiss(c: seq<string>, r: seq<string>)
    requires |c| >= 2 && c[0] == Wildcard && c[1] != Wildcard && c[1] !in r
    ensures !Walk(c, r)
  {
    if r != [] {
      IndexOfIs(r, c[1], |r|);
    }
  }

  /** A wildcard followed by a literal must consume at least one segment before that literal. */
  lemma WildcardConsumesOne(x: string, c: seq<string>, r: seq<string>)
    requires x != Wildcard
    ensures !Walk([Wildcard, x] + c, [x] + r)
  {
    var t := [Wildcard, x] + c;
    assert t[0] == Wildcard && t[1] == x && |t| > 1;
  }

  /** A wildcard followed by a literal jumps to that literal's first occurrence, and fails when there is none. */
  lemma WildcardJumpsToFirst(pre: seq<string>, x: string, c: seq<string>, post: seq<string>)
    requires x != Wildcard && pre != [] && x !in pre
    ensures Walk([Wildcard, x] + c, pre + [x] + post) == Walk([x] + c, [x] + post)
    ensures !Walk([Wildcard, x] + c, pre)
  {
    var t := [Wildcard, x] + c;
    var r := pre + [x] + post;
    assert t[0] == Wildcard && t[1] == x && |t| > 1 && t[1..] == [x] + c;
    IndexOfIs(r, x, |pre|);
    assert r[|pre|..] == [x] + post;
    IndexOfIs(pre, x, |pre|);
  }

  /**
   * Segments left over once the template is used up are never examined: a request that
   * matches keeps matching with more segments appended.
   */
  lemma {:induction false} WalkIgnoresLeftover(c: seq<string>, r: seq<string>, extra: seq<string>)
    requires Walk(c, r)
    ensures Walk(c, r + extra)
    decreases |c|
  {
    if c == [] {
    } else if r == [] {
      assert r + extra == extra;
      WalkAllWildcards(c, extra);
    } else if c[0] == Wildcard {
      if |c| > 1 && c[1] == Wildcard {
        WalkIgnoresLeftover(c[1..], r, extra);
      } else if |c| > 1 {
        var k := IndexOf(r, c[1]);
        IndexOfIs(r + extra, c[1], k);
        assert (r + extra)[k..] == r[k..] + extra;
        WalkIgnoresLeftover(c[1..], r[k..], extra);
      }
    } else {
      assert (r + extra)[0] == r[0] && (r + extra)[1..] == r[1..] + extra;
      WalkIgnoresLeftover(c[1..], r[1..], extra);
    }
  }

  /** A template that begins with `...` is invalid and so matches no request path. */
  lemma LeadingWildcardNeverMatches(c: VerificationConfig, pathToCheck: string)
    requires IsPrefix(Wildcard, c.path)
    ensures !PathMatches(c, pathToCheck)
  {
    assert c.path[0] == Wildcard[0];
    LeadingCharInvalid(c);
  }

  /** A template whose first character is neither `/` nor the prefix's first character is invalid. */
  lemma LeadingCharInvalid(c: VerificationConfig)
    requires c.path != [] && c.path[0] != '/' && c.path[0] != CallbackPath[0]
    ensures !IsVerificationPathValid(c)
  {
    ValidTemplateShape(c);
    LeadingCharExcludes(c.path, CallbackPath + "/");
    LeadingCharExcludes(c.path, "/" + CallbackPath + "/");
  }

  lemma LeadingCharExcludes(t: string, p: string)
    requires t != [] && p != [] && t[0] != p[0]
    ensures !IsPrefix(p, t)
  {
    assert |p| <= |t| ==> t[..|p|][0] == t[0];
  }

  // ---------------------------------------------------------------- the matcher on the documented cases

  lemma SegmentsOfJoin(pieces: seq<string>)
    requires |pieces| > 0 && FreeOf(pieces, '/')
    ensures Segments(Join(pieces, "/")) == DropEmpty(pieces)
  {
    SplitJoin(pieces, "/");
  }

  /** A valid template without `...` matches exactly the paths equal to it after stripping slashes. */
  lemma LiteralTemplateMatches(c: VerificationConfig, p: string)
    requires IsVerificationPathValid(c) && !Contains(c.path, Wildcard)
    ensures PathMatches(c, p) <==> StripSlashes(c.path) == StripSlashes(p)
  {
  }

  /** The template `<prefix>/endpoint` is valid, literal and already in normal form. */
  lemma EndpointTemplate(c: VerificationConfig)
    requires c.path == "callhook/endpoint"
    ensures IsVerificationPathValid(c) && !Contains(c.path, Wildcard) && StripSlashes(c.path) == c.path
  {
    ValidTemplateShape(c);
    assert c.path[..|CallbackPath + "/"|] == CallbackPath + "/";
    NotContainsFirstChar(c.path, Wildcard);
    StripSlashesClean(c.path);
  }

  /** Slashes added around a literal template do not stop it matching. */
  lemma LiteralTemplateSlashes(c: VerificationConfig, w1: string, w2: string)
    requires IsVerificationPathValid(c) && !Contains(c.path, Wildcard)
    requires AllSatisfy(w1, ch => ch == '/') && AllSatisfy(w2, ch => ch == '/')
    ensures PathMatches(c, w1 + c.path + w2)
  {
    StripSlashesPadded(w1, c.path, w2);
  }

  /** The accepted paths of test_is_verification_path_exact_matching: surrounding slashes are ignored. */
  lemma ExactMatchingAccepts(c: VerificationConfig, w1: string, w2: string)
    requires c.path == "callhook/endpoint"
    requires w1 in {"", "/"} && w2 in {"", "/"}
    ensures PathMatches(c, w1 + c.path + w2)
  {
    EndpointTemplate(c);
    LiteralTemplateSlashes(c, w1, w2);
  }

  /** The rejected paths of test_is_verification_path_exact_matching: anything else after stripping slashes. */
  lemma ExactMatchingRejects(c: VerificationConfig, p: string)
    requires c.path == "callhook/endpoint"
    requires p in {"callhook", "callhook/wrong", "callhook/endpoint/extra", "wrong/callhook/endpoint"}
    ensures !PathMatches(c, p)
  {
    EndpointTemplate(c);
    StripSlashesClean(p);
    LiteralTemplateMatches(c, p);
  }

  /**
   * A template written as `/`-joined pieces, one of them `...`: it is valid when its leading
   * piece (after an empty one for a leading `/`) is the prefix, and then a request path
   * written as joined pieces matches when the walk over the non-empty pieces accepts.
   */
  lemma JoinedWildcardTemplate(c: VerificationConfig, t: seq<string>, k: nat, r: seq<string>)
    requires |t| > 0 && |r| > 0 && FreeOf(t, '/') && FreeOf(r, '/')
    requires c.path == Join(t, "/") && k < |t| && t[k] == Wildcard
    ensures IsVerificationPathValid(c) <==> if t[0] == "" then |t| > 1 && t[1] == CallbackPath else t[0] == CallbackPath
    ensures PathMatches(c, Join(r, "/")) <==> IsVerificationPathValid(c) && Walk(DropEmpty(t), DropEmpty(r))
  {
    SplitJoin(t, "/");
    SegmentsOfJoin(t);
    SegmentsOfJoin(r);
    JoinContainsPiece(t, k, "/");
  }

  /** The checks of test_is_verification_path_with_wildcards for `<prefix>/.../endpoint` that match, on segments. */
  lemma MiddleWildcardAccepts(t: seq<string>, r: seq<string>)
    requires t == ["callhook", "...", "endpoint"]
    requires r in {["callhook", "anything", "endpoint"], ["callhook", "multi", "level", "path", "endpoint"]}
    ensures Walk(t, r)
  {
    LiteralStep(t, r);
    var tail := t[1..];
    assert tail == [Wildcard, "endpoint"];
    if r == ["callhook", "anything", "endpoint"] {
      WildcardJump(tail, r[1..], 1);
      assert r[1..][1..] == ["endpoint"];
    } else {
      WildcardJump(tail, r[1..], 3);
      assert r[1..][3..] == ["endpoint"];
    }
    assert tail[1..] == ["endpoint"];
    LiteralStep(["endpoint"], ["endpoint"]);
  }

  /** The checks of test_is_verification_path_with_wildcards for `<prefix>/.../endpoint` that fail, on segments. */
  lemma MiddleWildcardRejects(t: seq<string>, r: seq<string>)
    requires t == ["callhook", "...", "endpoint"]
    requires r in {["callhook", "endpoint"], ["callhook", "endpoint", "extra"], ["callhook"]}
    ensures !Walk(t, r)
  {
    LiteralStep(t, r);
    if r != ["callhook"] {
      WildcardConsumesOne("endpoint", [], r[2..]);
      assert [Wildcard, "endpoint"] + [] == t[1..] && ["endpoint"] + r[2..] == r[1..];
    } else {
      assert r[1..] == [];
      assert !AllWildcards(t[1..]) by { assert t[1..][1] == "endpoint"; }
    }
  }

  /** The checks of test_is_verification_path_with_wildcards for `<prefix>/endpoint/...`, on segments. */
  lemma TrailingWildcardExamples(t: seq<string>, r: seq<string>)
    requires t == ["callhook", "endpoint", "..."]
    ensures r in {["callhook", "endpoint"], ["callhook", "endpoint", "extra"], ["callhook", "endpoint", "multi", "level", "extra"]}
      ==> Walk(t, r)
    ensures r in {["callhook"], ["callhook", "wrong"]} ==> !Walk(t, r)
  {
    assert t == ["callhook", "endpoint"] + [Wildcard];
    WalkTrailingWildcard(["callhook", "endpoint"], r);
    if |r| >= 2 {
      assert r[..2] == [r[0], r[1]];
    }
  }

  /**
   * With `<prefix>/.../middle/.../endpoint`, any non-empty run of segments may stand
   * in for each wildcard, as long as the run does not already hold the literal after it.
   */
  lemma TwoWildcardsMatch(t: seq<string>, a: seq<string>, b: seq<string>)
    requires t == ["callhook", "...", "middle", "...", "endpoint"]
    requires a != [] && b != [] && "middle" !in a && "endpoint" !in b
    ensures Walk(t, ["callhook"] + a + ["middle"] + b + ["endpoint"])
  {
    var r := ["callhook"] + a + ["middle"] + b + ["endpoint"];
    var tail := [Wildcard, "endpoint"];
    LiteralStep(t, r);
    assert r[1..] == a + ["middle"] + (b + ["endpoint"]);
    assert t[1..] == [Wildcard, "middle"] + tail;
    WildcardJumpsToFirst(a, "middle", tail, b + ["endpoint"]);
    LiteralStep(["middle"] + tail, ["middle"] + (b + ["endpoint"]));
    assert (["middle"] + tail)[1..] == tail && (["middle"] + (b + ["endpoint"]))[1..] == b + ["endpoint"];
    WildcardJumpsToFirst(b, "endpoint", [], []);
    assert [Wildcard, "endpoint"] + [] == tail && b + ["endpoint"] + [] == b + ["endpoint"];
    LiteralStep(["endpoint"], ["endpoint"]);
  }

  /** The accepted paths of test_is_verification_path_multiple_wildcards, on segments. */
  lemma MultipleWildcardAccepts(t: seq<string>, r: seq<string>)
    requires t == ["callhook", "...", "middle", "...", "endpoint"]
    requires r in {["callhook", "anything", "middle", "something", "endpoint"], ["callhook", "a", "b", "c", "middle", "x", "y", "z", "endpoint"]}
    ensures Walk(t, r)
  {
    if r == ["callhook", "anything", "middle", "something", "endpoint"] {
      assert r == ["callhook"] + ["anything"] + ["middle"] + ["something"] + ["endpoint"];
      TwoWildcardsMatch(t, ["anything"], ["something"]);
    } else {
      assert r == ["callhook"] + ["a", "b", "c"] + ["middle"] + ["x", "y", "z"] + ["endpoint"];
      TwoWildcardsMatch(t, ["a", "b", "c"], ["x", "y", "z"]);
    }
  }

  /** The rejected paths of test_is_verification_path_multiple_wildcards, on segments. */
  lemma MultipleWildcardRejects(t: seq<string>)
    requires t == ["callhook", "...", "middle", "...", "endpoint"]
    ensures !Walk(t, ["callhook", "middle", "endpoint"])
    ensures !Walk(t, ["callhook", "anything", "endpoint"])
    ensures !Walk(t, ["callhook", "anything", "middle"])
  {
    var mid, tail := t[1..], t[3..];
    assert mid == [Wildcard, "middle", Wildcard, "endpoint"] && mid[1..] == ["middle"] + tail;
    assert tail == [Wildcard, "endpoint"];
    WildcardConsumesOne("middle", tail, ["endpoint"]);
    assert [Wildcard, "middle"] + tail == mid;
    WildcardMiss(mid, ["anything", "endpoint"]);
    WildcardJump(mid, ["anything", "middle"], 1);
    LiteralStep(mid[1..], ["middle"]);
    assert tail[1] != Wildcard && !Walk(tail, []);
  }

  /** The checks of test_is_verification_path_adjacent_wildcards, on segments. */
  lemma AdjacentWildcardExamples(t: seq<string>, r: seq<string>)
    requires t == ["callhook", "...", "...", "...", "endpoint"]
    ensures r in {["callhook", "a", "b", "c", "endpoint"], ["callhook", "a", "b", "c", "d", "endpoint"]} ==> Walk(t, r)
    ensures r in {["callhook", "a", "b", "c"], ["callhook", "a", "b", "c", "wrong"]} ==> !Walk(t, r)
  {
    var last := t[3..];
    assert last == [Wildcard, "endpoint"];
    if r != [] && r[0] == "callhook" {
      WildcardRunCollapses(3, ["endpoint"], r[1..]);
      assert seq(3, _ => Wildcard) + ["endpoint"] == t[1..];
      assert [Wildcard] + ["endpoint"] == last;
    }
    if r == ["callhook", "a", "b", "c", "endpoint"] {
      WildcardJump(last, r[1..], 3);
    } else if r == ["callhook", "a", "b", "c", "d", "endpoint"] {
      WildcardJump(last, r[1..], 4);
    } else if r in {["callhook", "a", "b", "c"], ["callhook", "a", "b", "c", "wrong"]} {
      WildcardMiss(last, r[1..]);
    }
  }
  /** The checks of test_is_verification_path_edge_cases: an invalid template matches nothing. */
  lemma InvalidTemplateExamples(c: VerificationConfig, p: string)
    requires c.path in {"invalid", ""}
    ensures !PathMatches(c, p)
  {
    ValidTemplatesRejected(c);
  }
}
