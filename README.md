# pollhook_rs in Dafny

pollhook_rs is a small webhook relay. Providers post JSON payloads to it. Clients
pick those payloads up later with an authenticated long-poll request. A provider
first proves it controls the endpoint with a verification handshake: the provider
sends a token and a challenge; the service compares the token with its own and
echoes the challenge back in a configured shape.

This project models the parts of the service that make decisions, and proves
properties of them:

- **The verification path matcher** (`Config`). A template such as
  `callhook/.../endpoint` must begin with the callback prefix. A `...` wildcard
  stands for one or more path segments. Templates without a wildcard compare after
  leading and trailing `/` are stripped. The wildcard walk is a two-cursor loop
  (`WalkSegments`), proved equal to the recursive definition `Walk`. The lemmas about
  `Walk` cover the documented edge cases:
  - a leading wildcard never matches;
  - a wildcard before a literal consumes at least one segment;
  - a trailing wildcard may consume none;
  - adjacent wildcards collapse into one;
  - segments left over after the template is used up are ignored.
- **Token comparison and small configuration rules** (`Config`): trimming, the
  content-type names, method upper-casing and setting the expected token.
- **The extractors** (`Extractors`). They read the token or the challenge from the
  decoded query, a header, a `/`-piece of the path, or a `::`-separated key walk
  through the JSON body. Each failure has its own error text.
- **The handshake** (`Verification`). The path is checked first, then the token,
  then the challenge. The response data has every `@challenge` filled in.
  Optionally it is nested as single-key objects under `in_path`; the nesting loop is
  proved to build exactly that nest.
- **The ordered cache** (`Cache`). For each alias it holds a key/value map and a queue
  of keys in arrival order.
  - Re-inserting a key moves it to the back of the queue.
  - `remove_oldest` and `remove_newest` pop up to `n` keys from one end. They return
    the keys that still have a value and silently drop the expired ones.
  - In the class `OrderedCache` the maps are fields and the loops are methods. Each
    method is proved against the drain functions `DrainOldest` and `DrainNewest`.
  - Closed-form lemmas say what a drain takes and what it leaves behind.
  - The queue invariant is preserved by every operation: no duplicate keys, and every
    live key is queued.
- **Long-poll retrieval** (`DataPolling`): the alias check, the retry loop
  around `remove_oldest`, and the mapping of the outcome to an `error`,
  `success` or `timeout` answer with `_cache_key` tagging.
- **The endpoint decisions** (`Endpoint`):
  - the case-sensitive `Bearer ` gate on retrieval, with exact token comparison;
  - the status chosen for each outcome (200, 401 or 500);
  - a failed verification becomes a 400 with the failure text;
  - the ingestion endpoint always answers 200.

Modules: `Wrappers` (Option, Result), `Sequences`, `Text` (split, join, trim,
replace, decimal numbers, ASCII case), `JsonValues` (a JSON datatype with object
lookup and nesting), `Http` (requests and responses), then the six modules above.
There are no concurrent producers between two drains. Time is modelled as a bound
on the number of drains.

## Model

| member | source | states |
|---|---|---|
| Config.AsStr | src/verification_handler/verification_config.rs:63-71 | the name of a content type is `text/plain` or `application/json`, and `text/plain` exactly for the plain type |
| Config.ParseContentType | src/verification_handler/verification_config.rs:46-60 | a string parses exactly when it is one of the two names, to the type of that name; any other string is `Invalid content type: <s>. Expected 'text/plain' or 'application/json'` |
| Config.GetVerificationMethod | src/verification_handler/verification_config.rs:118-120 | the method name keeps its length, holds no lower-case ASCII letter, and keeps every character that is not one |
| Config.SetExpectedToken | src/verification_handler/verification_config.rs:122-129 | the new configuration holds the given expected token, and every other field is unchanged |
| Config.IsTokenValid | src/verification_handler/verification_config.rs:144-146 | the stored token is accepted as itself; accepted tokens trim to the same length as the stored one |
| Config.TokenValiditySymmetric | src/verification_handler/verification_config.rs:144-146 | swapping the stored and the presented token never changes validity |
| Config.IsVerificationPathValid | src/verification_handler/verification_config.rs:148-168 | the empty template and the template `/` are invalid |
| Config.ValidTemplateLength | src/verification_handler/verification_config.rs:148-168 | a valid template is at least as long as the callback prefix |
| Config.Walk | src/verification_handler/verification_config.rs:187-246 | a template used up accepts whatever request is left; a successful walk whose first template segment is a literal begins with that literal |
| Config.PathMatches | src/verification_handler/verification_config.rs:170-253 | no path matches an invalid template |
| Config.ContentTypeRoundTrip | src/verification_handler/verification_config.rs:46-71 | parsing a content type's name gives it back; a string parses to a type exactly when it is that type's name; only the two names parse |
| Config.GetVerificationMethodExample | src/verification_handler/verification_config.rs:118-120 | (helper) `post` is reported as `POST`, and upper-casing the reported method again changes nothing |
| Config.SetExpectedTokenReadsBack | src/verification_handler/verification_config.rs:122-129 | after setting the expected token it reads back as set, and no other field changes |
| Config.TokenValidityIgnoresPadding | src/verification_handler/verification_config.rs:144-146 | whitespace around the presented token never changes validity, and the stored token padded with whitespace is always accepted |
| Config.ValidTemplateShape | src/verification_handler/verification_config.rs:148-168 | a template is valid exactly when it is the prefix, or starts with the prefix and `/`, each optionally behind one leading `/` |
| Config.LeadingPieceShape | src/verification_handler/verification_config.rs:151-167 | the first-piece test (the second piece after a leading `/`) holds exactly for those four shapes of a `/`-free piece |
| Config.ValidTemplatesAccepted | src/verification_handler/test.rs:160-165 | `callhook`, `callhook/endpoint`, `/callhook` and `/callhook/endpoint` are valid templates |
| Config.ValidTemplatesRejected | src/verification_handler/test.rs:167-172 | `""`, `/`, `invalid`, `/invalid` and `/invalid/callhook` are invalid templates |
| Config.PrefixBehindSlash | src/verification_handler/verification_config.rs:158-160 | a leading `/` on both sides preserves prefix and equality in both directions |
| Config.IsVerificationPath | src/verification_handler/verification_config.rs:170-253 | the method returns exactly `PathMatches`: false for an invalid template, the walk over non-empty segments when the template holds `...`, slash-stripped equality otherwise |
| Config.WalkSegments | src/verification_handler/verification_config.rs:187-246 | the two-cursor loop with its inner search returns exactly `Walk` of the segment lists |
| Config.WalkLiteral | src/verification_handler/verification_config.rs:232-246 | a template without wildcards walks successfully exactly over requests that begin with its segments |
| Config.WalkTrailingWildcard | src/verification_handler/verification_config.rs:194-197 | literals followed by a final `...` accept exactly the requests that begin with the literals, with zero or more segments after them |
| Config.WalkAllWildcards | src/verification_handler/verification_config.rs:245-246 | a template of wildcards only accepts every request, including the empty one |
| Config.WildcardRunCollapses | src/verification_handler/verification_config.rs:205-210 | a run of `n >= 1` adjacent wildcards walks exactly like a single wildcard |
| Config.LiteralStep | src/verification_handler/verification_config.rs:232-240 | (helper) a literal template segment succeeds exactly when it equals the current request segment and the rest walks |
| Config.WildcardJump | src/verification_handler/verification_config.rs:212-230 | a wildcard before a literal resumes at the literal's first occurrence when that occurrence is not at the cursor |
| Config.WildcardMiss | src/verification_handler/verification_config.rs:216-222 | a wildcard before a literal that does not occur in the request fails |
| Config.WildcardConsumesOne | src/verification_handler/verification_config.rs:224-227 | a wildcard whose next literal is already at the cursor fails, because it would consume no segment |
| Config.WildcardJumpsToFirst | src/verification_handler/verification_config.rs:212-230 | with a non-empty run free of the literal in front of it, the walk continues at the literal; on that run alone it fails |
| Config.WalkIgnoresLeftover | src/verification_handler/verification_config.rs:245-246 | a request that matches still matches with any segments appended |
| Config.LeadingWildcardNeverMatches | src/verification_handler/verification_config.rs:172-174 | a template beginning with `...` matches no request path |
| Config.LeadingCharInvalid | src/verification_handler/verification_config.rs:157-167 | a template whose first character is neither `/` nor the prefix's first character is invalid |
| Config.LeadingCharExcludes | src/verification_handler/verification_config.rs:164 | (helper) a differing first character excludes a prefix |
| Config.SegmentsOfJoin | src/verification_handler/verification_config.rs:180-185 | the segments of `/`-joined pieces are the non-empty pieces |
| Config.LiteralTemplateMatches | src/verification_handler/verification_config.rs:247-252 | a valid template without `...` matches exactly the paths that equal it once leading and trailing `/` are stripped |
| Config.EndpointTemplate | src/verification_handler/test.rs:176-179 | `callhook/endpoint` is valid, holds no wildcard and is already in stripped form |
| Config.LiteralTemplateSlashes | src/verification_handler/verification_config.rs:249-251 | any run of `/` added on either side of a valid literal template still matches it |
| Config.ExactMatchingAccepts | src/verification_handler/test.rs:181-184 | `callhook/endpoint` matches itself with or without a leading and a trailing `/` |
| Config.ExactMatchingRejects | src/verification_handler/test.rs:187-190 | `callhook/endpoint` does not match `callhook`, `callhook/wrong`, `callhook/endpoint/extra` or `wrong/callhook/endpoint` |
| Config.JoinedWildcardTemplate | src/verification_handler/verification_config.rs:148-185 | for a `/`-joined template with a `...` piece: validity is the first-piece rule, and the matcher is validity plus the walk over the non-empty pieces |
| Config.MiddleWildcardAccepts | src/verification_handler/test.rs:196-200 | `callhook/.../endpoint` accepts `callhook/anything/endpoint` and `callhook/multi/level/path/endpoint` (also behind a leading `/`, which gives the same segments) |
| Config.MiddleWildcardRejects | src/verification_handler/test.rs:202-204 | `callhook/.../endpoint` rejects `callhook/endpoint`, `callhook/endpoint/extra` and `callhook` |
| Config.TrailingWildcardExamples | src/verification_handler/test.rs:207-214 | `callhook/endpoint/...` accepts `callhook/endpoint` with zero, one or three more segments, and rejects `callhook` and `callhook/wrong` |
| Config.TwoWildcardsMatch | src/verification_handler/verification_config.rs:212-230 | in `callhook/.../middle/.../endpoint`, each wildcard can stand for any non-empty run that does not hold the literal after it |
| Config.MultipleWildcardAccepts | src/verification_handler/test.rs:228-233 | the two documented paths through `callhook/.../middle/.../endpoint` are accepted |
| Config.MultipleWildcardRejects | src/verification_handler/test.rs:235-237 | `callhook/middle/endpoint`, `callhook/anything/endpoint` and `callhook/anything/middle` are rejected |
| Config.AdjacentWildcardExamples | src/verification_handler/test.rs:241-258 | `callhook/.../.../.../endpoint` accepts three or four middle segments and rejects a path without `endpoint` |
| Config.InvalidTemplateExamples | src/verification_handler/test.rs:262-272 | the templates `invalid` and `""` match no path |
| Extractors.DispatchQuery | src/verification_handler/extractors.rs:17-28 | (helper) location `query` selects the query branch |
| Extractors.DispatchHeader | src/verification_handler/extractors.rs:29-42 | (helper) location `header` selects the header branch |
| Extractors.DispatchPath | src/verification_handler/extractors.rs:43-57 | (helper) location `path` selects the path branch |
| Extractors.DispatchBody | src/verification_handler/extractors.rs:58-89 | (helper) location `body` selects the body branch |
| Extractors.ValueAt | src/verification_handler/extractors.rs:10-95 | a value is found only for the four locations; a body value needs a body that parsed; a query value needs a decoded query holding the parameter |
| Extractors.QueryValue | src/verification_handler/extractors.rs:18-28 | (helper) the `query` branch: the decoded parameter, `<type> not found in query`, or the decode error; stated by `QueryLookup` |
| Extractors.HeaderValueAt | src/verification_handler/extractors.rs:29-42 | (helper) the `header` branch: the readable header value, `<type> not found in header`, or `Invalid header value`; stated by `HeaderLookup` |
| Extractors.PathValue | src/verification_handler/extractors.rs:43-57 | (helper) the `path` branch: a `usize` index into the `/`-pieces, or the invalid-index or out-of-bounds error; stated by `PathIndex` and `PathIndexNotANumber` |
| Extractors.BodyValue | src/verification_handler/extractors.rs:58-89 | (helper) the `body` branch: the `::` key walk ending at a string; stated by `BodyKeys`, `BodyNest` and `BodyFailures` |
| Extractors.ExtractValue | src/verification_handler/extractors.rs:10-95 | the method, whose key walk is a loop, returns exactly `ValueAt`: the five branches with their error texts |
| Extractors.ExtractToken | src/verification_handler/extractors.rs:98-104 | the token is the value at the token's `in`/`locate`, with errors reported for `Token` |
| Extractors.ExtractChallenge | src/verification_handler/extractors.rs:106-112 | the challenge is the value at the challenge's `in`/`locate`, with errors reported for `Challenge` |
| Extractors.UnsupportedLocation | src/verification_handler/extractors.rs:90-93 | any location other than the four names is the `Unsupported <type> location` error, whatever the request |
| Extractors.QueryLookup | src/verification_handler/extractors.rs:18-28 | a query value is found exactly when the decoded query holds the parameter, and it is that parameter's value |
| Extractors.HeaderLookup | src/verification_handler/extractors.rs:29-42 | header lookup ignores ASCII case in the name, and succeeds exactly when the header is present and its value is plain text |
| Extractors.PathIndex | src/verification_handler/extractors.rs:43-52 | the decimal index `i` reads `/`-piece `i` (piece 0 is empty for a leading `/`); an index past the last piece is the out-of-bounds error |
| Extractors.PathIndexNotANumber | src/verification_handler/extractors.rs:53-56 | a locate that does not start with a digit or `+` is the invalid-index error |
| Extractors.BodyNest | src/verification_handler/extractors.rs:63-80 | following `k0::…::kn` through a body nested under those keys yields its string leaf; any other leaf is the not-a-string error |
| Extractors.BodyKeys | src/verification_handler/extractors.rs:63-80 | a `::`-joined location descends exactly those keys: missing gives the path-not-found error, a string is returned, anything else is the not-a-string error |
| Extractors.BodyFailures | src/verification_handler/extractors.rs:58-88 | a missing body, an unparsable body and a missing key each give their own error |
| Extractors.QueryExamples | src/verification_handler/test.rs:15-25 | `param=value` yields `value`; a query without `param` gives `Test not found in query` |
| Extractors.HeaderExamples | src/verification_handler/test.rs:28-41 | a present `authorization` header is returned verbatim; an absent one gives `Test not found in header` |
| Extractors.UnsupportedAndInvalidExamples | src/verification_handler/test.rs:100-112 | location `unsupported` is an error; a body that is not JSON gives the parse error |
| Extractors.PathExamples | src/verification_handler/test.rs:44-59 | on `/api/v1/resource`, index 3 is `resource`, index 5 is out of bounds, `not-a-number` is invalid |
| Extractors.TestBodyLookups | src/verification_handler/test.rs:62-76 | the lookups in the test document: `data/token`, `data/user/id` and `data/user` are found, `data/missing` is not |
| Extractors.DescendOne | src/verification_handler/extractors.rs:66-69 | (helper) a one-key walk is one object lookup |
| Extractors.BodyExampleToken | src/verification_handler/test.rs:77-79 | `data::token` yields `secret-token` |
| Extractors.BodyExampleUserId | src/verification_handler/test.rs:82-84 | `data::user::id` yields `user123` |
| Extractors.BodyExamplesMissing | src/verification_handler/test.rs:87-92 | `data::missing` gives the path-not-found error; no body gives the body-expected error |
| Extractors.BodyExamplesNotString | src/verification_handler/test.rs:95-96 | `data::user`, an object, gives the not-a-string error |
| Verification.ResponseData | src/verification_handler/verification.rs:63-97 | the data is plain text exactly when there is no `in_path`, and JSON exactly when there is one |
| Verification.Handshake | src/verification_handler/verification.rs:39-104 | a successful handshake answers 200 or 403; 403 has no body and no content type; 200 has both and means the token was read and valid |
| Verification.Handle | src/verification_handler/verification.rs:12-37 | a path that fails the matcher is `Invalid verification path`; any answer means the path matched and is 200 or 403 |
| Verification.PlaceholderFilledIn | src/verification_handler/verification.rs:94-97 | without `in_path`, the data `x@challenge!` answers `x42!` to the challenge `42` |
| Verification.BuildNested | src/verification_handler/verification.rs:65-88 | the loop that creates one empty object per key and puts the value under the last key builds exactly `Nest(keys, value)` |
| Verification.BuildResponseData | src/verification_handler/verification.rs:63-97 | the response data is `@challenge` substitution, nested under the `in_path` keys when `in_path` is given |
| Verification.VerifyFromConfig | src/verification_handler/verification.rs:39-104 | the method returns exactly `Handshake`: a token error propagates; an invalid token is 403 with no body; then a challenge error propagates; otherwise 200 with the configured content type and data |
| Verification.VerificationHandler | src/verification_handler/verification.rs:12-37 | the method returns exactly `Handle`: a path that fails the matcher is `Invalid verification path` before anything else, otherwise the handshake on the collected body |
| Verification.PathCheckedFirst | src/verification_handler/verification.rs:18-20 | a failing path is rejected whatever the body and whatever the token and challenge settings |
| Verification.ChallengeReadAfterToken | src/verification_handler/verification.rs:50-58 | when the token cannot be read or is invalid, the challenge settings do not affect the outcome |
| Verification.HandshakeOutcomes | src/verification_handler/verification.rs:50-103 | a token error is the outcome; an invalid token gives 403; the answer is 200 exactly when the token is valid and the challenge is read, and then carries the configured content type |
| Verification.PlainDataUnchanged | src/verification_handler/verification.rs:94-97 | without `in_path`, data holding no `@challenge` is sent unchanged |
| Verification.NestedAnswerReadsBack | src/verification_handler/verification.rs:63-92 | with `in_path` = `k0::…::kn`, each level is an object with the one next key, and a body extractor at `in_path` reads the substituted data back |
| Cache.RequeueKeepsQueue | src/cache.rs:45-51 | re-inserting keeps the queue invariant; the key occurs once, at the back, behind the other keys in their old order; the queue grows only for a new key |
| Cache.RequeueNoDup | src/cache.rs:48-51 | removing the key's old position and pushing it to the back keeps the queue free of duplicates |
| Cache.RequeueCovers | src/cache.rs:45-51 | after inserting, every key with a value is still queued |
| Cache.RequeueLength | src/cache.rs:48-51 | the queue grows by one for a new key and keeps its length for a known one |
| Cache.LiveEntriesWithout | src/cache.rs:69-71 | deleting a value outside the listed keys leaves their live entries unchanged |
| Cache.DrainOldestSpec | src/cache.rs:64-76 | `remove_oldest(n)` consumes a prefix of the queue and returns the live entries of that prefix with their values, front to back. Exactly those keys lose their values. At most `n` entries are taken, fewer only when the queue runs out. `n == 0` changes nothing |
| Cache.DrainOldestShape | src/cache.rs:67-74 | the queue loses a prefix, and at most `n` entries are taken, fewer only when the queue is emptied |
| Cache.DrainOldestItems | src/cache.rs:67-74 | the entries taken are the live entries of the consumed prefix, expired keys skipped and not counted |
| Cache.DrainItemsStep | src/cache.rs:68-72 | one pop of the front key, taken when live and skipped otherwise, extends the taken entries by that key's live entry |
| Cache.LiveEntriesCons | src/cache.rs:69-70 | (helper) the live entries of a key list are the first key's entry, if live, followed by the rest's |
| Cache.DrainOldestLive | src/cache.rs:69-71 | exactly the consumed live keys are deleted; every other value stays as it was |
| Cache.DrainOldestKeepsQueue | src/cache.rs:67-74 | draining from the front keeps the queue invariant, and every returned key has no value afterwards |
| Cache.DrainMirror | src/cache.rs:83-95 | draining from the back is draining from the front of the reversed queue |
| Cache.DrainNewestSpec | src/cache.rs:83-95 | `remove_newest(n)` consumes a suffix of the queue and returns its live entries newest first, at most `n`, fewer only when the queue runs out; exactly those keys lose their values |
| Cache.DrainNewestKeepsQueue | src/cache.rs:86-93 | draining from the back keeps the queue invariant, and every returned key has no value afterwards |
| Cache.ReverseQueue | src/cache.rs:86-87 | reversing a queue keeps the queue invariant |
| Cache.ExpireKeepsQueue | src/cache.rs:26-31 | (helper) TTL or capacity eviction of a value keeps the queue invariant |
| Cache.ReinsertionReorders | src/cache.rs:45-51 | inserting `f1`, then `f2`, then `f1` again queues `f2` before `f1`; one drain yields `f2`, two yield `f1` behind it with its second value |
| Cache.LiveEntries | src/cache.rs:67-74 | every listed entry is a live key of the list with its stored value, and there are no more entries than keys |
| Cache.DrainOldest | src/cache.rs:60-77 | a drain takes at most `n` entries and never lengthens the queue |
| Cache.DrainNewest | src/cache.rs:79-96 | a drain from the back takes at most `n` entries and never lengthens the queue |
| Cache.OrderedCache.HasAlias | src/cache.rs:118-120 | under the invariant, an alias is known exactly when it has a queue |
| Cache.OrderedCache.Get | src/cache.rs:56-58 | a value is found exactly when the alias is known and holds the key, and it is the stored value; a found key is queued; an unknown alias has no values |
| Cache.OrderedCache.constructor | src/cache.rs:16-39 | one empty map and one empty queue per listed alias, and no other alias |
| Cache.OrderedCache.Insert | src/cache.rs:41-54 | an unknown alias is `Alias not found` and nothing changes; otherwise the value is stored, the key is moved to the back, and `get` returns the value |
| Cache.OrderedCache.RemoveOldest | src/cache.rs:60-77 | an unknown alias is `Alias not found` and nothing changes; otherwise the result and the new map and queue are those of `DrainOldest` |
| Cache.OrderedCache.RemoveNewest | src/cache.rs:79-96 | an unknown alias is `Alias not found` and nothing changes; otherwise the result and the new map and queue are those of `DrainNewest` |
| Cache.OrderedCache.AddAlias | src/cache.rs:99-115 | the alias gets a fresh empty map and queue, replacing any it had; the other aliases are untouched |
| Cache.OrderedCache.GetAliases | src/cache.rs:123-125 | every alias exactly once, and nothing else |
| Cache.OrderedCache.Expire | src/cache.rs:26-31 | the value under the key is dropped from the alias's map; every queue is untouched |
| DataPolling.Poll | src/polling_handler/data_polling.rs:57-80 | polling that completes has between 1 and `n` entries and no error, and never lengthens the queue |
| DataPolling.AddCacheKeys | src/polling_handler/data_polling.rs:82-89 | one output per entry, in order; an object stays an object whose members gain `_cache_key` set to its key; any other value is kept as it is |
| DataPolling.TagWithKey | src/polling_handler/data_polling.rs:83-87 | (helper) one item of the tagging map: an object gains `_cache_key`, any other value is kept; stated by `AddCacheKeysSpec` |
| DataPolling.Respond | src/polling_handler/data_polling.rs:36-54 | `error` exactly for an unknown alias, `success` exactly for a non-empty drain, else `timeout`; the count is the number of data items; success carries the tagged entries and the others none |
| DataPolling.PollForData | src/polling_handler/data_polling.rs:57-80 | an unknown alias ends polling with `Alias not found`; otherwise the outcome and the new map and queue are those of `Poll` |
| DataPolling.RetrieveDataWithPolling | src/polling_handler/data_polling.rs:18-55 | always `Ok`; an unknown alias gets the error answer with nothing drained; a known one gets the answer for `Poll`'s outcome and the state `Poll` leaves |
| DataPolling.UnknownAlias | src/polling_handler/data_polling.rs:24-31 | status `error`, message `Alias '<a>' not found`, count 0, no data |
| DataPolling.ResponseShapes | src/polling_handler/data_polling.rs:36-54 | every answer is `error`, `success` or `timeout`; success holds exactly for a non-empty drained list, with `count` equal to the number of values and those values the key-tagged entries; every other case of a known alias is the timeout answer |
| DataPolling.AddCacheKeysSpec | src/polling_handler/data_polling.rs:82-89 | length and order are kept; an object gains `_cache_key` set to its key and keeps every other member; any other value is unchanged |
| DataPolling.AddCacheKeysAppend | src/polling_handler/data_polling.rs:83-88 | tagging maps each entry on its own, so it distributes over concatenation |
| DataPolling.DrainEmptyQueue | src/cache.rs:67 | (helper) a drain of an empty queue takes nothing and changes nothing |
| DataPolling.PollResults | src/polling_handler/data_polling.rs:64-79 | polling ends with the time up, or with between 1 and `n` entries; it never ends with an error on an existing alias, and it keeps the queue invariant |
| DataPolling.EmptyDrainExhausts | src/polling_handler/data_polling.rs:69-71 | a drain for `n > 0` that takes nothing leaves an empty queue and no values |
| DataPolling.PollNothing | src/polling_handler/data_polling.rs:64-79 | an empty alias times out after every retry, and it stays empty |
| DataPolling.PollFirstDrainDecides | src/polling_handler/data_polling.rs:64-71 | with no producer in between, polling returns the first drain's entries if it took any, and otherwise times out |
| DataPolling.PollZero | src/polling_handler/data_polling.rs:65-71 | asking for zero entries always times out and leaves the map and queue as they were |
| DataPolling.RetrievalOutcome | src/polling_handler/data_polling.rs:36-54 | on a known alias, a success lists 1 to `max_polled_items` values, the oldest live entries tagged with their keys, front to back; otherwise the answer is the timeout answer |
| Endpoint.Authorize | src/endpoint_handler.rs:54-61 | the header counts as present exactly when it is readable and starts with `Bearer `; the gate opens exactly when it is `Bearer ` followed by the token |
| Endpoint.DataResponseJson | src/endpoint_handler.rs:66 | (helper) the JSON document of a polling response, with its `status`, `message`, `count` and `data` fields; used by `RetrievalStatuses` |
| Endpoint.FailureJson | src/endpoint_handler.rs:69-74 | (helper) the 500 body as written, with `success: false`, the failure message, count 0 and no data; stated by `RetrievalStatuses` |
| Endpoint.UnauthorizedResponse | src/endpoint_handler.rs:77-87 | (helper) a 401 with `error: Unauthorized` and the given message; stated by `RetrievalStatuses` |
| Endpoint.RetrievalReply | src/endpoint_handler.rs:65-75 | (helper) 200 with the polling response, or 500 with the failure body; stated by `RetrievalStatuses` |
| Endpoint.VerificationReply | src/endpoint_handler.rs:17-23 | (helper) the handler's response, or 400 `Verification failed: <error>`; stated by `VerificationStatuses` |
| Endpoint.DataRetrievalHandlerWithAuth | src/endpoint_handler.rs:46-89 | the cache is drained only behind a valid `Bearer` token. A missing or malformed header and a wrong token are the two 401 answers, with nothing changed. Otherwise the answer is 200 with the polling response. It is never 500, because retrieval never fails |
| Endpoint.VerificationEndpointHandler | src/endpoint_handler.rs:10-24 | the answer is the handler's response, or 400 `Verification failed: <error>` |
| Endpoint.DataReceiver | src/data_handler/data_receiver.rs:8-34 | a body that is not JSON is an error and nothing changes; an unknown alias is `Alias not found` and nothing changes; otherwise the document is stored under the body's fingerprint, the key goes to the back, and `(alias, key)` is returned |
| Endpoint.DataEndpointHandler | src/endpoint_handler.rs:26-43 | the answer is 200 with no body whatever happens; a body that is not JSON or an unknown alias changes nothing; otherwise exactly one entry changes: the alias's map gains the parsed payload under its fingerprint, the alias's queue is the old one with the fingerprint moved to the back, and every other alias is untouched |
| Endpoint.AuthorizedExactly | src/endpoint_handler.rs:54-61 | the gate opens exactly when the readable header equals `Bearer ` followed by the token |
| Endpoint.MissingBearer | src/endpoint_handler.rs:58-87 | the header counts as missing exactly when it is absent, unreadable, or lacks the `Bearer ` prefix |
| Endpoint.BearerIsCaseSensitive | src/endpoint_handler.rs:59 | `bearer <token>` counts as a missing header, not as a wrong token |
| Endpoint.TokenNotTrimmed | src/endpoint_handler.rs:60-82 | an extra space after `Bearer ` gives the wrong-token answer: nothing is trimmed |
| Endpoint.RetrievalStatuses | src/endpoint_handler.rs:65-87 | `Ok` is 200 with the response as JSON; `Err` is 500 with count 0, no data and `Failed to retrieve data: <error>`; both refusals are 401 |
| Endpoint.VerificationStatuses | src/endpoint_handler.rs:17-23 | a verification answers 400 exactly when the handler failed; every answer is 200, 400 or 403 |
| Http.HeaderText | src/endpoint_handler.rs:54-56 | a header is read as text exactly when it is present and every byte is visible ASCII or a tab, and then it is the header's value |
| Text.SplitOn | src/verification_handler/verification_config.rs:151 | splitting always gives at least one piece |
| Text.JoinSplit | src/verification_handler/verification_config.rs:151 | joining the pieces of a split gives back the string |
| Text.SplitJoin | src/verification_handler/extractors.rs:63 | splitting pieces joined by a separator they do not contain gives back the pieces |
| Text.SplitPiece | src/verification_handler/verification_config.rs:151 | a leading piece free of the separator is split off whole |
| Text.SplitWhole | src/verification_handler/verification_config.rs:151 | a string free of the separator is a single piece |
| Text.FirstPiece | src/verification_handler/verification_config.rs:157-165 | the first `/`-piece is `p` exactly when the string is `p` or starts with `p/` |
| Text.DropEmpty | src/verification_handler/verification_config.rs:180-185 | the kept pieces are exactly the non-empty ones |
| Text.ContainsAt | src/verification_handler/verification_config.rs:178 | a string contains every pattern placed inside it |
| Text.JoinContainsPiece | src/verification_handler/verification_config.rs:178 | a joined string contains each of its pieces |
| Text.NotContainsFirstChar | src/verification_handler/verification_config.rs:178 | a string without the pattern's first character does not contain the pattern |
| Text.ReplaceAbsent | src/verification_handler/verification.rs:96 | replacing a pattern that does not occur changes nothing |
| Text.Replace | src/verification_handler/verification.rs:96 | (helper) `replace`: every non-overlapping occurrence, leftmost first, is substituted; stated by `ReplaceFirst`, `ReplaceAbsent` and `ReplaceSelf` |
| Text.ReplaceFirst | src/verification_handler/verification.rs:96 | a pattern behind text free of its first character is replaced by the substitute there, and replacing goes on in the rest |
| Text.ReplaceSelf | src/verification_handler/verification.rs:96 | replacing a pattern by itself changes nothing |
| Text.TrimStartBy | src/verification_handler/verification_config.rs:249-250 | the result is the suffix left after the longest run of matching characters at the start |
| Text.TrimEndBy | src/verification_handler/verification_config.rs:249 | the result is the prefix left before the longest run of matching characters at the end |
| Text.TrimShape | src/verification_handler/verification_config.rs:145 | the trimmed text neither starts nor ends with whitespace and sits in the string between two whitespace runs |
| Text.Trim | src/verification_handler/verification_config.rs:145 | (helper) `trim`: whitespace removed at both ends; stated by `TrimShape` and `TrimPadded` |
| Text.TrimPadded | src/verification_handler/verification_config.rs:145 | whitespace on either side does not change the trimmed text |
| Text.StripSlashesClean | src/verification_handler/verification_config.rs:249-250 | a path that neither begins nor ends with `/` is its own stripped form |
| Text.StripSlashesPadded | src/verification_handler/verification_config.rs:249-250 | extra slashes on either side do not change the stripped form |
| Text.ParseNatToString | src/verification_handler/extractors.rs:45 | a number that fits a `usize`, written in decimal, parses back to itself |
| Text.ParseUsize | src/verification_handler/extractors.rs:45 | (helper) `parse::<usize>()`: an optional `+`, then a non-empty run of decimal digits whose value fits a `usize`; stated by `ParseNatToString` and `PathIndexNotANumber` |
| Text.NatToString | src/polling_handler/data_polling.rs:41 | a number is written as a non-empty run of decimal digits |
| Text.DecimalOfNatToString | src/polling_handler/data_polling.rs:41 | reading the written digits back gives the number |
| Text.AsciiUpperIdempotent | src/verification_handler/verification_config.rs:119 | upper-casing twice is upper-casing once, and leaves no lower-case letter |
| Text.AsciiLowerFixed | src/verification_handler/extractors.rs:31 | a header name without upper-case letters is its own lower-case form |
| JsonValues.DescendAppend | src/verification_handler/extractors.rs:66-73 | walking `p + q` is walking `p`, then `q` |
| JsonValues.DescendNest | src/verification_handler/verification.rs:63-92 | walking a nest along its keys finds its leaf |
| JsonValues.NestLevels | src/verification_handler/verification.rs:63-92 | every level of a nest above the leaf is an object with the one next key |
| JsonValues.SetAtNest | src/verification_handler/verification.rs:70-88 | putting a key into a nest's innermost empty object extends the nest by one level |
| Sequences.Without | src/cache.rs:48-50 | the result keeps the other elements and no longer holds the removed one |
| Sequences.IndexOf | src/verification_handler/verification_config.rs:216-218 | the first occurrence of the element, or the length when there is none |

## Left out

- Payload streaming, actix routing and server start-up are I/O. Requests are records
  with the collected body. The older duplicate handler in `src/main.rs` is not part of
  this model.
- Concurrency is left out: tokio locks, `Arc` sharing, and producers or rival
  consumers running between two drains. So is the window in which `insert` has
  written the value but not yet queued the key.
- Time is not modelled as a clock. The tokio `timeout` and the 100 ms `sleep` become a
  bound on drains.
- DataPolling.Poll: its bound is `timeout * 1000 / 100` retries after the first drain.
  The time the drains themselves take is not counted, and the deadline cannot cut a
  drain short.
- JSON is a datatype. Parsing is given with the body (`Payload.parsed`), and encoding
  a response is left out, as is the library's `"{}"` fallback for a failed encoding.
- Query strings arrive already decoded into a map (`Request.query`). A string that
  does not decode is represented by `None`, with the stand-in error text
  `Query deserialize error`.
- Endpoint.DataReceiver: the serde error text for a body that is not JSON is replaced
  by the stand-in `invalid JSON body`.
- Header values are readable exactly when every character is visible ASCII or a tab.
  Repeated headers are left out.
- `String::from_utf8_lossy` (in the body extractor) and `serde_json::from_slice` (in
  ingestion) are not told apart. Both appear as the given parse.
- Config.GetVerificationMethod: upper-cases ASCII letters only, not full Unicode.
- The default method `GET` when the configuration names none is left out. So is the
  default response content type actix would add.
- SHA-256 and hex encoding become the parameter `fingerprint` of the ingestion
  methods.
- Configuration loading is left out: the YAML file, the environment variables
  (`CACHE_TTL`, `POLLING_TIMEOUT`, `POLL_ITEMS_COUNT`) and the webhook configuration
  getters. The defaults are constants. `get_polling_config_owned` is called but not
  defined in the sources, so the polling configuration is a parameter.
- moka's TTL and capacity eviction are the method `Expire`: any value may vanish at
  any time while its key stays queued. The TTL (300 s) and capacity (10 000) are
  constants only.
- The cache stores JSON documents. Its declared `Vec<u8>` value type disagrees with
  what its callers store and read.
- The 500 body of the retrieval endpoint is modelled as written, with a `success`
  field where the response type has `status`.
- The callback prefix `CALLBACK_PATH` is not defined in the sources. The model uses
  `callhook`, the value of the tests' `VERIFICATION_PATH`.
- The unreachable `break` in the wildcard branch (`src/verification_handler/verification_config.rs:200-203`)
  has no counterpart, because the earlier return for a final wildcard rules it out.
- Config.SetExpectedToken: a functional update of the configuration value rather than
  a mutation in place.
- MiddleWildcardAccepts, MiddleWildcardRejects, TrailingWildcardExamples,
  MultipleWildcardAccepts, MultipleWildcardRejects and AdjacentWildcardExamples state
  the wildcard test cases on segment lists. `JoinedWildcardTemplate` and
  `SegmentsOfJoin` connect those lists to the path strings.
- `health_check_handler` (version, timestamp) reads the clock and build metadata, so
  it is left out.
- `insert` always overwrites the value and re-queues the key, and so does the model.
