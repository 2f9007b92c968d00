# next-api-generator, modelled in Dafny

next-api-generator lets a Next.js application declare an API route once. The
declaration is a definition with an endpoint, a method, optional schemas, an
optional `auth` function and flags. Three parts of the library use it.

- **Client.** The consumers build the request URL: the query string is
  appended first, then each `{key}` placeholder is replaced by its URL
  parameter. They also build the react-query cache key and the headers.
  Finally they issue the request.
- **Server.** `apiWrapper` turns the definition and a handler into a request
  handler. The handler runs authorization, query validation, payload
  validation, the handler and response validation, in that order. The first
  stage that fails decides the response.
- **Definition builder.** `createAPIDefinition` fills in the defaults.

This project models those three parts.

| file | module | models |
|---|---|---|
| `js_values.dfy` | `JsValues` | JavaScript values and the operators the source uses on them: `typeof`, truthiness, `Object.values` and property lookup |
| `definitions.dfy` | `Definitions` | the route definition, the consumer payload and the session |
| `form_urlencoded.dfy` | `FormUrlencoded` | the `application/x-www-form-urlencoded` serializer of the WHATWG URL Standard (section 5.2), which `URLSearchParams` uses; also the parser (section 5.1) as its inverse |
| `string_replace.dfy` | `StringReplace` | `String.prototype.replace` with a string pattern, as ECMAScript defines it: the first occurrence only, and the replacement text expanded by GetSubstitution |
| `client.dfy` | `Client` | `getEndpointWithArgsAndQuery`, the cache key, the header merge, `_apiConsumer`, `apiConsumerClient`, `apiConsumer` and `apiMutator` |
| `server.dfy` | `Server` | the request handler built by `apiWrapper` |
| `generator.dfy` | `ApiGenerator` | `createAPIDefinition` |

## How the model works

### URL building

`GetEndpointWithArgsAndQuery` is a method with a loop. Each iteration
reassigns `url`, as the `forEach` in the source does. The method is proved
equal to `EndpointKey`, a fold of `ReplaceFirst`.

Replacement follows the language exactly:

- only the first occurrence of `{key}` is replaced;
- a parameter value is a replacement pattern, so `$$`, `$&`, `` $` `` and `$'`
  are expanded, and `MatchedTextValue` shows a value of `$&` putting the
  placeholder back.

Lemmas that rewrite the URL in closed form therefore assume values without
`$` (`DollarFree`). The query string is percent-encoded and holds no `}`, so
no substitution reaches into it (`EndpointKeyWithQuery`).

### Request handler

The request handler has a reference specification:

- `Planned` is the list of enabled stages;
- `Judge` gives each stage's verdict;
- `FirstFailure` and `Respond` apply "the first refusing stage decides".

`RequestHandler` is the imperative version, with locals and early returns.
It is proved to return `Respond` and to run exactly the stages `Ran` names.

### Collaborators as inputs

Code the core calls but does not contain becomes a parameter:

- the value `def.auth()` resolves to;
- the outcomes of `validateQueryParams`, `validatePayload` and of the
  response schema's `parse`;
- the route handler;
- `setOpenAPIMetadata`;
- the session lookup;
- the two environment variables.

### Things the model shows about the source

- With a query, even an empty one, the URL ends in `?` followed by the
  encoded query.
- `apiMutator` posts to the endpoint exactly as written, with no
  substitution, no query and no `/` default. When the endpoint is absent,
  the URL ends in `undefined`.
- The `{method: 'get', ...def}` spread keeps a `method` key whose value is
  `undefined`. Only a missing key is defaulted (`Slot` in `Definitions`).

## Model

| member | source | states |
|---|---|---|
| JsValues.TypeOf | src/server.ts:114-117 | `typeof` is `object` exactly for null, arrays and objects |
| JsValues.Truthy | src/server.ts:25 | ToBoolean, as `!isAuthenticated` and `||` test a value; specified by `FalsyValues` |
| JsValues.FalsyValues | src/server.ts:25 | the falsy values are exactly `undefined`, `null`, `false`, `0` and the empty string; arrays and objects are always truthy |
| JsValues.ObjectValues | src/client.ts:65-66 | `Object.values` of `v`, or of `{}` when `v` is falsy: nothing for a falsy value, the entry values of an object in order, one single-character string per character of a string |
| FormUrlencoded.EncodeScalar | src/client.ts:25 | UTF-8 encoding of one character takes 1 to 4 bytes, and 1 byte exactly for ASCII, where the byte is the code point |
| FormUrlencoded.EncodeUtf8 | src/client.ts:25 | UTF-8 encoding of a string, character by character; specified by `EncodeScalar`, `DecodeEncodeUtf8` and `EncodeDecodeUtf8` |
| FormUrlencoded.DecodeEncodeUtf8 | src/client.ts:25 | decoding the UTF-8 encoding of any string gives the string back |
| FormUrlencoded.EncodeDecodeUtf8 | src/client.ts:25 | the parser that inverts the serializer is strict: any bytes it accepts are exactly the UTF-8 encoding of the string it returns, so overlong forms, surrogates and values past U+10FFFF are refused |
| FormUrlencoded.PercentEncode | src/client.ts:25 | percent-encoding of UTF-8 bytes holds only unreserved characters, `%` and `+`; `DecodePercentEncode` proves it invertible |
| FormUrlencoded.Encode | src/client.ts:25 | an encoded name or value holds only unreserved characters, `%`, `+` and hex digits |
| FormUrlencoded.DecodePercentEncode | src/client.ts:25 | percent-decoding inverts percent-encoding for every byte sequence |
| FormUrlencoded.DecodeEncode | src/client.ts:25 | decoding an encoded name or value gives it back, for every string |
| FormUrlencoded.EncodeUnreserved | src/client.ts:25 | a string of ASCII alphanumerics and `*-._` is its own encoding |
| FormUrlencoded.Serialize | src/client.ts:25 | the query string is empty exactly for no pairs, and holds only encoded characters, `=` and `&` |
| FormUrlencoded.ParsePair | src/client.ts:25 | a serialized pair is non-empty, has no `&`, and splits at its first `=` into the encoded name and value |
| FormUrlencoded.SplitSerialized | src/client.ts:25 | for a non-empty list of pairs, the serialized query splits on `&` into one segment per pair |
| FormUrlencoded.RoundTrip | src/client.ts:25 | parsing the serialized query gives back the same pairs in the same order |
| StringReplace.IndexOf | src/client.ts:32-35 | the search finds the least index where the pattern occurs, and finds none exactly when it does not occur |
| StringReplace.Substitution | src/client.ts:32-35 | the expansion of the `$` patterns of a replacement string, with no captures; specified by `SubstitutionLiteral`, `SubstitutionChars` and `MatchedTextValue` |
| StringReplace.SubstitutionLiteral | src/client.ts:32-35 | a replacement without `$` is inserted as written |
| StringReplace.SubstitutionChars | src/client.ts:32-35 | expanding the replacement only copies characters of the replacement, the match or the text around it |
| StringReplace.ReplaceFirst | src/client.ts:32-35 | `replace` with a string pattern; specified by `ReplaceFirstAt` and `ReplaceFirstNoMatch` |
| StringReplace.ReplaceFirstAt | src/client.ts:32-35 | when the pattern occurs, only its first occurrence is replaced, by the expanded replacement |
| StringReplace.ReplaceFirstNoMatch | src/client.ts:32-35 | when the pattern does not occur, the string is unchanged |
| StringReplace.ReplaceFirstChars | src/client.ts:32-35 | replacing brings in no character found in neither the subject nor the replacement |
| StringReplace.ReplaceFirstLiteral | src/client.ts:32-35 | with a `$`-free replacement, the first occurrence is swapped for it and nothing else changes |
| StringReplace.LaterOccurrenceStays | src/client.ts:32-35 | a later, non-overlapping occurrence survives, shifted by the change in length, for a `$`-free replacement |
| StringReplace.SuffixOccurrences | src/client.ts:32-35 | a pattern ending in `}` occurs in `p + q` exactly where it occurs in `p`, when `q` has no `}` |
| StringReplace.ReplaceFirstSuffix | src/client.ts:32-35 | replacing in `p + q` is replacing in `p` and keeping `q`, when `q` has no `}`, for a `$`-free replacement |
| StringReplace.RepeatedPlaceholderExample | src/client.ts:32-35 | `"/{id}/{id}"` with `id` = `7` gives `"/7/{id}"`: a repeated placeholder is replaced once |
| Client.Interpolate | src/client.ts:88 | a template literal of a possibly missing string: the string itself, or `undefined`; it prefixes the base URL to every request URL (`QueryConsumer`, `ApiConsumer`, `ApiMutator`) |
| Client.Placeholder | src/client.ts:33 | a placeholder starts with `{` and ends with `}` |
| Client.Substituted | src/client.ts:29-38 | the `forEach` fold: one replacement per URL parameter, in key order; specified by `SubstitutedSnoc`, `SubstitutedAvoids` and `SubstitutedSuffix` |
| Client.SubstitutedSnoc | src/client.ts:29-38 | one more URL parameter applies one more replacement to the URL built so far |
| Client.SubstitutedSuffix | src/client.ts:29-38 | substitution leaves a trailing part without `}` untouched, for `$`-free values |
| Client.SubstitutedAvoids | src/client.ts:29-38 | a character in neither the endpoint nor any parameter value never appears in the URL |
| Client.QueryHasNoBrace | src/client.ts:23-27 | the appended `?query` part holds no `}` |
| Client.EndpointKey | src/client.ts:23-38 | the URL `getEndpointWithArgsAndQuery` returns: the query appended first, then the substitutions; the loop of `GetEndpointWithArgsAndQuery` is proved to compute it, and `EndpointKeyWithQuery` and `EndpointKeyWithoutQuery` give its closed forms |
| Client.EndpointKeyWithQuery | src/client.ts:23-38 | with a query, the URL is the substituted endpoint, `?`, then the encoded query, for `$`-free values |
| Client.EndpointKeyWithoutQuery | src/client.ts:23-38 | without a query, the URL is the substituted endpoint, and it has no `?` unless the endpoint or a value brings one |
| Client.GetEndpointWithArgsAndQuery | src/client.ts:10-41 | the loop builds the URL the replacement fold specifies: the endpoint plus query when there are no URL parameters; with a query and `$`-free values, the substituted endpoint then `?query`; without a query, the substituted endpoint |
| Client.EndpointOrRoot | src/client.ts:112 | the consumer endpoint is the definition's when non-empty, `/` otherwise, and never empty |
| Client.MethodOrGet | src/client.ts:113 | the consumer method is the definition's when non-empty, `get` otherwise, and never empty |
| Client.ParamValues | src/client.ts:65 | the URL parameter values are what `Object.values` gives for the parameters object: one string per key, in key order |
| Client.QueryKey | src/client.ts:63-67 | the cache key is the URL, then every URL parameter value, then every body value, in order and nothing else |
| Client.Overlay | src/client.ts:92 | the merged headers have the keys of both, and the session headers win over the caller's |
| Client.UserHeaders | src/client.ts:73-86 | with a session, exactly `x-user-id`; without one (or when the lookup throws), no header |
| Client.QueryConsumer | src/client.ts:62-97 | returns the cache key and requests base URL plus built URL with the given method, the body, and the caller's headers with `x-user-id` added when there is a session |
| Client.ApiConsumerClient | src/client.ts:103-117 | the query consumer for the definition's endpoint (default `/`) and method (default `get`) |
| Client.ApiConsumer | src/client.ts:119-163 | requests the same URL, method, body and headers as the query consumer, for the defaulted endpoint and method |
| Client.ApiMutator | src/client.ts:165-206 | always a POST of the data to base URL plus the endpoint as written; with a session exactly `x-access-token` and `x-user-id`, otherwise no header |
| Client.PlaceholderAfterPrefix | src/client.ts:32-35 | a placeholder after a prefix with no `{` is first found right after the prefix |
| Client.SinglePlaceholder | src/client.ts:29-38 | one `$`-free parameter lands exactly where its placeholder first appears |
| Client.MatchedTextValue | src/client.ts:32-35 | a parameter value `$&` is expanded to the matched placeholder, so the URL keeps `{key}` |
| Client.UsersEndpointSubstitution | src/client.ts:29-38 | `/users/{id}` with a `$`-free `id` becomes `/users/` followed by the id |
| Client.UnreservedQuery | src/client.ts:25 | a one-pair query of unreserved characters serializes as `name=value` |
| Client.UsersEndpointWithQuery | src/client.ts:23-38 | `/users/{id}` with a query is `/users/`, the id, `?` and the encoded query, for a `$`-free id |
| Client.UrlExample | src/client.ts:23-38 | `/users/{id}` with id `42` and query `active=true` gives `/users/42?active=true` |
| Client.QueryKeyExample | src/client.ts:63-67 | `/users/{id}` with id `7` and body `{name: "Al"}` gives the key `["/users/7", "7", "Al"]` |
| Server.TagInjective | src/server.ts:38-112 | the four error tags are distinct, so the tag names the failing stage |
| Server.Denied | src/server.ts:26-34 | the refusal is 403 with JSON headers and `error` set to `Access denied` |
| Server.Failure | src/server.ts:43-52 | a failure is 500 with JSON headers, the message under `error` and the stage under `at` |
| Server.Wrap | src/server.ts:114-117 | the success body is always an object: the result itself when it is one, otherwise an object whose only field `data` holds the result |
| Server.Success | src/server.ts:114-122 | a success is 200 with JSON headers and a body that is always an object: the result itself when it is one, otherwise an object whose only field `data` holds the result |
| Server.PlannedInOrder | src/server.ts:23-112 | the stages run in the fixed order authorization, query, payload, handler, response |
| Server.PlannedStages | src/server.ts:23-112 | the handler is always planned, and each optional stage is planned exactly when it is enabled; which planned stages then run is `Ran` |
| Server.Judge | src/server.ts:23-112 | authorization denies exactly on a falsy `auth` result and passes exactly on a truthy one; a validation, the handler or the response check passes exactly when it returns a value, and otherwise fails with that check's own message |
| Server.FirstFailure | src/server.ts:23-112 | finds the first stage that does not pass; all before it pass, and none is found exactly when all pass |
| Server.Respond | src/server.ts:15-122 | every response has JSON headers and status 200, 403 or 500 |
| Server.RequestHandler | src/server.ts:15-122 | the handler returns the reference response, runs exactly the stages the reference names, and passes the handler the reference arguments exactly when it calls it |
| Server.AuthorizationRefused | src/server.ts:23-36 | a falsy `auth` result gives 403 and nothing else runs |
| Server.QueryValidationFails | src/server.ts:38-53 | a rejected query gives 500 at `query_validation`, and nothing after it runs |
| Server.PayloadValidationFails | src/server.ts:55-74 | a rejected payload gives 500 at `payload_validation`, and the handler does not run |
| Server.HandlerFails | src/server.ts:76-95 | a throwing handler gives 500 at `response_handler` |
| Server.ResponseValidationFails | src/server.ts:97-112 | a result the response schema rejects gives 500 at `response_validation`, when validation is not skipped |
| Server.AllStagesPass | src/server.ts:114-122 | when no stage refuses, every planned stage runs and the response is 200 with the wrapped result |
| Server.FailsAt | src/server.ts:23-112 | a refusal after a run of passing stages decides the response, and those stages are what ran |
| Server.NoneFails | src/server.ts:114-122 | when every planned stage passes, all of them run and the response is a success |
| Server.RanIsPlannedPrefix | src/server.ts:23-112 | what runs is a non-empty prefix of the plan, in order |
| Server.ForbiddenIff | src/server.ts:23-36 | the response is 403 exactly when an `auth` function resolves to a falsy value, so never without an `auth` function |
| Server.ServerErrorBlamesFailedStage | src/server.ts:38-112 | a 500 names the stage that failed last, after all earlier stages passed, with its message under `error` and its tag under `at` |
| Server.UndeclaredSchemaNeverBlamed | src/server.ts:38-112 | no `query_validation`, `payload_validation` or `response_validation` error without the matching schema, and none at `response_validation` when output validation is skipped |
| Server.SkippedOutputValidationSucceeds | src/server.ts:97 | with `skipOutputValidation`, the result is not validated and the response is 200 once the earlier stages pass |
| Server.HandlerReceivesValidated | src/server.ts:19-83 | a called handler received the validated query and payload (`undefined` without a schema) and the route parameters unchanged, after authorization passed |
| Server.SuccessIff | src/server.ts:97-122 | the response is 200 exactly when every planned stage passes, and then carries the wrapped handler result |
| ApiGenerator.WithDefaults | src/next-api-generator.ts:14-18 | a missing method becomes `get` while a present one (even `undefined`) is kept; the endpoint becomes a string, `''` when it was missing or empty; nothing else changes |
| ApiGenerator.CreateApiDefinition | src/next-api-generator.ts:14-24 | the defaulted definition, with `apiConfig` set to the metadata of the defaulted definition exactly when the exporter flag is set, and otherwise kept |
| ApiGenerator.WithDefaultsIdempotent | src/next-api-generator.ts:14-18 | defaulting a defaulted definition changes nothing |
| ApiGenerator.CreateApiDefinitionStable | src/next-api-generator.ts:14-24 | building from a built definition changes nothing but `apiConfig`, and without the exporter changes nothing at all |
| ApiGenerator.CreateApiDefinitionKeepsFields | src/next-api-generator.ts:16 | schemas, protocol fields, handler, `auth` and `skipOutputValidation` are carried over as they are |

## Left out

- `fetch`, `response.json()`, `NextResponse` and `JSON.stringify`: the model stops at the request or the response value, and does not serialize them to bytes.
- react-query (`useQuery`, `useMutation`): only the cache key and the issued request are modelled. That includes the caller's `ovewrites`, which cannot replace `queryKey` or `queryFn`.
- The session lookup is an input. A lookup that throws inside the consumers, a missing client object and a missing session all become "no session". A lookup that throws in `apiMutator` propagates, and this is not modelled.
- `validateQueryParams`, `validatePayload` and `setOpenAPIMetadata` come from `src/utils`, which is not part of this model. The definition's `auth` function and the Zod schemas' `parse` are the caller's code. All of their outcomes are inputs.
  - A thrown value that is not an `Error` has no message. The model carries its message as a string anyway.
- async/await: the steps are taken in sequence, and there is no concurrency.
- Numbers are integers. Functions, symbols and bigints do not occur as values.
- A URL parameter value is taken to be a string. The `ToString` of other values is not modelled.
- The order of `Object.keys` is taken as the order of the record's entries.
- `Object.values` of a string counts UTF-16 code units. The model counts characters, so a character outside the Basic Multilingual Plane gives one value instead of two.
- The parser that inverts the serializer accepts well-formed UTF-8 only, refusing overlong forms, surrogates and values past U+10FFFF. The standard's parser would substitute U+FFFD for malformed input.
- Client.EndpointKeyWithQuery: the closed form is proved for parameter values without `$` only. A value with `$` is modelled and substituted as the language does; only this lemma leaves that case out.
- Client.SubstitutedSuffix: proved for parameter values without `$` only, for the same reason.
- Client.GetEndpointWithArgsAndQuery: the closed form with a query is ensured for parameter values without `$` only. For any values the method is proved equal to `EndpointKey`, which expands `$` patterns as `replace` does: the id `$'` in `/users/{id}` with query `q` gives `/users/` followed by `?q` twice.
- The OpenAPI command-line script (src/open-api/index.ts) and the build configuration are not part of this model.
- Server.RequestHandler: an `auth` function that throws or rejects is not modelled. Its call at src/server.ts:24 is outside every `try`, so the rejection escapes the request handler and no JSON response is produced; the model's `authResult` is always a value, and `Respond` covers only the responses the handler does produce.
- StringReplace.LaterOccurrenceStays: proved for a `$`-free replacement only. A replacement with `$` patterns is modelled as the language expands it; this lemma leaves that case out.
- StringReplace.ReplaceFirstSuffix: proved for a `$`-free replacement only. With `$'` the expansion copies the suffix into the result, so the statement would be false.
- Client.UsersEndpointWithQuery: proved for a `$`-free id only, for the same reason. For example, the id `$'` with query `a=b` gives `/users/?a=b?a=b`.
- Query values are strings (`Record` in `Definitions`). `URLSearchParams` applies ToString to each query value, so a number such as `2` becomes `2` and an array is joined with commas; those conversions are not modelled.
- Strings are sequences of Unicode scalar values. JavaScript strings are UTF-16 and may hold lone surrogates: `URLSearchParams` turns one into U+FFFD (`%EF%BF%BD`) and `replace` keeps it. The model cannot represent either.
