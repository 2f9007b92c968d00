/** The client side: the URL a consumer builds from a definition's
    endpoint and a call's payload, the react-query cache key, the headers it
    sends, and the request each of the three consumers issues.

    The session lookup (`backendClient.auth.getSession()`) is a parameter:
    `None` when there is no client object, no session, or the lookup threw
    (the consumers swallow that exception). The base URL environment
    variable is a parameter too. What `fetch` and react-query then do with
    the request is not part of this model. */
module Client {
  import opened JsValues
  import opened Definitions
  import FormUrlencoded
  import opened StringReplace

  /** The request handed to `fetch`. */
  datatype FetchRequest = FetchRequest(
    url: string,
    httpMethod: string,
    body: Value,
    headers: map<string, string>)

  /** A template literal `${x}` of an optional string. */
  function Interpolate(x: Option<string>): string {
    match x
    case Some(s) => s
    case None => "undefined"
  }

  function Placeholder(key: string): (p: string)
    ensures p != [] && p[0] == '{' && p[|p| - 1] == '}'
  {
    "{" + key + "}"
  }

  /** What is appended to the endpoint before any substitution. */
  function QueryPart(query: Option<Record>): string {
    match query
    case None => ""
    case Some(q) => "?" + FormUrlencoded.Serialize(q)
  }

  /** The substitutions, one per URL parameter in key order, each applied
      to the result of the previous one. */
  function Substituted(url: string, params: Record): string
    decreases |params|
  {
    if params == [] then url
    else Substituted(ReplaceFirst(url, Placeholder(params[0].0), params[0].1), params[1..])
  }

  function UrlParams(payload: ConsumerPayload): Record {
    payload.urlParams.GetOr([])
  }

  /** The URL `getEndpointWithArgsAndQuery` returns. */
  function EndpointKey(endpoint: string, payload: ConsumerPayload): string {
    Substituted(endpoint + QueryPart(payload.query), UrlParams(payload))
  }

  /** No parameter value holds a `$`, so no replacement pattern applies. */
  predicate DollarFree(params: Record) {
    forall i :: 0 <= i < |params| ==> '$' !in params[i].1
  }

  // ---------------------------------------------------------------------
  // Properties of the substitution

  /** Appending one more parameter applies one more replacement to the
      result of the others. */
  lemma {:induction false} SubstitutedSnoc(url: string, params: Record, key: string, value: string)
    ensures Substituted(url, params + [(key, value)]) ==
      ReplaceFirst(Substituted(url, params), Placeholder(key), value)
    decreases |params|
  {
    if params == [] {
      assert [] + [(key, value)] == [(key, value)];
    } else {
      var next := ReplaceFirst(url, Placeholder(params[0].0), params[0].1);
      assert (params + [(key, value)])[1..] == params[1..] + [(key, value)];
      SubstitutedSnoc(next, params[1..], key, value);
    }
  }

  /** Substitution never reaches into a trailing part that holds no `}`
      (such as an encoded query string). */
  lemma {:induction false} SubstitutedSuffix(p: string, q: string, params: Record)
    requires DollarFree(params) && '}' !in q
    ensures Substituted(p + q, params) == Substituted(p, params) + q
    decreases |params|
  {
    if params != [] {
      var pat := Placeholder(params[0].0);
      ReplaceFirstSuffix(p, q, pat, params[0].1);
      assert DollarFree(params[1..]) by {
        forall i | 0 <= i < |params[1..]| ensures '$' !in params[1..][i].1 {
          assert params[1..][i] == params[i + 1];
        }
      }
      SubstitutedSuffix(ReplaceFirst(p, pat, params[0].1), q, params[1..]);
    }
  }

  /** A character in neither the URL nor any parameter value never shows
      up in the result. */
  lemma {:induction false} SubstitutedAvoids(url: string, params: Record, c: char)
    requires c !in url
    requires forall i :: 0 <= i < |params| ==> c !in params[i].1
    ensures c !in Substituted(url, params)
    decreases |params|
  {
    if params != [] {
      ReplaceFirstChars(url, Placeholder(params[0].0), params[0].1);
      SubstitutedAvoids(ReplaceFirst(url, Placeholder(params[0].0), params[0].1), params[1..], c);
    }
  }

  /** The encoded query string holds no `}`. */
  lemma QueryHasNoBrace(q: Record)
    ensures '}' !in "?" + FormUrlencoded.Serialize(q)
  {
  }

  /** With a query, the URL is the substituted endpoint, then `?`, then the
      form-urlencoded query: the query is never substituted into, and an
      empty query still leaves a trailing `?`. */
  lemma EndpointKeyWithQuery(endpoint: string, payload: ConsumerPayload)
    requires payload.query.Some? && DollarFree(UrlParams(payload))
    ensures EndpointKey(endpoint, payload) ==
      Substituted(endpoint, UrlParams(payload)) + "?" + FormUrlencoded.Serialize(payload.query.value)
  {
    var q := "?" + FormUrlencoded.Serialize(payload.query.value);
    QueryHasNoBrace(payload.query.value);
    SubstitutedSuffix(endpoint, q, UrlParams(payload));
  }

  /** Without a query, the URL is the substituted endpoint, and it holds no
      `?` unless the endpoint or a parameter value does. */
  lemma EndpointKeyWithoutQuery(endpoint: string, payload: ConsumerPayload)
    requires payload.query.None?
    ensures EndpointKey(endpoint, payload) == Substituted(endpoint, UrlParams(payload))
    ensures '?' !in endpoint && (forall i :: 0 <= i < |UrlParams(payload)| ==> '?' !in UrlParams(payload)[i].1) ==>
      '?' !in EndpointKey(endpoint, payload)
  {
    assert endpoint + "" == endpoint;
    if '?' !in endpoint && (forall i :: 0 <= i < |UrlParams(payload)| ==> '?' !in UrlParams(payload)[i].1) {
      SubstitutedAvoids(endpoint, UrlParams(payload), '?');
    }
  }

  // ---------------------------------------------------------------------
  // getEndpointWithArgsAndQuery

  /** Appends the query string, then replaces `{key}` by each URL
      parameter's value in turn. */
  method GetEndpointWithArgsAndQuery(endpoint: string, payload: ConsumerPayload) returns (url: string)
    ensures url == EndpointKey(endpoint, payload)
    ensures payload.urlParams.None? ==> url == endpoint + QueryPart(payload.query)
    ensures payload.query.Some? && DollarFree(UrlParams(payload)) ==>
      url == Substituted(endpoint, UrlParams(payload)) + "?" + FormUrlencoded.Serialize(payload.query.value)
    ensures payload.query.None? ==> url == Substituted(endpoint, UrlParams(payload))
  {
    url := endpoint + QueryPart(payload.query);
    if payload.urlParams.Some? {
      var params := payload.urlParams.value;
      ghost var start := url;
      var i := 0;
      while i < |params|
        invariant 0 <= i <= |params|
        invariant Substituted(url, params[i..]) == Substituted(start, params)
      {
        assert params[i..][1..] == params[i + 1..];
        url := ReplaceFirst(url, Placeholder(params[i].0), params[i].1);
        i := i + 1;
      }
      assert params[i..] == [];
    }
    if payload.query.Some? && DollarFree(UrlParams(payload)) {
      EndpointKeyWithQuery(endpoint, payload);
    }
    if payload.query.None? {
      EndpointKeyWithoutQuery(endpoint, payload);
    }
  }

  // ---------------------------------------------------------------------
  // Defaults, cache key and headers

  /** The consumer's endpoint: the definition's, or `/` when it is missing
      or empty. */
  function EndpointOrRoot(def: Definition): (e: string)
    ensures e != ""
    ensures def.endpoint.Some? && def.endpoint.value != "" ==> e == def.endpoint.value
    ensures def.endpoint.None? || def.endpoint.value == "" ==> e == "/"
  {
    match def.endpoint
    case Some(e) => if e != "" then e else "/"
    case None => "/"
  }

  /** The consumer's method: the definition's, or `get` when it is missing,
      `undefined` or empty. */
  function MethodOrGet(def: Definition): (m: string)
    ensures m != ""
    ensures def.httpMethod.Present? && def.httpMethod.value != "" ==> m == def.httpMethod.value
    ensures !def.httpMethod.Present? || def.httpMethod.value == "" ==> m == "get"
  {
    match def.httpMethod
    case Present(m) => if m != "" then m else "get"
    case _ => "get"
  }

  /** A string record as the JavaScript object it stands for. */
  function RecordObject(params: Record): Value {
    Obj(seq(|params|, i requires 0 <= i < |params| => (params[i].0, Str(params[i].1))))
  }

  /** The values of the URL parameters object, as `Object.values` lists
      them: each value as a string, in key order. */
  function ParamValues(params: Record): (vs: seq<Value>)
    ensures vs == ObjectValues(RecordObject(params))
    ensures |vs| == |params|
    ensures forall i :: 0 <= i < |params| ==> vs[i] == Str(params[i].1)
  {
    seq(|params|, i requires 0 <= i < |params| => Str(params[i].1))
  }

  /** The react-query key: the built URL, then the URL parameter values,
      then the body's values, in order. */
  function QueryKey(endpointKey: string, payload: ConsumerPayload): (key: seq<Value>)
    ensures |key| == 1 + |UrlParams(payload)| + |ObjectValues(payload.body)|
    ensures key[0] == Str(endpointKey)
    ensures forall i :: 0 <= i < |UrlParams(payload)| ==> key[1 + i] == Str(UrlParams(payload)[i].1)
    ensures forall j :: 0 <= j < |ObjectValues(payload.body)| ==>
      key[1 + |UrlParams(payload)| + j] == ObjectValues(payload.body)[j]
  {
    [Str(endpointKey)] + ParamValues(UrlParams(payload)) + ObjectValues(payload.body)
  }

  function CallerHeaders(payload: ConsumerPayload): map<string, string> {
    payload.headers.GetOr(map[])
  }

  /** Spreading `base` then `top` into one header object: every key of
      either, the value from `top` where both have it. */
  function Overlay(base: map<string, string>, top: map<string, string>): (r: map<string, string>)
    ensures r.Keys == base.Keys + top.Keys
    ensures forall k :: k in top ==> r[k] == top[k]
    ensures forall k :: k in base && k !in top ==> r[k] == base[k]
  {
    base + top
  }

  /** The consumers' session step: an empty header object that gets
      `x-user-id` when a session is found. */
  method UserHeaders(session: Option<Session>) returns (headers: map<string, string>)
    ensures session.None? ==> headers == map[]
    ensures session.Some? ==> headers == map["x-user-id" := session.value.userId]
  {
    headers := map[];
    if session.Some? {
      headers := headers["x-user-id" := session.value.userId];
    }
  }

  // ---------------------------------------------------------------------
  // The consumers

  /** `_apiConsumer(endpoint, method)(consumerPayload, overwrites)`: the
      cache key it returns and the request its query function issues. */
  method QueryConsumer(endpoint: string, httpMethod: string, payload: ConsumerPayload,
                       session: Option<Session>, baseUrl: Option<string>)
    returns (queryKey: seq<Value>, request: FetchRequest)
    ensures queryKey == QueryKey(EndpointKey(endpoint, payload), payload)
    ensures request.url == Interpolate(baseUrl) + queryKey[0].s
    ensures request.httpMethod == httpMethod && request.body == payload.body
    ensures session.None? ==> request.headers == CallerHeaders(payload)
    ensures session.Some? ==> request.headers == CallerHeaders(payload)["x-user-id" := session.value.userId]
  {
    var endpointKey := GetEndpointWithArgsAndQuery(endpoint, payload);
    queryKey := QueryKey(endpointKey, payload);
    var headers := UserHeaders(session);
    request := FetchRequest(Interpolate(baseUrl) + endpointKey, httpMethod, payload.body,
                            Overlay(CallerHeaders(payload), headers));
  }

  /** `apiConsumerClient(apiDefinition)`, applied to a payload. */
  method ApiConsumerClient(def: Definition, payload: ConsumerPayload,
                           session: Option<Session>, baseUrl: Option<string>)
    returns (queryKey: seq<Value>, request: FetchRequest)
    ensures queryKey == QueryKey(EndpointKey(EndpointOrRoot(def), payload), payload)
    ensures request.url == Interpolate(baseUrl) + EndpointKey(EndpointOrRoot(def), payload)
    ensures request.httpMethod == MethodOrGet(def) && request.body == payload.body
    ensures session.None? ==> request.headers == CallerHeaders(payload)
    ensures session.Some? ==> request.headers == CallerHeaders(payload)["x-user-id" := session.value.userId]
  {
    queryKey, request := QueryConsumer(EndpointOrRoot(def), MethodOrGet(def), payload, session, baseUrl);
  }

  /** `apiConsumer(apiDefinition)`, applied to a payload: the request it
      sends. */
  method ApiConsumer(def: Definition, payload: ConsumerPayload,
                     session: Option<Session>, baseUrl: Option<string>)
    returns (request: FetchRequest)
    ensures request.url == Interpolate(baseUrl) + EndpointKey(EndpointOrRoot(def), payload)
    ensures request.httpMethod == MethodOrGet(def) && request.body == payload.body
    ensures session.None? ==> request.headers == CallerHeaders(payload)
    ensures session.Some? ==> request.headers == CallerHeaders(payload)["x-user-id" := session.value.userId]
  {
    var endpointKey := GetEndpointWithArgsAndQuery(EndpointOrRoot(def), payload);
    var headers := UserHeaders(session);
    request := FetchRequest(Interpolate(baseUrl) + endpointKey, MethodOrGet(def), payload.body,
                            Overlay(CallerHeaders(payload), headers));
  }

  /** `apiMutator(apiDefinition)`, applied to the mutation's data: always a
      POST to the definition's endpoint as written (no substitution, no
      query, no default), with token and identity headers only when a
      session is found. */
  method ApiMutator(def: Definition, data: Value, session: Option<Session>, baseUrl: Option<string>)
    returns (request: FetchRequest)
    ensures request.httpMethod == "POST"
    ensures request.url == Interpolate(baseUrl) + Interpolate(def.endpoint)
    ensures request.body == data
    ensures session.None? ==> request.headers == map[]
    ensures session.Some? ==>
      request.headers ==
      map["x-access-token" := session.value.accessToken, "x-user-id" := session.value.userId]
  {
    var headers: map<string, string> := map[];
    if session.Some? {
      headers := headers["x-access-token" := session.value.accessToken];
      headers := headers["x-user-id" := session.value.userId];
    }
    request := FetchRequest(Interpolate(baseUrl) + Interpolate(def.endpoint), "POST", data, headers);
  }

  // ---------------------------------------------------------------------
  // Worked examples

  /** A placeholder after a prefix without `{` is first found right after
      that prefix. */
  lemma PlaceholderAfterPrefix(prefix: string, key: string, rest: string)
    requires '{' !in prefix
    ensures FirstOccurrence(prefix + Placeholder(key) + rest, Placeholder(key), |prefix|)
  {
    var pat := Placeholder(key);
    var s := prefix + pat + rest;
    forall j | 0 <= j < |prefix|
      ensures !OccursAt(s, pat, j)
    {
      assert s[j] == prefix[j];
      assert prefix[j] in prefix;
    }
    assert s[|prefix|..|prefix| + |pat|] == pat;
  }

  /** A single parameter whose placeholder first appears after a prefix
      without `{` lands exactly there. */
  lemma SinglePlaceholder(prefix: string, key: string, value: string, rest: string)
    requires '{' !in prefix && '$' !in value
    ensures Substituted(prefix + Placeholder(key) + rest, [(key, value)]) == prefix + value + rest
  {
    var pat := Placeholder(key);
    var s := prefix + pat + rest;
    PlaceholderAfterPrefix(prefix, key, rest);
    ReplaceFirstLiteral(s, pat, value, |prefix|);
    assert s[..|prefix|] == prefix && s[|prefix| + |pat|..] == rest;
  }

  /** A parameter value is a replacement pattern, not plain text: the value
      `$&` puts the matched placeholder back, so the URL keeps `{key}`. */
  lemma MatchedTextValue(prefix: string, key: string, rest: string)
    requires '{' !in prefix
    ensures Substituted(prefix + Placeholder(key) + rest, [(key, "$&")]) == prefix + Placeholder(key) + rest
  {
    var pat := Placeholder(key);
    var s := prefix + pat + rest;
    PlaceholderAfterPrefix(prefix, key, rest);
    ReplaceFirstAt(s, pat, "$&", |prefix|);
    assert Substitution("$&", pat, s[..|prefix|], s[|prefix| + |pat|..]) == pat;
    assert s[..|prefix|] == prefix && s[|prefix| + |pat|..] == rest;
  }

  lemma UsersEndpointSubstitution(id: string)
    requires '$' !in id
    ensures Substituted("/users/{id}", [("id", id)]) == "/users/" + id
  {
    assert "/users/{id}" == "/users/" + Placeholder("id") + "";
    SinglePlaceholder("/users/", "id", id, "");
    assert "/users/" + id + "" == "/users/" + id;
  }

  /** A query whose key and value are unreserved is serialized as written. */
  lemma UnreservedQuery(q: Record)
    requires |q| == 1
    requires forall c :: c in q[0].0 ==> FormUrlencoded.IsUnreserved(c)
    requires forall c :: c in q[0].1 ==> FormUrlencoded.IsUnreserved(c)
    ensures FormUrlencoded.Serialize(q) == q[0].0 + "=" + q[0].1
  {
    FormUrlencoded.EncodeUnreserved(q[0].0);
    FormUrlencoded.EncodeUnreserved(q[0].1);
  }

  /** `/users/{id}` with a single `id` parameter and a query. */
  lemma UsersEndpointWithQuery(id: string, payload: ConsumerPayload)
    requires payload.urlParams == Some([("id", id)]) && payload.query.Some? && '$' !in id
    ensures EndpointKey("/users/{id}", payload) ==
      "/users/" + id + "?" + FormUrlencoded.Serialize(payload.query.value)
  {
    EndpointKeyWithQuery("/users/{id}", payload);
    UsersEndpointSubstitution(id);
  }

  /** The last step of `UrlExample` on its own: joining the literal parts
      is cheap here, and runs out of resource amid that lemma's facts. */
  lemma ExampleUrlText()
    ensures "/users/42" + "?" + "active=true" == "/users/42?active=true"
  {
  }

  /** `/users/{id}` with `{id: "42"}` and query `{active: "true"}` gives
      `/users/42?active=true`. */
  lemma UrlExample(endpoint: string, id: string, payload: ConsumerPayload)
    requires endpoint == "/users/{id}" && id == "42"
    requires payload == ConsumerPayload(Some([("id", id)]), Some([("active", "true")]), Undefined, None)
    ensures EndpointKey(endpoint, payload) == "/users/42?active=true"
  {
    UsersEndpointWithQuery(id, payload);
    assert FormUrlencoded.Serialize(payload.query.value) == "active=true" by {
      UnreservedQuery(payload.query.value);
      assert "active" + "=" + "true" == "active=true";
    }
    assert "/users/" + id == "/users/42";
    ExampleUrlText();
  }

  /** `/users/{id}` with `{id: "7"}` and body `{name: "Al"}` gives the key
      `["/users/7", "7", "Al"]`. */
  lemma QueryKeyExample(endpoint: string, id: string, payload: ConsumerPayload)
    requires endpoint == "/users/{id}" && id == "7"
    requires payload == ConsumerPayload(Some([("id", id)]), None, Obj([("name", Str("Al"))]), None)
    ensures QueryKey(EndpointKey(endpoint, payload), payload) == [Str("/users/7"), Str("7"), Str("Al")]
  {
    var k := EndpointKey(endpoint, payload);
    assert k == "/users/7" by {
      assert UrlParams(payload) == [("id", id)];
      EndpointKeyWithoutQuery(endpoint, payload);
      UsersEndpointSubstitution(id);
    }
    var key := QueryKey(k, payload);
    assert |key| == 3 && key[0] == Str("/users/7") && key[1] == Str("7") && key[2] == Str("Al") by {
      assert UrlParams(payload) == [("id", id)];
      assert ObjectValues(payload.body) == [Str("Al")];
    }
  }
}
