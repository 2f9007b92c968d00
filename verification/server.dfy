/** The request handler that `apiWrapper(def, apiHandler)` returns: an
    early-exit sequence of stages (authorization, query validation, payload
    validation, the route's handler, response validation) where the first
    stage that fails decides the response, and a success wraps the
    handler's result.

    What the opaque collaborators yield for one request is an input: the
    value `def.auth()` resolves to, the outcome of `validateQueryParams`
    and of `validatePayload` (each either the parsed value or a thrown
    message), the route parameters, and the handler as a function of the
    arguments it is given. The response schema's own `parse` comes from
    the definition. */
module Server {
  import opened JsValues
  import opened Definitions

  datatype Stage = Authorization | QueryValidation | PayloadValidation | Handler | ResponseValidation

  /** Position of a stage in the order the wrapper runs them. */
  function Rank(s: Stage): nat {
    match s
    case Authorization => 0
    case QueryValidation => 1
    case PayloadValidation => 2
    case Handler => 3
    case ResponseValidation => 4
  }

  /** The `at` field of the error a failing stage produces. */
  function Tag(s: Stage): string
    requires s != Authorization
  {
    match s
    case QueryValidation => "query_validation"
    case PayloadValidation => "payload_validation"
    case Handler => "response_handler"
    case ResponseValidation => "response_validation"
  }

  /** Distinct stages are blamed under distinct tags. */
  lemma TagInjective(s: Stage, t: Stage)
    requires s != Authorization && t != Authorization
    ensures Tag(s) == Tag(t) <==> s == t
  {
  }

  /** The three arguments the handler receives after the request. */
  datatype HandlerInput = HandlerInput(queryParams: Value, urlParams: Value, payload: Value)

  /** What the collaborators yield for one request. */
  datatype Call = Call(
    authResult: Value,
    queryCheck: Outcome<Value>,
    payloadCheck: Outcome<Value>,
    routeParams: Value,
    handler: HandlerInput -> Outcome<Value>)

  datatype Response = Response(status: int, headers: map<string, string>, body: Value)

  const JsonHeaders: map<string, string> := map["content-type" := "application/json"]

  /** The 403 response of a refused authorization. */
  function Denied(): (r: Response)
    ensures r.status == 403 && r.headers == JsonHeaders
    ensures Lookup(r.body, "error") == Some(Str("Access denied"))
    ensures Lookup(r.body, "at") == None
  {
    Response(403, JsonHeaders, Obj([("error", Str("Access denied"))]))
  }

  /** The 500 response of a stage that threw. */
  function Failure(message: string, at: string): (r: Response)
    ensures r.status == 500 && r.headers == JsonHeaders
    ensures Lookup(r.body, "error") == Some(Str(message))
    ensures Lookup(r.body, "at") == Some(Str(at))
  {
    Response(500, JsonHeaders, Obj([("error", Str(message)), ("at", Str(at))]))
  }

  /** The body of a success: the result when `typeof` says `object`
      (objects, arrays and null), otherwise `{data: result}`. Either way the
      body is an object, and a non-object result can be read back from its
      `data` field. */
  function Wrap(result: Value): (body: Value)
    ensures TypeOf(body) == "object"
    ensures TypeOf(result) == "object" ==> body == result
    ensures TypeOf(result) != "object" ==> Lookup(body, "data") == Some(result) && |body.entries| == 1
  {
    if TypeOf(result) == "object" then result else Obj([("data", result)])
  }

  /** A success: 200, JSON headers, and a body that is always an object,
      the result itself when it is one, otherwise `{data: result}`. */
  function Success(result: Value): (r: Response)
    ensures r.status == 200 && r.headers == JsonHeaders
    ensures TypeOf(r.body) == "object"
    ensures TypeOf(result) == "object" ==> r.body == result
    ensures TypeOf(result) != "object" ==> Lookup(r.body, "data") == Some(result) && |r.body.entries| == 1
  {
    Response(200, JsonHeaders, Wrap(result))
  }

  // ---------------------------------------------------------------------
  // Reference specification: planned stages, verdicts, first failure

  /** The stages that run when nothing fails, in order: authorization only
      for an `auth` function, a validation only for a declared schema,
      response validation only when not skipped. */
  function Planned(def: Definition): seq<Stage> {
    AuthStages(def) + QueryStages(def) + PayloadStages(def) + [Handler] + ResponseStages(def)
  }

  function AuthStages(def: Definition): seq<Stage> {
    if def.auth == AuthFunction then [Authorization] else []
  }

  function QueryStages(def: Definition): seq<Stage> {
    if DeclaresQuerySchema(def) then [QueryValidation] else []
  }

  function PayloadStages(def: Definition): seq<Stage> {
    if DeclaresPayloadSchema(def) then [PayloadValidation] else []
  }

  function ResponseStages(def: Definition): seq<Stage> {
    if DeclaresResponseSchema(def) && !SkipsOutputValidation(def) then [ResponseValidation] else []
  }

  predicate InOrder(stages: seq<Stage>) {
    forall i, j :: 0 <= i < j < |stages| ==> Rank(stages[i]) < Rank(stages[j])
  }

  lemma InOrderAppend(s: seq<Stage>, t: seq<Stage>, n: nat)
    requires InOrder(s) && InOrder(t)
    requires forall x :: x in s ==> Rank(x) < n
    requires forall y :: y in t ==> n <= Rank(y)
    ensures InOrder(s + t)
    ensures forall x :: x in s + t ==> x in s || x in t
  {
    forall i, j | 0 <= i < j < |s + t| ensures Rank((s + t)[i]) < Rank((s + t)[j]) {
      if j < |s| {
        assert (s + t)[i] == s[i] && (s + t)[j] == s[j];
      } else if i < |s| {
        assert (s + t)[i] in s && (s + t)[j] in t;
      } else {
        assert (s + t)[i] == t[i - |s|] && (s + t)[j] == t[j - |s|];
      }
    }
  }

  lemma QueryStagesInOrder(def: Definition)
    ensures InOrder(AuthStages(def) + QueryStages(def))
    ensures forall x :: x in AuthStages(def) + QueryStages(def) ==> Rank(x) < 2
  {
    InOrderAppend(AuthStages(def), QueryStages(def), 1);
  }

  lemma PayloadStagesInOrder(def: Definition)
    ensures InOrder(AuthStages(def) + QueryStages(def) + PayloadStages(def))
    ensures forall x :: x in AuthStages(def) + QueryStages(def) + PayloadStages(def) ==> Rank(x) < 3
  {
    QueryStagesInOrder(def);
    InOrderAppend(AuthStages(def) + QueryStages(def), PayloadStages(def), 2);
  }

  lemma HandlerStageInOrder(def: Definition)
    ensures InOrder(AuthStages(def) + QueryStages(def) + PayloadStages(def) + [Handler])
    ensures forall x :: x in AuthStages(def) + QueryStages(def) + PayloadStages(def) + [Handler] ==> Rank(x) < 4
  {
    PayloadStagesInOrder(def);
    InOrderAppend(AuthStages(def) + QueryStages(def) + PayloadStages(def), [Handler], 3);
  }

  /** The planned stages run in the wrapper's fixed order. */
  lemma PlannedInOrder(def: Definition)
    ensures InOrder(Planned(def))
  {
    HandlerStageInOrder(def);
    InOrderAppend(AuthStages(def) + QueryStages(def) + PayloadStages(def) + [Handler], ResponseStages(def), 4);
  }

  /** The handler always runs unless an earlier stage refuses, and each
      optional stage is planned exactly when it is enabled. */
  lemma PlannedStages(def: Definition)
    ensures Handler in Planned(def)
    ensures Authorization in Planned(def) <==> def.auth == AuthFunction
    ensures QueryValidation in Planned(def) <==> DeclaresQuerySchema(def)
    ensures PayloadValidation in Planned(def) <==> DeclaresPayloadSchema(def)
    ensures ResponseValidation in Planned(def) <==> DeclaresResponseSchema(def) && !SkipsOutputValidation(def)
  {
    var a, q, p, r := AuthStages(def), QueryStages(def), PayloadStages(def), ResponseStages(def);
    assert Planned(def) == a + q + p + [Handler] + r;
    assert forall x :: x in Planned(def) <==> x in a || x in q || x in p || x == Handler || x in r;
  }

  /** The handler's arguments: the validated query and payload when their
      schemas are declared (`undefined` otherwise), and the route
      parameters as they came. */
  function HandlerArgs(def: Definition, call: Call): HandlerInput {
    HandlerInput(
      if DeclaresQuerySchema(def) && call.queryCheck.Ok? then call.queryCheck.value else Undefined,
      call.routeParams,
      if DeclaresPayloadSchema(def) && call.payloadCheck.Ok? then call.payloadCheck.value else Undefined)
  }

  function HandlerResult(def: Definition, call: Call): Outcome<Value> {
    call.handler(HandlerArgs(def, call))
  }

  datatype Verdict = Pass | Deny | Failed(message: string)

  /** What a stage decides when it runs. */
  function Judge(def: Definition, call: Call, s: Stage): (v: Verdict)
    ensures v.Deny? <==> s == Authorization && !Truthy(call.authResult)
    ensures s == Authorization ==> (v == Pass <==> Truthy(call.authResult))
    ensures s == QueryValidation ==> (v == Pass <==> call.queryCheck.Ok?)
    ensures s == PayloadValidation ==> (v == Pass <==> call.payloadCheck.Ok?)
    ensures s == Handler ==> (v == Pass <==> HandlerResult(def, call).Ok?)
    ensures s == ResponseValidation && HandlerResult(def, call).Ok? && DeclaresResponseSchema(def) ==>
      (v == Pass <==> def.schemas.value.response.value.parse(HandlerResult(def, call).value).Ok?)
    ensures s != Authorization && !v.Pass? ==> v.Failed?
    ensures s == QueryValidation && call.queryCheck.Fail? ==> v == Failed(call.queryCheck.message)
    ensures s == PayloadValidation && call.payloadCheck.Fail? ==> v == Failed(call.payloadCheck.message)
    ensures s == Handler && HandlerResult(def, call).Fail? ==> v == Failed(HandlerResult(def, call).message)
    ensures (s == ResponseValidation && HandlerResult(def, call).Ok? && DeclaresResponseSchema(def) &&
             def.schemas.value.response.value.parse(HandlerResult(def, call).value).Fail?) ==>
      v == Failed(def.schemas.value.response.value.parse(HandlerResult(def, call).value).message)
  {
    match s
    case Authorization => if Truthy(call.authResult) then Pass else Deny
    case QueryValidation =>
      (match call.queryCheck case Ok(_) => Pass case Fail(m) => Failed(m))
    case PayloadValidation =>
      (match call.payloadCheck case Ok(_) => Pass case Fail(m) => Failed(m))
    case Handler =>
      (match HandlerResult(def, call) case Ok(_) => Pass case Fail(m) => Failed(m))
    case ResponseValidation =>
      (match HandlerResult(def, call)
       case Ok(v) =>
         if DeclaresResponseSchema(def) then
           (match def.schemas.value.response.value.parse(v) case Ok(_) => Pass case Fail(m) => Failed(m))
         else Pass
       case Fail(_) => Pass)
  }

  /** The index of the first stage that does not pass. */
  function FirstFailure(def: Definition, call: Call, stages: seq<Stage>): (r: Option<nat>)
    ensures r.Some? ==> r.value < |stages| && Judge(def, call, stages[r.value]) != Pass
    ensures r.Some? ==> forall j :: 0 <= j < r.value ==> Judge(def, call, stages[j]) == Pass
    ensures r.None? <==> forall j :: 0 <= j < |stages| ==> Judge(def, call, stages[j]) == Pass
    decreases |stages|
  {
    if stages == [] then None
    else if Judge(def, call, stages[0]) != Pass then Some(0)
    else
      var r := FirstFailure(def, call, stages[1..]);
      assert forall j :: 1 <= j < |stages| ==> stages[j] == stages[1..][j - 1];
      if r.None? then None else Some(r.value + 1)
  }

  /** The response a refusing stage produces. */
  function Refusal(s: Stage, v: Verdict): Response
    requires v != Pass && (v.Failed? ==> s != Authorization)
  {
    match v
    case Deny => Denied()
    case Failed(m) => Failure(m, Tag(s))
  }

  /** The handler's result, once it has returned one. */
  function ResultValue(def: Definition, call: Call): Value {
    match HandlerResult(def, call)
    case Ok(v) => v
    case Fail(_) => Undefined
  }

  /** The response: the first refusing stage's, or a success wrapping the
      handler's result. */
  function Respond(def: Definition, call: Call): (r: Response)
    ensures r.headers == JsonHeaders
    ensures r.status == 200 || r.status == 403 || r.status == 500
  {
    var planned := Planned(def);
    match FirstFailure(def, call, planned)
    case Some(k) => Refusal(planned[k], Judge(def, call, planned[k]))
    case None => Success(ResultValue(def, call))
  }

  /** The stages that run: the planned ones up to and including the first
      that refuses. */
  function Ran(def: Definition, call: Call): seq<Stage> {
    var planned := Planned(def);
    match FirstFailure(def, call, planned)
    case Some(k) => planned[..k + 1]
    case None => planned
  }

  // ---------------------------------------------------------------------
  // The handler

  /** `requestHandler(request, { params })`. Also yields, as ghost
      observations, the stages that ran and the arguments the handler was
      called with, if it was. */
  method RequestHandler(def: Definition, authResult: Value, queryCheck: Outcome<Value>,
                        payloadCheck: Outcome<Value>, routeParams: Value,
                        handler: HandlerInput -> Outcome<Value>)
    returns (resp: Response, ghost ran: seq<Stage>, ghost handed: Option<HandlerInput>)
    ensures resp == Respond(def, Call(authResult, queryCheck, payloadCheck, routeParams, handler))
    ensures ran == Ran(def, Call(authResult, queryCheck, payloadCheck, routeParams, handler))
    ensures Handler in ran <==> handed.Some?
    ensures handed.Some? ==> handed.value == HandlerArgs(def, Call(authResult, queryCheck, payloadCheck, routeParams, handler))
  {
    ghost var call := Call(authResult, queryCheck, payloadCheck, routeParams, handler);
    var queryParams := Undefined;
    var urlParams := routeParams;
    var parsedPayload := Undefined;
    handed := None;

    ran := AuthStages(def);
    if def.auth == AuthFunction && !Truthy(authResult) {
      AuthorizationRefused(def, call);
      resp := Denied();
      return;
    }

    ran := ran + QueryStages(def);
    if DeclaresQuerySchema(def) {
      if queryCheck.Fail? {
        QueryValidationFails(def, call);
        resp := Failure(queryCheck.message, "query_validation");
        return;
      }
      queryParams := queryCheck.value;
    }

    ran := ran + PayloadStages(def);
    assert Handler !in ran;
    if DeclaresPayloadSchema(def) {
      if payloadCheck.Fail? {
        PayloadValidationFails(def, call);
        resp := Failure(payloadCheck.message, "payload_validation");
        return;
      }
      parsedPayload := payloadCheck.value;
    }

    ran := ran + [Handler];
    ghost var at := |ran| - 1;
    var args := HandlerInput(queryParams, urlParams, parsedPayload);
    assert args == HandlerArgs(def, call);
    handed := Some(args);
    var outcome := handler(args);
    if outcome.Fail? {
      HandlerFails(def, call);
      resp := Failure(outcome.message, "response_handler");
      return;
    }
    var responseHandler := outcome.value;

    ran := ran + ResponseStages(def);
    assert ran[at] == Handler;
    if DeclaresResponseSchema(def) && !SkipsOutputValidation(def) {
      var checked := def.schemas.value.response.value.parse(responseHandler);
      if checked.Fail? {
        ResponseValidationFails(def, call);
        resp := Failure(checked.message, "response_validation");
        return;
      }
    }
    AllStagesPass(def, call);
    resp := Success(responseHandler);
  }

  // ---------------------------------------------------------------------
  // First failure wins, stage by stage

  /** An `auth` function that resolves to a falsy value stops the request
      with 403 before anything else runs. */
  lemma AuthorizationRefused(def: Definition, call: Call)
    requires def.auth == AuthFunction && !Truthy(call.authResult)
    ensures Respond(def, call) == Denied()
    ensures Ran(def, call) == [Authorization]
  {
    FailsAt(def, call, [Authorization], QueryStages(def) + PayloadStages(def) + [Handler] + ResponseStages(def));
  }

  /** A declared query schema that rejects the query stops the request with
      500 at `query_validation`, after authorization passed. */
  lemma QueryValidationFails(def: Definition, call: Call)
    requires def.auth != AuthFunction || Truthy(call.authResult)
    requires DeclaresQuerySchema(def) && call.queryCheck.Fail?
    ensures Respond(def, call) == Failure(call.queryCheck.message, "query_validation")
    ensures Ran(def, call) == AuthStages(def) + [QueryValidation]
  {
    FailsAt(def, call, AuthStages(def) + [QueryValidation], PayloadStages(def) + [Handler] + ResponseStages(def));
  }

  /** A declared payload schema that rejects the body stops the request
      with 500 at `payload_validation`, after the earlier stages passed. */
  lemma PayloadValidationFails(def: Definition, call: Call)
    requires def.auth != AuthFunction || Truthy(call.authResult)
    requires !DeclaresQuerySchema(def) || call.queryCheck.Ok?
    requires DeclaresPayloadSchema(def) && call.payloadCheck.Fail?
    ensures Respond(def, call) == Failure(call.payloadCheck.message, "payload_validation")
    ensures Ran(def, call) == AuthStages(def) + QueryStages(def) + [PayloadValidation]
  {
    var ran := AuthStages(def) + QueryStages(def) + [PayloadValidation];
    assert ran[..|ran| - 1] == AuthStages(def) + QueryStages(def);
    FailsAt(def, call, ran, [Handler] + ResponseStages(def));
  }

  /** A handler that throws yields 500 at `response_handler`. */
  lemma HandlerFails(def: Definition, call: Call)
    requires def.auth != AuthFunction || Truthy(call.authResult)
    requires !DeclaresQuerySchema(def) || call.queryCheck.Ok?
    requires !DeclaresPayloadSchema(def) || call.payloadCheck.Ok?
    requires HandlerResult(def, call).Fail?
    ensures Respond(def, call) == Failure(HandlerResult(def, call).message, "response_handler")
    ensures Ran(def, call) == AuthStages(def) + QueryStages(def) + PayloadStages(def) + [Handler]
  {
    var ran := AuthStages(def) + QueryStages(def) + PayloadStages(def) + [Handler];
    assert ran[..|ran| - 1] == AuthStages(def) + QueryStages(def) + PayloadStages(def);
    FailsAt(def, call, ran, ResponseStages(def));
  }

  /** A result the response schema rejects yields 500 at
      `response_validation`, unless output validation is skipped. */
  lemma ResponseValidationFails(def: Definition, call: Call)
    requires def.auth != AuthFunction || Truthy(call.authResult)
    requires !DeclaresQuerySchema(def) || call.queryCheck.Ok?
    requires !DeclaresPayloadSchema(def) || call.payloadCheck.Ok?
    requires HandlerResult(def, call).Ok?
    requires DeclaresResponseSchema(def) && !SkipsOutputValidation(def)
    requires def.schemas.value.response.value.parse(HandlerResult(def, call).value).Fail?
    ensures Respond(def, call) ==
      Failure(def.schemas.value.response.value.parse(HandlerResult(def, call).value).message, "response_validation")
    ensures Ran(def, call) == Planned(def)
  {
    var ran := Planned(def);
    assert ran[..|ran| - 1] == AuthStages(def) + QueryStages(def) + PayloadStages(def) + [Handler];
    FailsAt(def, call, ran, []);
  }

  /** When no stage refuses, every planned stage runs and the response is
      200 with the wrapped result. */
  lemma AllStagesPass(def: Definition, call: Call)
    requires def.auth != AuthFunction || Truthy(call.authResult)
    requires !DeclaresQuerySchema(def) || call.queryCheck.Ok?
    requires !DeclaresPayloadSchema(def) || call.payloadCheck.Ok?
    requires HandlerResult(def, call).Ok?
    requires DeclaresResponseSchema(def) && !SkipsOutputValidation(def) ==>
      def.schemas.value.response.value.parse(HandlerResult(def, call).value).Ok?
    ensures Respond(def, call) == Success(HandlerResult(def, call).value)
    ensures Ran(def, call) == Planned(def)
  {
    assert AllPass(def, call, Planned(def));
    NoneFails(def, call);
  }

  predicate AllPass(def: Definition, call: Call, stages: seq<Stage>) {
    forall j :: 0 <= j < |stages| ==> Judge(def, call, stages[j]) == Pass
  }

  /** When every stage before the last of `ran` passes, the last refuses,
      and the rest of the plan follows, that stage decides the response
      and `ran` is what ran. */
  lemma FailsAt(def: Definition, call: Call, ran: seq<Stage>, rest: seq<Stage>)
    requires Planned(def) == ran + rest && ran != []
    requires AllPass(def, call, ran[..|ran| - 1])
    requires Judge(def, call, ran[|ran| - 1]) != Pass
    ensures FirstFailure(def, call, Planned(def)) == Some(|ran| - 1)
    ensures Ran(def, call) == ran
    ensures Respond(def, call) == Refusal(ran[|ran| - 1], Judge(def, call, ran[|ran| - 1]))
  {
    var planned := Planned(def);
    assert forall j :: 0 <= j < |ran| ==> planned[j] == ran[j];
    assert forall j :: 0 <= j < |ran| - 1 ==> ran[..|ran| - 1][j] == ran[j];
    assert planned[..|ran|] == ran;
  }

  /** When every planned stage passes, the response is a success. */
  lemma NoneFails(def: Definition, call: Call)
    requires AllPass(def, call, Planned(def))
    ensures Ran(def, call) == Planned(def)
    ensures Respond(def, call) == Success(ResultValue(def, call))
  {
  }

  // ---------------------------------------------------------------------
  // Properties of the response

  /** What ran is a non-empty prefix of the plan, in the wrapper's order. */
  lemma RanIsPlannedPrefix(def: Definition, call: Call)
    ensures var ran := Ran(def, call);
      ran != [] && |ran| <= |Planned(def)| && ran == Planned(def)[..|ran|] && InOrder(ran)
  {
    PlannedInOrder(def);
  }

  /** The response is 403 exactly when an `auth` function resolves to a
      falsy value; without an `auth` function there is never a 403. */
  lemma ForbiddenIff(def: Definition, call: Call)
    ensures Respond(def, call).status == 403 <==> def.auth == AuthFunction && !Truthy(call.authResult)
  {
    if def.auth == AuthFunction && !Truthy(call.authResult) {
      AuthorizationRefused(def, call);
    }
  }

  /** A 500 names the stage that failed: it ran last, every stage before it
      passed, and the body carries its message under `error` and its tag
      under `at`. */
  lemma ServerErrorBlamesFailedStage(def: Definition, call: Call)
    requires Respond(def, call).status == 500
    ensures var ran := Ran(def, call);
      var s := ran[|ran| - 1];
      ran != [] && s != Authorization && Judge(def, call, s).Failed? &&
      AllPass(def, call, ran[..|ran| - 1]) &&
      Lookup(Respond(def, call).body, "error") == Some(Str(Judge(def, call, s).message)) &&
      Lookup(Respond(def, call).body, "at") == Some(Str(Tag(s)))
  {
    var planned := Planned(def);
    var k := FirstFailure(def, call, planned).value;
    var s, v := planned[k], Judge(def, call, planned[k]);
    var ran := Ran(def, call);
    assert ran == planned[..k + 1];
    assert ran[..|ran| - 1] == planned[..k];
    assert Respond(def, call) == Refusal(s, v);
    assert !v.Deny? by {
      assert Denied().status == 403;
    }
    assert v.Failed? && s != Authorization;
    assert Respond(def, call) == Failure(v.message, Tag(s));
  }

  /** A stage that is not planned is never blamed: no `query_validation`
      without a query schema, no `payload_validation` without a payload
      schema, no `response_validation` without a response schema or when
      output validation is skipped. */
  lemma UndeclaredSchemaNeverBlamed(def: Definition, call: Call)
    requires Respond(def, call).status == 500
    ensures Lookup(Respond(def, call).body, "at") == Some(Str("query_validation")) ==> DeclaresQuerySchema(def)
    ensures Lookup(Respond(def, call).body, "at") == Some(Str("payload_validation")) ==> DeclaresPayloadSchema(def)
    ensures Lookup(Respond(def, call).body, "at") == Some(Str("response_validation")) ==>
      DeclaresResponseSchema(def) && !SkipsOutputValidation(def)
  {
    ServerErrorBlamesFailedStage(def, call);
    RanIsPlannedPrefix(def, call);
    PlannedStages(def);
    var ran := Ran(def, call);
    var s := ran[|ran| - 1];
    assert s in Planned(def) by {
      assert Planned(def)[|ran| - 1] == s;
    }
    TagInjective(s, QueryValidation);
    TagInjective(s, PayloadValidation);
    TagInjective(s, ResponseValidation);
  }

  /** With output validation skipped, a result the response schema would
      reject still yields 200, once the earlier stages pass. */
  lemma SkippedOutputValidationSucceeds(def: Definition, call: Call)
    requires SkipsOutputValidation(def)
    requires def.auth != AuthFunction || Truthy(call.authResult)
    requires !DeclaresQuerySchema(def) || call.queryCheck.Ok?
    requires !DeclaresPayloadSchema(def) || call.payloadCheck.Ok?
    requires HandlerResult(def, call).Ok?
    ensures Respond(def, call).status == 200
    ensures Respond(def, call).body == Wrap(HandlerResult(def, call).value)
    ensures ResponseValidation !in Ran(def, call)
  {
    AllStagesPass(def, call);
    PlannedStages(def);
  }

  /** Once the handler runs, the validations before it have passed, and it
      received the validated query (or `undefined` without a schema), the
      route parameters as they came, and the validated payload (or
      `undefined`). */
  lemma HandlerReceivesValidated(def: Definition, call: Call)
    requires Handler in Ran(def, call)
    ensures def.auth != AuthFunction || Truthy(call.authResult)
    ensures DeclaresQuerySchema(def) ==> call.queryCheck == Ok(HandlerArgs(def, call).queryParams)
    ensures !DeclaresQuerySchema(def) ==> HandlerArgs(def, call).queryParams == Undefined
    ensures HandlerArgs(def, call).urlParams == call.routeParams
    ensures DeclaresPayloadSchema(def) ==> call.payloadCheck == Ok(HandlerArgs(def, call).payload)
    ensures !DeclaresPayloadSchema(def) ==> HandlerArgs(def, call).payload == Undefined
  {
    if def.auth == AuthFunction && !Truthy(call.authResult) {
      AuthorizationRefused(def, call);
      assert false;
    }
    if DeclaresQuerySchema(def) && call.queryCheck.Fail? {
      QueryValidationFails(def, call);
      assert false;
    }
    if DeclaresPayloadSchema(def) && call.payloadCheck.Fail? {
      PayloadValidationFails(def, call);
      assert false;
    }
  }

  /** The response is 200 exactly when every planned stage passes; its body
      is then the wrapped result of the handler. */
  lemma SuccessIff(def: Definition, call: Call)
    ensures Respond(def, call).status == 200 <==> AllPass(def, call, Planned(def))
    ensures Respond(def, call).status == 200 ==>
      HandlerResult(def, call).Ok? && Respond(def, call).body == Wrap(HandlerResult(def, call).value)
  {
    PlannedStages(def);
    var planned := Planned(def);
    if AllPass(def, call, planned) {
      var h :| 0 <= h < |planned| && planned[h] == Handler;
      assert Judge(def, call, planned[h]) == Pass;
    }
  }
}
