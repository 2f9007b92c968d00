/** The records shared by the client, the server wrapper and the definition
    builder: a route definition (`ServerFnDefinition`), the per-call payload
    of a consumer (`APIConsumerPayload`) and the session a client may hold. */
module Definitions {
  import opened JsValues

  /** A validation schema. Only its `parse` capability is used: it yields
      the parsed value or throws with a message. */
  datatype Schema = Schema(parse: Value -> Outcome<Value>)

  datatype Schemas = Schemas(
    urlArgs: Option<Schema>,
    queryParams: Option<Schema>,
    payload: Option<Schema>,
    response: Option<Schema>)

  /** The `auth` field: absent, present but not a function (the wrapper
      ignores it), or an authorization function. */
  datatype AuthField = NoAuth | NotAFunction | AuthFunction

  /** An object property that an object spread copies: a missing key, a key
      whose value is `undefined` (spread copies that too), or a value. */
  datatype Slot<+T> = Absent | UndefinedValue | Present(value: T)

  datatype Definition = Definition(
    schemas: Option<Schemas>,
    endpoint: Option<string>,
    httpMethod: Slot<string>,      // the `method` property
    protoIn: Option<string>,
    protoOut: Option<string>,
    setHandler: Option<nat>,        // identity of the function object, if any
    auth: AuthField,
    skipOutputValidation: Option<bool>,
    apiConfig: Option<Value>)       // attached by the definition builder

  /** A string-valued record, as its entries in `Object.keys` order. */
  type Record = seq<(string, string)>

  datatype ConsumerPayload = ConsumerPayload(
    urlParams: Option<Record>,
    query: Option<Record>,
    body: Value,                    // `Undefined` when absent
    headers: Option<map<string, string>>)

  /** What a successful session lookup yields. */
  datatype Session = Session(userId: string, accessToken: string)

  predicate DeclaresQuerySchema(def: Definition) {
    def.schemas.Some? && def.schemas.value.queryParams.Some?
  }

  predicate DeclaresPayloadSchema(def: Definition) {
    def.schemas.Some? && def.schemas.value.payload.Some?
  }

  predicate DeclaresResponseSchema(def: Definition) {
    def.schemas.Some? && def.schemas.value.response.Some?
  }

  /** `!def.skipOutputValidation` is false. */
  predicate SkipsOutputValidation(def: Definition) {
    def.skipOutputValidation == Some(true)
  }
}
