/** `createAPIDefinition(def)`: a fresh definition with the method
    defaulted to `get`, the endpoint turned into a string, and, when the
    `API_EXPORTER` environment variable is set, the OpenAPI metadata
    attached under `apiConfig`. The environment variable and the metadata
    builder `setOpenAPIMetadata` are parameters. Definitions are values, so
    the caller's definition is never changed. */
module ApiGenerator {
  import opened JsValues
  import opened Definitions

  /** The exporter environment variable counts as set when it is present
      and non-empty. */
  predicate ExporterEnabled(flag: Option<string>) {
    flag.Some? && flag.value != ""
  }

  /** The defaults: a missing `method` key becomes `get` (a key present with
      the value `undefined` stays), and the endpoint becomes a string, the
      empty one when it was missing or empty. Everything else is copied. */
  function WithDefaults(def: Definition): (d: Definition)
    ensures def.httpMethod.Absent? ==> d.httpMethod == Present("get")
    ensures !def.httpMethod.Absent? ==> d.httpMethod == def.httpMethod
    ensures d.endpoint.Some?
    ensures def.endpoint.Some? && def.endpoint.value != "" ==> d.endpoint == def.endpoint
    ensures def.endpoint.None? || def.endpoint.value == "" ==> d.endpoint == Some("")
    ensures d.(httpMethod := def.httpMethod, endpoint := def.endpoint) == def
  {
    var m := if def.httpMethod.Absent? then Present("get") else def.httpMethod;
    var e := match def.endpoint case Some(s) => s case None => "";
    def.(httpMethod := m, endpoint := Some(e))
  }

  function CreateApiDefinition(def: Definition, exporter: Option<string>,
                               metadata: Definition -> Value): (r: Definition)
    ensures r.(apiConfig := def.apiConfig) == WithDefaults(def)
    ensures ExporterEnabled(exporter) ==> r.apiConfig == Some(metadata(WithDefaults(def)))
    ensures !ExporterEnabled(exporter) ==> r.apiConfig == def.apiConfig
  {
    var d := WithDefaults(def);
    if ExporterEnabled(exporter) then d.(apiConfig := Some(metadata(d))) else d
  }

  /** Defaulting twice changes nothing more: the result already has a
      method key and a string endpoint. */
  lemma WithDefaultsIdempotent(def: Definition)
    ensures WithDefaults(WithDefaults(def)) == WithDefaults(def)
  {
  }

  /** Without the exporter, building a definition from a built definition
      gives it back unchanged; with it, only `apiConfig` may change. */
  lemma CreateApiDefinitionStable(def: Definition, exporter: Option<string>, metadata: Definition -> Value)
    ensures var once := CreateApiDefinition(def, exporter, metadata);
      var twice := CreateApiDefinition(once, exporter, metadata);
      twice.(apiConfig := once.apiConfig) == once &&
      (!ExporterEnabled(exporter) ==> twice == once)
  {
    var once := CreateApiDefinition(def, exporter, metadata);
    WithDefaultsIdempotent(def);
    assert WithDefaults(once) == WithDefaults(def).(apiConfig := once.apiConfig);
  }

  /** The fields the builder does not touch are carried over as they are. */
  lemma CreateApiDefinitionKeepsFields(def: Definition, exporter: Option<string>, metadata: Definition -> Value)
    ensures var r := CreateApiDefinition(def, exporter, metadata);
      r.schemas == def.schemas && r.protoIn == def.protoIn && r.protoOut == def.protoOut &&
      r.setHandler == def.setHandler && r.auth == def.auth &&
      r.skipOutputValidation == def.skipOutputValidation
  {
  }
}
