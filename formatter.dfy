/** Output selection of the newer snapshot (src/formatter/mod.rs). Its
    report type is the gvk-based one of src/types.rs, which its JSON branch
    reads; its table branch is the `APIResource`-based formatter, so the
    table text is taken as a parameter here. */
module Formatter {
  import opened Wrappers
  import opened Types
  import Json

  datatype Formatter =
    | Pretty(config: Config, result: FullResult<ResourceCheckResult>)
    | Json(json: Json.JsonFullResult)

  /** `Formatter::new`: exactly `"json"` selects JSON, built from the report
      alone; anything else selects the table. */
  function New(n: Naming, format: string, config: Config, result: FullResult<ResourceCheckResult>): (f: Formatter)
    requires format == "json" ==> forall i :: 0 <= i < |result.items| ==> Json.VerbKeyed(result.items[i].items)
    ensures f.Json? <==> format == "json"
    ensures f.Json? ==> f.json == Json.New(n, result)
    ensures f.Pretty? ==> f.config == config && f.result == result
  {
    if format == "json" then Json(Json.New(n, result)) else Pretty(config, result)
  }

  /** Only the exact lower-case name selects JSON. */
  lemma OtherFormatsArePretty(n: Naming, config: Config, result: FullResult<ResourceCheckResult>)
    ensures New(n, "JSON", config, result).Pretty?
    ensures New(n, "", config, result).Pretty?
    ensures New(n, "table", config, result).Pretty?
  {
  }

  /** The JSON formatter ignores the configuration. */
  lemma JsonIgnoresConfig(n: Naming, a: Config, b: Config, result: FullResult<ResourceCheckResult>)
    requires forall i :: 0 <= i < |result.items| ==> Json.VerbKeyed(result.items[i].items)
    ensures New(n, "json", a, result) == New(n, "json", b, result)
  {
  }

  /** `Display for Formatter`: the wrapped variant's output. */
  function Display(f: Formatter, prettyText: (Config, FullResult<ResourceCheckResult>) -> Option<string>,
                   serialise: Json.JsonFullResult -> Option<string>): (out: Option<string>)
    ensures f.Pretty? ==> out == prettyText(f.config, f.result)
    ensures f.Json? ==> out == Json.Render(f.json, serialise)
  {
    match f
    case Pretty(config, result) => prettyText(config, result)
    case Json(json) => Json.Render(json, serialise)
  }
}
