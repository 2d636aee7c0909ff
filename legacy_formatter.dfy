/** Output selection and JSON records of the older snapshot
    (src/check/formatter.rs). The JSON map keeps the verb names as written
    in ALL_VERBS, not lower-cased. */
module LegacyFormatter {
  import opened Wrappers
  import opened Types
  import opened Table
  import LegacyPretty
  import Json
  import Constants

  /** `From<ResourceCheckResult> for JsonResourceResult` of this snapshot. */
  function FromResource(n: Naming, value: ResourceCheckResult): (r: Json.JsonResourceResult)
    ensures r.group == n.group(value.gvk) && r.kind == n.kind(value.gvk)
    ensures r.verbAllowed.Keys == value.items.Keys
    ensures forall k :: k in value.items ==> r.verbAllowed[k] == value.items[k].allowed
  {
    Json.JsonResourceResult(n.group(value.gvk), n.kind(value.gvk), map k | k in value.items :: value.items[k].allowed)
  }

  /** `From<FullResult> for JsonFullResult`: one record per item, in order. */
  function FromFull(n: Naming, value: FullResult<ResourceCheckResult>): (r: Json.JsonFullResult)
    ensures |r.items| == |value.items|
    ensures forall i :: 0 <= i < |value.items| ==> r.items[i] == FromResource(n, value.items[i])
  {
    Json.JsonFullResult(seq(|value.items|, i requires 0 <= i < |value.items| => FromResource(n, value.items[i])))
  }

  datatype Formatter = Pretty(pretty: LegacyPretty.Pretty) | Json(json: Json.JsonFullResult)

  /** `Formatter::new`: exactly `"json"` selects JSON, built from the report
      alone; anything else the table. */
  function New(n: Naming, format: string, config: Config, result: FullResult<ResourceCheckResult>): (f: Formatter)
    ensures f.Json? <==> format == "json"
    ensures f.Json? ==> f.json == FromFull(n, result)
    ensures f.Pretty? ==> f.pretty == LegacyPretty.Pretty(config, result)
  {
    if format == "json" then Json(FromFull(n, result)) else Pretty(LegacyPretty.Pretty(config, result))
  }

  /** `Display for Formatter`: the table's cells, or the serialised JSON
      (None is a formatting error). */
  function Display(n: Naming, f: Formatter, serialise: Json.JsonFullResult -> Option<string>): (out: Option<Rendered>)
    ensures f.Pretty? ==> out == Some(Cells(Header(f.pretty.config.displayGroup),
                                            LegacyPretty.Rows(n, f.pretty.config.displayGroup, f.pretty.result.items)))
    ensures f.Json? ==> (out.Some? <==> serialise(f.json).Some?)
    ensures f.Json? && out.Some? ==> out.value == Text(serialise(f.json).value)
  {
    match f
    case Pretty(p) => Some(Cells(Header(p.config.displayGroup), LegacyPretty.Rows(n, p.config.displayGroup, p.result.items)))
    case Json(json) =>
      match Json.Render(json, serialise)
      case Some(text) => Some(Text(text))
      case None => None
  }

  /** A report of this snapshot's engine holds all 8 verbs per item, so its
      JSON record has exactly those 8 keys. */
  lemma JsonRecordHasEveryVerb(n: Naming, value: ResourceCheckResult)
    requires forall v :: v in value.items <==> v in Constants.ALL_VERBS
    ensures forall v :: v in FromResource(n, value).verbAllowed <==> v in Constants.ALL_VERBS
  {
  }

  /** The table and the JSON record name an item alike: the table's group
      and kind cells are the record's group and kind. */
  lemma TableMatchesJson(n: Naming, item: ResourceCheckResult)
    ensures LegacyPretty.Row(n, true, item)[0] == FromResource(n, item).group
    ensures LegacyPretty.Row(n, true, item)[1] == FromResource(n, item).kind
    ensures LegacyPretty.Row(n, false, item)[0] == FromResource(n, item).kind
  {
  }
}
