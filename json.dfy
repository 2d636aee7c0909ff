/** The JSON formatter of the newer snapshot (src/formatter/json.rs): each
    result becomes a record with its group, kind and a map from the
    lower-cased verb to `allowed` (the JSON text itself is not modelled). */
module Json {
  import opened Wrappers
  import opened Types
  import opened Constants

  datatype JsonResourceResult = JsonResourceResult(group: string, kind: string, verbAllowed: map<string, bool>)

  datatype JsonFullResult = JsonFullResult(items: seq<JsonResourceResult>)

  /** The keys of a result's map are verbs of ALL_VERBS: the map is keyed by
      those static names. */
  predicate VerbKeyed(items: map<string, CheckResult>)
  {
    forall k :: k in items ==> k in ALL_VERBS
  }

  /** `From<ResourceCheckResult> for JsonResourceResult`. */
  function FromResource(n: Naming, value: ResourceCheckResult): (r: JsonResourceResult)
    requires VerbKeyed(value.items)
    ensures r.group == n.group(value.gvk) && r.kind == n.kind(value.gvk)
    ensures forall k :: k in value.items ==> Lower(k) in r.verbAllowed && r.verbAllowed[Lower(k)] == value.items[k].allowed
    ensures forall lk :: lk in r.verbAllowed ==> exists k :: k in value.items && lk == Lower(k)
    ensures forall v :: v in ALL_VERBS ==> (Lower(v) in r.verbAllowed <==> v in value.items)
  {
    LowerInjectiveOnVerbs();
    JsonResourceResult(n.group(value.gvk), n.kind(value.gvk), map k | k in value.items :: Lower(k) := value.items[k].allowed)
  }

  /** `From<FullResult> for JsonFullResult`: one record per item, in order. */
  function FromFull(n: Naming, value: FullResult<ResourceCheckResult>): (r: JsonFullResult)
    requires forall i :: 0 <= i < |value.items| ==> VerbKeyed(value.items[i].items)
    ensures |r.items| == |value.items|
    ensures forall i :: 0 <= i < |value.items| ==> r.items[i] == FromResource(n, value.items[i])
  {
    JsonFullResult(seq(|value.items|, i requires 0 <= i < |value.items| => FromResource(n, value.items[i])))
  }

  /** A verb never probed is absent from `verb_allowed`: it is not
      defaulted to false. */
  lemma UnprobedVerbAbsent(n: Naming, value: ResourceCheckResult, verb: string)
    requires VerbKeyed(value.items)
    requires verb in ALL_VERBS && verb !in value.items
    ensures Lower(verb) !in FromResource(n, value).verbAllowed
  {
    LowerInjectiveOnVerbs();
  }

  /** `denied` is not carried: results that differ only in `denied` give
      the same record. */
  lemma DeniedNotCarried(n: Naming, a: ResourceCheckResult, b: ResourceCheckResult)
    requires VerbKeyed(a.items) && a.gvk == b.gvk && a.items.Keys == b.items.Keys
    requires forall v :: v in a.items ==> a.items[v].allowed == b.items[v].allowed
    ensures FromResource(n, a) == FromResource(n, b)
  {
    assert FromResource(n, a).verbAllowed == FromResource(n, b).verbAllowed;
  }

  /** `Json::new` converts the report: one record per item, in order, with
      the item's group and kind; a verb of the vocabulary is a key of the
      record (lower-cased) exactly when it was probed, mapped to its
      `allowed` flag. */
  function New(n: Naming, fullResult: FullResult<ResourceCheckResult>): (j: JsonFullResult)
    requires forall i :: 0 <= i < |fullResult.items| ==> VerbKeyed(fullResult.items[i].items)
    ensures |j.items| == |fullResult.items|
    ensures forall i :: 0 <= i < |j.items| ==>
              j.items[i].group == n.group(fullResult.items[i].gvk) && j.items[i].kind == n.kind(fullResult.items[i].gvk)
    ensures forall i, v :: 0 <= i < |j.items| && v in ALL_VERBS ==>
              (Lower(v) in j.items[i].verbAllowed <==> v in fullResult.items[i].items)
    ensures forall i, v :: 0 <= i < |j.items| && v in fullResult.items[i].items ==>
              Lower(v) in j.items[i].verbAllowed && j.items[i].verbAllowed[Lower(v)] == fullResult.items[i].items[v].allowed
  {
    FromFull(n, fullResult)
  }

  /** `Display for Json`: the serialised text, or a formatting error when
      serialisation fails; never a partial output. */
  function Render(json: JsonFullResult, serialise: JsonFullResult -> Option<string>): (out: Option<string>)
    ensures serialise(json).None? ==> out.None?
    ensures serialise(json).Some? ==> out == serialise(json)
  {
    match serialise(json)
    case Some(output) => Some(output)
    case None => None
  }
}
