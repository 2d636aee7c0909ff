/** Records shared by the pipeline (src/types.rs, src/config.rs) and the
    Kubernetes discovery record `APIResource` the newer snapshot works on. */
module Types {
  import opened Wrappers

  /** The run configuration: a plain record. */
  datatype Config = Config(
    displayGroup: bool,
    namespace: Option<string>,
    hideForbidden: bool,
    subresources: bool,
    verbs: seq<string>,
    impersonate: Option<string>)

  /** One decision. `allowed` and `denied` are kept apart: a review may
      neither allow nor explicitly deny. */
  datatype CheckResult = CheckResult(verb: string, allowed: bool, denied: bool)

  /** kube's `GroupVersionKind`. */
  datatype Gvk = Gvk(group: string, version: string, kind: string)

  /** `DynamicObject::plural`, `DynamicObject::kind` and `DynamicObject::group`
      applied to a gvk: helpers of the client library, left uninterpreted. */
  datatype Naming = Naming(plural: Gvk -> string, kind: Gvk -> string, group: Gvk -> string)

  /** Per-resource result of the gvk-based snapshot. Being a map, it holds at
      most one decision per verb key. */
  datatype ResourceCheckResult = ResourceCheckResult(gvk: Gvk, items: map<string, CheckResult>) {
    /** `GroupVersionKindHelper` for a result delegates to its gvk. */
    function Plural(n: Naming): (r: string)
    {
      n.plural(gvk)
    }

    function Kind(n: Naming): (r: string)
    {
      n.kind(gvk)
    }

    function Group(n: Naming): (r: string)
    {
      n.group(gvk)
    }
  }

  /** The helpers read only the gvk: results for the same gvk name it alike,
      whatever their decisions. */
  lemma HelpersFollowGvk(n: Naming, a: ResourceCheckResult, b: ResourceCheckResult)
    requires a.gvk == b.gvk
    ensures a.Plural(n) == b.Plural(n) && a.Kind(n) == b.Kind(n) && a.Group(n) == b.Group(n)
  {
  }

  /** The report: the configuration used and the items in order. The item type
      differs between snapshots (gvk-based or `APIResource`-based). */
  datatype FullResult<T> = FullResult(config: Config, items: seq<T>)

  /** The fields of k8s-openapi's `APIResource` the pipeline reads or keeps.
      `group` and `version` are optional; discovery stamps them. */
  datatype ApiResource = ApiResource(
    name: string,
    singularName: string,
    namespaced: bool,
    kind: string,
    group: Option<string>,
    version: Option<string>,
    verbs: seq<string>,
    shortNames: Option<seq<string>>)

  /** Per-resource result of the newer snapshot (src/check.rs), keyed by the
      `APIResource` it was computed for. */
  datatype ResourceReport = ResourceReport(resource: ApiResource, items: map<string, CheckResult>)

  /** Some verb of the map is allowed (the hide-forbidden test). */
  predicate AnyAllowed(items: map<string, CheckResult>)
  {
    exists k :: k in items && items[k].allowed
  }
}
