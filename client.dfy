/** The cluster as the pipeline sees it through kube's `Client`: every
    network call is an oracle that returns a value or an error. */
module Client {
  import opened Wrappers
  import opened Types
  import opened AccessReview

  /** One entry of an API group's version list (`GroupVersionForDiscovery`). */
  datatype GroupVersionForDiscovery = GroupVersionForDiscovery(groupVersion: string, version: string)

  /** `APIGroup`: its versions and, possibly, the preferred one. */
  datatype ApiGroup = ApiGroup(name: string, versions: seq<GroupVersionForDiscovery>, preferredVersion: Option<GroupVersionForDiscovery>)

  /** `APIResourceList`: the resources of one `group/version` (or bare core
      `version`). */
  datatype ApiResourceList = ApiResourceList(groupVersion: string, resources: seq<ApiResource>)

  /** The answers of the cluster: `list_api_groups`, `list_core_api_versions`,
      `list_api_group_resources`, `list_core_api_resources` and the raw
      `client.request` that carries an access review. */
  datatype Cluster = Cluster(
    apiGroups: Result<seq<ApiGroup>, Failure>,
    coreApiVersions: Result<seq<string>, Failure>,
    groupResources: string -> Result<ApiResourceList, Failure>,
    coreResources: string -> Result<ApiResourceList, Failure>,
    review: HttpRequest -> Result<ReviewResponse, Failure>)
}
