/** The permission-check engine of the older snapshot (src/check/mod.rs):
    every verb of ALL_VERBS is probed for every gvk the discovery lists, and
    one failure fails the whole run. */
module LegacyCheck {
  import opened Wrappers
  import opened Types
  import opened Constants
  import opened AccessReview
  import opened VerbMap
  import opened Seqs

  /** The cluster as this snapshot reaches it: `Client::try_default` for the
      listing and, separately, for every probe (each may fail on its own),
      kube's `Discovery` run, its uninterpreted `preferred_version_or_guess`
      and `resources_by_version`, the gvk naming helpers and the review
      round trip. */
  datatype LegacyCluster<!G> = LegacyCluster(
    listConnect: Result<(), Failure>,
    probeConnect: (Gvk, string) -> Result<(), Failure>,
    discovery: Result<seq<G>, Failure>,
    preferredVersionOrGuess: G -> string,
    resourcesByVersion: (G, string) -> seq<Gvk>,
    naming: Naming,
    review: HttpRequest -> Result<ReviewResponse, Failure>)

  /** The attributes: the gvk's group and plural name and the lower-cased
      verb; no impersonation exists in this snapshot. */
  function AttributesFor(n: Naming, gvk: Gvk, verb: string, namespace: Option<string>): (a: ResourceAttributes)
    ensures a.group == Some(n.group(gvk)) && a.resource == n.plural(gvk)
    ensures a.namespace == namespace && a.verb == Lower(verb)
  {
    ResourceAttributes(Some(n.group(gvk)), n.plural(gvk), namespace, Lower(verb))
  }

  /** `check_resource_verb`: connect, send the review without extra headers,
      read the status. */
  function VerbOutcome<G>(c: LegacyCluster<G>, gvk: Gvk, verb: string, namespace: Option<string>): (o: Outcome<CheckResult>)
    ensures c.probeConnect(gvk, verb).Err? ==> o == Failed(c.probeConnect(gvk, verb).error)
    ensures c.probeConnect(gvk, verb).Ok? ==>
      o == Interpret(verb, c.review(HttpRequest("POST", REVIEW_PATH, [], ReviewOf(AttributesFor(c.naming, gvk, verb, namespace)))))
  {
    match c.probeConnect(gvk, verb)
    case Err(e) => Failed(e)
    case Ok(_) =>
      var request := Post(REVIEW_PATH).Body(ReviewOf(AttributesFor(c.naming, gvk, verb, namespace)));
      Interpret(verb, c.review(request.value))
  }

  function Prober<G>(c: LegacyCluster<G>, gvk: Gvk, namespace: Option<string>): (p: string -> Outcome<CheckResult>)
  {
    v => VerbOutcome(c, gvk, v, namespace)
  }

  /** What `check_resource` yields: every verb of ALL_VERBS, in order. */
  function CheckResourceSpec<G>(c: LegacyCluster<G>, gvk: Gvk, namespace: Option<string>): Outcome<ResourceCheckResult>
  {
    match ProbeAll(ALL_VERBS, Prober(c, gvk, namespace))
    case Done(m) => Done(ResourceCheckResult(gvk, m))
    case Failed(e) => Failed(e)
    case Panicked => Panicked
  }

  /** `check_resource`: insert each verb's decision, returning at the first
      probe that fails. */
  method CheckResource<G>(c: LegacyCluster<G>, gvk: Gvk, namespace: Option<string>) returns (o: Outcome<ResourceCheckResult>)
    ensures o == CheckResourceSpec(c, gvk, namespace)
  {
    ghost var probe := Prober(c, gvk, namespace);
    var items: map<string, CheckResult> := map[];
    for i := 0 to |ALL_VERBS|
      invariant ProbeAll(ALL_VERBS[..i], probe) == Done(items)
    {
      var verb := ALL_VERBS[i];
      assert ALL_VERBS[..i + 1] == ALL_VERBS[..i] + [verb];
      assert ALL_VERBS[..i + 1] + ALL_VERBS[i + 1..] == ALL_VERBS;
      ProbeAllSnoc(ALL_VERBS[..i], verb, probe);
      var r := VerbOutcome(c, gvk, verb, namespace);
      match r {
        case Failed(e) =>
          ProbeAllFailureSticks(ALL_VERBS[..i + 1], ALL_VERBS[i + 1..], probe);
          return Failed(e);
        case Panicked =>
          ProbeAllFailureSticks(ALL_VERBS[..i + 1], ALL_VERBS[i + 1..], probe);
          return Panicked;
        case Done(decision) =>
          items := items[verb := decision];
      }
    }
    assert ALL_VERBS[..|ALL_VERBS|] == ALL_VERBS;
    o := Done(ResourceCheckResult(gvk, items));
  }

  /** A successful check has exactly the 8 verbs of ALL_VERBS as keys, each
      holding its probe's decision. */
  lemma CheckResourceReport<G>(c: LegacyCluster<G>, gvk: Gvk, namespace: Option<string>)
    requires CheckResourceSpec(c, gvk, namespace).Done?
    ensures var rep := CheckResourceSpec(c, gvk, namespace).value;
            && rep.gvk == gvk
            && (forall v :: v in rep.items <==> v in ALL_VERBS)
            && |rep.items| == 8
            && (forall v :: v in rep.items ==> VerbOutcome(c, gvk, v, namespace) == Done(rep.items[v]))
  {
    ProbeAllMap(ALL_VERBS, Prober(c, gvk, namespace));
    var rep := CheckResourceSpec(c, gvk, namespace).value;
    AllVerbsDistinct();
    DistinctCard(ALL_VERBS);
    assert rep.items.Keys == set v | v in ALL_VERBS;
  }

  /** A failure on any verb fails the resource, with the failure of the
      first failing verb in ALL_VERBS order (every earlier verb succeeded). */
  lemma CheckResourceFailure<G>(c: LegacyCluster<G>, gvk: Gvk, namespace: Option<string>)
    ensures CheckResourceSpec(c, gvk, namespace).Done? <==> forall v :: v in ALL_VERBS ==> VerbOutcome(c, gvk, v, namespace).Done?
    ensures !CheckResourceSpec(c, gvk, namespace).Done? ==>
            exists v :: v in ALL_VERBS && SameFailure(VerbOutcome(c, gvk, v, namespace), CheckResourceSpec(c, gvk, namespace))
    ensures !CheckResourceSpec(c, gvk, namespace).Done? ==>
            exists i :: 0 <= i < |ALL_VERBS|
                     && SameFailure(VerbOutcome(c, gvk, ALL_VERBS[i], namespace), CheckResourceSpec(c, gvk, namespace))
                     && forall j :: 0 <= j < i ==> VerbOutcome(c, gvk, ALL_VERBS[j], namespace).Done?
  {
    var probe := Prober(c, gvk, namespace);
    ProbeAllSucceedsIff(ALL_VERBS, probe);
    if !ProbeAll(ALL_VERBS, probe).Done? {
      ProbeAllFirstFailure(ALL_VERBS, probe);
      var k :| 0 <= k < |ALL_VERBS| && SameFailure(probe(ALL_VERBS[k]), ProbeAll(ALL_VERBS, probe))
               && forall j :: 0 <= j < k ==> probe(ALL_VERBS[j]).Done?;
      assert ALL_VERBS[k] in ALL_VERBS;
    }
  }

  /** The gvks of the groups, group by group, each group contributing every
      resource of its one chosen version. */
  function Catalog<G>(c: LegacyCluster<G>, groups: seq<G>): seq<Gvk>
  {
    if groups == [] then []
    else
      var g := groups[|groups| - 1];
      Catalog(c, groups[..|groups| - 1]) + c.resourcesByVersion(g, c.preferredVersionOrGuess(g))
  }

  /** What `list_resources` yields. */
  function ListResourcesSpec<G>(c: LegacyCluster<G>): Result<seq<Gvk>, Failure>
  {
    match c.listConnect
    case Err(e) => Err(e)
    case Ok(_) =>
      match c.discovery
      case Err(e) => Err(e)
      case Ok(groups) => Ok(Catalog(c, groups))
  }

  /** `list_resources`: push every gvk of every group's chosen version. */
  method ListResources<G>(c: LegacyCluster<G>) returns (r: Result<seq<Gvk>, Failure>)
    ensures r == ListResourcesSpec(c)
  {
    if c.listConnect.Err? {
      return Err(c.listConnect.error);
    }
    if c.discovery.Err? {
      return Err(c.discovery.error);
    }
    var groups := c.discovery.value;
    var v: seq<Gvk> := [];
    for i := 0 to |groups|
      invariant v == Catalog(c, groups[..i])
    {
      var ver := c.preferredVersionOrGuess(groups[i]);
      var resources := c.resourcesByVersion(groups[i], ver);
      for j := 0 to |resources|
        invariant v == Catalog(c, groups[..i]) + resources[..j]
      {
        v := v + [resources[j]];
        assert resources[..j + 1] == resources[..j] + [resources[j]];
      }
      assert groups[..i + 1][..i] == groups[..i];
      assert resources[..|resources|] == resources;
    }
    assert groups[..|groups|] == groups;
    return Ok(v);
  }

  /** A gvk is listed exactly when some group's chosen version has it. */
  lemma {:induction false} CatalogMembers<G>(c: LegacyCluster<G>, groups: seq<G>, gvk: Gvk)
    ensures gvk in Catalog(c, groups)
       <==> exists i :: 0 <= i < |groups| && gvk in c.resourcesByVersion(groups[i], c.preferredVersionOrGuess(groups[i]))
    decreases |groups|
  {
    if groups != [] {
      var init := groups[..|groups| - 1];
      CatalogMembers(c, init, gvk);
      assert forall i :: 0 <= i < |init| ==> init[i] == groups[i];
    }
  }

  /** The catalog of consecutive group lists is the concatenation of theirs. */
  lemma {:induction false} CatalogAppend<G>(c: LegacyCluster<G>, a: seq<G>, b: seq<G>)
    ensures Catalog(c, a + b) == Catalog(c, a) + Catalog(c, b)
    decreases |b|
  {
    if b == [] {
      assert a + b == a;
    } else {
      var ab := a + b;
      assert ab[..|ab| - 1] == a + b[..|b| - 1];
      CatalogAppend(c, a, b[..|b| - 1]);
    }
  }

  /** Its checker has only a configuration; the client is made per call. */
  datatype LegacyChecker<!G> = LegacyChecker(config: Config, cluster: LegacyCluster<G>)

  function RunChecks<G>(c: LegacyCluster<G>, gvks: seq<Gvk>, namespace: Option<string>): (os: seq<Outcome<ResourceCheckResult>>)
    ensures |os| == |gvks|
    ensures forall i :: 0 <= i < |gvks| ==> os[i] == CheckResourceSpec(c, gvks[i], namespace)
  {
    seq(|gvks|, i requires 0 <= i < |gvks| => CheckResourceSpec(c, gvks[i], namespace))
  }

  /** `Checker::check_all`: list, check each gvk, join; any failure fails. */
  function CheckAll<G>(checker: LegacyChecker<G>): Outcome<FullResult<ResourceCheckResult>>
  {
    match ListResourcesSpec(checker.cluster)
    case Err(e) => Failed(e)
    case Ok(gvks) =>
      match CollectAll(RunChecks(checker.cluster, gvks, checker.config.namespace))
      case Done(items) => Done(FullResult(checker.config, items))
      case Failed(e) => Failed(e)
      case Panicked => Panicked
  }

  /** The report corresponds one-to-one and in order to the listed gvks,
      nothing filtered; one failing resource fails the whole run. */
  lemma CheckAllOneToOne<G>(checker: LegacyChecker<G>)
    requires ListResourcesSpec(checker.cluster).Ok?
    ensures var gvks := ListResourcesSpec(checker.cluster).value;
            CheckAll(checker).Done? <==> forall i :: 0 <= i < |gvks| ==> CheckResourceSpec(checker.cluster, gvks[i], checker.config.namespace).Done?
    ensures var gvks := ListResourcesSpec(checker.cluster).value;
            CheckAll(checker).Done? ==>
              && CheckAll(checker).value.config == checker.config
              && |CheckAll(checker).value.items| == |gvks|
              && forall i :: 0 <= i < |gvks| ==>
                   CheckAll(checker).value.items[i].gvk == gvks[i]
                   && CheckResourceSpec(checker.cluster, gvks[i], checker.config.namespace) == Done(CheckAll(checker).value.items[i])
  {
    var gvks := ListResourcesSpec(checker.cluster).value;
    var os := RunChecks(checker.cluster, gvks, checker.config.namespace);
    if CollectAll(os).Done? {
      forall i | 0 <= i < |gvks|
        ensures CollectAll(os).value[i].gvk == gvks[i]
      {
        CheckResourceReport(checker.cluster, gvks[i], checker.config.namespace);
      }
    }
  }
}
