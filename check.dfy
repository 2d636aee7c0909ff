/** The permission-check engine of the newer snapshot (src/check.rs): probe
    the verbs a resource advertises, one review at a time, then filter the
    per-resource results into the report. */
module Check {
  import opened Wrappers
  import opened Types
  import opened Constants
  import opened Seqs
  import opened AccessReview
  import opened VerbMap
  import opened Client
  import opened Discovery

  /** The ALL_VERBS entries (or of any verb list) whose lower-case form is
      advertised in the resource's `verbs`, in list order. */
  function SelectVerbs(verbs: seq<string>, advertised: seq<string>): (r: seq<string>)
    ensures Subseq(r, verbs)
    ensures forall v :: v in r <==> v in verbs && Lower(v) in advertised
  {
    if verbs == [] then []
    else
      var rest := SelectVerbs(verbs[1..], advertised);
      SubseqCons(rest, verbs[0], verbs[1..]);
      assert [verbs[0]] + verbs[1..] == verbs;
      if Lower(verbs[0]) in advertised then [verbs[0]] + rest else rest
  }

  lemma {:induction false} SelectVerbsAppend(a: seq<string>, b: seq<string>, advertised: seq<string>)
    ensures SelectVerbs(a + b, advertised) == SelectVerbs(a, advertised) + SelectVerbs(b, advertised)
  {
    if a == [] {
      assert a + b == b;
    } else {
      assert (a + b)[1..] == a[1..] + b;
      SelectVerbsAppend(a[1..], b, advertised);
    }
  }

  /** The review's attributes: the resource's group and name, the namespace
      and the lower-cased verb. */
  function AttributesFor(resource: ApiResource, verb: string, namespace: Option<string>): (a: ResourceAttributes)
    ensures a.group == resource.group && a.resource == resource.name
    ensures a.namespace == namespace && a.verb == Lower(verb)
  {
    ResourceAttributes(resource.group, resource.name, namespace, Lower(verb))
  }

  /** The HTTP request of one probe, or None when the builder rejects the
      impersonation value (and `.expect` then panics). */
  function RequestFor(resource: ApiResource, verb: string, namespace: Option<string>, impersonate: Option<string>): (r: Option<HttpRequest>)
    ensures r.Some? <==> (impersonate.Some? ==> ValidHeaderValue(impersonate.value))
    ensures r.Some? ==> r.value.httpMethod == "POST" && r.value.uri == REVIEW_PATH
    ensures r.Some? ==> r.value.body == ReviewOf(AttributesFor(resource, verb, namespace))
    ensures r.Some? ==> r.value.headers == if impersonate.Some? then [(IMPERSONATE_HEADER, impersonate.value)] else []
  {
    var builder := Post(REVIEW_PATH);
    var builder' := if impersonate.Some? then builder.Header(IMPERSONATE_HEADER, impersonate.value) else builder;
    builder'.Body(ReviewOf(AttributesFor(resource, verb, namespace)))
  }

  /** What one probe yields. */
  function VerbOutcome(c: Cluster, resource: ApiResource, verb: string, namespace: Option<string>, impersonate: Option<string>): Outcome<CheckResult>
  {
    match RequestFor(resource, verb, namespace, impersonate)
    case None => Panicked
    case Some(request) => Interpret(verb, c.review(request))
  }

  /** The `Impersonate-User` header is sent if and only if an identity is
      given, and names exactly that identity. */
  lemma ImpersonationHeader(resource: ApiResource, verb: string, namespace: Option<string>, impersonate: Option<string>)
    requires RequestFor(resource, verb, namespace, impersonate).Some?
    ensures var headers := RequestFor(resource, verb, namespace, impersonate).value.headers;
            (exists i :: 0 <= i < |headers| && headers[i].0 == IMPERSONATE_HEADER) <==> impersonate.Some?
    ensures var headers := RequestFor(resource, verb, namespace, impersonate).value.headers;
            forall i :: 0 <= i < |headers| && headers[i].0 == IMPERSONATE_HEADER ==> Some(headers[i].1) == impersonate
  {
    var headers := RequestFor(resource, verb, namespace, impersonate).value.headers;
    if impersonate.Some? {
      assert headers[0].0 == IMPERSONATE_HEADER;
    }
  }

  /** `check_resource_verb`: build the review, add the impersonation header
      when asked, send it, read the status. */
  method CheckResourceVerb(c: Cluster, resource: ApiResource, verb: string, namespace: Option<string>, impersonate: Option<string>)
    returns (o: Outcome<CheckResult>)
    ensures o == VerbOutcome(c, resource, verb, namespace, impersonate)
  {
    var review := ReviewOf(AttributesFor(resource, verb, namespace));
    var requestBuilder := Post(REVIEW_PATH);
    if impersonate.Some? {
      requestBuilder := requestBuilder.Header(IMPERSONATE_HEADER, impersonate.value);
    }
    var httpRequest := requestBuilder.Body(review);
    if httpRequest.None? {
      return Panicked;
    }
    var answer := c.review(httpRequest.value);
    o := Interpret(verb, answer);
  }

  /** One resource's probe, as a function of the verb. */
  function Prober(c: Cluster, resource: ApiResource, namespace: Option<string>, impersonate: Option<string>): (p: string -> Outcome<CheckResult>)
  {
    v => VerbOutcome(c, resource, v, namespace, impersonate)
  }

  /** What `check_resource` yields for one resource. */
  function CheckResourceSpec(c: Cluster, resource: ApiResource, namespace: Option<string>, impersonate: Option<string>): Outcome<ResourceReport>
  {
    match ProbeAll(SelectVerbs(ALL_VERBS, resource.verbs), Prober(c, resource, namespace, impersonate))
    case Done(m) => Done(ResourceReport(resource, m))
    case Failed(e) => Failed(e)
    case Panicked => Panicked
  }

  /** One more verb of the vocabulary adds at most that verb to the selection,
      and the selection of the whole list splits at any point. */
  lemma SelectVerbsSplit(verbs: seq<string>, i: nat, advertised: seq<string>)
    requires i < |verbs|
    ensures SelectVerbs(verbs[..i + 1], advertised)
         == SelectVerbs(verbs[..i], advertised) + (if Lower(verbs[i]) in advertised then [verbs[i]] else [])
    ensures SelectVerbs(verbs, advertised) == SelectVerbs(verbs[..i + 1], advertised) + SelectVerbs(verbs[i + 1..], advertised)
  {
    assert verbs[..i + 1] == verbs[..i] + [verbs[i]];
    SelectVerbsAppend(verbs[..i], [verbs[i]], advertised);
    assert [verbs[i]][1..] == [];
    SelectVerbsAppend(verbs[..i + 1], verbs[i + 1..], advertised);
    assert verbs[..i + 1] + verbs[i + 1..] == verbs;
  }

  /** `check_resource`: a fresh map filled verb by verb in ALL_VERBS order,
      returning at the first probe that fails. */
  method CheckResource(c: Cluster, resource: ApiResource, namespace: Option<string>, impersonate: Option<string>)
    returns (o: Outcome<ResourceReport>)
    ensures o == CheckResourceSpec(c, resource, namespace, impersonate)
  {
    ghost var probe := Prober(c, resource, namespace, impersonate);
    var items: map<string, CheckResult> := map[];
    for i := 0 to |ALL_VERBS|
      invariant ProbeAll(SelectVerbs(ALL_VERBS[..i], resource.verbs), probe) == Done(items)
    {
      var verb := ALL_VERBS[i];
      ghost var done := SelectVerbs(ALL_VERBS[..i], resource.verbs);
      ghost var later := SelectVerbs(ALL_VERBS[i + 1..], resource.verbs);
      SelectVerbsSplit(ALL_VERBS, i, resource.verbs);
      if Lower(verb) in resource.verbs {
        ProbeAllSnoc(done, verb, probe);
        var r := CheckResourceVerb(c, resource, verb, namespace, impersonate);
        match r {
          case Failed(e) =>
            ProbeAllFailureSticks(done + [verb], later, probe);
            return Failed(e);
          case Panicked =>
            ProbeAllFailureSticks(done + [verb], later, probe);
            return Panicked;
          case Done(decision) =>
            items := items[verb := decision];
        }
      } else {
        assert done + [] == done;
      }
    }
    assert ALL_VERBS[..|ALL_VERBS|] == ALL_VERBS;
    o := Done(ResourceReport(resource, items));
  }

  /** A successful resource check keeps its resource, has exactly the
      advertised ALL_VERBS entries as keys, each holding its own probe's
      decision. */
  lemma CheckResourceReport(c: Cluster, resource: ApiResource, namespace: Option<string>, impersonate: Option<string>)
    requires CheckResourceSpec(c, resource, namespace, impersonate).Done?
    ensures var rep := CheckResourceSpec(c, resource, namespace, impersonate).value;
            && rep.resource == resource
            && (forall v :: v in rep.items <==> v in ALL_VERBS && Lower(v) in resource.verbs)
            && (forall v :: v in rep.items ==> VerbOutcome(c, resource, v, namespace, impersonate) == Done(rep.items[v]))
  {
    ProbeAllMap(SelectVerbs(ALL_VERBS, resource.verbs), Prober(c, resource, namespace, impersonate));
  }

  /** A resource check succeeds exactly when every advertised verb's probe
      succeeds; otherwise it carries one advertised verb's failure (the
      first, by CheckResourceFirstFailure) and no partial map is returned. */
  lemma CheckResourceFailure(c: Cluster, resource: ApiResource, namespace: Option<string>, impersonate: Option<string>)
    ensures CheckResourceSpec(c, resource, namespace, impersonate).Done?
        <==> forall v :: v in ALL_VERBS && Lower(v) in resource.verbs ==> VerbOutcome(c, resource, v, namespace, impersonate).Done?
    ensures !CheckResourceSpec(c, resource, namespace, impersonate).Done? ==>
            exists v :: v in ALL_VERBS && Lower(v) in resource.verbs
                     && SameFailure(VerbOutcome(c, resource, v, namespace, impersonate), CheckResourceSpec(c, resource, namespace, impersonate))
  {
    var verbs := SelectVerbs(ALL_VERBS, resource.verbs);
    var probe := Prober(c, resource, namespace, impersonate);
    var spec := CheckResourceSpec(c, resource, namespace, impersonate);
    ProbeAllSucceedsIff(verbs, probe);
    assert spec.Done? == ProbeAll(verbs, probe).Done?;
    assert (forall i :: 0 <= i < |verbs| ==> probe(verbs[i]).Done?)
       <==> (forall v :: v in verbs ==> probe(v).Done?);
    if !ProbeAll(verbs, probe).Done? {
      ProbeAllFirstFailure(verbs, probe);
      var i :| 0 <= i < |verbs| && SameFailure(probe(verbs[i]), ProbeAll(verbs, probe));
      var v := verbs[i];
      assert v in verbs;
      assert SameFailure(VerbOutcome(c, resource, v, namespace, impersonate), spec);
    }
  }

  /** The failure a failed resource check reports is that of the first
      failing probe: every selected verb before it was probed successfully. */
  lemma CheckResourceFirstFailure(c: Cluster, resource: ApiResource, namespace: Option<string>, impersonate: Option<string>)
    requires !CheckResourceSpec(c, resource, namespace, impersonate).Done?
    ensures var selected := SelectVerbs(ALL_VERBS, resource.verbs);
            exists i :: 0 <= i < |selected|
                     && SameFailure(VerbOutcome(c, resource, selected[i], namespace, impersonate), CheckResourceSpec(c, resource, namespace, impersonate))
                     && forall j :: 0 <= j < i ==> VerbOutcome(c, resource, selected[j], namespace, impersonate).Done?
  {
    var verbs := SelectVerbs(ALL_VERBS, resource.verbs);
    var probe := Prober(c, resource, namespace, impersonate);
    FirstFailureAmong(c, resource, verbs, namespace, impersonate);
    var i :| 0 <= i < |verbs|
             && SameFailure(VerbOutcome(c, resource, verbs[i], namespace, impersonate), ProbeAll(verbs, probe))
             && forall j :: 0 <= j < i ==> VerbOutcome(c, resource, verbs[j], namespace, impersonate).Done?;
    SpecIsSweep(c, resource, namespace, impersonate);
  }

  /** A resource check fails exactly as its probe sweep does. */
  lemma SpecIsSweep(c: Cluster, resource: ApiResource, namespace: Option<string>, impersonate: Option<string>)
    ensures var sweep := ProbeAll(SelectVerbs(ALL_VERBS, resource.verbs), Prober(c, resource, namespace, impersonate));
            var spec := CheckResourceSpec(c, resource, namespace, impersonate);
            && (spec.Failed? <==> sweep.Failed?)
            && (spec.Panicked? <==> sweep.Panicked?)
            && (spec.Failed? ==> spec.failure == sweep.failure)
  {
  }

  /** The sweep over any verb list, stated on the probes themselves. */
  lemma FirstFailureAmong(c: Cluster, resource: ApiResource, verbs: seq<string>, namespace: Option<string>, impersonate: Option<string>)
    requires !ProbeAll(verbs, Prober(c, resource, namespace, impersonate)).Done?
    ensures exists i :: 0 <= i < |verbs|
                     && SameFailure(VerbOutcome(c, resource, verbs[i], namespace, impersonate), ProbeAll(verbs, Prober(c, resource, namespace, impersonate)))
                     && forall j :: 0 <= j < i ==> VerbOutcome(c, resource, verbs[j], namespace, impersonate).Done?
  {
    var probe := Prober(c, resource, namespace, impersonate);
    ProbeAllFirstFailure(verbs, probe);
    var i :| 0 <= i < |verbs| && SameFailure(probe(verbs[i]), ProbeAll(verbs, probe))
             && forall j :: 0 <= j < i ==> probe(verbs[j]).Done?;
    assert probe(verbs[i]) == VerbOutcome(c, resource, verbs[i], namespace, impersonate);
  }

  /** How an execution fault of one spawned check surfaces. */
  datatype RunError = DiscoveryFailed(failure: Failure) | JoinFailed

  /** The resources that are checked: subresources (a name with `/`) are
      excluded unless asked for. */
  function Candidates(resources: seq<ApiResource>, subresources: bool): (rs: seq<ApiResource>)
    ensures Subseq(rs, resources)
    ensures forall r :: r in rs <==> r in resources && (subresources || SEPARATOR !in r.name)
  {
    if resources == [] then []
    else
      var rest := Candidates(resources[1..], subresources);
      SubseqCons(rest, resources[0], resources[1..]);
      assert [resources[0]] + resources[1..] == resources;
      if subresources || SEPARATOR !in resources[0].name then [resources[0]] + rest else rest
  }

  /** The spawned checks, one per candidate, joined in order. */
  function RunChecks(c: Cluster, rs: seq<ApiResource>, namespace: Option<string>, impersonate: Option<string>): (os: seq<Outcome<ResourceReport>>)
    ensures |os| == |rs|
    ensures forall i :: 0 <= i < |rs| ==> os[i] == CheckResourceSpec(c, rs[i], namespace, impersonate)
  {
    seq(|rs|, i requires 0 <= i < |rs| => CheckResourceSpec(c, rs[i], namespace, impersonate))
  }

  /** `filter_map(|r| r.ok())`: failed checks are dropped silently. */
  function Successes(os: seq<Outcome<ResourceReport>>): (reports: seq<ResourceReport>)
    ensures |reports| <= |os|
    ensures forall rep :: rep in reports <==> Done(rep) in os
  {
    if os == [] then []
    else
      var rest := Successes(os[1..]);
      assert forall o :: o in os <==> o == os[0] || o in os[1..];
      match os[0]
      case Done(rep) => [rep] + rest
      case _ => rest
  }

  /** The hide-forbidden filter. */
  function Visible(reports: seq<ResourceReport>, hideForbidden: bool): (kept: seq<ResourceReport>)
    ensures Subseq(kept, reports)
    ensures forall rep :: rep in kept <==> rep in reports && (!hideForbidden || AnyAllowed(rep.items))
  {
    if reports == [] then []
    else
      var rest := Visible(reports[1..], hideForbidden);
      SubseqCons(rest, reports[0], reports[1..]);
      assert [reports[0]] + reports[1..] == reports;
      if !hideForbidden || AnyAllowed(reports[0].items) then [reports[0]] + rest else rest
  }

  function ResourcesOf(reports: seq<ResourceReport>): (rs: seq<ApiResource>)
    ensures |rs| == |reports|
    ensures forall i :: 0 <= i < |reports| ==> rs[i] == reports[i].resource
  {
    seq(|reports|, i requires 0 <= i < |reports| => reports[i].resource)
  }

  /** The checker: its configuration and its client. */
  datatype Checker = Checker(config: Config, client: Cluster)

  /** `Checker::check_all`: discover, drop subresources, check every
      candidate, abort on an execution fault, drop failed checks, apply
      hide-forbidden. */
  function CheckAll(checker: Checker): Result<FullResult<ResourceReport>, RunError>
  {
    var cfg := checker.config;
    match DiscoverResources(checker.client)
    case Err(e) => Err(DiscoveryFailed(e))
    case Ok(resources) =>
      var outcomes := RunChecks(checker.client, Candidates(resources, cfg.subresources), cfg.namespace, cfg.impersonate);
      if exists i :: 0 <= i < |outcomes| && outcomes[i].Panicked? then Err(JoinFailed)
      else Ok(FullResult(cfg, Visible(Successes(outcomes), cfg.hideForbidden)))
  }

  /** The successes keep the order of the checked resources. */
  lemma SuccessesCons(o: Outcome<ResourceReport>, os: seq<Outcome<ResourceReport>>)
    ensures Successes([o] + os) == (if o.Done? then [o.value] else []) + Successes(os)
  {
    assert ([o] + os)[1..] == os;
  }

  /** Successes of outcomes that line up with resources keep the resources' order. */
  lemma {:induction false} SuccessesFollow(os: seq<Outcome<ResourceReport>>, rs: seq<ApiResource>)
    requires |os| == |rs|
    requires forall i :: 0 <= i < |os| && os[i].Done? ==> os[i].value.resource == rs[i]
    ensures Subseq(ResourcesOf(Successes(os)), rs)
  {
    if os != [] {
      assert os == [os[0]] + os[1..];
      SuccessesFollow(os[1..], rs[1..]);
      var tail := ResourcesOf(Successes(os[1..]));
      SuccessesCons(os[0], os[1..]);
      assert [rs[0]] + rs[1..] == rs;
      if os[0].Done? {
        ResourcesOfCons(os[0].value, Successes(os[1..]));
        assert ([rs[0]] + tail)[1..] == tail;
      } else {
        SubseqCons(tail, rs[0], rs[1..]);
      }
    }
  }

  lemma SuccessesInOrder(c: Cluster, rs: seq<ApiResource>, namespace: Option<string>, impersonate: Option<string>)
    ensures Subseq(ResourcesOf(Successes(RunChecks(c, rs, namespace, impersonate))), rs)
  {
    var os := RunChecks(c, rs, namespace, impersonate);
    forall i | 0 <= i < |os| && os[i].Done?
      ensures os[i].value.resource == rs[i]
    {
      CheckResourceReport(c, rs[i], namespace, impersonate);
    }
    SuccessesFollow(os, rs);
  }

  lemma ResourcesOfCons(rep: ResourceReport, reports: seq<ResourceReport>)
    ensures ResourcesOf([rep] + reports) == [rep.resource] + ResourcesOf(reports)
  {
  }

  lemma {:induction false} VisibleResourcesInOrder(reports: seq<ResourceReport>, hideForbidden: bool)
    ensures Subseq(ResourcesOf(Visible(reports, hideForbidden)), ResourcesOf(reports))
  {
    if reports != [] {
      var head, rest := reports[0], reports[1..];
      VisibleResourcesInOrder(rest, hideForbidden);
      var tail := ResourcesOf(Visible(rest, hideForbidden));
      assert reports == [head] + rest;
      ResourcesOfCons(head, rest);
      SubseqCons(tail, head.resource, ResourcesOf(rest));
      if !hideForbidden || AnyAllowed(head.items) {
        assert Visible(reports, hideForbidden) == [head] + Visible(rest, hideForbidden);
        ResourcesOfCons(head, Visible(rest, hideForbidden));
      } else {
        assert Visible(reports, hideForbidden) == Visible(rest, hideForbidden);
      }
    }
  }

  /** Any discovery error fails the run before checking. */
  lemma CheckAllDiscoveryError(checker: Checker)
    requires DiscoverResources(checker.client).Err?
    ensures CheckAll(checker) == Err(DiscoveryFailed(DiscoverResources(checker.client).error))
  {
  }

  /** The run fails outright exactly when discovery fails or some checked
      resource's task panics; a check that merely fails never does. */
  lemma CheckAllSucceedsIff(checker: Checker)
    ensures CheckAll(checker).Ok?
       <==> DiscoverResources(checker.client).Ok?
            && forall r :: r in Candidates(DiscoverResources(checker.client).value, checker.config.subresources)
                 ==> !CheckResourceSpec(checker.client, r, checker.config.namespace, checker.config.impersonate).Panicked?
  {
    if DiscoverResources(checker.client).Ok? {
      var cfg := checker.config;
      var rs := Candidates(DiscoverResources(checker.client).value, cfg.subresources);
      RunChecksPanicIff(checker.client, rs, cfg.namespace, cfg.impersonate);
    }
  }

  /** Some spawned check panics exactly when some checked resource's check does. */
  lemma RunChecksPanicIff(c: Cluster, rs: seq<ApiResource>, namespace: Option<string>, impersonate: Option<string>)
    ensures var os := RunChecks(c, rs, namespace, impersonate);
            (exists i :: 0 <= i < |os| && os[i].Panicked?)
            <==> (exists r :: r in rs && CheckResourceSpec(c, r, namespace, impersonate).Panicked?)
  {
    var os := RunChecks(c, rs, namespace, impersonate);
    forall r | r in rs
      ensures exists i :: 0 <= i < |rs| && rs[i] == r
    {
    }
    if exists i :: 0 <= i < |os| && os[i].Panicked? {
      var i :| 0 <= i < |os| && os[i].Panicked?;
      assert rs[i] in rs;
    }
  }

  /** Nothing is invented: the report's resources are discovered resources,
      in discovery order, and its configuration is the run's. */
  lemma CheckAllNoneInvented(checker: Checker)
    requires CheckAll(checker).Ok?
    ensures DiscoverResources(checker.client).Ok?
    ensures CheckAll(checker).value.config == checker.config
    ensures Subseq(ResourcesOf(CheckAll(checker).value.items), DiscoverResources(checker.client).value)
  {
    var cfg := checker.config;
    var resources := DiscoverResources(checker.client).value;
    var rs := Candidates(resources, cfg.subresources);
    var successes := Successes(RunChecks(checker.client, rs, cfg.namespace, cfg.impersonate));
    VisibleResourcesInOrder(successes, cfg.hideForbidden);
    SuccessesInOrder(checker.client, rs, cfg.namespace, cfg.impersonate);
    SubseqTrans(ResourcesOf(Visible(successes, cfg.hideForbidden)), ResourcesOf(successes), rs);
    SubseqTrans(ResourcesOf(Visible(successes, cfg.hideForbidden)), rs, resources);
  }

  /** Every reported item is the successful check of a checked resource, so
      it is no subresource unless asked for and, with hide-forbidden on, has
      an allowed verb. */
  lemma CheckAllItems(checker: Checker)
    requires CheckAll(checker).Ok?
    ensures var cfg := checker.config;
            forall item :: item in CheckAll(checker).value.items ==>
              && item.resource in DiscoverResources(checker.client).value
              && CheckResourceSpec(checker.client, item.resource, cfg.namespace, cfg.impersonate) == Done(item)
              && (!cfg.subresources ==> SEPARATOR !in item.resource.name)
              && (cfg.hideForbidden ==> AnyAllowed(item.items))
  {
    var cfg := checker.config;
    var rs := Candidates(DiscoverResources(checker.client).value, cfg.subresources);
    var os := RunChecks(checker.client, rs, cfg.namespace, cfg.impersonate);
    forall item | item in CheckAll(checker).value.items
      ensures item.resource in rs
      ensures CheckResourceSpec(checker.client, item.resource, cfg.namespace, cfg.impersonate) == Done(item)
    {
      assert Done(item) in os;
      var i :| 0 <= i < |os| && os[i] == Done(item);
      CheckResourceReport(checker.client, rs[i], cfg.namespace, cfg.impersonate);
    }
  }

  /** No successful check is lost: with hide-forbidden off every one is
      reported, with it on every one that allows some verb. */
  lemma CheckAllKeepsSuccesses(checker: Checker, r: ApiResource)
    requires CheckAll(checker).Ok?
    requires r in DiscoverResources(checker.client).value
    requires checker.config.subresources || SEPARATOR !in r.name
    requires CheckResourceSpec(checker.client, r, checker.config.namespace, checker.config.impersonate).Done?
    ensures var rep := CheckResourceSpec(checker.client, r, checker.config.namespace, checker.config.impersonate).value;
            !checker.config.hideForbidden || AnyAllowed(rep.items) ==> rep in CheckAll(checker).value.items
  {
    var cfg := checker.config;
    var rs := Candidates(DiscoverResources(checker.client).value, cfg.subresources);
    var os := RunChecks(checker.client, rs, cfg.namespace, cfg.impersonate);
    var i :| 0 <= i < |rs| && rs[i] == r;
    assert os[i] == CheckResourceSpec(checker.client, r, cfg.namespace, cfg.impersonate);
  }
}
