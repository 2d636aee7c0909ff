/** A worked run of the newer engine: a cluster whose only resource is the
    core `pods`, advertising `get` and `delete`, where `delete` is always
    denied and `get` is allowed or not as the scenario says. */
module Scenario {
  import opened Wrappers
  import opened Types
  import opened Constants
  import opened AccessReview
  import opened Client
  import opened Discovery
  import opened VerbMap
  import opened Check

  const Pods := ApiResource("pods", "pod", true, "Pod", None, None, ["get", "delete"], None)
  const StampedPods := Pods.(version := Some("v1"))
  const PodList := ApiResourceList("v1", [Pods])

  function Answer(allowGet: bool): HttpRequest -> Result<ReviewResponse, Failure>
  {
    (req: HttpRequest) =>
      if req.body.attributes.verb == "get"
      then Ok(ReviewResponse(Some(ReviewStatus(allowGet, Some(!allowGet)))))
      else Ok(ReviewResponse(Some(ReviewStatus(false, Some(true)))))
  }

  function PodCluster(allowGet: bool): Cluster
  {
    Cluster(Ok([]), Ok(["v1"]),
            (gv: string) => Err(Failure("no such group")),
            (v: string) => Ok(PodList),
            Answer(allowGet))
  }

  function RunConfig(hideForbidden: bool): Config
  {
    Config(false, None, hideForbidden, false, DEFAULT_VERBS, None)
  }

  function PodItems(allowGet: bool): map<string, CheckResult>
  {
    map[GET := CheckResult(GET, allowGet, !allowGet), DELETE := CheckResult(DELETE, false, true)]
  }

  lemma PodsCatalog(allowGet: bool)
    ensures DiscoverResources(PodCluster(allowGet)) == Ok([StampedPods])
  {
    var c := PodCluster(allowGet);
    assert PreferredGroupVersions([]) == [];
    assert GroupListings(c, []) == [];
    var none: seq<ApiResourceList> := [];
    assert TryAll(GroupListings(c, [])) == Ok(none);
    assert FirstVersion(["v1"]) == ["v1"];
    var listings: seq<Result<ApiResourceList, Failure>> := [Ok(PodList)];
    assert CoreListings(c, ["v1"]) == listings;
    assert TryAll(listings) == Ok([PodList]) by {
      assert listings[1..] == [];
      assert TryAll(listings[1..]) == Ok(none);
      assert [PodList] + none == [PodList];
    }
    ExtractBareVersion("v1");
    assert Stamp(Pods, "v1") == StampedPods;
    assert StampAll(PodList) == [StampedPods];
    assert none + [PodList] == [PodList];
    assert Flatten([PodList]) == [StampedPods] by {
      assert [PodList][1..] == [];
    }
  }

  /** Which of the vocabulary's spellings `pods` advertises. */
  lemma PodsAdvertised()
    ensures Lower(GET) in Pods.verbs && Lower(DELETE) in Pods.verbs
    ensures Lower(LIST) !in Pods.verbs && Lower(WATCH) !in Pods.verbs
    ensures Lower(CREATE) !in Pods.verbs && Lower(UPDATE) !in Pods.verbs
    ensures Lower(PATCH) !in Pods.verbs && Lower(DELETECOLLECTION) !in Pods.verbs
  {
    LowerAllVerbs();
    assert "create"[0] != "delete"[0];
    assert "update"[0] != "delete"[0];
  }

  lemma SelectStep(v: string, rest: seq<string>, adv: seq<string>)
    ensures SelectVerbs([v] + rest, adv) == (if Lower(v) in adv then [v] else []) + SelectVerbs(rest, adv)
  {
    assert ([v] + rest)[1..] == rest;
  }

  /** Of the last four verbs only `Delete` is probed. */
  lemma PodsProbedTail()
    ensures SelectVerbs([DELETE, UPDATE, PATCH, DELETECOLLECTION], Pods.verbs) == [DELETE]
  {
    PodsAdvertised();
    var adv := Pods.verbs;
    var none: seq<string> := [];
    var s3 := [DELETECOLLECTION] + none;
    var s2 := [PATCH] + s3;
    var s1 := [UPDATE] + s2;
    var s0 := [DELETE] + s1;
    assert s0 == [DELETE, UPDATE, PATCH, DELETECOLLECTION];
    SelectStep(DELETECOLLECTION, none, adv);
    SelectStep(PATCH, s3, adv);
    SelectStep(UPDATE, s2, adv);
    SelectStep(DELETE, s1, adv);
  }

  /** Of the first four verbs only `Get` is probed. */
  lemma PodsProbedHead(rest: seq<string>)
    ensures SelectVerbs([GET, LIST, WATCH, CREATE] + rest, Pods.verbs) == [GET] + SelectVerbs(rest, Pods.verbs)
  {
    PodsAdvertised();
    var adv := Pods.verbs;
    var s3 := [CREATE] + rest;
    var s2 := [WATCH] + s3;
    var s1 := [LIST] + s2;
    var s0 := [GET] + s1;
    assert s0 == [GET, LIST, WATCH, CREATE] + rest;
    SelectStep(CREATE, rest, adv);
    SelectStep(WATCH, s3, adv);
    SelectStep(LIST, s2, adv);
    SelectStep(GET, s1, adv);
  }

  /** Only `Get` and `Delete` are probed, in that order. */
  lemma PodsProbedVerbs()
    ensures SelectVerbs(ALL_VERBS, Pods.verbs) == [GET, DELETE]
  {
    var tail := [DELETE, UPDATE, PATCH, DELETECOLLECTION];
    assert ALL_VERBS == [GET, LIST, WATCH, CREATE] + tail;
    PodsProbedHead(tail);
    PodsProbedTail();
  }

  /** The two probes answer as the cluster decided. */
  lemma PodsProbes(allowGet: bool)
    ensures VerbOutcome(PodCluster(allowGet), StampedPods, GET, None, None) == Done(CheckResult(GET, allowGet, !allowGet))
    ensures VerbOutcome(PodCluster(allowGet), StampedPods, DELETE, None, None) == Done(CheckResult(DELETE, false, true))
  {
    LowerAllVerbs();
  }

  lemma PodsCheck(allowGet: bool)
    ensures CheckResourceSpec(PodCluster(allowGet), StampedPods, None, None) == Done(ResourceReport(StampedPods, PodItems(allowGet)))
  {
    var c := PodCluster(allowGet);
    var probe := Prober(c, StampedPods, None, None);
    PodsProbedVerbs();
    PodsProbes(allowGet);
    assert [GET, DELETE][..1] == [GET];
    assert [GET][..0] == [];
    assert ProbeAll([GET], probe) == Done(map[GET := CheckResult(GET, allowGet, !allowGet)]);
    assert ProbeAll([GET, DELETE], probe) == Done(PodItems(allowGet));
  }

  /** The single report reaches the result when it is visible. */
  lemma PodsRun(allowGet: bool, hideForbidden: bool)
    ensures CheckAll(Checker(RunConfig(hideForbidden), PodCluster(allowGet)))
         == Ok(FullResult(RunConfig(hideForbidden),
                          Visible([ResourceReport(StampedPods, PodItems(allowGet))], hideForbidden)))
  {
    var c := PodCluster(allowGet);
    var rep := ResourceReport(StampedPods, PodItems(allowGet));
    PodsCatalog(allowGet);
    PodsCheck(allowGet);
    assert Candidates([StampedPods], false) == [StampedPods] by {
      assert [StampedPods][1..] == [];
    }
    var outcomes := RunChecks(c, [StampedPods], None, None);
    assert outcomes == [Done(rep)];
    assert Successes(outcomes) == [rep] by {
      assert outcomes[1..] == [];
    }
  }

  /** With `get` allowed the report is shown, hidden forbidden or not, with
      both decisions as the cluster gave them. */
  lemma PodsReported(hideForbidden: bool)
    ensures CheckAll(Checker(RunConfig(hideForbidden), PodCluster(true)))
         == Ok(FullResult(RunConfig(hideForbidden), [ResourceReport(StampedPods, PodItems(true))]))
  {
    var rep := ResourceReport(StampedPods, PodItems(true));
    PodsRun(true, hideForbidden);
    assert AnyAllowed(rep.items) by { assert rep.items[GET].allowed; }
    assert Visible([rep], hideForbidden) == [rep] by {
      assert [rep][1..] == [];
    }
  }

  /** With every verb refused, hide-forbidden drops the report. */
  lemma PodsHidden()
    ensures CheckAll(Checker(RunConfig(true), PodCluster(false))) == Ok(FullResult(RunConfig(true), []))
  {
    var rep := ResourceReport(StampedPods, PodItems(false));
    PodsRun(false, true);
    assert !AnyAllowed(rep.items);
    assert Visible([rep], true) == [] by {
      assert [rep][1..] == [];
    }
  }
}
