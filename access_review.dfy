/** The `authorization.k8s.io/v1` SelfSubjectAccessReview exchange: the
    request an authorization probe sends and how its answer becomes a
    decision. */
module AccessReview {
  import opened Wrappers
  import opened Types

  const API_VERSION := "authorization.k8s.io/v1"
  const KIND := "SelfSubjectAccessReview"
  const IMPERSONATE_HEADER := "Impersonate-User"
  /** The creation endpoint; the exact URI string comes from k8s-openapi. */
  const REVIEW_PATH := "/apis/authorization.k8s.io/v1/selfsubjectaccessreviews"

  /** `spec.resourceAttributes`; an absent group or namespace is JSON `null`. */
  datatype ResourceAttributes = ResourceAttributes(
    group: Option<string>,
    resource: string,
    namespace: Option<string>,
    verb: string)

  datatype Review = Review(apiVersion: string, kind: string, attributes: ResourceAttributes)

  datatype HttpRequest = HttpRequest(httpMethod: string, uri: string, headers: seq<(string, string)>, body: Review)

  /** `status` of the answer; `denied` is optional on the wire. */
  datatype ReviewStatus = ReviewStatus(allowed: bool, denied: Option<bool>)

  datatype ReviewResponse = ReviewResponse(status: Option<ReviewStatus>)

  /** What the `http` crate accepts as a header value: visible bytes, space,
      tab and non-ASCII, but no other control character and no DEL. */
  predicate ValidHeaderValue(s: string)
  {
    forall i :: 0 <= i < |s| ==> s[i] == '\t' || (' ' <= s[i] && s[i] != '\U{7F}')
  }

  /** `http::request::Builder`: headers pile up; an invalid value poisons the
      builder so that `body` fails. */
  datatype Builder = Builder(httpMethod: string, uri: string, headers: seq<(string, string)>, poisoned: bool) {
    function Header(name: string, value: string): (b: Builder)
      ensures b.httpMethod == httpMethod && b.uri == uri
      ensures b.poisoned == (poisoned || !ValidHeaderValue(value))
      ensures !b.poisoned ==> b.headers == headers + [(name, value)]
    {
      if poisoned || !ValidHeaderValue(value) then this.(poisoned := true)
      else this.(headers := headers + [(name, value)])
    }

    function Body(review: Review): (r: Option<HttpRequest>)
      ensures r.Some? <==> !poisoned
      ensures r.Some? ==> r.value == HttpRequest(httpMethod, uri, headers, review)
    {
      if poisoned then None else Some(HttpRequest(httpMethod, uri, headers, review))
    }
  }

  function Post(uri: string): (b: Builder)
    ensures b.httpMethod == "POST" && b.uri == uri && b.headers == [] && !b.poisoned
  {
    Builder("POST", uri, [], false)
  }

  /** The review object built from the attributes. */
  function ReviewOf(attributes: ResourceAttributes): (r: Review)
    ensures r.apiVersion == "authorization.k8s.io/v1" && r.kind == "SelfSubjectAccessReview"
    ensures r.attributes == attributes
  {
    Review(API_VERSION, KIND, attributes)
  }

  /** The decision copies `allowed` and defaults a missing `denied` to false. */
  function Decide(verb: string, status: ReviewStatus): (c: CheckResult)
    ensures c.verb == verb && c.allowed == status.allowed
    ensures c.denied == (status.denied.Some? && status.denied.value)
  {
    CheckResult(verb, status.allowed, status.denied.GetOr(false))
  }

  /** What one round trip yields: a transport or decode error is `Failed`,
      an answer without `status` hits `.expect` and panics. */
  function Interpret(verb: string, answer: Result<ReviewResponse, Failure>): (o: Outcome<CheckResult>)
    ensures answer.Err? ==> o == Failed(answer.error)
    ensures answer.Ok? && answer.value.status.None? ==> o.Panicked?
    ensures answer.Ok? && answer.value.status.Some? ==> o == Done(Decide(verb, answer.value.status.value))
  {
    match answer
    case Err(e) => Failed(e)
    case Ok(resp) =>
      match resp.status
      case None => Panicked
      case Some(st) => Done(Decide(verb, st))
  }

  /** A decision is never collapsed: every (allowed, denied) pair the cluster
      can state survives, and "no opinion" stays apart from "denied". */
  lemma DecisionKeepsBothFlags(verb: string, allowed: bool, denied: bool)
    ensures Decide(verb, ReviewStatus(allowed, Some(denied))) == CheckResult(verb, allowed, denied)
    ensures Decide(verb, ReviewStatus(false, None)) != Decide(verb, ReviewStatus(false, Some(true)))
  {
  }
}
