/** Option, Result and the three-way Outcome used for one call that may fail
    or panic. */
module Wrappers {

  datatype Option<+T> = None | Some(value: T) {
    function GetOr(default: T): (r: T)
      ensures Some? ==> r == value
      ensures None? ==> r == default
    {
      match this
      case Some(v) => v
      case None => default
    }
  }

  datatype Result<+T, +E> = Ok(value: T) | Err(error: E)

  /** Why a call into the cluster failed (the source keeps an opaque error). */
  datatype Failure = Failure(reason: string)

  /** One call that either returns, returns an error (`?`), or panics
      (`.expect` on a value that is not there). */
  datatype Outcome<+T> = Done(value: T) | Failed(failure: Failure) | Panicked

  /** Two outcomes that are the same failure: the same error, or both a panic. */
  predicate SameFailure<A, B>(a: Outcome<A>, b: Outcome<B>)
  {
    (a.Failed? && b.Failed? && a.failure == b.failure) || (a.Panicked? && b.Panicked?)
  }

  /** `try_join_all` over results, run in list order: the first error wins,
      otherwise every value in order. */
  function TryAll<T>(rs: seq<Result<T, Failure>>): (r: Result<seq<T>, Failure>)
    ensures r.Ok? <==> forall i :: 0 <= i < |rs| ==> rs[i].Ok?
    ensures r.Ok? ==> |r.value| == |rs| && forall i :: 0 <= i < |rs| ==> rs[i] == Ok(r.value[i])
    ensures r.Err? ==> exists i :: 0 <= i < |rs| && rs[i] == Err(r.error)
  {
    if rs == [] then Ok([])
    else match rs[0]
      case Err(e) => Err(e)
      case Ok(v) =>
        match TryAll(rs[1..])
        case Err(e) => Err(e)
        case Ok(vs) => Ok([v] + vs)
  }

  /** `try_join_all` over futures that may also panic, run in list order: the
      first call that does not return a value decides the whole outcome. */
  function CollectAll<T>(os: seq<Outcome<T>>): (r: Outcome<seq<T>>)
    ensures r.Done? <==> forall i :: 0 <= i < |os| ==> os[i].Done?
    ensures r.Done? ==> |r.value| == |os| && forall i :: 0 <= i < |os| ==> os[i] == Done(r.value[i])
    ensures r.Failed? ==> exists i :: 0 <= i < |os| && os[i] == Failed(r.failure) && forall j :: 0 <= j < i ==> os[j].Done?
    ensures r.Panicked? ==> exists i :: 0 <= i < |os| && os[i].Panicked? && forall j :: 0 <= j < i ==> os[j].Done?
  {
    if os == [] then Done([])
    else match os[0]
      case Failed(e) => Failed(e)
      case Panicked => Panicked
      case Done(v) =>
        match CollectAll(os[1..])
        case Failed(e) => Failed(e)
        case Panicked => Panicked
        case Done(vs) => Done([v] + vs)
  }
}
