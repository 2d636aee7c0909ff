/** The verb -> decision map that one resource's check fills, one probe at a
    time, giving up at the first probe that does not return a decision. */
module VerbMap {
  import opened Wrappers
  import opened Types

  /** Probing `verbs` in order and inserting each decision. Defined on the last
      verb, as the source's loop extends its map one verb at a time. */
  function ProbeAll(verbs: seq<string>, probe: string -> Outcome<CheckResult>): Outcome<map<string, CheckResult>>
    decreases |verbs|
  {
    if verbs == [] then Done(map[])
    else
      var v := verbs[|verbs| - 1];
      match ProbeAll(verbs[..|verbs| - 1], probe)
      case Failed(e) => Failed(e)
      case Panicked => Panicked
      case Done(m) =>
        match probe(v)
        case Failed(e) => Failed(e)
        case Panicked => Panicked
        case Done(c) => Done(m[v := c])
  }

  /** Probing one more verb after a successful prefix. */
  lemma ProbeAllSnoc(verbs: seq<string>, v: string, probe: string -> Outcome<CheckResult>)
    requires ProbeAll(verbs, probe).Done?
    ensures probe(v).Done? ==> ProbeAll(verbs + [v], probe) == Done(ProbeAll(verbs, probe).value[v := probe(v).value])
    ensures probe(v).Failed? ==> ProbeAll(verbs + [v], probe) == Failed(probe(v).failure)
    ensures probe(v).Panicked? ==> ProbeAll(verbs + [v], probe).Panicked?
  {
    assert (verbs + [v])[..|verbs|] == verbs;
  }

  /** The sweep yields a map exactly when every probe yields a decision. */
  lemma {:induction false} ProbeAllSucceedsIff(verbs: seq<string>, probe: string -> Outcome<CheckResult>)
    ensures ProbeAll(verbs, probe).Done? <==> forall i :: 0 <= i < |verbs| ==> probe(verbs[i]).Done?
    decreases |verbs|
  {
    if verbs != [] {
      var init := verbs[..|verbs| - 1];
      ProbeAllSucceedsIff(init, probe);
      assert forall i :: 0 <= i < |init| ==> init[i] == verbs[i];
    }
  }

  /** On success the keys are exactly the probed verbs and each one holds the
      decision its own probe returned. */
  lemma {:induction false} ProbeAllMap(verbs: seq<string>, probe: string -> Outcome<CheckResult>)
    requires ProbeAll(verbs, probe).Done?
    ensures forall v :: v in ProbeAll(verbs, probe).value <==> v in verbs
    ensures forall v :: v in ProbeAll(verbs, probe).value ==> probe(v) == Done(ProbeAll(verbs, probe).value[v])
    decreases |verbs|
  {
    if verbs != [] {
      var init := verbs[..|verbs| - 1];
      ProbeAllMap(init, probe);
      assert verbs == init + [verbs[|verbs| - 1]];
    }
  }

  /** A failed sweep reports the first probe, in order, that did not return a
      decision; nothing of the partial map survives. */
  lemma {:induction false} ProbeAllFirstFailure(verbs: seq<string>, probe: string -> Outcome<CheckResult>)
    requires !ProbeAll(verbs, probe).Done?
    ensures exists i :: 0 <= i < |verbs| && SameFailure(probe(verbs[i]), ProbeAll(verbs, probe))
                        && forall j :: 0 <= j < i ==> probe(verbs[j]).Done?
    decreases |verbs|
  {
    var init := verbs[..|verbs| - 1];
    var last := |verbs| - 1;
    if ProbeAll(init, probe).Done? {
      ProbeAllSucceedsIff(init, probe);
      assert forall j :: 0 <= j < last ==> probe(verbs[j]).Done? by {
        assert forall j :: 0 <= j < last ==> init[j] == verbs[j];
      }
      assert SameFailure(probe(verbs[last]), ProbeAll(verbs, probe));
    } else {
      ProbeAllFirstFailure(init, probe);
      var i :| 0 <= i < |init| && SameFailure(probe(init[i]), ProbeAll(init, probe))
               && forall j :: 0 <= j < i ==> probe(init[j]).Done?;
      assert init[i] == verbs[i];
      assert forall j :: 0 <= j < i ==> init[j] == verbs[j];
    }
  }

  /** Once a probe has failed, probing further verbs changes nothing. */
  lemma {:induction false} ProbeAllFailureSticks(a: seq<string>, b: seq<string>, probe: string -> Outcome<CheckResult>)
    requires !ProbeAll(a, probe).Done?
    ensures ProbeAll(a + b, probe) == ProbeAll(a, probe)
    decreases |b|
  {
    if b == [] {
      assert a + b == a;
    } else {
      var ab := a + b;
      assert ab[..|ab| - 1] == a + b[..|b| - 1];
      ProbeAllFailureSticks(a, b[..|b| - 1], probe);
    }
  }
}
