/** Resource catalog discovery (src/discovery.rs): split `group/version`
    strings and flatten the per-group-version resource lists into one
    catalog, stamping each resource with the group and version of its list. */
module Discovery {
  import opened Wrappers
  import opened Types
  import opened Client

  const SEPARATOR := '/'

  /** `str::split(sep)`: never empty; an empty string gives one empty piece. */
  function Split(s: string, sep: char): (parts: seq<string>)
    ensures |parts| >= 1
    ensures forall i :: 0 <= i < |parts| ==> sep !in parts[i]
  {
    if |s| == 0 then [""]
    else
      var rest := Split(s[1..], sep);
      if s[0] == sep then [""] + rest else [[s[0]] + rest[0]] + rest[1..]
  }

  /** The inverse of Split: the pieces glued back with the separator. */
  function Join(parts: seq<string>, sep: char): string
    requires |parts| >= 1
  {
    if |parts| == 1 then parts[0] else parts[0] + [sep] + Join(parts[1..], sep)
  }

  lemma {:induction false} SplitJoin(s: string, sep: char)
    ensures Join(Split(s, sep), sep) == s
  {
    if |s| > 0 {
      SplitJoin(s[1..], sep);
      var rest := Split(s[1..], sep);
      if s[0] == sep {
        assert ([""] + rest)[1..] == rest;
      } else {
        var parts := [[s[0]] + rest[0]] + rest[1..];
        if |rest| > 1 {
          assert parts[1..] == rest[1..];
          assert Join(rest, sep) == rest[0] + [sep] + Join(rest[1..], sep);
        }
        assert s == [s[0]] + s[1..];
      }
    }
  }

  /** A piece without the separator is split off whole. */
  lemma {:induction false} SplitNoSep(a: string, sep: char)
    requires sep !in a
    ensures Split(a, sep) == [a]
  {
    if |a| > 0 {
      SplitNoSep(a[1..], sep);
      assert [a[0]] + a[1..] == a;
    }
  }

  lemma {:induction false} SplitPrefix(a: string, sep: char, b: string)
    requires sep !in a
    ensures Split(a + [sep] + b, sep) == [a] + Split(b, sep)
  {
    if |a| == 0 {
      assert (a + [sep] + b)[1..] == b;
    } else {
      assert (a + [sep] + b)[1..] == a[1..] + [sep] + b;
      SplitPrefix(a[1..], sep, b);
      assert [a[0]] + a[1..] == a;
    }
  }

  lemma {:induction false} JoinSplit(parts: seq<string>, sep: char)
    requires |parts| >= 1
    requires forall i :: 0 <= i < |parts| ==> sep !in parts[i]
    ensures Split(Join(parts, sep), sep) == parts
  {
    if |parts| == 1 {
      SplitNoSep(parts[0], sep);
    } else {
      JoinSplit(parts[1..], sep);
      SplitPrefix(parts[0], sep, Join(parts[1..], sep));
      assert [parts[0]] + parts[1..] == parts;
    }
  }

  /** A split has more than one piece exactly when the separator occurs, and
      the first piece is then the text before its first occurrence. */
  lemma {:induction false} SplitFirst(s: string, sep: char)
    ensures sep in s <==> |Split(s, sep)| > 1
    ensures sep in s ==> Split(s, sep)[0] + [sep] <= s
  {
    if |s| > 0 {
      SplitFirst(s[1..], sep);
      var rest := Split(s[1..], sep);
      assert s == [s[0]] + s[1..];
      if s[0] != sep {
        assert sep in s <==> sep in s[1..];
        if sep in s {
          assert Split(s, sep)[0] + [sep] == [s[0]] + (rest[0] + [sep]);
        }
      }
    }
  }

  /** `extract_version_group`: `(group, version)` of a `group/version`
      string; a bare string is the legacy core API's version. */
  function ExtractVersionGroup(groupVersion: string): (r: (Option<string>, Option<string>))
    ensures r.1.Some?
  {
    var gv := Split(groupVersion, SEPARATOR);
    if |gv| > 1 then (Some(gv[0]), Some(gv[1])) else (None, Some(gv[0]))
  }

  function ExtractVersion(groupVersion: string): (r: Option<string>)
    ensures r == ExtractVersionGroup(groupVersion).1
    ensures r.Some?
  {
    ExtractVersionGroup(groupVersion).1
  }

  /** The group is present exactly when the string has a `/`, and it is
      then the text before the first `/`. */
  function ExtractGroup(groupVersion: string): (r: Option<string>)
    ensures r.Some? <==> SEPARATOR in groupVersion
    ensures r.Some? ==> SEPARATOR !in r.value && r.value + [SEPARATOR] <= groupVersion
  {
    SplitFirst(groupVersion, SEPARATOR);
    ExtractVersionGroup(groupVersion).0
  }

  /** How a group and a version are written together: `g/v`, or `v` alone
      for the core API. */
  function GroupVersionString(group: Option<string>, version: string): string
  {
    match group
    case Some(g) => g + [SEPARATOR] + version
    case None => version
  }

  lemma ExtractGroupVersion(g: string, v: string)
    requires SEPARATOR !in g && SEPARATOR !in v
    ensures ExtractVersionGroup(g + "/" + v) == (Some(g), Some(v))
  {
    JoinSplit([g, v], SEPARATOR);
    assert Join([g, v], SEPARATOR) == g + "/" + v;
  }

  /** No separator at all, the empty string included: core API version. */
  lemma ExtractBareVersion(v: string)
    requires SEPARATOR !in v
    ensures ExtractVersionGroup(v) == (None, Some(v))
  {
    SplitNoSep(v, SEPARATOR);
  }

  /** Everything after a second separator is ignored. */
  lemma ExtractIgnoresTail(g: string, v: string, tail: string)
    requires SEPARATOR !in g && SEPARATOR !in v
    ensures ExtractVersionGroup(g + "/" + v + "/" + tail) == (Some(g), Some(v))
  {
    SplitPrefix(g, SEPARATOR, v + "/" + tail);
    SplitPrefix(v, SEPARATOR, tail);
    assert g + "/" + v + "/" + tail == g + [SEPARATOR] + (v + "/" + tail);
    assert v + "/" + tail == v + [SEPARATOR] + tail;
  }

  /** Round trip from the parts: splitting what GroupVersionString wrote. */
  lemma ExtractOfGroupVersionString(group: Option<string>, v: string)
    requires SEPARATOR !in v && (group.Some? ==> SEPARATOR !in group.value)
    ensures ExtractVersionGroup(GroupVersionString(group, v)) == (group, Some(v))
  {
    if group.Some? {
      ExtractGroupVersion(group.value, v);
    } else {
      ExtractBareVersion(v);
    }
  }

  /** Round trip from the string: one with at most one separator is written
      back exactly from its parts. */
  lemma GroupVersionStringOfExtract(s: string)
    requires |Split(s, SEPARATOR)| <= 2
    ensures GroupVersionString(ExtractVersionGroup(s).0, ExtractVersionGroup(s).1.value) == s
  {
    SplitJoin(s, SEPARATOR);
    var gv := Split(s, SEPARATOR);
    if |gv| == 2 {
      assert gv[1..] == [gv[1]];
    }
  }

  /** One resource of a list, with `version` and `group` overwritten from the
      list's `group_version`; every other field is kept. */
  function Stamp(r: ApiResource, groupVersion: string): (s: ApiResource)
    ensures s.(group := r.group, version := r.version) == r
    ensures (s.group, s.version) == ExtractVersionGroup(groupVersion)
  {
    r.(version := ExtractVersion(groupVersion), group := ExtractGroup(groupVersion))
  }

  function StampAll(list: ApiResourceList): (rs: seq<ApiResource>)
    ensures |rs| == |list.resources|
    ensures forall j :: 0 <= j < |rs| ==> rs[j] == Stamp(list.resources[j], list.groupVersion)
  {
    seq(|list.resources|, j requires 0 <= j < |list.resources| => Stamp(list.resources[j], list.groupVersion))
  }

  /** The `flat_map` over the lists, in list order. */
  function Flatten(lists: seq<ApiResourceList>): seq<ApiResource>
  {
    if lists == [] then [] else StampAll(lists[0]) + Flatten(lists[1..])
  }

  /** Total number of resources in the lists. */
  function Size(lists: seq<ApiResourceList>): nat
  {
    if lists == [] then 0 else |lists[0].resources| + Size(lists[1..])
  }

  /** The groups' preferred `group/version` strings, in order; groups without
      a preferred version contribute nothing (`filter_map`). */
  function PreferredGroupVersions(groups: seq<ApiGroup>): (gvs: seq<string>)
    ensures |gvs| <= |groups|
  {
    if groups == [] then []
    else
      var rest := PreferredGroupVersions(groups[1..]);
      match groups[0].preferredVersion
      case Some(p) => [p.groupVersion] + rest
      case None => rest
  }

  /** Only the first core API version is listed. */
  function FirstVersion(versions: seq<string>): (vs: seq<string>)
    ensures |vs| <= 1
    ensures |vs| == 1 <==> |versions| > 0
    ensures |vs| == 1 ==> vs[0] == versions[0]
  {
    if |versions| == 0 then [] else [versions[0]]
  }

  function GroupListings(c: Cluster, gvs: seq<string>): seq<Result<ApiResourceList, Failure>>
  {
    seq(|gvs|, i requires 0 <= i < |gvs| => c.groupResources(gvs[i]))
  }

  function CoreListings(c: Cluster, vs: seq<string>): seq<Result<ApiResourceList, Failure>>
  {
    seq(|vs|, i requires 0 <= i < |vs| => c.coreResources(vs[i]))
  }

  /** `discover_resources`: groups, then core versions, then every listing;
      any error fails the whole discovery. */
  function DiscoverResources(c: Cluster): Result<seq<ApiResource>, Failure>
  {
    match c.apiGroups
    case Err(e) => Err(e)
    case Ok(groups) =>
      match c.coreApiVersions
      case Err(e) => Err(e)
      case Ok(versions) =>
        match TryAll(GroupListings(c, PreferredGroupVersions(groups)))
        case Err(e) => Err(e)
        case Ok(apiLists) =>
          match TryAll(CoreListings(c, FirstVersion(versions)))
          case Err(e) => Err(e)
          case Ok(coreLists) => Ok(Flatten(apiLists + coreLists))
  }

  lemma {:induction false} FlattenSize(lists: seq<ApiResourceList>)
    ensures |Flatten(lists)| == Size(lists)
  {
    if lists != [] {
      FlattenSize(lists[1..]);
    }
  }

  /** Grouped resources come before core ones: the lists' order is kept. */
  lemma {:induction false} FlattenAppend(a: seq<ApiResourceList>, b: seq<ApiResourceList>)
    ensures Flatten(a + b) == Flatten(a) + Flatten(b)
  {
    if a != [] {
      assert (a + b)[1..] == a[1..] + b;
      FlattenAppend(a[1..], b);
    } else {
      assert a + b == b;
    }
  }

  /** Resource `j` of list `i` lands at position Size(lists[..i]) + j,
      stamped from list `i`'s `group_version`. */
  lemma {:induction false} FlattenAt(lists: seq<ApiResourceList>, i: nat, j: nat)
    requires i < |lists| && j < |lists[i].resources|
    ensures Size(lists[..i]) + j < |Flatten(lists)|
    ensures Flatten(lists)[Size(lists[..i]) + j] == Stamp(lists[i].resources[j], lists[i].groupVersion)
  {
    FlattenSize(lists);
    if i == 0 {
      assert lists[..0] == [];
    } else {
      FlattenAt(lists[1..], i - 1, j);
      assert lists[1..][..i - 1] == lists[..i][1..];
      assert lists[..i][0] == lists[0];
      FlattenSize(lists[1..]);
    }
  }

  /** Every catalog entry is some listed resource, stamped from its own list. */
  lemma {:induction false} FlattenOrigin(lists: seq<ApiResourceList>, k: nat)
    requires k < |Flatten(lists)|
    ensures exists i, j :: 0 <= i < |lists| && 0 <= j < |lists[i].resources|
                           && Flatten(lists)[k] == Stamp(lists[i].resources[j], lists[i].groupVersion)
  {
    if k < |lists[0].resources| {
      assert Flatten(lists)[k] == StampAll(lists[0])[k];
    } else {
      FlattenOrigin(lists[1..], k - |lists[0].resources|);
      var i, j :| 0 <= i < |lists[1..]| && 0 <= j < |lists[1..][i].resources|
                  && Flatten(lists[1..])[k - |lists[0].resources|] == Stamp(lists[1..][i].resources[j], lists[1..][i].groupVersion);
      assert lists[1..][i] == lists[i + 1];
    }
  }

  /** A group contributes a listing exactly when it has a preferred version. */
  lemma {:induction false} PreferredGroupVersionsMembers(groups: seq<ApiGroup>, gv: string)
    ensures gv in PreferredGroupVersions(groups)
       <==> exists i :: 0 <= i < |groups| && groups[i].preferredVersion.Some? && groups[i].preferredVersion.value.groupVersion == gv
  {
    if groups != [] {
      PreferredGroupVersionsMembers(groups[1..], gv);
      assert forall i :: 0 <= i < |groups| - 1 ==> groups[1..][i] == groups[i + 1];
      if (exists i :: 0 <= i < |groups| && groups[i].preferredVersion.Some? && groups[i].preferredVersion.value.groupVersion == gv) {
        var i :| 0 <= i < |groups| && groups[i].preferredVersion.Some? && groups[i].preferredVersion.value.groupVersion == gv;
        if i > 0 {
          assert groups[1..][i - 1] == groups[i];
        }
      }
    }
  }

  /** Discovery succeeds exactly when both top-level listings succeed, every
      preferred group version lists, and the first core version (if any)
      lists: there is no partial catalog. */
  lemma DiscoverySucceedsIff(c: Cluster)
    ensures DiscoverResources(c).Ok?
       <==> c.apiGroups.Ok? && c.coreApiVersions.Ok?
            && (forall gv :: gv in PreferredGroupVersions(c.apiGroups.value) ==> c.groupResources(gv).Ok?)
            && (|c.coreApiVersions.value| > 0 ==> c.coreResources(c.coreApiVersions.value[0]).Ok?)
  {
    if c.apiGroups.Ok? && c.coreApiVersions.Ok? {
      var gvs := PreferredGroupVersions(c.apiGroups.value);
      var listings := GroupListings(c, gvs);
      assert (forall gv :: gv in gvs ==> c.groupResources(gv).Ok?)
         <==> (forall i :: 0 <= i < |listings| ==> listings[i].Ok?) by {
        assert forall i :: 0 <= i < |gvs| ==> listings[i] == c.groupResources(gvs[i]);
      }
      var core := CoreListings(c, FirstVersion(c.coreApiVersions.value));
      if |c.coreApiVersions.value| > 0 {
        assert core[0] == c.coreResources(c.coreApiVersions.value[0]);
      }
    }
  }

  /** On success the catalog holds, in order, the stamped resources of each
      preferred group version's list followed by those of the first core
      version's list, and its size is the sum of the list sizes. */
  lemma DiscoveredCatalog(c: Cluster)
    requires DiscoverResources(c).Ok?
    ensures var gvs := PreferredGroupVersions(c.apiGroups.value);
            var vs := FirstVersion(c.coreApiVersions.value);
            exists apiLists: seq<ApiResourceList>, coreLists: seq<ApiResourceList> ::
              && |apiLists| == |gvs| && |coreLists| == |vs|
              && (forall i :: 0 <= i < |gvs| ==> c.groupResources(gvs[i]) == Ok(apiLists[i]))
              && (forall i :: 0 <= i < |vs| ==> c.coreResources(vs[i]) == Ok(coreLists[i]))
              && DiscoverResources(c).value == Flatten(apiLists) + Flatten(coreLists)
              && |DiscoverResources(c).value| == Size(apiLists) + Size(coreLists)
  {
    var gvs := PreferredGroupVersions(c.apiGroups.value);
    var vs := FirstVersion(c.coreApiVersions.value);
    var apiLists := TryAll(GroupListings(c, gvs)).value;
    var coreLists := TryAll(CoreListings(c, vs)).value;
    assert forall i :: 0 <= i < |gvs| ==> GroupListings(c, gvs)[i] == c.groupResources(gvs[i]);
    assert forall i :: 0 <= i < |vs| ==> CoreListings(c, vs)[i] == c.coreResources(vs[i]);
    FlattenAppend(apiLists, coreLists);
    FlattenSize(apiLists);
    FlattenSize(coreLists);
  }
}
