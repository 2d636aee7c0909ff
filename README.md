# wcid permission matrix, modelled in Dafny

wcid ("what can I do") asks a Kubernetes cluster which verbs the current
identity may use on each resource kind it serves. It then prints the answers
as a table of glyphs or as JSON. The pipeline has four steps:

- **Discovery** lists the API groups and the core API versions. It then lists
  the resources of each group's preferred version and of the first core
  version. Every resource is stamped with the group and version of the list
  it came from.
- **The check engine** sends one `SelfSubjectAccessReview`
  (`authorization.k8s.io/v1`) per resource and verb. It collects a
  verb → decision map per resource, where a decision keeps `allowed` and
  `denied` apart. It then filters the reports.
- **The formatters** turn the full result into table cells (an optional Group
  column, then Kind, then one glyph per verb in the fixed verb order) or into
  a verb → allowed JSON record.
- **The verb vocabulary**: eight verbs in a fixed order, which fixes the
  column order.

The repository holds two snapshots of this pipeline, and both are modelled.

- **The newer snapshot** (`src/check.rs`, `src/formatter/*`):
  - It probes only the verbs a resource advertises.
  - It can impersonate a user.
  - It skips subresources unless asked.
  - It drops resources whose check failed, and can hide resources with no allowed verb.
- **The older snapshot** (`src/check/mod.rs`, `src/check/formatter*.rs`):
  - It probes all eight verbs on every resource, which it names by group/version/kind.
  - One failed resource fails the whole run.

Modules follow the source files:

| module | source |
|---|---|
| `Constants` | `src/constants.rs`, plus ASCII lower-casing |
| `Types` | `src/types.rs`, `src/config.rs` |
| `AccessReview` | the review request, the `http` request builder and the decision rule shared by both snapshots |
| `Client` | what the Kubernetes client answers, as oracles |
| `Discovery` | `src/discovery.rs` |
| `VerbMap` | the verb → decision map filled by both `check_resource` loops |
| `Check` | `src/check.rs` |
| `LegacyCheck` | `src/check/mod.rs` |
| `Table` | the table being filled (header and rows of cell strings) |
| `Pretty`, `Json`, `Formatter` | `src/formatter/pretty.rs`, `json.rs`, `mod.rs` |
| `LegacyPretty`, `LegacyFormatter` | `src/check/formatter/pretty.rs`, `src/check/formatter.rs` |
| `Scenario` | a worked run of the newer engine on a one-resource cluster |
| `Wrappers`, `Seqs` | `Option`/`Result`/`Outcome`, and the subsequence order used by the ordering lemmas |

Every network call is an oracle: a function field of `Client.Cluster` or of
`LegacyCheck.LegacyCluster`, which returns a value or a `Failure`. A call
that can hit `.expect` yields the `Outcome` value `Panicked`, distinct from
an ordinary `Failed` error. In the newer `check_all` each resource check runs
in a spawned task. A panic there surfaces as a join error, and the whole run
fails with `JoinFailed`. Loops that fill a map or push onto a vector are
methods with loop invariants. Each such method is proved equal to a
specification function, and the lemmas are stated about that function.

## Model

| member | source | states |
|---|---|---|
| `Constants.Lower` | src/check.rs:40 | ASCII lower-casing keeps the length and maps each character by `LowerChar` (only `A`-`Z` change) |
| `Constants.AllVerbsOrder` | src/constants.rs:1-10 | `ALL_VERBS` has exactly 8 entries, in the order Get, List, Watch, Create, Delete, Update, Patch, DeleteCollection |
| `Constants.LowerAllVerbs` | src/constants.rs:14-21 | the lower-case forms of the verbs are get, list, watch, create, delete, update, patch, deletecollection |
| `Constants.AllVerbsDistinct` | src/constants.rs:14-21 | the entries are pairwise distinct, and stay distinct after lower-casing |
| `Constants.LowerInjectiveOnVerbs` | src/constants.rs:14-21 | two vocabulary verbs with the same lower-case form are the same verb |
| `Constants.DefaultVerbsAreOrderedSubset` | src/constants.rs:1-12 | `DEFAULT_VERBS` is Get, Create, Delete, Update; every entry is in `ALL_VERBS`, and it is a subsequence of `ALL_VERBS` |
| `Types.HelpersFollowGvk` | src/types.rs:33-45 | two results with the same gvk have the same plural, kind and group: the helpers read nothing but the gvk |
| `Wrappers.TryAll` | src/discovery.rs:29-44 | a join of fallible calls succeeds iff every call does, with the values in call order; an error is the error of one of the calls |
| `Wrappers.CollectAll` | src/check/mod.rs:106 | a join succeeds iff every unit is done, values in order; otherwise it is the first unit's failure or panic |
| `Seqs.SubseqTrans` | src/check.rs:111-130 | the "kept in order" relation composes, so stacked filters keep order |
| `Seqs.DistinctCard` | src/check/mod.rs:63-73 | a list without duplicates has as many distinct members as entries, so a legacy map built from the eight distinct verbs has eight keys |
| `Discovery.Split` | src/discovery.rs:7-10 | splitting yields at least one piece, and no piece contains the separator |
| `Discovery.SplitJoin` | src/discovery.rs:7-10 | joining the pieces of a split with the separator gives back the string |
| `Discovery.JoinSplit` | src/discovery.rs:7-10 | splitting a join of separator-free pieces gives back the pieces |
| `Discovery.ExtractVersionGroup` | src/discovery.rs:6-16 | the version component is never `None` |
| `Discovery.ExtractVersion` | src/discovery.rs:18-20 | the version is the second component of the pair, and is always present |
| `Discovery.SplitFirst` | src/discovery.rs:7-10 | a string splits into more than one piece iff it contains the separator, and the first piece followed by the separator is then a prefix of the string |
| `Discovery.ExtractGroup` | src/discovery.rs:6-24 | the group is present iff the string contains `/`, and it is then the text before the first `/` (it has no `/` and, followed by `/`, is a prefix of the string) |
| `Discovery.ExtractGroupVersion` | src/discovery.rs:11-12 | `"g/v"` gives group `Some(g)` and version `Some(v)` |
| `Discovery.ExtractBareVersion` | src/discovery.rs:13-14 | a string without `/`, the empty string included, gives group `None` and the whole string as version |
| `Discovery.ExtractIgnoresTail` | src/discovery.rs:11-12 | segments after a second `/` are ignored: `"g/v/t"` gives `g` and `v` |
| `Discovery.ExtractOfGroupVersionString` | src/discovery.rs:6-16 | extracting from a `group/version` (or bare version) string recovers the group and version |
| `Discovery.GroupVersionStringOfExtract` | src/discovery.rs:6-16 | a string with at most one `/` is rebuilt exactly from its extracted group and version |
| `Discovery.Stamp` | src/discovery.rs:52-56 | a stamped resource equals its input except for `group` and `version`, which come from its list's `group_version` |
| `Discovery.StampAll` | src/discovery.rs:50-58 | one stamped resource per listed resource, in order |
| `Discovery.FirstVersion` | src/discovery.rs:40 | only the first core API version (if any) is listed |
| `Discovery.PreferredGroupVersionsMembers` | src/discovery.rs:30-33 | a `group/version` is listed iff some group has it as its preferred version |
| `Discovery.FlattenSize` | src/discovery.rs:45-60 | the catalog length is the sum of the list lengths |
| `Discovery.FlattenAppend` | src/discovery.rs:45-48 | grouped lists come before core lists, each in list order |
| `Discovery.FlattenAt` | src/discovery.rs:45-60 | resource `j` of list `i` sits at position (size of lists before `i`) + `j`, stamped from list `i` |
| `Discovery.FlattenOrigin` | src/discovery.rs:45-60 | every catalog entry is some list's resource, stamped from that list |
| `Discovery.DiscoverySucceedsIff` | src/discovery.rs:26-62 | discovery succeeds iff group listing, core version listing and every resource listing succeed (no partial catalog) |
| `Discovery.DiscoveredCatalog` | src/discovery.rs:26-62 | a successful discovery is the flattening of exactly the listed preferred-group lists followed by the first-core-version list |
| `AccessReview.Builder.Header` | src/check.rs:47-52 | adding a header keeps method and URI; an invalid header value poisons the builder, a valid one is appended |
| `AccessReview.Builder.Body` | src/check.rs:53-55 | a request is produced iff the builder is not poisoned, and carries its method, URI, headers and body |
| `AccessReview.Post` | src/check.rs:47 | a fresh POST builder for the URI, with no headers |
| `AccessReview.ReviewOf` | src/check.rs:31-43 | the review is `authorization.k8s.io/v1` `SelfSubjectAccessReview` carrying the attributes |
| `AccessReview.Decide` | src/check.rs:60-64 | the decision copies the verb and `allowed`; `denied` is true iff the status says so, false when absent |
| `AccessReview.Interpret` | src/check.rs:56-64 | a transport or decode error is that error; an answer without status panics; otherwise the decision of the status |
| `AccessReview.DecisionKeepsBothFlags` | src/types.rs:47-52 | both flags are kept verbatim, and "not allowed, explicitly denied" differs from "not allowed, no opinion" |
| `VerbMap.ProbeAllSnoc` | src/check.rs:78-88 | after a successful prefix, one more probe either adds its decision under its verb or is the map's failure |
| `VerbMap.ProbeAllSucceedsIff` | src/check.rs:73-89 | the verb map is built iff every probe succeeds |
| `VerbMap.ProbeAllMap` | src/check.rs:73-89 | the map's keys are exactly the probed verbs, each mapped to its probe's decision |
| `VerbMap.ProbeAllFirstFailure` | src/check.rs:87 | a failed map is the failure of some probe, and every earlier probe succeeded |
| `VerbMap.ProbeAllFailureSticks` | src/check.rs:87 | once a probe fails, later verbs do not change the outcome |
| `Check.SelectVerbs` | src/check.rs:74-76 | the probed verbs are the `ALL_VERBS` entries whose lower-case form the resource advertises, in `ALL_VERBS` order |
| `Check.SelectVerbsAppend` | src/check.rs:74-76 | the verb filter distributes over concatenation |
| `Check.SelectVerbsSplit` | src/check.rs:74-76 | each further vocabulary entry adds at most itself to the selection, and the selection splits at any point |
| `Check.AttributesFor` | src/check.rs:36-41 | the attributes carry the resource's group and name, the namespace, and the lower-cased verb |
| `Check.RequestFor` | src/check.rs:31-55 | a request exists iff the impersonation value (if any) is a valid header value; it is a POST to the review path with the review body, and its only header is `Impersonate-User` when an identity is given |
| `Check.ImpersonationHeader` | src/check.rs:48-52 | the `Impersonate-User` header is present iff an identity is given, and it carries that identity |
| `Check.CheckResourceVerb` | src/check.rs:24-65 | the method, with its reassigned builder, yields the specified outcome of one probe |
| `Check.CheckResource` | src/check.rs:67-94 | the loop that fills the map, returning at the first failing probe, yields the specified resource outcome |
| `Check.CheckResourceReport` | src/check.rs:73-93 | a successful report is for that resource; its keys are exactly the advertised vocabulary verbs, each holding its probe's decision |
| `Check.CheckResourceFailure` | src/check.rs:87 | a resource check succeeds iff every advertised verb's probe does; otherwise it carries the failure of one advertised verb's probe and no partial map |
| `Check.CheckResourceFirstFailure` | src/check.rs:74-88 | a failed resource check carries the failure of the first failing probe among the advertised verbs in `ALL_VERBS` order; every earlier advertised verb's probe succeeded |
| `Check.Candidates` | src/check.rs:113 | with `subresources` off, no resource whose name contains `/` is checked; the others keep discovery order |
| `Check.RunChecks` | src/check.rs:114-122 | one check per candidate, in order |
| `Check.Successes` | src/check.rs:128 | failed checks are dropped; a report is kept iff its check succeeded |
| `Check.Visible` | src/check.rs:129 | with `hide_forbidden` on, a report is kept iff some verb is allowed; order is kept |
| `Check.ResourcesOf` | src/check.rs:126-130 | the resources of the reports, positionwise |
| `Check.SuccessesCons` | src/check.rs:128 | a done outcome contributes its report in front, any other outcome nothing |
| `Check.SuccessesFollow` | src/check.rs:126-128 | when outcomes line up with resources, the successes' resources are a subsequence of the resources |
| `Check.SuccessesInOrder` | src/check.rs:126-128 | the successful reports' resources are a subsequence of the checked resources |
| `Check.VisibleResourcesInOrder` | src/check.rs:129 | the hide-forbidden filter keeps relative order |
| `Check.CheckAllDiscoveryError` | src/check.rs:110 | a discovery error is the run's error |
| `Check.RunChecksPanicIff` | src/check.rs:114-122 | some spawned check panics iff the check of some resource it was spawned for panics |
| `Check.CheckAllSucceedsIff` | src/check.rs:109-132 | the run succeeds iff discovery succeeds and no candidate's check panics |
| `Check.CheckAllNoneInvented` | src/check.rs:109-132 | a result carries the run config, and its resources are a subsequence of the discovered catalog (none invented, order kept) |
| `Check.CheckAllItems` | src/check.rs:111-130 | every item is a discovered resource's successful report; without `subresources` its name has no `/`; with `hide_forbidden` it has an allowed verb |
| `Check.CheckAllKeepsSuccesses` | src/check.rs:126-130 | every successful candidate that passes the hide-forbidden filter is in the result (with the filter off, no success is removed) |
| `LegacyCheck.AttributesFor` | src/check/mod.rs:28-40 | the attributes carry the gvk's group and plural name, the namespace, and the lower-cased verb |
| `LegacyCheck.VerbOutcome` | src/check/mod.rs:21-57 | the probe's own `Client::try_default` (a connection oracle taking the gvk and verb) failing is the probe's error; otherwise the review answer is interpreted as in the newer snapshot |
| `LegacyCheck.CheckResource` | src/check/mod.rs:59-74 | the loop over all eight verbs yields the specified resource outcome |
| `LegacyCheck.CheckResourceReport` | src/check/mod.rs:63-73 | a successful map has exactly the eight `ALL_VERBS` keys, each holding its probe's decision, and is for that gvk |
| `LegacyCheck.CheckResourceFailure` | src/check/mod.rs:63-69 | a resource succeeds iff every verb's probe does; otherwise it carries the failure of the first failing verb in `ALL_VERBS` order, every earlier verb's probe having succeeded |
| `LegacyCheck.ListResources` | src/check/mod.rs:76-89 | the nested push loops yield the specified catalog, or the client or discovery error |
| `LegacyCheck.CatalogMembers` | src/check/mod.rs:82-87 | a gvk is listed iff some group's resources at its chosen version include it |
| `LegacyCheck.CatalogAppend` | src/check/mod.rs:82-87 | the catalog is built group by group, in group order |
| `LegacyCheck.RunChecks` | src/check/mod.rs:102-105 | one check per listed gvk, in order |
| `LegacyCheck.CheckAllOneToOne` | src/check/mod.rs:100-112 | the run succeeds iff every resource check does; then its items correspond one-to-one and in order to the listed gvks, with the run config |
| `Table.Header` | src/formatter/pretty.rs:27-38 | the header is `Group` (only when shown), then `Kind`, then `ALL_VERBS` in order |
| `Table.Table.SetHeader` | src/formatter/pretty.rs:38 | the header is set and the rows are unchanged |
| `Table.Table.AddRow` | src/formatter/pretty.rs:62 | the row is appended and the header is unchanged |
| `Pretty.ColumnCountIsHeaderLength` | src/formatter/pretty.rs:24-25 | the column count is `ALL_VERBS.len()` + 2 with the group shown and + 1 without, which is the header length |
| `Pretty.Lookup` | src/formatter/pretty.rs:48 | the lookup finds an entry iff the verb is a key, and returns that entry |
| `Pretty.Glyph` | src/formatter/pretty.rs:50-58 | `✔` iff present and allowed, `✖` iff present and not allowed, empty iff absent |
| `Pretty.VerbCells` | src/formatter/pretty.rs:45-59 | one glyph per verb, in `ALL_VERBS` order |
| `Pretty.Row` | src/formatter/pretty.rs:39-62 | a row has the header's length: group (empty when missing) if shown, kind, then the verb glyphs aligned with the header |
| `Pretty.Rows` | src/formatter/pretty.rs:40-63 | one row per item, in input order |
| `Pretty.Fmt` | src/formatter/pretty.rs:19-66 | the method fills a fresh table with the specified header and rows |
| `Pretty.RowsMatchHeader` | src/formatter/pretty.rs:27-63 | there are as many rows as items, and every row is as long as the header |
| `Pretty.DeniedNeverShown` | src/formatter/pretty.rs:51-57 | two reports that differ only in `denied` render the same row |
| `LegacyPretty.Glyph` | src/check/formatter/pretty.rs:50-61 | `✔` iff the verb is present and allowed, `✖` otherwise, an absent verb included |
| `LegacyPretty.VerbCells` | src/check/formatter/pretty.rs:47-63 | one glyph per verb, in `ALL_VERBS` order |
| `LegacyPretty.Row` | src/check/formatter/pretty.rs:42-64 | a row has the header's length: the gvk's group if shown, its kind, then the verb glyphs |
| `LegacyPretty.Rows` | src/check/formatter/pretty.rs:41-66 | one row per item, in input order |
| `LegacyPretty.Fmt` | src/check/formatter/pretty.rs:22-69 | the method fills a fresh table with the specified header and rows |
| `LegacyPretty.RowsMatchHeader` | src/check/formatter.rs:57-97 | rows match the items and the header's length; the 9/8 capacity hint is one less than the header length |
| `LegacyPretty.AbsentLooksRefused` | src/check/formatter.rs:89-92 | an absent verb renders exactly like a refused one (`✖`) |
| `LegacyPretty.DeniedNeverShown` | src/check/formatter/pretty.rs:51-57 | two results that differ only in `denied` render the same row |
| `Json.FromResource` | src/formatter/json.rs:25-38 | group and kind come from the gvk; `verb_allowed` maps each probed verb's lower-case form to `allowed`, and holds nothing else |
| `Json.FromFull` | src/formatter/json.rs:40-50 | one JSON record per item, in order |
| `Json.UnprobedVerbAbsent` | src/formatter/json.rs:27-31 | a verb never probed is absent from `verb_allowed`, not defaulted to false |
| `Json.DeniedNotCarried` | src/formatter/json.rs:13-18 | results that differ only in `denied` give the same JSON record |
| `Json.New` | src/formatter/json.rs:52-58 | one record per result item, in order, with the item's group and kind; a lower-cased verb is a key iff that verb was probed, and it holds the probe's `allowed` |
| `Json.Render` | src/formatter/json.rs:60-66 | a serialisation failure is a format error (no output); otherwise the serialised text |
| `Formatter.New` | src/formatter/mod.rs:15-21 | `Json` iff the format is exactly `"json"`, built from the result alone; otherwise `Pretty` with the config and result |
| `Formatter.OtherFormatsArePretty` | src/formatter/mod.rs:18-20 | `"JSON"`, `""` and `"table"` select `Pretty` |
| `Formatter.JsonIgnoresConfig` | src/formatter/mod.rs:17 | the JSON formatter does not depend on the config |
| `Formatter.Display` | src/formatter/mod.rs:24-30 | the output is the wrapped variant's output |
| `LegacyFormatter.FromResource` | src/check/formatter.rs:131-144 | `verb_allowed` has exactly the result's verb keys, unchanged, each mapped to `allowed`; group and kind from the gvk |
| `LegacyFormatter.FromFull` | src/check/formatter.rs:146-156 | one JSON record per item, in order |
| `LegacyFormatter.New` | src/check/formatter.rs:12-18 | `Json` iff the format is exactly `"json"`, otherwise `Pretty` over config and result |
| `LegacyFormatter.Display` | src/check/formatter.rs:21-28 | the pretty variant yields its header and rows; the JSON variant yields the serialised text, or a format error |
| `LegacyFormatter.TableMatchesJson` | src/check/formatter.rs:72-77 | the table row's group and kind cells (kind first when the group is hidden) are the JSON record's group and kind for the same item |
| `LegacyFormatter.JsonRecordHasEveryVerb` | src/check/formatter.rs:131-143 | a result holding all eight verbs gives a JSON record keyed by all eight verb constants |
| `Scenario.PodsCatalog` | src/discovery.rs:26-62 | a cluster serving only core `pods` at `v1` discovers exactly `pods` stamped with version `v1` and no group |
| `Scenario.PodsProbedVerbs` | src/check.rs:74-76 | for `pods` advertising `get` and `delete`, exactly Get and Delete are probed, in that order |
| `Scenario.PodsCheck` | src/check.rs:67-94 | the pods report maps Get and Delete to the cluster's decisions |
| `Scenario.PodsReported` | src/check.rs:109-132 | with `get` allowed, the run yields the one pods report, whether forbidden resources are hidden or not |
| `Scenario.PodsHidden` | src/check.rs:129 | with every verb refused and hide-forbidden on, the run yields no items |

## Left out

- The Kubernetes client is replaced by oracles:
  - group and core version listing, resource listing and the review round trip;
  - `Discovery::new`, `preferred_version_or_guess` and `resources_by_version`;
  - `DynamicObject::plural/kind/group`.
  A response is a pure function of the request. Retries, authentication and timing are not modelled.
- Building the review through `serde_json::from_value` and `create_self_subject_access_review` is taken never to fail. Both calls are `?`, and the input always has the shape the deserialiser accepts. The review path is a constant; the exact URI string the library builds is not modelled.
- Concurrency. `task::spawn` and `try_join_all` are modelled as a sequential map over the list. The model keeps two effects: a spawned task's panic aborts the newer run, and in the older run the first unit (in list order) that fails decides the error. Which error wins when several units fail concurrently is not modelled.
- Table rendering by `comfy_table`: the layout, the bold header attribute and the colours are out. Cells are modelled as strings, and `Vec::with_capacity` only as the capacity number.
- The `println!("Not found")` side effects at src/check/formatter.rs:90 and src/check/formatter/pretty.rs:59 are not modelled, since they write to standard output. `LegacyPretty.Glyph` keeps only the cross shown in that case.
- Every `Client::try_default` of the older snapshot is an oracle fixed by its arguments: `LegacyCluster.listConnect` for the listing (src/check/mod.rs:77) and `LegacyCluster.probeConnect(gvk, verb)` for each probe (src/check/mod.rs:26). Two calls with the same arguments are taken to give the same result.
- JSON text. Serialisation is a parameter that may fail. The model keeps the records.
- Formatter.Display: the `Pretty` branch takes the rendered pretty text as a parameter. In this snapshot `src/formatter/pretty.rs` reads `result.resource` (an API resource), while `src/types.rs`, which `src/formatter/mod.rs` passes on, holds a gvk. The two item types are modelled separately, as `Types.ResourceReport` and `Types.ResourceCheckResult`.
- Json.FromResource: requires every key of the verb map to be an `ALL_VERBS` entry. This is what every producer of the map guarantees, and it makes lower-casing injective on the keys. Lower-casing is ASCII; it agrees with Rust's Unicode `to_lowercase` on these keys.
- `Checker::new` and its `Client::try_default` panic (src/check.rs:102-107) are left out, because the client is an oracle.
- `src/main.rs` is the entry point and is not part of this model. `src/config.rs` is modelled as the `Types.Config` record only.
- Verb selection from a comma-separated list, and the use of `DEFAULT_VERBS` as the probed default, are not modelled. No code for them exists: `Config.verbs` is never read by `src/check.rs`, which probes the verbs a resource advertises. The older `src/check/mod.rs` probes all eight. Only the properties of the `DEFAULT_VERBS` constant are proved.
- The translation of a service-account name into `system:serviceaccount:…` for impersonation is not part of this model. The engine sends the configured identity as given.
