/** The table formatter of the older snapshot (src/check/formatter/pretty.rs,
    and its inline copy in src/check/formatter.rs), over gvk-based results:
    a verb missing from the map shows the same cross as a refused one. */
module LegacyPretty {
  import opened Types
  import opened Constants
  import opened Table

  /** `Pretty`: the configuration and the report to show. */
  datatype Pretty = Pretty(config: Config, result: FullResult<ResourceCheckResult>)

  /** The capacity hint the source computes; it is not the header length
      (which is one more). */
  function CapacityHint(displayGroup: bool): nat
  {
    if displayGroup then 9 else 8
  }

  /** Only an allowed decision shows a check mark; no decision, like a
      refused one, shows a cross. */
  function Glyph(items: map<string, CheckResult>, verb: string): (g: string)
    ensures g == CHECK_MARK <==> verb in items && items[verb].allowed
    ensures g == CROSS_MARK <==> !(verb in items && items[verb].allowed)
  {
    if verb in items then (if items[verb].allowed then CHECK_MARK else CROSS_MARK) else CROSS_MARK
  }

  function VerbCells(items: map<string, CheckResult>): (cells: seq<string>)
    ensures |cells| == |ALL_VERBS|
    ensures forall k :: 0 <= k < |ALL_VERBS| ==> cells[k] == Glyph(items, ALL_VERBS[k])
  {
    seq(|ALL_VERBS|, k requires 0 <= k < |ALL_VERBS| => Glyph(items, ALL_VERBS[k]))
  }

  /** One row: the group if displayed, the kind (both through the gvk
      helpers), then one glyph per verb, aligned with the header. */
  function Row(n: Naming, displayGroup: bool, item: ResourceCheckResult): (row: seq<string>)
    ensures |row| == |Header(displayGroup)|
    ensures displayGroup ==> row[0] == item.Group(n) && row[1] == item.Kind(n)
    ensures !displayGroup ==> row[0] == item.Kind(n)
    ensures forall k :: 0 <= k < |ALL_VERBS| ==>
              Header(displayGroup)[|row| - |ALL_VERBS| + k] == ALL_VERBS[k]
              && row[|row| - |ALL_VERBS| + k] == Glyph(item.items, ALL_VERBS[k])
  {
    (if displayGroup then [item.Group(n)] else []) + [item.Kind(n)] + VerbCells(item.items)
  }

  function Rows(n: Naming, displayGroup: bool, items: seq<ResourceCheckResult>): (rows: seq<seq<string>>)
    ensures |rows| == |items|
    ensures forall i :: 0 <= i < |items| ==> rows[i] == Row(n, displayGroup, items[i])
  {
    seq(|items|, i requires 0 <= i < |items| => Row(n, displayGroup, items[i]))
  }

  /** `Display for Pretty`: set the header, then add one row per item. */
  method Fmt(n: Naming, p: Pretty) returns (table: Table)
    ensures fresh(table)
    ensures table.header == Header(p.config.displayGroup)
    ensures table.rows == Rows(n, p.config.displayGroup, p.result.items)
  {
    table := new Table();
    var displayGroup := p.config.displayGroup;
    var titles: seq<string> := [];
    if displayGroup {
      titles := titles + ["Group"];
    }
    titles := titles + ["Kind"];
    titles := titles + ALL_VERBS;
    table.SetHeader(titles);
    var items := p.result.items;
    for i := 0 to |items|
      invariant table.header == Header(displayGroup)
      invariant table.rows == Rows(n, displayGroup, items[..i])
    {
      var row: seq<string> := [];
      if displayGroup {
        row := row + [items[i].Group(n)];
      }
      row := row + [items[i].Kind(n)];
      row := row + VerbCells(items[i].items);
      assert row == Row(n, displayGroup, items[i]);
      table.AddRow(row);
      assert Rows(n, displayGroup, items[..i + 1]) == Rows(n, displayGroup, items[..i]) + [Row(n, displayGroup, items[i])];
    }
    assert items[..|items|] == items;
  }

  /** Every row is as wide as the header, one per item, in input order; the
      hard-coded capacity hint is one short of that width. */
  lemma RowsMatchHeader(n: Naming, displayGroup: bool, items: seq<ResourceCheckResult>)
    ensures |Rows(n, displayGroup, items)| == |items|
    ensures forall row :: row in Rows(n, displayGroup, items) ==> |row| == |Header(displayGroup)|
    ensures |Header(displayGroup)| == CapacityHint(displayGroup) + 1
  {
  }

  /** A verb absent from the map renders exactly like a refused one. */
  lemma AbsentLooksRefused(items: map<string, CheckResult>, verb: string, refused: CheckResult)
    requires verb !in items && !refused.allowed
    ensures Glyph(items, verb) == Glyph(items[verb := refused], verb) == CROSS_MARK
  {
  }

  /** `denied` never changes a row. */
  lemma DeniedNeverShown(n: Naming, displayGroup: bool, a: ResourceCheckResult, b: ResourceCheckResult)
    requires a.gvk == b.gvk && a.items.Keys == b.items.Keys
    requires forall v :: v in a.items ==> a.items[v].allowed == b.items[v].allowed
    ensures Row(n, displayGroup, a) == Row(n, displayGroup, b)
  {
    assert VerbCells(a.items) == VerbCells(b.items);
  }
}
