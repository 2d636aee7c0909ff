/** The table formatter of the newer snapshot (src/formatter/pretty.rs),
    over `APIResource`-based results: a verb never probed shows an empty
    cell. */
module Pretty {
  import opened Wrappers
  import opened Types
  import opened Constants
  import opened Table

  /** `Pretty`: the configuration and the report to show. */
  datatype Pretty = Pretty(config: Config, result: FullResult<ResourceReport>)

  function ColumnCount(displayGroup: bool): nat
  {
    |ALL_VERBS| + if displayGroup then 2 else 1
  }

  function Lookup(items: map<string, CheckResult>, verb: string): (e: Option<CheckResult>)
    ensures e.Some? <==> verb in items
    ensures e.Some? ==> e.value == items[verb]
  {
    if verb in items then Some(items[verb]) else None
  }

  /** A probed verb shows whether it is allowed; `denied` plays no part. */
  function Glyph(entry: Option<CheckResult>): (g: string)
    ensures g == CHECK_MARK <==> entry.Some? && entry.value.allowed
    ensures g == CROSS_MARK <==> entry.Some? && !entry.value.allowed
    ensures g == "" <==> entry.None?
  {
    match entry
    case Some(r) => if r.allowed then CHECK_MARK else CROSS_MARK
    case None => ""
  }

  function VerbCells(items: map<string, CheckResult>): (cells: seq<string>)
    ensures |cells| == |ALL_VERBS|
    ensures forall k :: 0 <= k < |ALL_VERBS| ==> cells[k] == Glyph(Lookup(items, ALL_VERBS[k]))
  {
    seq(|ALL_VERBS|, k requires 0 <= k < |ALL_VERBS| => Glyph(Lookup(items, ALL_VERBS[k])))
  }

  /** One row: the group (empty when missing) if displayed, the kind, then
      one glyph per verb, aligned with the header. */
  function Row(displayGroup: bool, item: ResourceReport): (row: seq<string>)
    ensures |row| == |Header(displayGroup)|
    ensures displayGroup ==> row[0] == item.resource.group.GetOr("") && row[1] == item.resource.kind
    ensures !displayGroup ==> row[0] == item.resource.kind
    ensures forall k :: 0 <= k < |ALL_VERBS| ==>
              Header(displayGroup)[|row| - |ALL_VERBS| + k] == ALL_VERBS[k]
              && row[|row| - |ALL_VERBS| + k] == Glyph(Lookup(item.items, ALL_VERBS[k]))
  {
    (if displayGroup then [item.resource.group.GetOr("")] else []) + [item.resource.kind] + VerbCells(item.items)
  }

  function Rows(displayGroup: bool, items: seq<ResourceReport>): (rows: seq<seq<string>>)
    ensures |rows| == |items|
    ensures forall i :: 0 <= i < |items| ==> rows[i] == Row(displayGroup, items[i])
  {
    seq(|items|, i requires 0 <= i < |items| => Row(displayGroup, items[i]))
  }

  /** `Display for Pretty`: set the header, then add one row per item in
      order. */
  method Fmt(p: Pretty) returns (table: Table)
    ensures fresh(table)
    ensures table.header == Header(p.config.displayGroup)
    ensures table.rows == Rows(p.config.displayGroup, p.result.items)
  {
    table := new Table();
    var displayGroup := p.config.displayGroup;
    var titles: seq<string> := [];
    if displayGroup {
      titles := titles + ["Group"];
    }
    titles := titles + ["Kind"];
    titles := titles + ALL_VERBS;
    table.SetHeader(titles);
    var items := p.result.items;
    for i := 0 to |items|
      invariant table.header == Header(displayGroup)
      invariant table.rows == Rows(displayGroup, items[..i])
    {
      var row: seq<string> := [];
      var resource := items[i].resource;
      if displayGroup {
        row := row + [resource.group.GetOr("")];
      }
      row := row + [resource.kind];
      row := row + VerbCells(items[i].items);
      assert row == Row(displayGroup, items[i]);
      table.AddRow(row);
      assert Rows(displayGroup, items[..i + 1]) == Rows(displayGroup, items[..i]) + [Row(displayGroup, items[i])];
    }
    assert items[..|items|] == items;
  }

  /** The column count is the header's length. */
  lemma ColumnCountIsHeaderLength(displayGroup: bool)
    ensures ColumnCount(displayGroup) == |Header(displayGroup)|
    ensures ColumnCount(true) == 10 && ColumnCount(false) == 9
  {
  }

  /** Every row is as wide as the header, one per item, in input order. */
  lemma RowsMatchHeader(displayGroup: bool, items: seq<ResourceReport>)
    ensures |Rows(displayGroup, items)| == |items|
    ensures forall row :: row in Rows(displayGroup, items) ==> |row| == |Header(displayGroup)|
  {
  }

  /** `denied` never changes a row: two results that agree on the resource,
      the probed verbs and `allowed` render alike. */
  lemma DeniedNeverShown(displayGroup: bool, a: ResourceReport, b: ResourceReport)
    requires a.resource == b.resource && a.items.Keys == b.items.Keys
    requires forall v :: v in a.items ==> a.items[v].allowed == b.items[v].allowed
    ensures Row(displayGroup, a) == Row(displayGroup, b)
  {
    assert VerbCells(a.items) == VerbCells(b.items);
  }
}
