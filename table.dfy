/** What the table formatters build: a header and rows of cell strings,
    collected in a table object (comfy_table's layout and colours are not
    modelled). */
module Table {
  import opened Constants

  /** Green and red glyphs of the verb cells. */
  const CHECK_MARK := "\U{2714}"
  const CROSS_MARK := "\U{2716}"

  /** The header: `Group` when the group is displayed, then `Kind`, then
      every verb in ALL_VERBS order. */
  function Header(displayGroup: bool): (h: seq<string>)
    ensures |h| == |ALL_VERBS| + (if displayGroup then 2 else 1)
    ensures displayGroup ==> h[0] == "Group" && h[1] == "Kind" && h[2..] == ALL_VERBS
    ensures !displayGroup ==> h[0] == "Kind" && h[1..] == ALL_VERBS
  {
    (if displayGroup then ["Group"] else []) + ["Kind"] + ALL_VERBS
  }

  /** A rendered report: table cells, or text. */
  datatype Rendered = Cells(header: seq<string>, rows: seq<seq<string>>) | Text(text: string)

  /** The table a formatter fills: one header, then rows appended in order. */
  class Table {
    var header: seq<string>
    var rows: seq<seq<string>>

    constructor ()
      ensures header == [] && rows == []
    {
      header := [];
      rows := [];
    }

    method SetHeader(titles: seq<string>)
      modifies this
      ensures header == titles && rows == old(rows)
    {
      header := titles;
    }

    method AddRow(row: seq<string>)
      modifies this
      ensures rows == old(rows) + [row] && header == old(header)
    {
      rows := rows + [row];
    }
  }
}
