/** `TableGenerator`: renders headers and rows of cells into a GitHub-flavoured
    Markdown table: a header line, an alignment separator line, one line per row.

    The remove-empty-column option is read from the misspelled key
    `removeColummIfEmpty`, so with options of the declared type it is always off;
    `RenderTable` is the renderer with that flag off. */
module TableGenerator {
  import opened Wrappers
  import opened Strings
  import Helpers

  /** `TableAlign`: "left" | "center" | "right" | "none". */
  datatype TableAlign = Left | Center | Right | NoAlign

  /** A column header: a bare string, or a `TableHeader` with text and alignment. */
  datatype Header = Plain(text: string) | Aligned(text: string, align: TableAlign)

  /** `getHeaderText`: the text of a bare string header or of a `TableHeader`. */
  function GetHeaderText(header: Header): (t: string)
    ensures t == header.text
  {
    match header
    case Plain(t) => t
    case Aligned(t, _) => t
  }

  /** `getHeaderAlign`: a bare string header is unaligned. */
  function GetHeaderAlign(header: Header): (a: TableAlign)
    ensures header.Plain? ==> a == NoAlign
    ensures header.Aligned? ==> a == header.align
  {
    match header
    case Plain(_) => NoAlign
    case Aligned(_, a) => a
  }

  /** Every cell is missing or empty. */
  predicate AllBlank(cells: seq<Option<string>>)
  {
    forall i :: 0 <= i < |cells| ==> cells[i] == None || cells[i] == Some("")
  }

  /** The largest length among the present cells, 0 when there is none; the fold of
      `getMaxColumnWidth`'s `forEach`. */
  function MaxCellLength(cells: seq<Option<string>>): (m: nat)
    ensures forall i :: 0 <= i < |cells| && cells[i].Some? ==> |cells[i].value| <= m
    ensures m == 0 || exists i :: 0 <= i < |cells| && cells[i].Some? && |cells[i].value| == m
  {
    if |cells| == 0 then 0
    else
      var init := cells[..|cells| - 1];
      var m := MaxCellLength(init);
      var x := cells[|cells| - 1];
      assert forall i :: 0 <= i < |init| ==> init[i] == cells[i];
      if x.Some? && |x.value| > m then |x.value| else m
  }

  /** `getMaxColumnWidth`: the widest of the header text and the present cells; but
      when `removeIfEmpty` is set and every cell is missing or empty, 0 whatever the
      header's length. */
  function GetMaxColumnWidth(headerText: string, rows: seq<Option<string>>, removeIfEmpty: bool): (width: nat)
    ensures forall i :: 0 <= i < |rows| && rows[i].Some? ==> |rows[i].value| <= width
    ensures removeIfEmpty && AllBlank(rows) ==> width == 0
    ensures !(removeIfEmpty && AllBlank(rows)) ==>
      && |headerText| <= width
      && (width == |headerText| || exists i :: 0 <= i < |rows| && rows[i].Some? && |rows[i].value| == width)
  {
    var maxWidth := MaxCellLength(rows);
    if (maxWidth != 0 || !removeIfEmpty) && |headerText| > maxWidth then |headerText| else maxWidth
  }

  /** The fill step of `renderTable`: every row shorter than `n` is padded with `""`
      up to `n`; longer rows and existing cells are left as they are. */
  function FillRows(content: seq<seq<string>>, n: nat): (rows: seq<seq<string>>)
    ensures |rows| == |content|
    ensures forall i :: 0 <= i < |rows| ==>
      && |rows[i]| == Max(|content[i]|, n)
      && rows[i][..|content[i]|] == content[i]
      && (forall j :: |content[i]| <= j < |rows[i]| ==> rows[i][j] == "")
  {
    seq(|content|, i requires 0 <= i < |content| => Helpers.FillArray(content[i], n, ""))
  }

  /** `fillArray`: the loop that pushes `""` until the row reaches `length`. It pads
      exactly as `Helpers.FillArray` does with its default element. */
  method FillArray(arr: seq<string>, length: int) returns (filled: seq<string>)
    ensures filled == Helpers.FillArray(arr, length, "")
  {
    filled := arr;
    var count := length - |arr|;
    if count > 0 {
      var i := 0;
      while i < count
        invariant 0 <= i <= count
        invariant filled == arr + seq(i, _ => "")
      {
        filled := filled + [""];
        i := i + 1;
      }
    }
  }

  /** The cells of column `j`, as the `content.map` of `renderTable` collects them. */
  function Column(rows: seq<seq<string>>, j: nat): seq<Option<string>>
    requires forall i :: 0 <= i < |rows| ==> j < |rows[i]|
  {
    seq(|rows|, i requires 0 <= i < |rows| => Some(rows[i][j]))
  }

  /** Column widths with the remove-empty-column flag off: each is the largest of the
      header text's length and the lengths of the column's cells. */
  function ColumnWidths(headers: seq<Header>, rows: seq<seq<string>>): (widths: seq<nat>)
    requires forall i :: 0 <= i < |rows| ==> |rows[i]| == |headers|
    ensures |widths| == |headers|
    ensures forall j :: 0 <= j < |headers| ==> |GetHeaderText(headers[j])| <= widths[j]
    ensures forall i, j :: 0 <= i < |rows| && 0 <= j < |headers| ==> |rows[i][j]| <= widths[j]
    ensures forall j :: 0 <= j < |headers| ==>
      widths[j] == |GetHeaderText(headers[j])| || exists i :: 0 <= i < |rows| && |rows[i][j]| == widths[j]
  {
    var widths := seq(|headers|, j requires 0 <= j < |headers| =>
      GetMaxColumnWidth(GetHeaderText(headers[j]), Column(rows, j), false));
    assert forall i, j :: 0 <= i < |rows| && 0 <= j < |headers| ==> Column(rows, j)[i] == Some(rows[i][j]);
    widths
  }

  /** `renderCell`: as wide as the trimmed text or the column, whichever is wider, plus
      the border; it ends with `|` exactly when it closes the line. */
  function RenderCell(text: string, width: nat, close: bool): (cell: string)
    ensures |cell| == Max(|Trim(text)|, width) + 3 + (if close then 1 else 0)
    ensures close <==> cell[|cell| - 1] == '|'
  {
    var sanitizedText := Trim(text);
    var cell := "| " + PadRight(sanitizedText, width, ' ') + " ";
    assert cell[|cell| - 1] == ' ';
    if close then cell + "|" else cell
  }

  /** A cell is `"| "`, the trimmed text right-padded with spaces to `width` (never
      truncated), a space, and a closing `"|"` exactly when `close` is set. */
  lemma RenderCellLayout(text: string, width: nat, close: bool)
    ensures var cell := RenderCell(text, width, close);
      var t := Trim(text); var w := Max(|t|, width);
      && |cell| == w + 3 + (if close then 1 else 0)
      && cell[..2] == "| "
      && cell[2..2 + |t|] == t
      && (forall i :: 2 + |t| <= i <= 2 + w ==> cell[i] == ' ')
      && (close <==> cell[|cell| - 1] == '|')
  {
    var cell := RenderCell(text, width, close);
    var t := Trim(text);
    var padded := PadRight(t, width, ' ');
    assert cell[..2] == "| ";
    assert cell[2..2 + |padded|] == padded;
    assert padded[..|t|] == t;
    if !close {
      assert cell[|cell| - 1] == ' ';
    }
  }

  /** The cells of one line, left to right (the `forEach` loops of `renderTableHeader`
      and `renderTableContents`): a line of no cells is empty, and any other line ends
      with the closing `|`. */
  function RenderCells(texts: seq<string>, widths: seq<nat>): (line: string)
    requires |texts| <= |widths|
    ensures |texts| == 0 <==> line == ""
    ensures |texts| > 0 ==> line[|line| - 1] == '|'
  {
    if |texts| == 0 then ""
    else
      var cell := RenderCell(texts[0], widths[0], |texts| == 1);
      var rest := RenderCells(texts[1..], widths[1..]);
      assert (cell + rest)[|cell + rest| - 1] == if rest == "" then cell[|cell| - 1] else rest[|rest| - 1];
      cell + rest
  }

  /** Length of a line whose cells are exactly as wide as their columns. */
  function LineWidth(widths: seq<nat>): nat
  {
    if |widths| == 0 then 0
    else if |widths| == 1 then widths[0] + 4
    else widths[0] + 3 + LineWidth(widths[1..])
  }

  /** Cells whose text fits their column make a line of exactly `LineWidth`. */
  lemma {:induction false} CellsLength(texts: seq<string>, widths: seq<nat>)
    requires |texts| == |widths|
    requires forall j :: 0 <= j < |texts| ==> |Trim(texts[j])| <= widths[j]
    ensures |RenderCells(texts, widths)| == LineWidth(widths)
    decreases |texts|
  {
    if |texts| > 0 {
      RenderCellLayout(texts[0], widths[0], |texts| == 1);
      CellsLength(texts[1..], widths[1..]);
    }
  }

  /** Separator cell text: `left` is a colon then dashes, `right` dashes then a colon,
      and `center` (not implemented in the original) and `none` are plain dashes. The
      colon is kept even when the column is 0 wide. */
  function AlignText(align: TableAlign, width: nat): (t: string)
    ensures align == Left ==> |t| == Max(1, width) && t[0] == ':' && forall i :: 1 <= i < |t| ==> t[i] == '-'
    ensures align == Right ==> |t| == Max(1, width) && t[|t| - 1] == ':' && forall i :: 0 <= i < |t| - 1 ==> t[i] == '-'
    ensures align == Center || align == NoAlign ==> |t| == width && forall i :: 0 <= i < |t| ==> t[i] == '-'
  {
    match align
    case Left =>
      var t := PadRight(":", width, '-');
      assert t[0] == t[..1][0] == ':';
      t
    case Right =>
      var t := PadLeft(":", width, '-');
      assert t[|t| - 1] == t[|t| - 1..][0] == ':';
      t
    case Center => Repeat('-', width)
    case NoAlign => Repeat('-', width)
  }

  /** A separator cell never carries whitespace, so `renderCell`'s trim keeps it whole. */
  lemma AlignTextTrimmed(align: TableAlign, width: nat)
    ensures Trim(AlignText(align, width)) == AlignText(align, width)
  {
    TrimOfTrimmed(AlignText(align, width));
  }

  function HeaderTexts(headers: seq<Header>): seq<string>
  {
    seq(|headers|, j requires 0 <= j < |headers| => GetHeaderText(headers[j]))
  }

  function AlignTexts(headers: seq<Header>, widths: seq<nat>): seq<string>
    requires |widths| == |headers|
  {
    seq(|headers|, j requires 0 <= j < |headers| => AlignText(GetHeaderAlign(headers[j]), widths[j]))
  }

  /** `renderTableHeader`: the header line and the alignment separator line. */
  function RenderTableHeader(headers: seq<Header>, widths: seq<nat>): (lines: seq<string>)
    requires |widths| == |headers|
    ensures |lines| == 2
  {
    [RenderCells(HeaderTexts(headers), widths), RenderCells(AlignTexts(headers, widths), widths)]
  }

  /** `renderTableContents`: one line per row. */
  function RenderTableContents(content: seq<seq<string>>, widths: seq<nat>): (lines: seq<string>)
    requires forall i :: 0 <= i < |content| ==> |content[i]| <= |widths|
    ensures |lines| == |content|
  {
    seq(|content|, i requires 0 <= i < |content| => RenderCells(content[i], widths))
  }

  /** Rows may not be longer than the header list (the original reads an undefined
      width past the last header). */
  predicate RowsFit(headers: seq<Header>, content: seq<seq<string>>)
  {
    forall i :: 0 <= i < |content| ==> |content[i]| <= |headers|
  }

  /** The column widths `renderTable` computes, after filling the rows. */
  function TableWidths(headers: seq<Header>, content: seq<seq<string>>): (widths: seq<nat>)
    requires RowsFit(headers, content)
    ensures |widths| == |headers|
  {
    ColumnWidths(headers, FillRows(content, |headers|))
  }

  /** `renderTable` with the remove-empty-column flag off: a header line, a separator
      line and one line per row, so an empty grid gives just the two header lines. */
  function RenderTable(headers: seq<Header>, content: seq<seq<string>>): (lines: seq<string>)
    requires RowsFit(headers, content)
    ensures |lines| == 2 + |content|
  {
    var rows := FillRows(content, |headers|);
    var widths := ColumnWidths(headers, rows);
    RenderTableHeader(headers, widths) + RenderTableContents(rows, widths)
  }

  /** The header line: every header text fits its column. */
  lemma HeaderLineLength(headers: seq<Header>, widths: seq<nat>)
    requires |widths| == |headers|
    requires forall j :: 0 <= j < |headers| ==> |GetHeaderText(headers[j])| <= widths[j]
    ensures |RenderTableHeader(headers, widths)[0]| == LineWidth(widths)
  {
    var texts := HeaderTexts(headers);
    assert forall j :: 0 <= j < |texts| ==> |Trim(texts[j])| <= widths[j];
    CellsLength(texts, widths);
  }

  /** A content line: every cell of the filled row fits its column. */
  lemma RowLineLength(row: seq<string>, widths: seq<nat>)
    requires |row| == |widths|
    requires forall j :: 0 <= j < |row| ==> |row[j]| <= widths[j]
    ensures |RenderCells(row, widths)| == LineWidth(widths)
  {
    assert forall j :: 0 <= j < |row| ==> |Trim(row[j])| <= widths[j];
    CellsLength(row, widths);
  }

  /** Every cell of the header line and of every content line is padded to exactly its
      column's width, so these lines all have the same length. */
  lemma TableLinesAligned(headers: seq<Header>, content: seq<seq<string>>)
    requires RowsFit(headers, content)
    ensures var lines := RenderTable(headers, content);
      var w := LineWidth(TableWidths(headers, content));
      && |lines[0]| == w
      && forall k :: 2 <= k < |lines| ==> |lines[k]| == w
  {
    var rows := FillRows(content, |headers|);
    var widths := ColumnWidths(headers, rows);
    assert RenderTable(headers, content) == RenderTableHeader(headers, widths) + RenderTableContents(rows, widths);
    HeaderLineLength(headers, widths);
    ContentLinesLength(rows, widths);
  }

  lemma ContentLinesLength(rows: seq<seq<string>>, widths: seq<nat>)
    requires forall i :: 0 <= i < |rows| ==> |rows[i]| == |widths|
    requires forall i, j :: 0 <= i < |rows| && 0 <= j < |widths| ==> |rows[i][j]| <= widths[j]
    ensures forall k :: 0 <= k < |rows| ==> |RenderTableContents(rows, widths)[k]| == LineWidth(widths)
  {
    forall k | 0 <= k < |rows|
      ensures |RenderTableContents(rows, widths)[k]| == LineWidth(widths)
    {
      RowLineLength(rows[k], widths);
    }
  }

  /** Where cell `j` starts in a line whose cells are exactly as wide as their columns. */
  function CellOffset(widths: seq<nat>, j: nat): nat
    requires j <= |widths|
  {
    if j == 0 then 0 else widths[0] + 3 + CellOffset(widths[1..], j - 1)
  }

  /** The start of a cell: `"| "` and the trimmed text. */
  lemma CellStart(text: string, width: nat, close: bool)
    ensures OccursAt(RenderCell(text, width, close), 0, CellHead(text))
  {
    var t := Trim(text);
    var padded := PadRight(t, width, ' ');
    assert padded[..|t|] == t;
    assert ("| " + padded)[..2 + |t|] == "| " + t;
  }

  /** What a cell of `text` starts with: the opening `"| "` and the trimmed text. */
  function CellHead(text: string): string
  {
    "| " + Trim(text)
  }

  /** `x` appears in `s` starting at position `o`. */
  predicate OccursAt(s: string, o: nat, x: string)
  {
    o + |x| <= |s| && s[o..o + |x|] == x
  }

  /** `x` at `o` in `b` is at `|a| + o` in `s == a + b`. */
  lemma OccursAfter(s: string, a: string, b: string, o: nat, p: nat, x: string)
    requires s == a + b && p == |a| + o
    requires OccursAt(b, o, x)
    ensures OccursAt(s, p, x)
  {
    assert s[|a|..] == b;
    assert s[p..p + |x|] == s[|a|..][o..o + |x|];
  }

  lemma OccursBefore(a: string, b: string, x: string)
    requires OccursAt(a, 0, x)
    ensures OccursAt(a + b, 0, x)
  {
    assert (a + b)[..|a|] == a;
  }

  /** Every trimmed text fits its column. */
  predicate TextsFit(texts: seq<string>, widths: seq<nat>)
    requires |texts| <= |widths|
  {
    forall i :: 0 <= i < |texts| ==> |Trim(texts[i])| <= widths[i]
  }

  /** Cells whose text fits their column can be read back from the line: cell `j`
      starts at `CellOffset(widths, j)` with `"| "` and its trimmed text. */
  lemma {:induction false} CellTextAt(texts: seq<string>, widths: seq<nat>, j: nat)
    requires |texts| <= |widths| && TextsFit(texts, widths)
    requires j < |texts|
    ensures OccursAt(RenderCells(texts, widths), CellOffset(widths, j), CellHead(texts[j]))
    decreases j
  {
    if j == 0 {
      CellTextFirst(texts, widths);
    } else {
      TailFits(texts, widths);
      CellTextAt(texts[1..], widths[1..], j - 1);
      assert texts[1..][j - 1] == texts[j];
      CellTextShift(texts, widths, j);
    }
  }

  /** The first cell opens the line. */
  lemma CellTextFirst(texts: seq<string>, widths: seq<nat>)
    requires 0 < |texts| <= |widths|
    ensures OccursAt(RenderCells(texts, widths), CellOffset(widths, 0), CellHead(texts[0]))
  {
    var cell := RenderCell(texts[0], widths[0], |texts| == 1);
    var rest := RenderCells(texts[1..], widths[1..]);
    assert RenderCells(texts, widths) == cell + rest;
    CellStart(texts[0], widths[0], |texts| == 1);
    OccursBefore(cell, rest, CellHead(texts[0]));
  }

  lemma TailFits(texts: seq<string>, widths: seq<nat>)
    requires 0 < |texts| <= |widths| && TextsFit(texts, widths)
    ensures TextsFit(texts[1..], widths[1..])
  {
    var ts := texts[1..];
    var ws := widths[1..];
    forall i | 0 <= i < |ts|
      ensures |Trim(ts[i])| <= ws[i]
    {
      assert ts[i] == texts[i + 1];
    }
  }

  /** Cell `j > 0` of a line sits in the rest of the line, after the first cell. */
  lemma CellTextShift(texts: seq<string>, widths: seq<nat>, j: nat)
    requires |texts| <= |widths| && 0 < j < |texts|
    requires |Trim(texts[0])| <= widths[0]
    requires OccursAt(RenderCells(texts[1..], widths[1..]), CellOffset(widths[1..], j - 1), CellHead(texts[j]))
    ensures OccursAt(RenderCells(texts, widths), CellOffset(widths, j), CellHead(texts[j]))
  {
    var cell := RenderCell(texts[0], widths[0], false);
    var rest := RenderCells(texts[1..], widths[1..]);
    var line := RenderCells(texts, widths);
    assert line == cell + rest;
    assert |cell| == widths[0] + 3;
    var o := CellOffset(widths[1..], j - 1);
    var p := CellOffset(widths, j);
    assert p == |cell| + o;
    OccursAfter(line, cell, rest, o, p, CellHead(texts[j]));
  }

  /** Every header text can be read back, trimmed, from the header line. */
  lemma HeaderCellText(headers: seq<Header>, content: seq<seq<string>>, j: nat)
    requires RowsFit(headers, content)
    requires j < |headers|
    ensures OccursAt(RenderTable(headers, content)[0], CellOffset(TableWidths(headers, content), j),
      CellHead(GetHeaderText(headers[j])))
  {
    var rows := FillRows(content, |headers|);
    var widths := ColumnWidths(headers, rows);
    var texts := HeaderTexts(headers);
    assert RenderTable(headers, content)[0] == RenderCells(texts, widths);
    assert forall i :: 0 <= i < |texts| ==> |Trim(texts[i])| <= widths[i];
    assert TextsFit(texts, widths);
    CellTextAt(texts, widths, j);
  }

  /** Content line `i` renders the filled row `i` with the table's widths. */
  lemma ContentLine(headers: seq<Header>, content: seq<seq<string>>, i: nat)
    requires RowsFit(headers, content)
    requires i < |content|
    ensures var rows := FillRows(content, |headers|);
      && |rows[i]| == |headers|
      && RenderTable(headers, content)[2 + i] == RenderCells(rows[i], TableWidths(headers, content))
  {
    var rows := FillRows(content, |headers|);
    var widths := TableWidths(headers, content);
    var top := RenderTableHeader(headers, widths);
    var body := RenderTableContents(rows, widths);
    assert RenderTable(headers, content) == top + body;
    assert |top| == 2;
    assert (top + body)[2 + i] == body[i];
  }

  /** Every cell the caller gave can be read back, trimmed, from its row's line;
      the cells added by filling are empty. */
  lemma ContentCellText(headers: seq<Header>, content: seq<seq<string>>, i: nat, j: nat)
    requires RowsFit(headers, content)
    requires i < |content| && j < |headers|
    ensures OccursAt(RenderTable(headers, content)[2 + i], CellOffset(TableWidths(headers, content), j),
      CellHead(if j < |content[i]| then content[i][j] else ""))
  {
    var rows := FillRows(content, |headers|);
    var widths := TableWidths(headers, content);
    var row := rows[i];
    ContentLine(headers, content, i);
    assert forall k :: 0 <= k < |row| ==> |Trim(row[k])| <= widths[k];
    assert TextsFit(row, widths);
    CellTextAt(row, widths, j);
    if j < |content[i]| {
      assert row[..|content[i]|][j] == content[i][j];
    } else {
      assert row[j] == "";
    }
  }

  /** Every separator text can be read back from the separator line, when every
      column is wide enough for its marker. */
  lemma SeparatorCellText(headers: seq<Header>, content: seq<seq<string>>, j: nat)
    requires RowsFit(headers, content)
    requires j < |headers|
    requires forall k :: 0 <= k < |headers| ==>
      SeparatorFits(GetHeaderAlign(headers[k]), TableWidths(headers, content)[k])
    ensures OccursAt(RenderTable(headers, content)[1], CellOffset(TableWidths(headers, content), j),
      CellHead(AlignText(GetHeaderAlign(headers[j]), TableWidths(headers, content)[j])))
  {
    var widths := TableWidths(headers, content);
    var texts := AlignTexts(headers, widths);
    assert RenderTable(headers, content)[1] == RenderCells(texts, widths);
    forall k | 0 <= k < |texts|
      ensures |Trim(texts[k])| <= widths[k]
    {
      AlignTextTrimmed(GetHeaderAlign(headers[k]), widths[k]);
    }
    assert TextsFit(texts, widths);
    CellTextAt(texts, widths, j);
  }

  /** A column can be narrower than its separator: a 0-wide column needs no dashes. */
  predicate SeparatorFits(align: TableAlign, width: nat)
  {
    width >= 1 || align == Center || align == NoAlign
  }

  /** The separator line has the common length too, unless a left- or right-aligned
      column is 0 wide (empty header text and only empty cells), where the colon
      alone is wider than the column. */
  lemma SeparatorAligned(headers: seq<Header>, content: seq<seq<string>>)
    requires RowsFit(headers, content)
    requires forall j :: 0 <= j < |headers| ==>
      SeparatorFits(GetHeaderAlign(headers[j]), TableWidths(headers, content)[j])
    ensures |RenderTable(headers, content)[1]| == LineWidth(TableWidths(headers, content))
  {
    var widths := TableWidths(headers, content);
    var texts := AlignTexts(headers, widths);
    forall j | 0 <= j < |texts|
      ensures |Trim(texts[j])| <= widths[j]
    {
      AlignTextTrimmed(GetHeaderAlign(headers[j]), widths[j]);
    }
    CellsLength(texts, widths);
  }

  /** A one-column line is a single closing cell. */
  lemma OneCell(a: string, w: nat)
    ensures RenderCells([a], [w]) == RenderCell(a, w, true)
  {
    assert [a][1..] == [];
    assert RenderCells([a], [w]) == RenderCell(a, w, true) + "";
  }

  lemma EmptyLeftStructure()
    ensures RenderTable([Aligned("", Left)], [[""]])
      == [RenderCell("", 0, true), RenderCell(":", 0, true), RenderCell("", 0, true)]
  {
    var headers := [Aligned("", Left)];
    var rows := [[""]];
    assert FillRows(rows, 1) == rows;
    assert Column(rows, 0) == [Some("")];
    assert ColumnWidths(headers, rows) == [0];
    assert HeaderTexts(headers) == [""];
    assert PadRight(":", 0, '-') == ":";
    assert AlignTexts(headers, [0]) == [":"];
    OneCell("", 0);
    OneCell(":", 0);
  }

  lemma EmptyLeftCells()
    ensures RenderCell("", 0, true) == "|  |"
    ensures RenderCell(":", 0, true) == "| : |"
  {
    TrimOfTrimmed("");
    TrimOfTrimmed(":");
  }

  /** An empty left-aligned column: 0 wide, yet its separator cell keeps the colon and
      is wider than the header and content cells. */
  lemma EmptyLeftColumnExample()
    ensures RenderTable([Aligned("", Left)], [[""]]) == ["|  |", "| : |", "|  |"]
  {
    EmptyLeftStructure();
    EmptyLeftCells();
  }

  /** A cell whose text has no surrounding whitespace: the text padded to the width. */
  lemma CellOfTrimmed(text: string, width: nat, close: bool)
    requires Trimmed(text)
    ensures RenderCell(text, width, close)
      == "| " + PadRight(text, width, ' ') + " " + (if close then "|" else "")
  {
    TrimOfTrimmed(text);
  }

  lemma PropertyWidth()
    ensures GetMaxColumnWidth("Property", [Some("Name"), Some("Age")], false) == 8
  {
    assert |"Name"| == 4 && |"Age"| == 3;
  }

  lemma ValueWidth()
    ensures GetMaxColumnWidth("Value", [Some("string"), Some("number")], false) == 6
  {
    assert |"string"| == 6 && |"number"| == 6;
  }

  /** The widths of a full two-by-two grid, column by column. */
  lemma TwoByTwoWidths(h0: Header, h1: Header, r0: seq<string>, r1: seq<string>)
    requires |r0| == 2 && |r1| == 2
    ensures TableWidths([h0, h1], [r0, r1]) == [
      GetMaxColumnWidth(GetHeaderText(h0), [Some(r0[0]), Some(r1[0])], false),
      GetMaxColumnWidth(GetHeaderText(h1), [Some(r0[1]), Some(r1[1])], false)]
  {
    var rows := [r0, r1];
    assert FillRows(rows, 2) == rows;
    assert Column(rows, 0) == [Some(r0[0]), Some(r1[0])];
    assert Column(rows, 1) == [Some(r0[1]), Some(r1[1])];
  }

  lemma ExampleWidths()
    ensures TableWidths([Plain("Property"), Plain("Value")], [["Name", "string"], ["Age", "number"]]) == [8, 6]
  {
    TwoByTwoWidths(Plain("Property"), Plain("Value"), ["Name", "string"], ["Age", "number"]);
    PropertyWidth();
    ValueWidth();
  }

  /** A table whose rows are already full: its header lines followed by its rows. */
  lemma FilledTable(headers: seq<Header>, content: seq<seq<string>>, widths: seq<nat>)
    requires RowsFit(headers, content)
    requires FillRows(content, |headers|) == content
    requires TableWidths(headers, content) == widths
    ensures RenderTable(headers, content) == RenderTableHeader(headers, widths) + RenderTableContents(content, widths)
  {
  }

  lemma TwoRows(r0: seq<string>, r1: seq<string>, widths: seq<nat>)
    requires |r0| <= |widths| && |r1| <= |widths|
    ensures RenderTableContents([r0, r1], widths) == [RenderCells(r0, widths), RenderCells(r1, widths)]
  {
  }

  /** A two-column line is the first cell followed by the closing second cell. */
  lemma TwoCells(a: string, b: string, w1: nat, w2: nat)
    ensures RenderCells([a, b], [w1, w2]) == RenderCell(a, w1, false) + RenderCell(b, w2, true)
  {
    assert [a, b][1..] == [b];
    assert [w1, w2][1..] == [w2];
    assert [b][1..] == [];
    assert RenderCells([b], [w2]) == RenderCell(b, w2, true) + "";
  }

  lemma ExampleHeaderTexts()
    ensures RenderTableHeader([Plain("Property"), Plain("Value")], [8, 6])
      == [RenderCells(["Property", "Value"], [8, 6]), RenderCells(["--------", "------"], [8, 6])]
  {
    var headers := [Plain("Property"), Plain("Value")];
    assert HeaderTexts(headers) == ["Property", "Value"];
    assert Repeat('-', 8) == "--------" && Repeat('-', 6) == "------";
    assert AlignTexts(headers, [8, 6]) == ["--------", "------"];
  }

  /** A two-column line whose cells are known. */
  lemma RowOfCells(a: string, b: string, w1: nat, w2: nat, ca: string, cb: string)
    requires RenderCell(a, w1, false) == ca && RenderCell(b, w2, true) == cb
    ensures RenderCells([a, b], [w1, w2]) == ca + cb
  {
    TwoCells(a, b, w1, w2);
  }

  lemma PropertyCell()
    ensures RenderCell("Property", 8, false) == "| Property "
  {
    CellOfTrimmed("Property", 8, false);
  }

  lemma ValueCell()
    ensures RenderCell("Value", 6, true) == "| Value  |"
  {
    CellOfTrimmed("Value", 6, true);
    assert Repeat(' ', 1) == " ";
  }

  lemma DashCells()
    ensures RenderCell("--------", 8, false) == "| -------- "
    ensures RenderCell("------", 6, true) == "| ------ |"
  {
    CellOfTrimmed("--------", 8, false);
    CellOfTrimmed("------", 6, true);
  }

  lemma NameCell()
    ensures RenderCell("Name", 8, false) == "| Name     "
  {
    CellOfTrimmed("Name", 8, false);
    assert Repeat(' ', 4) == "    ";
  }

  lemma StringCell()
    ensures RenderCell("string", 6, true) == "| string |"
  {
    CellOfTrimmed("string", 6, true);
  }

  lemma AgeCell()
    ensures RenderCell("Age", 8, false) == "| Age      "
  {
    CellOfTrimmed("Age", 8, false);
    assert Repeat(' ', 5) == "     ";
  }

  lemma NumberCell()
    ensures RenderCell("number", 6, true) == "| number |"
  {
    CellOfTrimmed("number", 6, true);
  }

  lemma HeaderRow()
    ensures RenderCells(["Property", "Value"], [8, 6]) == "| Property | Value  |"
  {
    PropertyCell();
    ValueCell();
    RowOfCells("Property", "Value", 8, 6, "| Property ", "| Value  |");
  }

  lemma SeparatorRow()
    ensures RenderCells(["--------", "------"], [8, 6]) == "| -------- | ------ |"
  {
    DashCells();
    RowOfCells("--------", "------", 8, 6, "| -------- ", "| ------ |");
  }

  lemma NameRow()
    ensures RenderCells(["Name", "string"], [8, 6]) == "| Name     | string |"
  {
    NameCell();
    StringCell();
    RowOfCells("Name", "string", 8, 6, "| Name     ", "| string |");
  }

  lemma AgeRow()
    ensures RenderCells(["Age", "number"], [8, 6]) == "| Age      | number |"
  {
    AgeCell();
    NumberCell();
    RowOfCells("Age", "number", 8, 6, "| Age      ", "| number |");
  }

  lemma ExampleLines()
    ensures RenderTableHeader([Plain("Property"), Plain("Value")], [8, 6])
      == ["| Property | Value  |", "| -------- | ------ |"]
    ensures RenderCells(["Name", "string"], [8, 6]) == "| Name     | string |"
    ensures RenderCells(["Age", "number"], [8, 6]) == "| Age      | number |"
  {
    ExampleHeaderTexts();
    HeaderRow();
    SeparatorRow();
    NameRow();
    AgeRow();
  }

  lemma ExampleStructure()
    ensures RenderTable([Plain("Property"), Plain("Value")], [["Name", "string"], ["Age", "number"]])
      == RenderTableHeader([Plain("Property"), Plain("Value")], [8, 6])
         + [RenderCells(["Name", "string"], [8, 6]), RenderCells(["Age", "number"], [8, 6])]
  {
    var headers := [Plain("Property"), Plain("Value")];
    var rows := [["Name", "string"], ["Age", "number"]];
    ExampleWidths();
    assert FillRows(rows, 2) == rows;
    FilledTable(headers, rows, [8, 6]);
    TwoRows(rows[0], rows[1], [8, 6]);
  }

  /** The two-column example table. */
  lemma PropertyValueExample()
    ensures RenderTable([Plain("Property"), Plain("Value")], [["Name", "string"], ["Age", "number"]])
      == [ "| Property | Value  |",
           "| -------- | ------ |",
           "| Name     | string |",
           "| Age      | number |" ]
  {
    ExampleStructure();
    ExampleLines();
  }
}
