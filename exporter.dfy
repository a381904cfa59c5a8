/**
 * ExcelExporterService<T>: writes a header row and one row per record into a
 * fresh worksheet, either one column per public property (auto mode) or one
 * column per WithColumn registration (custom mode), then places the title
 * block and the styled table range.
 */
module Exporter {
  import opened Wrappers
  import opened Values
  import opened Records

  // ---------------------------------------------------------------------
  // Settings and column configuration

  datatype Theme = NoTheme | Theme(name: string)

  datatype TableStyleSettings = TableStyleSettings(
    theme: Theme,
    showRowStripes: bool,
    sheetName: Option<string>,
    title: Option<string>,
    headerFontColor: string,
    showColumnStripes: bool,
    showTotalsRow: bool)

  /** `new TableStyleSettings()`: light table theme, no sheet name, no title. */
  const DefaultTableStyle: TableStyleSettings :=
    TableStyleSettings(Theme("TableStyleLight1"), false, None, None, "Black", false, false)

  /** A custom column: its header text, its value selector and its optional date format. */
  datatype ColumnConfig = ColumnConfig(name: string, getValue: Selector, format: Option<string>)

  datatype Range = Range(firstRow: int, firstColumn: int, lastRow: int, lastColumn: int)

  const MemberMessage: string := "Member expression is not supported"

  predicate IsNullOrEmpty(s: Option<string>) {
    s.None? || s.value == ""
  }

  // ---------------------------------------------------------------------
  // Cell contents

  /** The header cells of auto mode: the public instance property names in declaration order. */
  function AutoHeader(props: seq<Property>): (h: seq<string>)
    ensures |h| == |props| && forall i :: 0 <= i < |props| ==> h[i] == props[i].name
  {
    seq(|props|, i requires 0 <= i < |props| => props[i].name)
  }

  /** The header cells of custom mode: the registered column names in registration order. */
  function CustomHeader(columns: seq<ColumnConfig>): (h: seq<string>)
    ensures |h| == |columns| && forall i :: 0 <= i < |columns| ==> h[i] == columns[i].name
  {
    seq(|columns|, i requires 0 <= i < |columns| => columns[i].name)
  }

  /** An auto-mode data cell: `property.GetValue(item)?.ToString()`, never formatted. */
  function AutoCell(lib: Library, p: Property, item: Record): Option<string> {
    DisplayText(lib, Get(item, p.name))
  }

  /**
   * A custom-mode data cell: a date value with a format is rendered with that
   * format; every other value is `value?.ToString()`.
   */
  function CustomCell(lib: Library, column: ColumnConfig, item: Record): Option<string> {
    var value := Eval(column.getValue, item);
    if column.format.Some? && value.DateValue? then Some(lib.formatDate(value.date, column.format.value))
    else DisplayText(lib, value)
  }

  /** The text written into an auto-mode data cell. */
  method RenderAutoCell(lib: Library, p: Property, item: Record) returns (cell: Option<string>)
    ensures cell == AutoCell(lib, p, item)
    ensures cell.None? <==> Get(item, p.name) == Null
    ensures Get(item, p.name).Str? ==> cell == Some(Get(item, p.name).s)
    ensures Get(item, p.name).Int? ==> cell == Some(IntToString(Get(item, p.name).i))
    ensures Get(item, p.name).DateValue? ==> cell == Some(lib.dateText(Get(item, p.name).date))
  {
    var value := Get(item, p.name);
    cell := DisplayText(lib, value);
  }

  /** The text written into a custom-mode data cell. */
  method RenderCustomCell(lib: Library, column: ColumnConfig, item: Record) returns (cell: Option<string>)
    ensures cell == CustomCell(lib, column, item)
    ensures var value := Eval(column.getValue, item);
      column.format.Some? && value.DateValue? ==> cell == Some(lib.formatDate(value.date, column.format.value))
    ensures var value := Eval(column.getValue, item);
      !value.DateValue? || column.format.None? ==> cell == DisplayText(lib, value)
    ensures cell.None? <==> Eval(column.getValue, item) == Null
  {
    var value := Eval(column.getValue, item);
    if column.format.Some? && value.DateValue? {
      cell := Some(lib.formatDate(value.date, column.format.value));
      return;
    }
    cell := DisplayText(lib, value);
  }

  /** A format changes only how a date is written: any other value renders alike with any format. */
  lemma FormatAppliesOnlyToDates(lib: Library, column: ColumnConfig, format: Option<string>, item: Record)
    requires !Eval(column.getValue, item).DateValue?
    ensures CustomCell(lib, column.(format := format), item) == CustomCell(lib, column, item)
  {
  }

  /**
   * A custom column reading a property, with no format, renders exactly as
   * that property's auto-mode cell.
   */
  lemma UnformattedColumnMatchesAuto(lib: Library, p: Property, name: string, item: Record)
    ensures CustomCell(lib, ColumnConfig(name, Converted(p.name), None), item) == AutoCell(lib, p, item)
  {
  }

  /** An auto-mode data row: one cell per property, in declaration order. */
  function AutoRow(lib: Library, props: seq<Property>, item: Record): (row: seq<Option<string>>)
  {
    seq(|props|, c requires 0 <= c < |props| => AutoCell(lib, props[c], item))
  }

  function AutoRows(lib: Library, props: seq<Property>, data: seq<Record>): (rows: seq<seq<Option<string>>>)
  {
    seq(|data|, k requires 0 <= k < |data| => AutoRow(lib, props, data[k]))
  }

  /** A custom-mode data row: one cell per registered column, in registration order. */
  function CustomRow(lib: Library, columns: seq<ColumnConfig>, item: Record): (row: seq<Option<string>>)
  {
    seq(|columns|, c requires 0 <= c < |columns| => CustomCell(lib, columns[c], item))
  }

  function CustomRows(lib: Library, columns: seq<ColumnConfig>, data: seq<Record>): (rows: seq<seq<Option<string>>>)
  {
    seq(|data|, k requires 0 <= k < |data| => CustomRow(lib, columns, data[k]))
  }

  // ---------------------------------------------------------------------
  // The worksheet, as far as the exporter writes and reads it

  /** Written cells by (row, column); `None` is a cell set to null. */
  type Cells = map<(int, int), Option<string>>

  ghost predicate IsUsed(cells: Cells, p: (int, int)) {
    p in cells && cells[p].Some?
  }

  ghost predicate IsLastRowUsed(cells: Cells, r: int) {
    (exists p :: IsUsed(cells, p) && p.0 == r) && forall p :: IsUsed(cells, p) ==> p.0 <= r
  }

  ghost predicate IsLastColumnUsed(cells: Cells, c: int) {
    (exists p :: IsUsed(cells, p) && p.1 == c) && forall p :: IsUsed(cells, p) ==> p.1 <= c
  }

  ghost predicate NoneUsed(cells: Cells) {
    forall p :: p in cells ==> !IsUsed(cells, p)
  }

  /** The cell at p is as it was. */
  ghost predicate Untouched(after: Cells, before: Cells, p: (int, int)) {
    (p in after <==> p in before) && (p in before ==> after[p] == before[p])
  }

  class Worksheet {
    const name: string
    var cells: Cells
    var title: Option<Range>
    var table: Option<Range>

    constructor(name: string)
      ensures this.name == name && cells == map[] && title == None && table == None
    {
      this.name := name;
      cells := map[];
      title := None;
      table := None;
    }

    /** `worksheet.Cell(row, column).Value = value` */
    method SetCell(row: int, column: int, value: Option<string>)
      modifies this`cells
      ensures cells == old(cells)[(row, column) := value]
    {
      cells := cells[(row, column) := value];
    }

    /** LastRowUsed()?.RowNumber(): the highest row holding a value, or null on an empty sheet. */
    method LastRowUsed() returns (last: Option<int>)
      ensures last.None? <==> NoneUsed(cells)
      ensures last.Some? ==> IsLastRowUsed(cells, last.value)
    {
      var remaining := cells.Keys;
      last := None;
      while remaining != {}
        invariant remaining <= cells.Keys
        invariant last.None? <==> forall p :: p in cells && p !in remaining ==> !IsUsed(cells, p)
        invariant last.Some? ==> exists p :: p !in remaining && IsUsed(cells, p) && p.0 == last.value
        invariant last.Some? ==> forall p :: p !in remaining && IsUsed(cells, p) ==> p.0 <= last.value
        decreases remaining
      {
        var p :| p in remaining;
        if cells[p].Some? && (last.None? || last.value < p.0) {
          last := Some(p.0);
        }
        remaining := remaining - {p};
      }
    }

    /** LastColumnUsed()?.ColumnNumber(): the highest column holding a value, or null on an empty sheet. */
    method LastColumnUsed() returns (last: Option<int>)
      ensures last.None? <==> NoneUsed(cells)
      ensures last.Some? ==> IsLastColumnUsed(cells, last.value)
    {
      var remaining := cells.Keys;
      last := None;
      while remaining != {}
        invariant remaining <= cells.Keys
        invariant last.None? <==> forall p :: p in cells && p !in remaining ==> !IsUsed(cells, p)
        invariant last.Some? ==> exists p :: p !in remaining && IsUsed(cells, p) && p.1 == last.value
        invariant last.Some? ==> forall p :: p !in remaining && IsUsed(cells, p) ==> p.1 <= last.value
        decreases remaining
      {
        var p :| p in remaining;
        if cells[p].Some? && (last.None? || last.value < p.1) {
          last := Some(p.1);
        }
        remaining := remaining - {p};
      }
    }
  }

  // ---------------------------------------------------------------------
  // The layout an export writes

  predicate WellShaped(header: seq<string>, rows: seq<seq<Option<string>>>) {
    forall k :: 0 <= k < |rows| ==> |rows[k]| == |header|
  }

  ghost predicate InLayout(p: (int, int), start: int, n: int, m: int) {
    start <= p.0 <= start + m && 1 <= p.1 <= n
  }

  ghost predicate HeaderWritten(cells: Cells, start: int, header: seq<string>) {
    forall c :: 1 <= c <= |header| ==> (start, c) in cells && cells[(start, c)] == Some(header[c - 1])
  }

  /** Rows start + 1 .. start + k hold rows[0..k], columns 1..n. */
  ghost predicate RowsWritten(cells: Cells, start: int, n: int, rows: seq<seq<Option<string>>>, k: int)
    requires k <= |rows| && forall i :: 0 <= i < |rows| ==> |rows[i]| == n
  {
    forall r, c :: start < r <= start + k && 1 <= c <= n ==> (r, c) in cells && cells[(r, c)] == rows[r - start - 1][c - 1]
  }

  /** Row r holds row[0..upto - 1] in columns 1..upto - 1. */
  ghost predicate RowPrefixWritten(cells: Cells, r: int, row: seq<Option<string>>, upto: int)
    requires upto <= |row| + 1
  {
    forall c :: 1 <= c < upto ==> (r, c) in cells && cells[(r, c)] == row[c - 1]
  }

  /**
   * The header occupies row `start`, columns 1..n; data row k occupies row
   * start + 1 + k, columns 1..n; no other cell is changed.
   */
  ghost predicate Layout(after: Cells, before: Cells, start: int, header: seq<string>, rows: seq<seq<Option<string>>>)
    requires WellShaped(header, rows)
  {
    && HeaderWritten(after, start, header)
    && RowsWritten(after, start, |header|, rows, |rows|)
    && forall p :: !InLayout(p, start, |header|, |rows|) ==> Untouched(after, before, p)
  }

  function HeaderCells(header: seq<string>): (row: seq<Option<string>>)
    ensures |row| == |header| && forall c :: 0 <= c < |header| ==> row[c] == Some(header[c])
  {
    seq(|header|, c requires 0 <= c < |header| => Some(header[c]))
  }

  /** The sheet after the cells of row r, columns 1..j, are set in order to row[0..j]. */
  ghost function PaintRow(cells: Cells, r: int, row: seq<Option<string>>, j: int): Cells
    requires 0 <= j <= |row|
    decreases j
  {
    if j == 0 then cells else PaintRow(cells, r, row, j - 1)[(r, j) := row[j - 1]]
  }

  /** The sheet after rows start + 1 .. start + k are painted in order with rows[0..k]. */
  ghost function PaintRows(cells: Cells, start: int, rows: seq<seq<Option<string>>>, k: int): Cells
    requires 0 <= k <= |rows|
    decreases k
  {
    if k == 0 then cells
    else PaintRow(PaintRows(cells, start, rows, k - 1), start + k, rows[k - 1], |rows[k - 1]|)
  }

  /** Painting one more row paints it over the rows painted so far. */
  lemma PaintRowsStep(cells: Cells, start: int, rows: seq<seq<Option<string>>>, k: nat)
    requires k < |rows|
    ensures PaintRows(cells, start, rows, k + 1) == PaintRow(PaintRows(cells, start, rows, k), start + k + 1, rows[k], |rows[k]|)
  {
  }

  /** The sheet after the header row and then every data row are painted. */
  ghost function Paint(before: Cells, start: int, header: seq<string>, rows: seq<seq<Option<string>>>): Cells {
    PaintRows(PaintRow(before, start, HeaderCells(header), |header|), start, rows, |rows|)
  }

  lemma {:induction false} PaintRowWrites(cells: Cells, r: int, row: seq<Option<string>>, j: int)
    requires 0 <= j <= |row|
    ensures RowPrefixWritten(PaintRow(cells, r, row, j), r, row, j + 1)
    ensures forall p: (int, int) :: !(p.0 == r && 1 <= p.1 <= j) ==> Untouched(PaintRow(cells, r, row, j), cells, p)
    decreases j
  {
    if j > 0 {
      PaintRowWrites(cells, r, row, j - 1);
    }
  }

  lemma {:induction false} PaintRowsWrites(cells: Cells, start: int, n: int, rows: seq<seq<Option<string>>>, k: int)
    requires 0 <= k <= |rows| && forall i :: 0 <= i < |rows| ==> |rows[i]| == n
    ensures RowsWritten(PaintRows(cells, start, rows, k), start, n, rows, k)
    ensures forall p: (int, int) :: !(start < p.0 <= start + k && 1 <= p.1 <= n) ==> Untouched(PaintRows(cells, start, rows, k), cells, p)
    decreases k
  {
    if k > 0 {
      var prev := PaintRows(cells, start, rows, k - 1);
      var now := PaintRows(cells, start, rows, k);
      PaintRowsWrites(cells, start, n, rows, k - 1);
      PaintRowWrites(prev, start + k, rows[k - 1], n);
      forall r, c | start < r <= start + k && 1 <= c <= n
        ensures (r, c) in now && now[(r, c)] == rows[r - start - 1][c - 1]
      {
        if r < start + k {
          assert Untouched(now, prev, (r, c));
        }
      }
      forall p: (int, int) | !(start < p.0 <= start + k && 1 <= p.1 <= n)
        ensures Untouched(now, cells, p)
      {
        assert Untouched(now, prev, p) && Untouched(prev, cells, p);
      }
    }
  }

  /** Painting the header and then the rows lays them out, and changes nothing else. */
  lemma PaintIsLayout(before: Cells, start: int, header: seq<string>, rows: seq<seq<Option<string>>>)
    requires WellShaped(header, rows)
    ensures Layout(Paint(before, start, header, rows), before, start, header, rows)
  {
    var n := |header|;
    var headed := PaintRow(before, start, HeaderCells(header), n);
    var after := Paint(before, start, header, rows);
    PaintRowWrites(before, start, HeaderCells(header), n);
    PaintRowsWrites(headed, start, n, rows, |rows|);
    forall c | 1 <= c <= n
      ensures (start, c) in after && after[(start, c)] == Some(header[c - 1])
    {
      assert Untouched(after, headed, (start, c));
    }
    forall p | !InLayout(p, start, n, |rows|)
      ensures Untouched(after, before, p)
    {
      assert Untouched(after, headed, p) && Untouched(headed, before, p);
    }
  }

  /** The title block: every cell of rows 1..height, columns 1..width holds the title. */
  ghost predicate TitleFilled(cells: Cells, height: int, width: int, title: Option<string>) {
    forall r, c :: 1 <= r <= height && 1 <= c <= width ==> (r, c) in cells && cells[(r, c)] == title
  }

  ghost predicate InTitle(p: (int, int), height: int, width: int) {
    1 <= p.0 <= height && 1 <= p.1 <= width
  }

  /** The title block as rows of cells. */
  function TitleRows(height: nat, width: nat, title: Option<string>): (rows: seq<seq<Option<string>>>)
    ensures |rows| == height && forall r :: 0 <= r < height ==> rows[r] == seq(width, c => title)
  {
    seq(height, r => seq(width, c => title))
  }

  /** Painting the title rows from row 1 fills the title block, and changes nothing else. */
  lemma PaintIsTitle(before: Cells, height: nat, width: nat, title: Option<string>)
    ensures TitleFilled(PaintRows(before, 0, TitleRows(height, width, title), height), height, width, title)
    ensures forall p :: !InTitle(p, height, width) ==>
              Untouched(PaintRows(before, 0, TitleRows(height, width, title), height), before, p)
  {
    var rows := TitleRows(height, width, title);
    var after := PaintRows(before, 0, rows, height);
    PaintRowsWrites(before, 0, width, rows, height);
    forall r, c | 1 <= r <= height && 1 <= c <= width
      ensures (r, c) in after && after[(r, c)] == title
    {
      assert after[(r, c)] == rows[r - 1][c - 1];
    }
  }

  /**
   * The styled table: when the sheet's last used row is above 1 and its last
   * used column above 0, the range from the start row and column 1 to those;
   * otherwise no table is created.
   */
  ghost predicate TablePlaced(cells: Cells, start: int, table: Option<Range>, before: Option<Range>) {
    if exists lr, lc :: IsLastRowUsed(cells, lr) && IsLastColumnUsed(cells, lc) && lr > 1 && lc > 0
    then exists lr, lc :: IsLastRowUsed(cells, lr) && IsLastColumnUsed(cells, lc) && lr > 1 && lc > 0
                          && table == Some(Range(start, 1, lr, lc))
    else table == before
  }

  /** Some cell of the row holds a value. */
  predicate RowHasValue(row: seq<Option<string>>) {
    exists c :: 0 <= c < |row| && row[c].Some?
  }

  /**
   * On an untitled sheet holding only a layout of n > 0 columns, the last used
   * column is n, and with no data row the last used row is the header row 1,
   * so no table is created for an empty export.  When the last data row holds
   * a value, the last used row is that row.
   */
  lemma LastUsedOfLayout(cells: Cells, header: seq<string>, rows: seq<seq<Option<string>>>)
    requires WellShaped(header, rows) && Layout(cells, map[], 1, header, rows) && |header| > 0
    ensures IsLastColumnUsed(cells, |header|)
    ensures rows == [] ==> IsLastRowUsed(cells, 1)
    ensures rows != [] && RowHasValue(rows[|rows| - 1]) ==> IsLastRowUsed(cells, |rows| + 1)
  {
    var n := |header|;
    assert (1, n) in cells && cells[(1, n)] == Some(header[n - 1]);
    assert IsUsed(cells, (1, n));
    forall p | IsUsed(cells, p) ensures InLayout(p, 1, n, |rows|) {
      assert !Untouched(cells, map[], p);
    }
    if rows != [] && RowHasValue(rows[|rows| - 1]) {
      var last := rows[|rows| - 1];
      var c :| 0 <= c < |last| && last[c].Some?;
      assert (|rows| + 1, c + 1) in cells && cells[(|rows| + 1, c + 1)] == last[c];
      assert IsUsed(cells, (|rows| + 1, c + 1));
    }
  }

  // ---------------------------------------------------------------------
  // The service

  class ExporterService {
    const data: seq<Record>
    const schema: Schema
    const lib: Library
    const titleRowHeight: nat := 3
    var columns: seq<ColumnConfig>
    var useAutoColumns: bool
    var tableSettings: TableStyleSettings

    /** Auto mode, no custom column, default table style. */
    constructor(data: seq<Record>, schema: Schema, lib: Library)
      ensures this.data == data && this.schema == schema && this.lib == lib
      ensures columns == [] && useAutoColumns && tableSettings == DefaultTableStyle
    {
      this.data := data;
      this.schema := schema;
      this.lib := lib;
      columns := [];
      useAutoColumns := true;
      tableSettings := DefaultTableStyle;
    }

    /**
     * WithColumn: switches auto columns off first, even when it then throws
     * for a bare member-access selector; otherwise appends the column, with
     * no deduplication, headed by `columnName` or else the empty string
     * (the member name is never available at that point).
     */
    method WithColumn(selector: Selector, columnName: Option<string>, format: Option<string>) returns (r: Outcome<string>)
      modifies this`useAutoColumns, this`columns
      ensures !useAutoColumns
      ensures selector.Member? ==> r == Fail(MemberMessage) && columns == old(columns)
      ensures !selector.Member? ==>
                r == Pass && columns == old(columns) + [ColumnConfig(columnName.GetOr(""), selector, format)]
    {
      useAutoColumns := false;
      if selector.Member? {
        return Fail(MemberMessage);
      }
      var propertyName: Option<string> := None;
      columns := columns + [ColumnConfig(columnName.GetOr(propertyName.GetOr("")), selector, format)];
      r := Pass;
    }

    /** ApplyTableStyle(settings): the settings object is replaced as a whole. */
    method ApplyTableSettings(settings: TableStyleSettings)
      modifies this`tableSettings
      ensures tableSettings == settings
    {
      tableSettings := settings;
    }

    /** WithTableStyle(configure): a fresh default settings object, configured, replaces the current one. */
    method WithTableStyle(configure: TableStyleSettings -> TableStyleSettings)
      modifies this`tableSettings
      ensures tableSettings == configure(DefaultTableStyle)
    {
      var config := configure(DefaultTableStyle);
      ApplyTableSettings(config);
    }

    predicate Titled()
      reads this
    {
      !IsNullOrEmpty(tableSettings.title)
    }

    /** GetStartRow: the header row is row 1, or the row after the title block and its separator row. */
    function GetStartRow(): (r: int)
      reads this
      ensures r == 1 <==> !Titled()
      ensures Titled() ==> r == titleRowHeight + 2 == 5
    {
      if IsNullOrEmpty(tableSettings.title) then 1 else titleRowHeight + 2
    }

    /**
     * GetDataColumnCount: the custom column count, or in auto mode the count
     * of GetProperties(), which lists static properties too.
     */
    function GetDataColumnCount(): (n: nat)
      reads this
      ensures !useAutoColumns ==> n == |columns|
      ensures useAutoColumns ==> n >= |schema.properties|
    {
      if useAutoColumns then |schema.properties| + schema.staticCount else |columns|
    }

    function Header(): seq<string>
      reads this
    {
      if useAutoColumns then AutoHeader(schema.properties) else CustomHeader(columns)
    }

    function DataRows(): (rows: seq<seq<Option<string>>>)
      reads this
      ensures WellShaped(Header(), rows) && |rows| == |data|
    {
      if useAutoColumns then AutoRows(lib, schema.properties, data) else CustomRows(lib, columns, data)
    }

    /** AddAutoColumns: the property-name header, then one row per record in input order. */
    method AddAutoColumns(ws: Worksheet)
      modifies ws`cells
      ensures ws.cells == Paint(old(ws.cells), GetStartRow(), AutoHeader(schema.properties), AutoRows(lib, schema.properties, data))
    {
      var properties := schema.properties;
      ghost var header := AutoHeader(properties);
      ghost var before := ws.cells;
      var n := |properties|;
      var column := 1;
      var rowIndex := GetStartRow();
      var i := 0;
      while i < n
        invariant 0 <= i <= n && column == i + 1
        invariant ws.cells == PaintRow(before, rowIndex, HeaderCells(header), i)
      {
        ws.SetCell(rowIndex, column, Some(properties[i].name));
        column := column + 1;
        i := i + 1;
      }

      AddAutoDataRows(ws, rowIndex);
    }

    /** The data rows below the header at rowIndex, one per record in input order. */
    method AddAutoDataRows(ws: Worksheet, rowIndex: int)
      modifies ws`cells
      ensures ws.cells == PaintRows(old(ws.cells), rowIndex, AutoRows(lib, schema.properties, data), |data|)
    {
      var properties := schema.properties;
      ghost var rows := AutoRows(lib, properties, data);
      ghost var headed := ws.cells;
      var row := rowIndex + 1;
      var k := 0;
      while k < |data|
        invariant 0 <= k <= |data| && row == rowIndex + 1 + k
        invariant ws.cells == PaintRows(headed, rowIndex, rows, k)
      {
        AddAutoRow(ws, row, data[k]);
        assert rows[k] == AutoRow(lib, properties, data[k]);
        PaintRowsStep(headed, rowIndex, rows, k);
        row := row + 1;
        k := k + 1;
      }
    }

    /** One data row of auto mode: the record's value of each property, from column 1 on. */
    method AddAutoRow(ws: Worksheet, row: int, item: Record)
      modifies ws`cells
      ensures ws.cells == PaintRow(old(ws.cells), row, AutoRow(lib, schema.properties, item), |schema.properties|)
    {
      var properties := schema.properties;
      ghost var cells := AutoRow(lib, properties, item);
      ghost var before := ws.cells;
      var columnIndex := 1;
      var j := 0;
      while j < |properties|
        invariant 0 <= j <= |properties| && columnIndex == j + 1
        invariant ws.cells == PaintRow(before, row, cells, j)
      {
        var cell := RenderAutoCell(lib, properties[j], item);
        ws.SetCell(row, columnIndex, cell);
        columnIndex := columnIndex + 1;
        j := j + 1;
      }
    }

    /** AddCustomColumns: the registered column names, then one row per record in input order. */
    method AddCustomColumns(ws: Worksheet)
      modifies ws`cells
      ensures ws.cells == Paint(old(ws.cells), GetStartRow(), CustomHeader(columns), CustomRows(lib, columns, data))
    {
      var cols := columns;
      ghost var header := CustomHeader(cols);
      ghost var before := ws.cells;
      var n := |cols|;
      var columnIndex := 1;
      var rowIndex := GetStartRow();
      var i := 0;
      while i < n
        invariant 0 <= i <= n && columnIndex == i + 1
        invariant ws.cells == PaintRow(before, rowIndex, HeaderCells(header), i)
      {
        ws.SetCell(rowIndex, columnIndex, Some(cols[i].name));
        columnIndex := columnIndex + 1;
        i := i + 1;
      }

      AddCustomDataRows(ws, rowIndex);
    }

    /** The data rows below the header at rowIndex, one per record in input order. */
    method AddCustomDataRows(ws: Worksheet, rowIndex: int)
      modifies ws`cells
      ensures ws.cells == PaintRows(old(ws.cells), rowIndex, CustomRows(lib, columns, data), |data|)
    {
      var cols := columns;
      ghost var rows := CustomRows(lib, cols, data);
      ghost var headed := ws.cells;
      var row := rowIndex + 1;
      var k := 0;
      while k < |data|
        invariant 0 <= k <= |data| && row == rowIndex + 1 + k
        invariant ws.cells == PaintRows(headed, rowIndex, rows, k)
      {
        AddCustomRow(ws, row, data[k]);
        assert rows[k] == CustomRow(lib, cols, data[k]);
        PaintRowsStep(headed, rowIndex, rows, k);
        row := row + 1;
        k := k + 1;
      }
    }

    /** One data row of custom mode: the record's cell for each column, from column 1 on. */
    method AddCustomRow(ws: Worksheet, row: int, item: Record)
      modifies ws`cells
      ensures ws.cells == PaintRow(old(ws.cells), row, CustomRow(lib, columns, item), |columns|)
    {
      var cols := columns;
      ghost var cells := CustomRow(lib, cols, item);
      ghost var before := ws.cells;
      var columnIndex := 1;
      var j := 0;
      while j < |cols|
        invariant 0 <= j <= |cols| && columnIndex == j + 1
        invariant ws.cells == PaintRow(before, row, cells, j)
      {
        var cell := RenderCustomCell(lib, cols[j], item);
        ws.SetCell(row, columnIndex, cell);
        columnIndex := columnIndex + 1;
        j := j + 1;
      }
    }

    /**
     * ApplyTitle: merges rows 1..titleRowHeight over columns 1..(data column
     * count) and sets the title into every cell of that range.
     */
    method ApplyTitle(ws: Worksheet)
      modifies ws`cells, ws`title
      ensures ws.title == Some(Range(1, 1, titleRowHeight, GetDataColumnCount()))
      ensures TitleFilled(ws.cells, titleRowHeight, GetDataColumnCount(), tableSettings.title)
      ensures forall p :: !InTitle(p, titleRowHeight, GetDataColumnCount()) ==> Untouched(ws.cells, old(ws.cells), p)
    {
      var lastColumn := GetDataColumnCount();
      var title := tableSettings.title;
      ws.title := Some(Range(1, 1, titleRowHeight, lastColumn));
      ghost var before := ws.cells;
      ghost var block := TitleRows(titleRowHeight, lastColumn, title);
      var r := 0;
      while r < titleRowHeight
        invariant 0 <= r <= titleRowHeight
        invariant ws.title == Some(Range(1, 1, titleRowHeight, lastColumn))
        invariant ws.cells == PaintRows(before, 0, block, r)
      {
        var row := r + 1;
        ghost var painted := ws.cells;
        var c := 1;
        while c <= lastColumn
          invariant 1 <= c <= lastColumn + 1
          invariant ws.title == Some(Range(1, 1, titleRowHeight, lastColumn))
          invariant ws.cells == PaintRow(painted, row, block[r], c - 1)
        {
          ws.SetCell(row, c, title);
          c := c + 1;
        }
        r := r + 1;
      }
      PaintIsTitle(before, titleRowHeight, lastColumn, title);
    }

    /**
     * ApplyTableStyle(worksheet): the title block when there is a title; then,
     * unless the theme is None, the table range from the start row to the
     * last used row and column, when those are above 1 and 0.
     */
    method ApplyTableStyle(ws: Worksheet)
      modifies ws`cells, ws`title, ws`table
      ensures Titled() ==> ws.title == Some(Range(1, 1, titleRowHeight, GetDataColumnCount()))
      ensures Titled() ==> TitleFilled(ws.cells, titleRowHeight, GetDataColumnCount(), tableSettings.title)
      ensures Titled() ==> forall p :: !InTitle(p, titleRowHeight, GetDataColumnCount()) ==>
                Untouched(ws.cells, old(ws.cells), p)
      ensures !Titled() ==> ws.title == old(ws.title) && ws.cells == old(ws.cells)
      ensures tableSettings.theme.NoTheme? ==> ws.table == old(ws.table)
      ensures !tableSettings.theme.NoTheme? ==> TablePlaced(ws.cells, GetStartRow(), ws.table, old(ws.table))
    {
      if !IsNullOrEmpty(tableSettings.title) {
        ApplyTitle(ws);
      }
      if tableSettings.theme.NoTheme? {
        return;
      }
      var lastRow := ws.LastRowUsed();
      var lastColumn := ws.LastColumnUsed();
      var firstRow := GetStartRow();
      if lastRow.Some? && lastRow.value > 1 && lastColumn.Some? && lastColumn.value > 0 {
        ws.table := Some(Range(firstRow, 1, lastRow.value, lastColumn.value));
        assert IsLastRowUsed(ws.cells, lastRow.value) && IsLastColumnUsed(ws.cells, lastColumn.value);
      } else {
        forall lr, lc | IsLastRowUsed(ws.cells, lr) && IsLastColumnUsed(ws.cells, lc)
          ensures !(lr > 1 && lc > 0)
        {
          LastUsedIsUnique(ws.cells, lastRow, lr, lastColumn, lc);
        }
      }
    }

    /**
     * ToBytes, up to serialization: a new sheet named after the settings (or
     * "Sheet1"), holding the layout of the active mode, the title block when
     * there is a title, and the table range.
     */
    method ToBytes() returns (ws: Worksheet)
      ensures fresh(ws)
      ensures ws.name == tableSettings.sheetName.GetOr("Sheet1")
      ensures HeaderWritten(ws.cells, GetStartRow(), Header())
      ensures RowsWritten(ws.cells, GetStartRow(), |Header()|, DataRows(), |data|)
      ensures Titled() ==> ws.title == Some(Range(1, 1, titleRowHeight, GetDataColumnCount()))
      ensures Titled() ==> TitleFilled(ws.cells, titleRowHeight, GetDataColumnCount(), tableSettings.title)
      ensures !Titled() ==> ws.title == None
      ensures forall p :: p in ws.cells ==>
                InLayout(p, GetStartRow(), |Header()|, |data|) || (Titled() && InTitle(p, titleRowHeight, GetDataColumnCount()))
      ensures tableSettings.theme.NoTheme? ==> ws.table == None
      ensures !tableSettings.theme.NoTheme? ==> TablePlaced(ws.cells, GetStartRow(), ws.table, None)
    {
      ws := new Worksheet(tableSettings.sheetName.GetOr("Sheet1"));
      if useAutoColumns {
        AddAutoColumns(ws);
      } else {
        AddCustomColumns(ws);
      }
      ghost var laid := ws.cells;
      PaintIsLayout(map[], GetStartRow(), Header(), DataRows());
      ApplyTableStyle(ws);
      TitleKeepsLayout(laid, ws.cells, GetStartRow(), Header(), DataRows(), Titled(), titleRowHeight, GetDataColumnCount());
    }
  }

  /**
   * The title block lies above the header row, so placing it over a layout
   * written on an empty sheet leaves the layout intact, and the sheet holds
   * nothing outside the two.
   */
  lemma TitleKeepsLayout(laid: Cells, after: Cells, start: int, header: seq<string>, rows: seq<seq<Option<string>>>,
                         titled: bool, height: int, width: int)
    requires WellShaped(header, rows) && Layout(laid, map[], start, header, rows)
    requires titled ==> height < start && forall p :: !InTitle(p, height, width) ==> Untouched(after, laid, p)
    requires !titled ==> after == laid
    ensures HeaderWritten(after, start, header)
    ensures RowsWritten(after, start, |header|, rows, |rows|)
    ensures forall p :: p in after ==> InLayout(p, start, |header|, |rows|) || (titled && InTitle(p, height, width))
  {
    if titled {
      forall c | 1 <= c <= |header|
        ensures (start, c) in after && after[(start, c)] == Some(header[c - 1])
      {
        assert Untouched(after, laid, (start, c));
      }
      forall r, c | start < r <= start + |rows| && 1 <= c <= |header|
        ensures (r, c) in after && after[(r, c)] == rows[r - start - 1][c - 1]
      {
        assert Untouched(after, laid, (r, c));
      }
      forall p | p in after && !InTitle(p, height, width)
        ensures InLayout(p, start, |header|, |rows|)
      {
        assert Untouched(after, laid, p);
        assert !Untouched(laid, map[], p);
      }
    } else {
      forall p | p in after
        ensures InLayout(p, start, |header|, |rows|)
      {
        assert !Untouched(laid, map[], p);
      }
    }
  }

  /** The last used row and column are unique, and absent exactly on a sheet with no used cell. */
  lemma LastUsedIsUnique(cells: Cells, row: Option<int>, lr: int, column: Option<int>, lc: int)
    requires row.None? <==> NoneUsed(cells)
    requires row.Some? ==> IsLastRowUsed(cells, row.value)
    requires column.Some? ==> IsLastColumnUsed(cells, column.value)
    requires column.None? <==> NoneUsed(cells)
    requires IsLastRowUsed(cells, lr) && IsLastColumnUsed(cells, lc)
    ensures row == Some(lr) && column == Some(lc)
  {
    var p :| IsUsed(cells, p) && p.0 == lr;
    assert !NoneUsed(cells);
  }
}
