/**
 * ExcelImporterService<T>: reads the used rows of one worksheet into freshly
 * constructed records.  The first used row is the header row; every later
 * used row becomes a record unless one of its mapped cells fails to convert,
 * in which case the row is dropped and one ImportError is kept per failing
 * cell.
 */
module Importer {
  import opened Wrappers
  import opened Values
  import opened Records

  // ---------------------------------------------------------------------
  // Settings, errors and the grid as the importer reads it

  datatype ImporterSettings = ImporterSettings(dateFormat: string, sheetName: string)

  const DefaultSettings: ImporterSettings := ImporterSettings("yyyy/mm/dd", "Sheet1")

  datatype ImportError = ImportError(rowNumber: int, columnName: string, errorMessage: string, invalidValue: CellValue)

  /** A cell that holds something, at its real column number. */
  datatype UsedCell = UsedCell(column: int, value: CellValue)

  /** A used row: its row number and its used cells in column order. */
  datatype Row = Row(number: int, used: seq<UsedCell>)

  /** A worksheet as its used rows, in sheet order. */
  datatype Sheet = Sheet(rows: seq<Row>)

  /** The opened workbook: worksheets by name. */
  type Workbook = map<string, Sheet>

  /** An exception that escapes ToList. */
  datatype ImportFault = MissingSheet(name: string)

  datatype Imported = Imported(records: seq<Record>, errors: seq<ImportError>)

  const PropertyMessage: string := "Expression must be a property"

  /** What PropertyInfo.SetValue throws for a property with no public setter. */
  const SetterMessage: string := "Property set method not found."

  /** row.Cell(column).Value: the used cell at that column, or a blank one. */
  function CellAt(used: seq<UsedCell>, column: int): CellValue
    decreases |used|
  {
    if used == [] then Blank
    else if used[0].column == column then used[0].value
    else CellAt(used[1..], column)
  }

  // ---------------------------------------------------------------------
  // Column bindings

  /** The two dictionaries MapColumn fills: by header text and by column index. */
  datatype Mappings = Mappings(byName: map<string, Property>, byIndex: map<int, Property>)

  /**
   * GetPropertyInfo: only a bare member access names a property; any other
   * lambda body throws.  A member that is not a public property of `T`
   * yields null.
   */
  function GetPropertyInfo(schema: Schema, selector: Selector): (r: Result<Option<Property>, string>)
    ensures r.Success? <==> selector.Member?
    ensures r.Failure? ==> r.error == PropertyMessage
    ensures r.Success? && r.value.Some? ==>
              r.value.value in schema.properties && r.value.value.name == selector.name
    ensures r.Success? && r.value.None? ==>
              forall p :: p in schema.properties ==> p.name != selector.name
  {
    match selector
    case Member(name) => Success(FindProperty(schema.properties, name))
    case _ => Failure(PropertyMessage)
  }

  /**
   * The binding TryMapCellToProperty uses for a column: the index binding
   * first, then the name binding of the column's header text.
   */
  function FindBinding(m: Mappings, column: int, header: Option<string>): (p: Option<Property>)
    ensures column in m.byIndex ==> p == Some(m.byIndex[column])
    ensures column !in m.byIndex && header.Some? && header.value in m.byName ==>
              p == Some(m.byName[header.value])
    ensures p.None? <==> column !in m.byIndex && (header.None? || header.value !in m.byName)
  {
    if column in m.byIndex then Some(m.byIndex[column])
    else if header.Some? && header.value in m.byName then Some(m.byName[header.value])
    else None
  }

  // ---------------------------------------------------------------------
  // Coercion

  /**
   * ConvertToDateTime: a native date passes through; anything else is parsed
   * exactly against the configured format, and an unparseable text silently
   * becomes DateTime.MinValue.
   */
  function ConvertToDateTime(lib: Library, dateFormat: string, v: CellValue): (d: DateTime)
    ensures v.Date? ==> d == v.date
    ensures !v.Date? && lib.parseExactDate(CellText(lib, v), dateFormat).Some? ==>
              d == lib.parseExactDate(CellText(lib, v), dateFormat).value
    ensures !v.Date? && lib.parseExactDate(CellText(lib, v), dateFormat).None? ==> d == MinValue
  {
    if v.Date? then v.date
    else lib.parseExactDate(CellText(lib, v), dateFormat).GetOr(MinValue)
  }

  /** ConvertValue: the coercion of a raw cell value to a property's declared type. */
  function ConvertValue(lib: Library, dateFormat: string, value: Option<CellValue>, target: TargetType): (r: Result<Value, string>)
    ensures value.None? ==> r == Success(Null)
    ensures value.Some? && target == StringType ==> r == Success(Str(CellText(lib, value.value)))
    ensures target == DateTimeType ==> r.Success?
    ensures value.Some? && target == DateTimeType ==> r == Success(DateValue(ConvertToDateTime(lib, dateFormat, value.value)))
    ensures value.Some? && target == IntType && r.Success? ==>
              r.value.Int? && Int32Min <= r.value.i <= Int32Max
  {
    match value
    case None => Success(Null)
    case Some(v) =>
      match target
      case StringType => Success(Str(CellText(lib, v)))
      case IntType =>
        (match ParseInt32(Trim(CellText(lib, v)))
         case Success(n) => Success(Int(n))
         case Failure(e) => Failure(e))
      case DecimalType =>
        (match lib.parseDecimal(Trim(CellText(lib, v)))
         case Success(x) => Success(Dec(x))
         case Failure(e) => Failure(e))
      case DateTimeType => Success(DateValue(ConvertToDateTime(lib, dateFormat, v)))
      case BoolType =>
        (match lib.toBoolean(v)
         case Success(b) => Success(Bool(b))
         case Failure(e) => Failure(e))
      case OtherType(name) => lib.changeType(v, name)
  }

  /** An integer cell is read back whatever white space surrounds its digits. */
  lemma IntCellsReadBack(lib: Library, dateFormat: string, w1: string, n: int, w2: string)
    requires AllWhiteSpace(w1) && AllWhiteSpace(w2) && Int32Min <= n <= Int32Max
    ensures ConvertValue(lib, dateFormat, Some(Text(w1 + IntToString(n) + w2)), IntType) == Success(Int(n))
  {
    var digits := IntToString(n);
    var text := w1 + digits + w2;
    IntToStringIsTrimmed(n);
    TrimRemovesPadding(w1, digits, w2);
    ParseFormatsRoundTrip(n);
    ConvertsParsedInt(lib, dateFormat, text, n);
  }

  /**
   * Int and decimal targets are trimmed before conversion: white space
   * padded around a text cell never changes what it converts to.
   */
  lemma NumericTargetsIgnorePadding(lib: Library, dateFormat: string, w1: string, s: string, w2: string, target: TargetType)
    requires AllWhiteSpace(w1) && AllWhiteSpace(w2) && (target == IntType || target == DecimalType)
    ensures ConvertValue(lib, dateFormat, Some(Text(w1 + s + w2)), target) == ConvertValue(lib, dateFormat, Some(Text(s)), target)
  {
    var padded := w1 + s + w2;
    TrimIgnoresPadding(w1, s, w2);
    NumericTargetsReadTrimmedText(lib, dateFormat, padded, s, target);
  }

  lemma NumericTargetsReadTrimmedText(lib: Library, dateFormat: string, a: string, b: string, target: TargetType)
    requires Trim(a) == Trim(b) && (target == IntType || target == DecimalType)
    ensures ConvertValue(lib, dateFormat, Some(Text(a)), target) == ConvertValue(lib, dateFormat, Some(Text(b)), target)
  {
    assert CellText(lib, Text(a)) == a && CellText(lib, Text(b)) == b;
    if target == IntType {
      assert ParseInt32(Trim(a)) == ParseInt32(Trim(b));
    } else {
      assert lib.parseDecimal(Trim(a)) == lib.parseDecimal(Trim(b));
    }
  }

  /**
   * Int and decimal targets parse the trimmed cell text: the conversion
   * fails exactly when that parse fails, with the parser's message, and
   * otherwise yields the parsed number.
   */
  lemma NumericConversionIsTrimmedParse(lib: Library, dateFormat: string, v: CellValue)
    ensures var r := ConvertValue(lib, dateFormat, Some(v), IntType);
            var p := ParseInt32(Trim(CellText(lib, v)));
            && (r.Failure? <==> p.Failure?)
            && (p.Failure? ==> r.error == p.error)
            && (p.Success? ==> r == Success(Int(p.value)))
    ensures var r := ConvertValue(lib, dateFormat, Some(v), DecimalType);
            var p := lib.parseDecimal(Trim(CellText(lib, v)));
            && (r.Failure? <==> p.Failure?)
            && (p.Failure? ==> r.error == p.error)
            && (p.Success? ==> r == Success(Dec(p.value)))
  {
  }

  /** Malformed int text fails with the format message, well-formed text out of range with the overflow message. */
  lemma UnparseableIntCellFails(lib: Library, dateFormat: string, s: string)
    ensures !WellFormedInt(Trim(s)) ==>
              ConvertValue(lib, dateFormat, Some(Text(s)), IntType) == Failure(FormatMessage)
    ensures WellFormedInt(Trim(s)) && !(Int32Min <= IntValue(Trim(s)) <= Int32Max) ==>
              ConvertValue(lib, dateFormat, Some(Text(s)), IntType) == Failure(OverflowMessage)
  {
    assert CellText(lib, Text(s)) == s;
    NumericConversionIsTrimmedParse(lib, dateFormat, Text(s));
  }

  lemma ConvertsParsedInt(lib: Library, dateFormat: string, text: string, n: int)
    requires ParseInt32(Trim(text)) == Success(n)
    ensures ConvertValue(lib, dateFormat, Some(Text(text)), IntType) == Success(Int(n))
  {
    assert CellText(lib, Text(text)) == text;
  }

  // ---------------------------------------------------------------------
  // One cell, one row, all rows: the specification of ToList

  /** The conversion a cell undergoes before it is assigned to a property. */
  type Converter = (Option<CellValue>, TargetType) -> Result<Value, string>

  /** ConvertValue with the importer's library and configured date format fixed. */
  function ConverterOf(lib: Library, dateFormat: string): (convert: Converter)
    ensures forall v, t :: convert(v, t) == ConvertValue(lib, dateFormat, v, t)
  {
    (v, t) => ConvertValue(lib, dateFormat, v, t)
  }

  /**
   * What a running import reads: the settings, both binding tables, the
   * record type and the cell conversion.  The properties below hold for any
   * conversion; the service's own context converts with ConverterOf.
   */
  datatype ImportContext = ImportContext(lib: Library, settings: ImporterSettings, mappings: Mappings, schema: Schema, convert: Converter)

  datatype CellOutcome = Unmapped | Assigned(item: Record) | Failed(error: ImportError)

  /**
   * TryMapCellToProperty: a column with no binding is skipped; a bound cell is
   * converted and assigned, or yields the error naming the cell's row, its
   * header (or "Columna <index>"), the message of the exception that the
   * conversion or, for a property with no setter, the assignment throws, and
   * the raw value.
   */
  function TryMapCell(ctx: ImportContext, item: Record, column: int, header: Option<string>, cell: CellValue, rowNumber: int): CellOutcome {
    match FindBinding(ctx.mappings, column, header)
    case None => Unmapped
    case Some(p) =>
      match ctx.convert(Some(cell), p.propertyType)
      case Success(v) =>
        if p.settable then Assigned(item[p.name := v])
        else Failed(ImportError(rowNumber, header.GetOr("Columna " + IntToString(column)), SetterMessage, cell))
      case Failure(message) =>
        Failed(ImportError(rowNumber, header.GetOr("Columna " + IntToString(column)), message, cell))
  }

  /** `headers.ContainsKey(col) ? headers[col] : null` */
  function HeaderAt(headers: map<int, string>, column: int): Option<string> {
    if column in headers then Some(headers[column]) else None
  }

  /** GetHeaders: the text of each used header cell, keyed by its real column number. */
  function HeadersOf(lib: Library, used: seq<UsedCell>): map<int, string>
    decreases |used|
  {
    if used == [] then map[]
    else HeadersOf(lib, used[..|used| - 1])[used[|used| - 1].column := CellText(lib, used[|used| - 1].value)]
  }

  /** The record being filled, the errors recorded for the row, and the row's failure flag. */
  datatype RowState = RowState(item: Record, errors: seq<ImportError>, hasErrors: bool)

  function RowStep(ctx: ImportContext, headers: map<int, string>, row: Row, s: RowState, column: int): RowState {
    match TryMapCell(ctx, s.item, column, HeaderAt(headers, column), CellAt(row.used, column), row.number)
    case Unmapped => s
    case Assigned(updated) => s.(item := updated)
    case Failed(e) => RowState(s.item, s.errors + [e], true)
  }

  /** The state of a row after its columns 1..k. */
  function RowAfter(ctx: ImportContext, headers: map<int, string>, row: Row, k: nat): RowState
    decreases k
  {
    if k == 0 then RowState(ctx.schema.initial, [], false)
    else RowStep(ctx, headers, row, RowAfter(ctx, headers, row, k - 1), k)
  }

  /** The state each data row is left in once all its columns are mapped, in sheet order. */
  function RowStates(ctx: ImportContext, headers: map<int, string>, rows: seq<Row>): (states: seq<RowState>)
    ensures |states| == |rows|
  {
    seq(|rows|, i requires 0 <= i < |rows| => RowAfter(ctx, headers, rows[i], |headers|))
  }

  /** What the row loop has accumulated after the first k rows: a row's record only when it has no error, every row's errors. */
  function Gather(states: seq<RowState>, k: nat): Imported
    requires k <= |states|
    decreases k
  {
    if k == 0 then Imported([], [])
    else
      var prev := Gather(states, k - 1);
      var s := states[k - 1];
      Imported(prev.records + (if s.hasErrors then [] else [s.item]), prev.errors + s.errors)
  }

  /** The records and errors collected from the given data rows. */
  function ImportRows(ctx: ImportContext, headers: map<int, string>, rows: seq<Row>): Imported {
    Gather(RowStates(ctx, headers, rows), |rows|)
  }

  /** ToList(out errors): the whole import of the configured worksheet. */
  function Import(ctx: ImportContext, workbook: Workbook): Result<Imported, ImportFault> {
    var name := ctx.settings.sheetName;
    if name !in workbook then Failure(MissingSheet(name))
    else
      var rows := workbook[name].rows;
      if rows == [] then Success(Imported([], []))
      else Success(ImportRows(ctx, HeadersOf(ctx.lib, rows[0].used), rows[1..]))
  }

  // ---------------------------------------------------------------------
  // Properties of the import

  /** A sheet with no data row (no used row at all, or only the header row) imports nothing and reports nothing. */
  lemma NoDataRowsImportNothing(ctx: ImportContext, workbook: Workbook)
    requires ctx.settings.sheetName in workbook
    requires |workbook[ctx.settings.sheetName].rows| <= 1
    ensures Import(ctx, workbook) == Success(Imported([], []))
  {
    var rows := workbook[ctx.settings.sheetName].rows;
    if rows != [] {
      assert rows[1..] == [];
    }
  }

  /**
   * The header map has one key per column that holds a used header cell, and
   * a column's text is that of its last used cell (later entries overwrite).
   */
  lemma {:induction false} HeadersCoverUsedColumns(lib: Library, used: seq<UsedCell>)
    ensures forall c :: c in HeadersOf(lib, used) <==> exists i :: 0 <= i < |used| && used[i].column == c
    ensures forall i :: 0 <= i < |used| && (forall j :: i < j < |used| ==> used[j].column != used[i].column) ==>
              used[i].column in HeadersOf(lib, used) && HeadersOf(lib, used)[used[i].column] == CellText(lib, used[i].value)
    decreases |used|
  {
    if used != [] {
      var n := |used| - 1;
      var prefix := used[..n];
      HeadersCoverUsedColumns(lib, prefix);
      var h := HeadersOf(lib, used);
      forall c ensures c in h <==> exists i :: 0 <= i < |used| && used[i].column == c {
        if c in HeadersOf(lib, prefix) {
          var i :| 0 <= i < |prefix| && prefix[i].column == c;
          assert used[i].column == c;
        }
        if exists i :: 0 <= i < |used| && used[i].column == c {
          var i :| 0 <= i < |used| && used[i].column == c;
          if i < n {
            assert prefix[i].column == c;
          }
        }
      }
      forall i | 0 <= i < |used| && (forall j :: i < j < |used| ==> used[j].column != used[i].column)
        ensures used[i].column in h && h[used[i].column] == CellText(lib, used[i].value)
      {
        if i < n {
          assert prefix[i] == used[i];
          assert forall j :: i < j < |prefix| ==> prefix[j].column != prefix[i].column;
        }
      }
    }
  }

  /** Whether the given column of a row fails to convert, whatever the record holds so far. */
  predicate CellFails(ctx: ImportContext, headers: map<int, string>, row: Row, column: int) {
    TryMapCell(ctx, ctx.schema.initial, column, HeaderAt(headers, column), CellAt(row.used, column), row.number).Failed?
  }

  /**
   * The error of a failing cell names the row, the column's header text (or
   * "Columna <index>" when it has none), the conversion's message and the raw
   * cell value.
   */
  function CellError(ctx: ImportContext, headers: map<int, string>, row: Row, column: int): (e: ImportError)
    requires CellFails(ctx, headers, row, column)
    ensures e.rowNumber == row.number && e.invalidValue == CellAt(row.used, column)
    ensures e.columnName == HeaderAt(headers, column).GetOr("Columna " + IntToString(column))
    ensures var p := FindBinding(ctx.mappings, column, HeaderAt(headers, column));
      var converted := ctx.convert(Some(CellAt(row.used, column)), p.value.propertyType);
      && p.Some?
      && (converted.Failure? ==> e.errorMessage == converted.error)
      && (converted.Success? ==> !p.value.settable && e.errorMessage == SetterMessage)
  {
    TryMapCell(ctx, ctx.schema.initial, column, HeaderAt(headers, column), CellAt(row.used, column), row.number).error
  }

  /** The errors of the failing cells among columns 1..k, in column order. */
  function FailingErrors(ctx: ImportContext, headers: map<int, string>, row: Row, k: nat): seq<ImportError>
    decreases k
  {
    if k == 0 then []
    else FailingErrors(ctx, headers, row, k - 1)
         + (if CellFails(ctx, headers, row, k) then [CellError(ctx, headers, row, k)] else [])
  }

  lemma FailureIgnoresRecord(ctx: ImportContext, item: Record, column: int, header: Option<string>, cell: CellValue, rowNumber: int)
    ensures TryMapCell(ctx, item, column, header, cell, rowNumber).Failed?
            == TryMapCell(ctx, ctx.schema.initial, column, header, cell, rowNumber).Failed?
    ensures TryMapCell(ctx, item, column, header, cell, rowNumber).Failed? ==>
              TryMapCell(ctx, item, column, header, cell, rowNumber).error
              == TryMapCell(ctx, ctx.schema.initial, column, header, cell, rowNumber).error
  {
  }

  /**
   * The column loop never stops early: a row records exactly one error per
   * failing mapped cell, in column order, and is marked failed exactly when
   * one of its cells fails.
   */
  lemma {:induction false} RowErrorsAreFailingCells(ctx: ImportContext, headers: map<int, string>, row: Row, k: nat)
    ensures RowAfter(ctx, headers, row, k).errors == FailingErrors(ctx, headers, row, k)
    ensures RowAfter(ctx, headers, row, k).hasErrors <==> exists c :: 1 <= c <= k && CellFails(ctx, headers, row, c)
  {
    RowErrorsAccumulate(ctx, headers, row, k);
    if exists c :: 1 <= c <= k && CellFails(ctx, headers, row, c) {
      var c :| 1 <= c <= k && CellFails(ctx, headers, row, c);
      FailingCellIsReported(ctx, headers, row, c, k);
    } else {
      CleanColumnsReportNothing(ctx, headers, row, k);
    }
  }

  lemma {:induction false} RowErrorsAccumulate(ctx: ImportContext, headers: map<int, string>, row: Row, k: nat)
    ensures RowAfter(ctx, headers, row, k).errors == FailingErrors(ctx, headers, row, k)
    ensures RowAfter(ctx, headers, row, k).hasErrors == (FailingErrors(ctx, headers, row, k) != [])
    decreases k
  {
    if k > 0 {
      RowErrorsAccumulate(ctx, headers, row, k - 1);
      RowStepRecordsFailure(ctx, headers, row, RowAfter(ctx, headers, row, k - 1), k);
    }
  }

  /** A failing cell among columns 1..k has its error reported. */
  lemma {:induction false} FailingCellIsReported(ctx: ImportContext, headers: map<int, string>, row: Row, c: nat, k: nat)
    requires 1 <= c <= k && CellFails(ctx, headers, row, c)
    ensures CellError(ctx, headers, row, c) in FailingErrors(ctx, headers, row, k)
    decreases k
  {
    var before := FailingErrors(ctx, headers, row, k - 1);
    var added := if CellFails(ctx, headers, row, k) then [CellError(ctx, headers, row, k)] else [];
    assert FailingErrors(ctx, headers, row, k) == before + added;
    if c < k {
      FailingCellIsReported(ctx, headers, row, c, k - 1);
      assert CellError(ctx, headers, row, c) in before;
    } else {
      assert added == [CellError(ctx, headers, row, c)];
    }
  }

  /** When no cell among columns 1..k fails, no error is reported. */
  lemma {:induction false} CleanColumnsReportNothing(ctx: ImportContext, headers: map<int, string>, row: Row, k: nat)
    requires forall c :: 1 <= c <= k ==> !CellFails(ctx, headers, row, c)
    ensures FailingErrors(ctx, headers, row, k) == []
    decreases k
  {
    if k > 0 {
      CleanColumnsReportNothing(ctx, headers, row, k - 1);
    }
  }

  /** A column bound neither by its index nor by its header text is skipped: the row state does not change. */
  lemma UnboundColumnIsSkipped(ctx: ImportContext, headers: map<int, string>, row: Row, s: RowState, column: int)
    requires column !in ctx.mappings.byIndex
    requires column !in headers || headers[column] !in ctx.mappings.byName
    ensures RowStep(ctx, headers, row, s, column) == s
  {
  }

  /** One column step adds the cell's error exactly when the cell fails. */
  lemma RowStepRecordsFailure(ctx: ImportContext, headers: map<int, string>, row: Row, s: RowState, column: int)
    ensures RowStep(ctx, headers, row, s, column).errors
            == s.errors + (if CellFails(ctx, headers, row, column) then [CellError(ctx, headers, row, column)] else [])
    ensures RowStep(ctx, headers, row, s, column).hasErrors == (s.hasErrors || CellFails(ctx, headers, row, column))
  {
    FailureIgnoresRecord(ctx, s.item, column, HeaderAt(headers, column), CellAt(row.used, column), row.number);
  }

  /**
   * A row's outcome depends only on its row number, its cells in columns
   * 1..k and the header texts of those columns: cells and headers at higher
   * column numbers are never examined.
   */
  lemma {:induction false} OnlyExaminedColumnsMatter(ctx: ImportContext, h1: map<int, string>, h2: map<int, string>, r1: Row, r2: Row, k: nat)
    requires r1.number == r2.number
    requires forall c :: 1 <= c <= k ==> CellAt(r1.used, c) == CellAt(r2.used, c) && HeaderAt(h1, c) == HeaderAt(h2, c)
    ensures RowAfter(ctx, h1, r1, k) == RowAfter(ctx, h2, r2, k)
    decreases k
  {
    if k > 0 {
      OnlyExaminedColumnsMatter(ctx, h1, h2, r1, r2, k - 1);
    }
  }

  /** The property a column of the sheet is bound to, if any. */
  function BindingAt(ctx: ImportContext, headers: map<int, string>, column: int): Option<Property> {
    FindBinding(ctx.mappings, column, HeaderAt(headers, column))
  }

  predicate BoundTo(ctx: ImportContext, headers: map<int, string>, column: int, name: string) {
    BindingAt(ctx, headers, column).Some? && BindingAt(ctx, headers, column).value.name == name
  }

  /** The conversion of a bound cell to its property's type. */
  function ConvertedAt(ctx: ImportContext, headers: map<int, string>, row: Row, column: int): Result<Value, string>
    requires BindingAt(ctx, headers, column).Some?
  {
    ctx.convert(Some(CellAt(row.used, column)), BindingAt(ctx, headers, column).value.propertyType)
  }

  /** The column's cell is converted and assigned to the property with that name. */
  predicate AssignsAt(ctx: ImportContext, headers: map<int, string>, row: Row, column: int, name: string) {
    BoundTo(ctx, headers, column, name) && BindingAt(ctx, headers, column).value.settable &&
    ConvertedAt(ctx, headers, row, column).Success?
  }

  /** A bound cell fails exactly when its conversion fails or its property has no setter. */
  lemma CellFailsExactly(ctx: ImportContext, headers: map<int, string>, row: Row, column: int)
    ensures CellFails(ctx, headers, row, column) <==>
              BindingAt(ctx, headers, column).Some? &&
              (ConvertedAt(ctx, headers, row, column).Failure? || !BindingAt(ctx, headers, column).value.settable)
  {
  }

  /** One column step assigns the named property, or leaves it as it was. */
  lemma RowStepAssigns(ctx: ImportContext, headers: map<int, string>, row: Row, s: RowState, column: int, name: string)
    ensures var item := RowStep(ctx, headers, row, s, column).item;
      && (AssignsAt(ctx, headers, row, column, name) ==>
            name in item && item[name] == ConvertedAt(ctx, headers, row, column).value)
      && (!AssignsAt(ctx, headers, row, column, name) ==>
            (name in item <==> name in s.item) && (name in s.item ==> item[name] == s.item[name]))
  {
  }

  /** Column j is the last of columns 1..k to assign the named property. */
  predicate LastAssigner(ctx: ImportContext, headers: map<int, string>, row: Row, k: nat, j: int, name: string) {
    1 <= j <= k && AssignsAt(ctx, headers, row, j, name) &&
    forall i :: j < i <= k ==> !AssignsAt(ctx, headers, row, i, name)
  }

  /** Column j is the last of columns 1..k bound to the named property. */
  predicate LastBound(ctx: ImportContext, headers: map<int, string>, k: nat, j: int, name: string) {
    1 <= j <= k && BoundTo(ctx, headers, j, name) &&
    forall i :: j < i <= k ==> !BoundTo(ctx, headers, i, name)
  }

  /** The record holds the same value for the name as the given record, or lacks it as that one does. */
  predicate SameAt(item: Record, other: Record, name: string) {
    (name in item <==> name in other) && (name in other ==> item[name] == other[name])
  }

  /**
   * After columns 1..k, a property holds the converted cell of the last
   * column that assigned it, or its value in the fresh record when no
   * column did.
   */
  lemma {:induction false} RecordHoldsLastAssignment(ctx: ImportContext, headers: map<int, string>, row: Row, k: nat, name: string)
    ensures (forall j :: 1 <= j <= k ==> !AssignsAt(ctx, headers, row, j, name)) ==>
              SameAt(RowAfter(ctx, headers, row, k).item, ctx.schema.initial, name)
    ensures forall j :: LastAssigner(ctx, headers, row, k, j, name) ==>
              var item := RowAfter(ctx, headers, row, k).item;
              name in item && item[name] == ConvertedAt(ctx, headers, row, j).value
    decreases k
  {
    if k > 0 {
      var prev := RowAfter(ctx, headers, row, k - 1);
      assert RowAfter(ctx, headers, row, k) == RowStep(ctx, headers, row, prev, k);
      RecordHoldsLastAssignment(ctx, headers, row, k - 1, name);
      RowStepAssigns(ctx, headers, row, prev, k, name);
      LastAssignmentStep(ctx, headers, row, k, name, prev.item, RowAfter(ctx, headers, row, k).item);
    }
  }

  /** The record after columns 1..k holds what the last column assigning the name put there. */
  ghost predicate HoldsLastAssignment(ctx: ImportContext, headers: map<int, string>, row: Row, k: nat, name: string, item: Record) {
    && ((forall j :: 1 <= j <= k ==> !AssignsAt(ctx, headers, row, j, name)) ==> SameAt(item, ctx.schema.initial, name))
    && (forall j :: LastAssigner(ctx, headers, row, k, j, name) ==>
          name in item && item[name] == ConvertedAt(ctx, headers, row, j).value)
  }

  /** Column k either assigns the name, so it is now the last assigner, or keeps the record's value for it. */
  lemma LastAssignmentStep(ctx: ImportContext, headers: map<int, string>, row: Row, k: nat, name: string, prev: Record, item: Record)
    requires k > 0 && HoldsLastAssignment(ctx, headers, row, k - 1, name, prev)
    requires AssignsAt(ctx, headers, row, k, name) ==> name in item && item[name] == ConvertedAt(ctx, headers, row, k).value
    requires !AssignsAt(ctx, headers, row, k, name) ==> SameAt(item, prev, name)
    ensures HoldsLastAssignment(ctx, headers, row, k, name, item)
  {
    if AssignsAt(ctx, headers, row, k, name) {
      forall j | LastAssigner(ctx, headers, row, k, j, name)
        ensures name in item && item[name] == ConvertedAt(ctx, headers, row, j).value
      {
        assert j == k;
      }
    } else {
      forall j | LastAssigner(ctx, headers, row, k, j, name)
        ensures name in item && item[name] == ConvertedAt(ctx, headers, row, j).value
      {
        assert LastAssigner(ctx, headers, row, k - 1, j, name);
      }
    }
  }

  /**
   * The record of a clean row: a property holds the converted cell of the
   * last column among 1..k bound to it, and a property no column is bound to
   * keeps its value in the fresh record.
   */
  lemma CleanRowRecord(ctx: ImportContext, headers: map<int, string>, row: Row, k: nat, name: string)
    requires !RowAfter(ctx, headers, row, k).hasErrors
    ensures (forall j :: 1 <= j <= k ==> !BoundTo(ctx, headers, j, name)) ==>
              SameAt(RowAfter(ctx, headers, row, k).item, ctx.schema.initial, name)
    ensures forall j :: LastBound(ctx, headers, k, j, name) ==>
              var item := RowAfter(ctx, headers, row, k).item;
              name in item && ConvertedAt(ctx, headers, row, j).Success? && item[name] == ConvertedAt(ctx, headers, row, j).value
  {
    RecordHoldsLastAssignment(ctx, headers, row, k, name);
    forall j | LastBound(ctx, headers, k, j, name)
      ensures LastAssigner(ctx, headers, row, k, j, name)
    {
      CleanRowAssignsBoundCell(ctx, headers, row, k, j);
    }
  }

  /** In a clean row every bound cell among columns 1..k converts, and its property has a setter. */
  lemma CleanRowAssignsBoundCell(ctx: ImportContext, headers: map<int, string>, row: Row, k: nat, j: int)
    requires !RowAfter(ctx, headers, row, k).hasErrors
    requires 1 <= j <= k && BindingAt(ctx, headers, j).Some?
    ensures AssignsAt(ctx, headers, row, j, BindingAt(ctx, headers, j).value.name)
  {
    RowErrorsAreFailingCells(ctx, headers, row, k);
    assert !CellFails(ctx, headers, row, j);
    CellFailsExactly(ctx, headers, row, j);
  }

  /** How many of the first k rows end without a failing cell. */
  function CountClean(states: seq<RowState>, k: nat): nat
    requires k <= |states|
    decreases k
  {
    if k == 0 then 0 else CountClean(states, k - 1) + (if states[k - 1].hasErrors then 0 else 1)
  }

  /** How many errors the first k rows report in all. */
  function ErrorCount(states: seq<RowState>, k: nat): nat
    requires k <= |states|
    decreases k
  {
    if k == 0 then 0 else ErrorCount(states, k - 1) + |states[k - 1].errors|
  }

  /**
   * Row i lands where it should: if it is clean its record follows the
   * records of the clean rows before it, and its errors (clean or not)
   * follow the errors of the rows before it.
   */
  ghost predicate RowPlaced(states: seq<RowState>, out: Imported, i: nat)
    requires i < |states|
  {
    var s := states[i];
    var at := CountClean(states, i);
    var e := ErrorCount(states, i);
    && (!s.hasErrors ==> at < |out.records| && out.records[at] == s.item)
    && e + |s.errors| <= |out.errors| && out.errors[e..e + |s.errors|] == s.errors
  }

  /**
   * After k rows the records are exactly the clean rows' records, in row
   * order; every row's errors are reported, dropped rows included, and
   * nothing else is.
   */
  lemma {:induction false} GatherKeepsCleanRowsInOrder(states: seq<RowState>, k: nat)
    requires k <= |states|
    ensures |Gather(states, k).records| == CountClean(states, k)
    ensures |Gather(states, k).errors| == ErrorCount(states, k)
    ensures forall i :: 0 <= i < k ==> RowPlaced(states, Gather(states, k), i)
    decreases k
  {
    if k > 0 {
      GatherKeepsCleanRowsInOrder(states, k - 1);
      forall i | 0 <= i < k ensures RowPlaced(states, Gather(states, k), i) {
        if i < k - 1 {
          EarlierRowStaysPlaced(states, k, i);
        } else {
          LastRowPlaced(states, k);
        }
      }
    }
  }

  /** Gathering one more row only appends: an earlier row keeps its place. */
  lemma EarlierRowStaysPlaced(states: seq<RowState>, k: nat, i: nat)
    requires i < k - 1 && k <= |states|
    requires RowPlaced(states, Gather(states, k - 1), i)
    ensures RowPlaced(states, Gather(states, k), i)
  {
    var before := Gather(states, k - 1);
    var out := Gather(states, k);
    var e := ErrorCount(states, i);
    var m := |states[i].errors|;
    SliceOfPrefix(before.errors, states[k - 1].errors, e, e + m);
  }

  /** The k-th row's record and errors go right after those of the rows before it. */
  lemma LastRowPlaced(states: seq<RowState>, k: nat)
    requires 0 < k <= |states|
    requires |Gather(states, k - 1).records| == CountClean(states, k - 1)
    requires |Gather(states, k - 1).errors| == ErrorCount(states, k - 1)
    ensures RowPlaced(states, Gather(states, k), k - 1)
  {
    var prev := Gather(states, k - 1);
    var out := Gather(states, k);
    assert out.errors[|prev.errors|..] == states[k - 1].errors;
  }

  /**
   * For the data rows of a sheet: the imported records are exactly the
   * records of the rows none of whose cells failed, in sheet order, and the
   * errors are every row's errors, row after row.
   */
  lemma ImportKeepsCleanRowsInOrder(ctx: ImportContext, headers: map<int, string>, rows: seq<Row>)
    ensures var states := RowStates(ctx, headers, rows);
      && |ImportRows(ctx, headers, rows).records| == CountClean(states, |rows|)
      && |ImportRows(ctx, headers, rows).errors| == ErrorCount(states, |rows|)
      && forall i :: 0 <= i < |rows| ==>
           states[i] == RowAfter(ctx, headers, rows[i], |headers|) && RowPlaced(states, ImportRows(ctx, headers, rows), i)
  {
    GatherKeepsCleanRowsInOrder(RowStates(ctx, headers, rows), |rows|);
  }

  lemma SliceOfPrefix<T>(a: seq<T>, b: seq<T>, lo: nat, hi: nat)
    requires lo <= hi <= |a|
    ensures (a + b)[lo..hi] == a[lo..hi]
  {
    assert forall k :: lo <= k < hi ==> (a + b)[k] == a[k];
  }

  /**
   * The body of ToList's row loop: a fresh record, then columns 1 to the
   * header count, each mapped in turn; the errors of the row in column order.
   */
  method ImportRow(ctx: ImportContext, headers: map<int, string>, row: Row) returns (s: RowState)
    ensures s == RowAfter(ctx, headers, row, |headers|)
  {
    var item := ctx.schema.initial;
    var errors: seq<ImportError> := [];
    var hasErrors := false;
    var col := 1;
    while col <= |headers|
      invariant 1 <= col <= |headers| + 1
      invariant RowState(item, errors, hasErrors) == RowAfter(ctx, headers, row, col - 1)
    {
      var header := if col in headers then Some(headers[col]) else None;
      var outcome := TryMapCell(ctx, item, col, header, CellAt(row.used, col), row.number);
      match outcome {
        case Unmapped =>
        case Assigned(updated) =>
          item := updated;
        case Failed(e) =>
          errors := errors + [e];
          hasErrors := true;
      }
      col := col + 1;
    }
    s := RowState(item, errors, hasErrors);
  }

  // ---------------------------------------------------------------------
  // The service

  class ImporterService {
    const stream: Workbook
    const schema: Schema
    const lib: Library
    var settings: ImporterSettings
    var columnMappings: map<string, Property>
    var indexMappings: map<int, Property>

    /** The settings are the defaults as `configure` leaves them; both binding tables start empty. */
    constructor(stream: Workbook, schema: Schema, lib: Library, configure: ImporterSettings -> ImporterSettings)
      ensures this.stream == stream && this.schema == schema && this.lib == lib
      ensures settings == configure(DefaultSettings)
      ensures columnMappings == map[] && indexMappings == map[]
    {
      this.stream := stream;
      this.schema := schema;
      this.lib := lib;
      settings := configure(DefaultSettings);
      columnMappings := map[];
      indexMappings := map[];
    }

    function Context(): ImportContext
      reads this
    {
      ImportContext(lib, settings, Mappings(columnMappings, indexMappings), schema, ConverterOf(lib, settings.dateFormat))
    }

    /**
     * MapColumn(selector, columnName): binds the header text (the property's
     * own name when none is given) to the property, replacing any earlier
     * binding of that text.  A selector that is not a property throws.
     */
    method MapColumn(selector: Selector, columnName: Option<string>) returns (r: Outcome<string>)
      modifies this`columnMappings
      ensures var info := GetPropertyInfo(schema, selector);
        if info.Success? && info.value.Some? then
          r == Pass && columnMappings == old(columnMappings)[columnName.GetOr(info.value.value.name) := info.value.value]
        else
          r == Fail(PropertyMessage) && columnMappings == old(columnMappings)
    {
      var info := GetPropertyInfo(schema, selector);
      if info.Failure? {
        return Fail(info.error);
      }
      if info.value.None? {
        return Fail(PropertyMessage);
      }
      var property := info.value.value;
      columnMappings := columnMappings[columnName.GetOr(property.name) := property];
      r := Pass;
    }

    /**
     * MapColumn(selector, columnIndex): binds the column index to the
     * property, replacing any earlier binding of that index.
     */
    method MapColumnAt(selector: Selector, columnIndex: int) returns (r: Outcome<string>)
      modifies this`indexMappings
      ensures var info := GetPropertyInfo(schema, selector);
        if info.Success? && info.value.Some? then
          r == Pass && indexMappings == old(indexMappings)[columnIndex := info.value.value]
        else
          r == Fail(PropertyMessage) && indexMappings == old(indexMappings)
    {
      var info := GetPropertyInfo(schema, selector);
      if info.Failure? {
        return Fail(info.error);
      }
      if info.value.None? {
        return Fail(PropertyMessage);
      }
      indexMappings := indexMappings[columnIndex := info.value.value];
      r := Pass;
    }

    /** GetHeaders: fills the header dictionary from the header row's used cells. */
    method GetHeaders(headerRow: Row) returns (headers: map<int, string>)
      ensures headers == HeadersOf(lib, headerRow.used)
    {
      headers := map[];
      var i := 0;
      while i < |headerRow.used|
        invariant 0 <= i <= |headerRow.used|
        invariant headers == HeadersOf(lib, headerRow.used[..i])
      {
        var cell := headerRow.used[i];
        assert headerRow.used[..i + 1][..i] == headerRow.used[..i];
        headers := headers[cell.column := CellText(lib, cell.value)];
        i := i + 1;
      }
      assert headerRow.used[..i] == headerRow.used;
    }

    /** ToList(out errors): the records of the clean data rows and the errors of all of them. */
    method ToListWithErrors() returns (r: Result<Imported, ImportFault>)
      ensures r == Import(Context(), stream)
    {
      var name := settings.sheetName;
      if name !in stream {
        return Failure(MissingSheet(name));
      }
      var rows := stream[name].rows;
      if rows == [] {
        return Success(Imported([], []));
      }
      var headers := GetHeaders(rows[0]);
      var dataRows := rows[1..];
      var ctx := Context();
      var result: seq<Record> := [];
      var errors: seq<ImportError> := [];
      ghost var states := RowStates(ctx, headers, dataRows);
      var i := 0;
      while i < |dataRows|
        invariant 0 <= i <= |dataRows|
        invariant Imported(result, errors) == Gather(states, i)
      {
        var rowState := ImportRow(ctx, headers, dataRows[i]);
        assert rowState == states[i];
        errors := errors + rowState.errors;
        if !rowState.hasErrors {
          result := result + [rowState.item];
        }
        i := i + 1;
      }
      r := Success(Imported(result, errors));
    }

    /** ToList(): the same import with the errors discarded. */
    method ToList() returns (r: Result<seq<Record>, ImportFault>)
      ensures var full := Import(Context(), stream);
        r == if full.Success? then Success(full.value.records) else Failure(full.error)
    {
      var full := ToListWithErrors();
      r := if full.Success? then Success(full.value.records) else Failure(full.error);
    }
  }
}
