# ExcelFluently import/export and the FluentValidation request interceptor, in Dafny

This project models three pieces of the `packages-nuget` repository and proves properties about them:

- **`ExcelImporterService<T>`** (module `Importer`, file `importer.dfy`) turns the used rows of one worksheet into records:
  - it reads a header map from the first used row;
  - it finds each column's binding by index first, then by header text;
  - it converts each bound cell to the property's type and assigns it;
  - it drops every row in which a cell fails, while keeping one `ImportError` per failing cell.

  The service is a class whose binding tables are `map` fields updated by `MapColumn`. `ToList` is a method with a nested row/column loop. It is proved equal to the pure specification `Import`, and the lemmas are stated about that specification.
- **`ExcelExporterService<T>`** (module `Exporter`, file `exporter.dfy`) writes records into a worksheet:
  - it writes a header row, then one row per record, either in auto mode (one column per public property) or in custom mode (one column per `WithColumn`);
  - it places the title block and the styled table range.

  The worksheet is a class whose cells are a `map<(int, int), Option<string>>`. The loops that write cells are proved to paint exactly the expected layout and to change nothing else.
- **`ValidationMiddleware`** (module `Validation`, file `validation.dfy`) handles POST, PUT and PATCH requests routed to a `[FromBody]` parameter:
  - it reads and deserializes the body, then runs the registered validator;
  - it either answers 400 with a problem document or forwards the request with the body stream rewound;
  - an exception thrown while reading, deserializing, validating, grouping or writing the 400 response makes it fail open, and the request is forwarded;
  - an exception of the next delegate on a pass-through path is caught like any other, so the delegate is called a second time;
  - an exception of that second call, or of the next delegate on a request that is not validated, propagates to the caller.

  The decision is the pure function `Decide`. The middleware's methods act on an `HttpContext` class, and their contracts tie the new request and response state to that decision.

Shared definitions live in three more files:

- `values.dfy`: cell values, property values, `String.Trim`, and Int32 parsing and formatting;
- `records.dfy`: the property table, records as maps, and lambda selectors;
- `wrappers.dfy`: `Option`, `Result` and `Outcome`.

Behaviour defined by .NET or ClosedXML outside this code is passed in as the function fields of a `Library` value. That covers culture-dependent text, exact date parsing, `Convert.ToDecimal`, `Convert.ToBoolean` and `Convert.ChangeType`.

## Model

| member | source | states |
|---|---|---|
| Importer.ImporterService.constructor | ExcelFluently/ExcelFluently/Services/ExcelImporterService.cs:16-24 | The settings are the defaults (`"yyyy/mm/dd"`, `"Sheet1"`) as `configure` leaves them, and both binding tables start empty. |
| Importer.ImporterService.MapColumn | ExcelFluently/ExcelFluently/Services/ExcelImporterService.cs:26-38 | A property selector binds the header text to the property. The text defaults to the property's own name, and the new binding overwrites any earlier one for that text. Any other selector throws "Expression must be a property" and leaves the table unchanged. |
| Importer.ImporterService.MapColumnAt | ExcelFluently/ExcelFluently/Services/ExcelImporterService.cs:40-52 | A property selector binds the column index, overwriting any earlier binding of that index. Any other selector throws and leaves the table unchanged. |
| Importer.GetPropertyInfo | ExcelFluently/ExcelFluently/Services/ExcelImporterService.cs:193-200 | It succeeds exactly for a bare member access. It then yields the public property of that name, or null when `T` has none. Any other lambda body fails with "Expression must be a property". |
| Records.FindProperty | ExcelFluently/ExcelFluently/Services/ExcelImporterService.cs:199 | The property found belongs to the type and has the requested name. No result means that no property has that name. |
| Importer.FindBinding | ExcelFluently/ExcelFluently/Services/ExcelImporterService.cs:111-115 | An index binding takes precedence over a name binding. A name binding applies only to a column that has header text. There is no binding exactly when neither table has an entry. |
| Importer.UnboundColumnIsSkipped | ExcelFluently/ExcelFluently/Services/ExcelImporterService.cs:111-139 | A column with neither binding is skipped: no error is recorded and the record does not change. |
| Importer.CellError | ExcelFluently/ExcelFluently/Services/ExcelImporterService.cs:125-134 | A failing cell's error carries the cell's row number, its header text (or `"Columna <index>"` when there is none) and the raw cell value. Its message is the conversion's message. When the conversion succeeds but the property has no setter, the message is `"Property set method not found."`. |
| Importer.CellFailsExactly | ExcelFluently/ExcelFluently/Services/ExcelImporterService.cs:117-135 | A mapped cell fails exactly when its conversion fails or its property has no setter. |
| Importer.RowStepAssigns | ExcelFluently/ExcelFluently/Services/ExcelImporterService.cs:117-123 | One column step sets a property exactly when the column is bound to it, the cell converts and the property has a setter; it then holds the converted value. Every other property is left as it was. |
| Importer.ConvertToDateTime | ExcelFluently/ExcelFluently/Services/ExcelImporterService.cs:175-191 | A native date passes through unchanged. Any other value is read as its text: text that parses against the configured format yields the parsed date, and text that does not parse silently becomes `DateTime.MinValue`. |
| Importer.ConvertValue | ExcelFluently/ExcelFluently/Services/ExcelImporterService.cs:152-173 | A null value stays null, and a string target gets the untrimmed cell text. A date target never fails and yields exactly `ConvertToDateTime`'s date. An int target that succeeds yields an Int32. |
| Importer.NumericConversionIsTrimmedParse | ExcelFluently/ExcelFluently/Services/ExcelImporterService.cs:160-164 | An int or decimal target parses the trimmed cell text. The conversion fails exactly when that parse fails, carrying the parser's message, and otherwise yields the parsed number. |
| Importer.UnparseableIntCellFails | ExcelFluently/ExcelFluently/Services/ExcelImporterService.cs:160-161 | A cell whose trimmed text is not an int fails with the format message, such as `"1a"` or `""`. Well-formed text out of the Int32 range fails with the overflow message. |
| Importer.NumericTargetsIgnorePadding | ExcelFluently/ExcelFluently/Services/ExcelImporterService.cs:160-164 | For int and decimal targets, white space around the cell text does not change the conversion's result. |
| Values.TrimIgnoresPadding | ExcelFluently/ExcelFluently/Services/ExcelImporterService.cs:161-164 | Trimming a string padded with white space on both sides gives the same text as trimming the string alone. |
| Importer.IntCellsReadBack | ExcelFluently/ExcelFluently/Services/ExcelImporterService.cs:160-161 | Any Int32 written as text with white space of any kind around it converts back to that same number: int targets are trimmed before parsing. |
| Values.TrimRemovesPadding | ExcelFluently/ExcelFluently/Services/ExcelImporterService.cs:161 | `Trim` removes exactly the white space around a string that has none at its ends. |
| Values.ParseFormatsRoundTrip | ExcelFluently/ExcelFluently/Services/ExcelImporterService.cs:161 | Parsing the decimal text of any Int32 gives the same number back. |
| Values.ParseInt32 | ExcelFluently/ExcelFluently/Services/ExcelImporterService.cs:161 | It succeeds exactly when the text is an optional `+` or `-` followed by one or more ASCII digits and denotes a value in the Int32 range; the result is that value. Malformed text fails with the format message, and well-formed text out of range fails with the overflow message. |
| Values.ParseInt32Examples | ExcelFluently/ExcelFluently/Services/ExcelImporterService.cs:161 | `"1a"`, `"-"` and `""` fail with the format message; `"+7"` gives 7 and `"-42"` gives -42. |
| Importer.ImporterService.GetHeaders | ExcelFluently/ExcelFluently/Services/ExcelImporterService.cs:142-150 | The dictionary filled by the loop equals the header map `HeadersOf` of the row's used cells. |
| Importer.HeadersCoverUsedColumns | ExcelFluently/ExcelFluently/Services/ExcelImporterService.cs:142-150 | The header map has a key for exactly those columns that hold a used header cell. Each key's text is that of the last used cell in its column. |
| Importer.ImportRow | ExcelFluently/ExcelFluently/Services/ExcelImporterService.cs:77-91 | The column loop over a fresh record and columns `1..headers.Count` ends in the row's specified state `RowAfter`. |
| Importer.RowErrorsAreFailingCells | ExcelFluently/ExcelFluently/Services/ExcelImporterService.cs:80-91 | The column loop never stops early. A row records exactly one error per failing mapped cell, in column order, and it is marked failed exactly when at least one cell fails. |
| Importer.RecordHoldsLastAssignment | ExcelFluently/ExcelFluently/Services/ExcelImporterService.cs:80-91 | After columns `1..k`, a property that no column assigned keeps its initial value. Otherwise it holds the converted value of the last column that assigned it. |
| Importer.CleanRowRecord | ExcelFluently/ExcelFluently/Services/ExcelImporterService.cs:77-94 | In a row with no error, a property bound to no column keeps its value from `new T()`. A bound property holds the converted value of its last bound column, and that conversion succeeded. |
| Importer.CleanRowAssignsBoundCell | ExcelFluently/ExcelFluently/Services/ExcelImporterService.cs:80-91 | In a row with no error, every bound column assigns its property. |
| Importer.OnlyExaminedColumnsMatter | ExcelFluently/ExcelFluently/Services/ExcelImporterService.cs:80-83 | A row's outcome depends only on its row number and on the cells and header texts of columns `1..k`. Header cells at higher column numbers are never examined. |
| Importer.GatherKeepsCleanRowsInOrder | ExcelFluently/ExcelFluently/Services/ExcelImporterService.cs:75-95 | After any number of rows, the records are exactly those of the rows with no failing cell, in row order. The errors are every row's errors, row after row, including those of dropped rows. |
| Importer.ImportKeepsCleanRowsInOrder | ExcelFluently/ExcelFluently/Services/ExcelImporterService.cs:72-95 | For the data rows, meaning every used row after the header row: each row is mapped over columns `1..headers.Count`. Only clean rows' records are returned, in sheet order, and every row's errors are reported in order. |
| Importer.NoDataRowsImportNothing | ExcelFluently/ExcelFluently/Services/ExcelImporterService.cs:61-73 | A sheet with no used row, or with only a header row, imports no record and reports no error. |
| Importer.ImporterService.ToListWithErrors | ExcelFluently/ExcelFluently/Services/ExcelImporterService.cs:59-99 | The row loop returns the specified import `Import` of the configured sheet. A missing sheet is the fault that escapes. |
| Importer.ImporterService.ToList | ExcelFluently/ExcelFluently/Services/ExcelImporterService.cs:54-57 | It returns the same records as `ToList(out errors)`, with the errors discarded. |
| Exporter.ExporterService.constructor | ExcelFluently/ExcelFluently/Services/ExcelExporterService.cs:12-21 | A new service is in auto mode, has no custom column and uses the default table settings, which have no sheet name and no title. |
| Exporter.ExporterService.WithColumn | ExcelFluently/ExcelFluently/Services/ExcelExporterService.cs:23-48 | Auto mode is switched off even when the call then throws for a bare member-access selector. Otherwise the column is appended, in registration order with no deduplication. Its header is `columnName`, or `""` when that is omitted. |
| Exporter.ExporterService.ApplyTableSettings | ExcelFluently/ExcelFluently/Services/ExcelExporterService.cs:197-200 | The settings object is replaced as a whole. |
| Exporter.ExporterService.WithTableStyle | ExcelFluently/ExcelFluently/Extensions/TableStyleExtensions.cs:13-16 | The settings become a fresh default settings object as configured, not the current settings modified. |
| Exporter.ExporterService.GetStartRow | ExcelFluently/ExcelFluently/Services/ExcelExporterService.cs:192-195 | The header row is row 1 exactly when the title is null or empty, and row `_titleRowHeight + 2 = 5` otherwise. |
| Exporter.ExporterService.GetDataColumnCount | ExcelFluently/ExcelFluently/Services/ExcelExporterService.cs:184-190 | In custom mode it is the number of registered columns. In auto mode it is at least the number of public instance properties. |
| Exporter.AutoHeader | ExcelFluently/ExcelFluently/Services/ExcelExporterService.cs:78-87 | The auto-mode header holds the public instance property names, one per column, in declaration order. |
| Exporter.CustomHeader | ExcelFluently/ExcelFluently/Services/ExcelExporterService.cs:107-110 | The custom-mode header holds the registered column names, one per column, in registration order. |
| Exporter.RenderAutoCell | ExcelFluently/ExcelFluently/Services/ExcelExporterService.cs:95 | A null property value gives a null cell, and no other value does. A string is written as is, an integer as its decimal text, and a date as its default text: an auto-mode cell is never formatted. |
| Exporter.RenderCustomCell | ExcelFluently/ExcelFluently/Services/ExcelExporterService.cs:118-126 | A date value in a column with a format is written in that format. A non-date value, or any value in a column without a format, is written as `value?.ToString()`. The cell is null exactly when the selected value is null. |
| Exporter.FormatAppliesOnlyToDates | ExcelFluently/ExcelFluently/Services/ExcelExporterService.cs:118-126 | A column format changes only date cells: every other value is written exactly as in a column without a format. |
| Exporter.UnformattedColumnMatchesAuto | ExcelFluently/ExcelFluently/Services/ExcelExporterService.cs:93-126 | A custom column that selects a property and has no format writes the same cell as auto mode writes for that property. |
| Exporter.ExporterService.AddAutoRow | ExcelFluently/ExcelFluently/Services/ExcelExporterService.cs:93-98 | One auto-mode data row is painted over columns `1..n`, from left to right. |
| Exporter.ExporterService.AddCustomRow | ExcelFluently/ExcelFluently/Services/ExcelExporterService.cs:115-129 | One custom-mode data row is painted over columns `1..n`, from left to right. |
| Exporter.ExporterService.AddAutoColumns | ExcelFluently/ExcelFluently/Services/ExcelExporterService.cs:76-101 | The sheet becomes the input sheet with the auto header painted in the start row, then each record's row painted below it in input order. |
| Exporter.ExporterService.AddCustomColumns | ExcelFluently/ExcelFluently/Services/ExcelExporterService.cs:103-132 | The sheet becomes the input sheet with the custom header painted in the start row, then each record's row painted below it in input order. |
| Exporter.PaintIsLayout | ExcelFluently/ExcelFluently/Services/ExcelExporterService.cs:82-99 | After painting, the header fills row `start`, columns `1..n`. Item k fills row `start + 1 + k`, columns `1..n`. No other cell changes. |
| Exporter.ExporterService.ApplyTitle | ExcelFluently/ExcelFluently/Services/ExcelExporterService.cs:164-170 | The title range is rows `1.._titleRowHeight` by columns `1..GetDataColumnCount()`. Every cell of that range holds the title, and no cell outside it changes. |
| Exporter.Worksheet.LastRowUsed | ExcelFluently/ExcelFluently/Services/ExcelExporterService.cs:144 | It returns the highest row that holds a value, or null exactly when no cell holds one. |
| Exporter.Worksheet.LastColumnUsed | ExcelFluently/ExcelFluently/Services/ExcelExporterService.cs:145 | It returns the highest column that holds a value, or null exactly when no cell holds one. |
| Exporter.LastUsedIsUnique | ExcelFluently/ExcelFluently/Services/ExcelExporterService.cs:144-148 | The last used row and column are unique, so the `lastRow > 1 && lastColumn > 0` test depends only on the sheet's contents. |
| Exporter.ExporterService.ApplyTableStyle | ExcelFluently/ExcelFluently/Services/ExcelExporterService.cs:134-162 | A non-empty title places the title block. The theme `None` places no table. Otherwise the table range runs from `(start, 1)` to the last used row and column, and it is created only when those exceed 1 and 0. |
| Exporter.LastUsedOfLayout | ExcelFluently/ExcelFluently/Services/ExcelExporterService.cs:144-148 | On an untitled export with n > 0 columns, the last used column is n. With no data the last used row is 1, so no table is created. Otherwise it is the last data row when that row holds a value. |
| Exporter.TitleKeepsLayout | ExcelFluently/ExcelFluently/Services/ExcelExporterService.cs:164-170 | The title block lies above the start row, so it never overwrites the header or data cells. The sheet holds nothing outside the layout and the title. |
| Exporter.ExporterService.ToBytes | ExcelFluently/ExcelFluently/Services/ExcelExporterService.cs:50-63 | The sheet is named after the settings, or `"Sheet1"`. It holds the active mode's header and rows, plus the title block when there is a title, and nothing else. The table range follows the theme and the last used cells. |
| Validation.ShouldValidateRequest | FluentValidationInterceptor/FluentValidationInterceptor/Middlewares/ValidationMiddleware.cs:115-120 | A request is validated exactly when its method, in upper case, is POST, PUT or PATCH. |
| Validation.ShouldValidateIgnoresCase | FluentValidationInterceptor/FluentValidationInterceptor/Middlewares/ValidationMiddleware.cs:115-120 | Two methods that differ only in letter case get the same answer. |
| Validation.ShouldValidateExamples | FluentValidationInterceptor/FluentValidationInterceptor/Middlewares/ValidationMiddleware.cs:115-120 | `post`, `Put` and `PATCH` are validated. `GET`, `DELETE` and `POSTS` are not. |
| Validation.FirstFromBody | FluentValidationInterceptor/FluentValidationInterceptor/Middlewares/ValidationMiddleware.cs:151-153 | It returns the first `[FromBody]` parameter, or none exactly when no parameter carries the attribute. |
| Validation.GetValidationTargetType | FluentValidationInterceptor/FluentValidationInterceptor/Middlewares/ValidationMiddleware.cs:140-156 | The target is the type of the first `[FromBody]` parameter. There is none exactly when the endpoint, its action descriptor or such a parameter is missing. |
| Validation.GroupByKeys | FluentValidationInterceptor/FluentValidationInterceptor/Middlewares/ValidationMiddleware.cs:163-164 | Grouping opens exactly one group per distinct property name. |
| Validation.GroupByMessages | FluentValidationInterceptor/FluentValidationInterceptor/Middlewares/ValidationMiddleware.cs:163-165 | Each group holds exactly the messages of the failures with its property name, in their original order. |
| Validation.GroupByKeepsEveryMessage | FluentValidationInterceptor/FluentValidationInterceptor/Middlewares/ValidationMiddleware.cs:163-165 | The groups hold as many messages in all as there are failures. |
| Validation.ToDictionary | FluentValidationInterceptor/FluentValidationInterceptor/Middlewares/ValidationMiddleware.cs:165 | On success there is one entry per group, in group order, keyed by the group's non-null key. On failure it carries the null-key or the duplicate-key message. |
| Validation.ToDictionaryFailsOnNullKeyOnly | FluentValidationInterceptor/FluentValidationInterceptor/Middlewares/ValidationMiddleware.cs:165 | On groups with distinct keys, the dictionary is built exactly when no key is null. |
| Validation.GroupedFailuresConvert | FluentValidationInterceptor/FluentValidationInterceptor/Middlewares/ValidationMiddleware.cs:163-165 | The errors dictionary of a validation result exists exactly when every failure names a property. |
| Validation.RejectsExactlyInvalidModels | FluentValidationInterceptor/FluentValidationInterceptor/Middlewares/ValidationMiddleware.cs:28-112 | A request is rejected exactly when all of these hold: its method is validated, it has a `[FromBody]` target, its body reads as non-empty text, the text deserializes to a model, a validator is registered for the type, and that validator reports failures that all name a property. The errors are then those failures grouped by property name. Every other request is forwarded. |
| Validation.ValidationMiddleware.ReadRequestBodyAsync | FluentValidationInterceptor/FluentValidationInterceptor/Middlewares/ValidationMiddleware.cs:122-132 | It returns the whole body and leaves the stream position as it found it. A read that throws leaves the position where the read stopped (`readStop`), after rewinding to 0 first. |
| Validation.ValidationMiddleware.HandleValidationFailure | FluentValidationInterceptor/FluentValidationInterceptor/Middlewares/ValidationMiddleware.cs:158-180 | When grouping throws, nothing is set. Otherwise it sets status 400 and `application/json`, then writes one problem document with the grouped errors and the request path, unless the write throws. |
| Validation.ValidationMiddleware.TryValidate | FluentValidationInterceptor/FluentValidationInterceptor/Middlewares/ValidationMiddleware.cs:59-106 | An exception from reading, deserializing, validating or grouping escapes with nothing forwarded. The pass-through cases (empty body, null model, no validator, valid model) restore the position and call the next delegate once. An invalid model answers 400 without calling it. |
| Validation.ValidationMiddleware.ValidateRequest | FluentValidationInterceptor/FluentValidationInterceptor/Middlewares/ValidationMiddleware.cs:51-113 | Every forwarded decision calls the next delegate with the body rewound to the position on entry, twice when that delegate throws on a pass-through path, and returns that delegate's outcome. A rejection sets 400 and `application/json`, writes the problem document and does not forward, unless the write throws, in which case the request is forwarded once. The middleware itself writes nothing else and leaves the position as on entry. |
| Validation.ValidationMiddleware.InvokeAsync | FluentValidationInterceptor/FluentValidationInterceptor/Middlewares/ValidationMiddleware.cs:28-49 | Unvalidated methods and requests with no `[FromBody]` target go straight to the next delegate. For every other request, the middleware's own response writes and the body positions the next delegate sees follow the decision `Decide`, as in `ValidateRequest`. |
| Validation.ValidationMiddleware.Next | FluentValidationInterceptor/FluentValidationInterceptor/Middlewares/ValidationMiddleware.cs:32 | Calling the next delegate records the body position it sees and yields that delegate's outcome. |

## Left out

- Workbook I/O:
  - The ClosedXML calls (`new XLWorkbook(stream)`, `SaveAs`, the `MemoryStream`) and `ToFile` are not modelled.
  - `Worksheets.Add` validates the sheet name: ClosedXML rejects an empty name, one longer than 31 characters, or one holding `[]:*?/\`. The model's `Worksheet` accepts any name, so `ToBytes` never fails there.
  - The importer's input is a `Workbook` value: worksheets by name, each holding its used rows with their used cells.
  - `ToBytes` returns the worksheet it would serialize, not bytes.
- Cosmetic styling is not modelled, only the coordinates of the title and table ranges. That covers:
  - `AdjustToContents`;
  - the table theme, stripes, totals row and header font colour;
  - the merge and font of the title;
  - the height of the separator row.
- Reflection and expression trees are replaced:
  - `GetProperties`, `PropertyInfo.GetValue`/`SetValue` and `Expression.Compile` become an explicit property table (`Records.Schema`), records as maps, and the `Selector` datatype.
  - `new T()` is the schema's initial record.
- Conversions defined by .NET are fields of `Values.Library`:
  - culture-dependent `ToString` of numbers, booleans and dates;
  - `DateTime.TryParseExact` and `DateTime.ToString(format)`;
  - `Convert.ToDecimal`, `Convert.ToBoolean` and `Convert.ChangeType`.

  Their token and culture rules are not visible in this code.
- Values.ParseInt32: does not model `Convert.ToInt32` accepting trailing NUL characters or culture-specific signs. It handles only an optional `+`/`-` and ASCII digits.
- Importer.ImportRow: it returns the row's errors and the caller appends them. `ToList` appends to the shared error list directly inside the column loop, but the final lists are the same.
- Importer row lemmas: `RowErrorsAreFailingCells`, `OnlyExaminedColumnsMatter`, `GatherKeepsCleanRowsInOrder` and `ImportKeepsCleanRowsInOrder` hold for any cell conversion. The service's own context converts with `ConverterOf`, which is `ConvertValue` with the configured date format.
- Sheet lookup is an exact map lookup. Case-insensitive worksheet names in ClosedXML are not modelled.
- A missing worksheet is reported as the fault `MissingSheet`. The exact ClosedXML exception is not modelled.
- The crash of the importer constructor on a null `configure` is not modelled: `configure` is a total function.
- Exporter.ExporterService.GetDataColumnCount: in auto mode it states only `n >= |properties|`. `GetProperties()` also lists static properties, which the model counts but does not name.
- Values.ParseInt32: the format message is the fixed text `"Input string was not in a correct format."` used by .NET before version 8. From .NET 8 on, the message quotes the input; the target framework is not visible in this code.
- Exporter.Worksheet.LastRowUsed: a cell holding the empty string counts as used, as in `LastColumnUsed`. ClosedXML may treat a cell with empty text as unused, so a trailing column with an empty header and no non-empty data, or a data row of empty strings, can give a smaller last row or column in the program than in the model.
- Exporter.ExporterService.ToBytes: `CreateTable` is modelled as recording the table range only. ClosedXML's renaming of blank header cells (`Column1`, `Column2`, ...) and its rejection of duplicate header names are not modelled, so the header cells of a table over unnamed custom columns are stated as written, not as renamed.
- Exporter.ExporterService.ApplyTitle: a title range with zero columns (custom mode with no column) is written as an empty block. ClosedXML's handling of such a range is not modelled.
- Validation.EqualsIgnoreCase: `OrdinalIgnoreCase` is modelled for ASCII letters only. Every other character is compared exactly, so .NET's invariant upper-casing of non-ASCII letters is not modelled.
- Middleware I/O is abstracted:
  - JSON deserialization is the `deserialize` field;
  - the scoped DI lookup `GetValidatorForType` is a map from type name to validator;
  - `ValidateAsync` is a `Validator` function;
  - the body read is the `body` field of `HttpContext`;
  - the downstream delegate and the response write are `downstreamFault` and `writeFault`.
- Also not modelled in the middleware:
  - `EnableBuffering`, the service scope, logging and `async` scheduling;
  - the JSON serialization of `ProblemResultDto`: the document is kept as a value.
- Validation.ValidationMiddleware.Next: the downstream delegate is modelled as neither reading the body nor writing the response, so the exit-position and untouched-response clauses of `ValidateRequest` and `InvokeAsync` describe the middleware's own writes only.
- Importer.TryMapCell: a struct `T` is not modelled. There `SetValue` acts on a boxed copy, so every imported record would equal `new T()`; the model treats records as reference objects.
- Records.Selector: a `Computed` selector or a property getter that throws, and a null item in the data, abort the export in the source. In the model, selectors and property reads are total, so `ToBytes` cannot fail.
- Values.IntToString: it always writes `-` for negative numbers, not the current culture's negative sign.
- The extension wrappers, the demo programs, the controllers and `DependencyContainer` only construct services or register them, so they are not modelled.
