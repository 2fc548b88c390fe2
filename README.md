# CopyAsInsert in Dafny

CopyAsInsert turns tabular text copied to the clipboard into a SQL Server script. The
script is a `CREATE TABLE` statement for a new (optionally system-versioned temporal,
optionally session-temporary) table, followed by batched `INSERT` statements that hold
the data. This project models the core of that pipeline and proves properties of it:

- **Parsing the clipboard text** (`TableDataParser`, table_data_parser.dfy).
  - The text is split into non-empty lines.
  - The delimiter is picked from the first line: tab, else comma, else none.
  - Header names are trimmed and normalised. Without headers the columns are named `Col1..ColN`.
  - Every data row is padded or cut to one trimmed value per column.
  - `ParseClipboardText` is a method that builds a fresh `DataTableSchema` object. It is proved equal to the function `Parse`, whose properties are lemmas.
- **Type inference** (`TypeInferenceEngine`).
  - A column with a value starting with `0` is NVARCHAR.
  - Otherwise a column is INT when at least 70% of its non-blank values are 32-bit integers, else MONEY when 70% are decimals, else NVARCHAR.
  - Confidence is the truncated percentage of matching values.
  - `InferColumnTypes` updates the column descriptor objects in place. It is proved equal to the function `InferAll`.
- **SQL generation** (`SqlServerGenerator`).
  - Table name validation.
  - The CREATE statement: column definitions, temporal period columns, versioning clause.
  - The INSERT statements: batches of 1000 rows.
  - Per-type value formatting: INT, FLOAT, DATETIME2, BIT and quoted text.
  - The `ConversionResult` that reports success or the exception's message. The methods that build the text with loops are proved equal to specification functions.
- **The data models** (`Models`): `ColumnTypeInfo`, `DataTableSchema` and `ConversionResult` are classes whose fields are updated in place.
- **Small helpers**:
  - version comparison, the release tag and the update status line (`UpdateChecker`);
  - the updater's command-line lookup (`Updater`);
  - the main window's bounded newest-first history (`MainForm`);
  - the history window's SQL preview and guarded deletion (`HistoryForm`).
- **.NET library behaviour the core relies on** is written out in `Strings` and `Numbers`:
  - `Trim`, `Split`, `Replace` and `IsNullOrWhiteSpace` over Unicode white space;
  - `int`/`long`/`decimal.TryParse` and number printing.

Some behaviours of the code as written are proved rather than smoothed over:

- The last column line of `CREATE TABLE` also ends in a comma (`LastColumnLineEndsWithComma`).
- `INSERT` adds `_Temporal` whenever auto-append is on, while `CREATE TABLE` adds it only for temporal tables (`InsertTargetsCreatedTable`).
- FLOAT formatting turns "19.99" into 1999 (`FloatDecimalPointDropped`).
- INT formatting turns "1.5" into 15 (`FormatIntValueIsInt64`).
- A table name followed by one line feed passes the name check, so the conversion succeeds with the line feed inside the brackets (`TrailingLineFeedAccepted`, `GenerateIntendedDiffers`). The conversion is modelled with the check as written; `GenerateIntended` is the same conversion with the whole-name check.
- "MONEY" columns are emitted as `NVARCHAR` text (`OtherTypesAreNvarchar`, `TextValueQuoted`).
- Of the four parse errors, only "Clipboard is empty" can ever be raised (`ParseFailsOnlyOnBlank`).

## Model

| member | source | states |
|---|---|---|
| Strings.TrimEmptyIffBlank | CopyAsInsert/Services/TableDataParser.cs:46-47 | trimming leaves nothing exactly when the text is empty or white space only |
| Strings.TrimShape | CopyAsInsert/Services/TableDataParser.cs:132 | Trim keeps a contiguous middle piece and removes only white space around it; the piece starts and ends with a non-white-space character |
| Strings.TrimIdempotent | CopyAsInsert/Services/TableDataParser.cs:132 | trimming twice is trimming once |
| Strings.SplitAny | CopyAsInsert/Services/UpdateChecker.cs:119-120 | the pieces between separators hold no separator |
| Strings.JoinSplit | CopyAsInsert/Services/UpdateChecker.cs:119-120 | joining the pieces of a split with the separator gives the text back |
| Strings.SplitCount | CopyAsInsert/Services/TableDataParser.cs:83 | splitting on a character gives one piece more than the character's occurrences |
| Strings.Lines | CopyAsInsert/Services/TableDataParser.cs:49 | the lines are non-empty and hold no CR or LF |
| Strings.NonBlankHasLines | CopyAsInsert/Services/TableDataParser.cs:46-52 | text that is not blank has at least one line, so "No data found" cannot follow the blank check |
| Strings.RemoveAllAbsent | CopyAsInsert/Services/SqlServerGenerator.cs:266 | removing characters the text does not hold changes nothing |
| Strings.UpperCaseWordUnchanged | CopyAsInsert/Services/SqlServerGenerator.cs:350-351 | upper-casing leaves an upper-case word as it is |
| Numbers.NatToString | CopyAsInsert/Models/ConversionResult.cs:43 | the printed digits have the printed number's value and no leading zero |
| Numbers.TryParseInt32 | CopyAsInsert/Services/UpdateChecker.cs:126-127 | int.TryParse succeeds exactly on an integer text whose value is in the 32-bit range, and the result lies in that range |
| Numbers.TryParseInt64 | CopyAsInsert/Services/SqlServerGenerator.cs:272 | long.TryParse succeeds exactly on an integer text whose value is in the 64-bit range, and the result lies in that range |
| Numbers.Int32IsInt64 | CopyAsInsert/Services/SqlServerGenerator.cs:268-273 | every text int.TryParse accepts, long.TryParse accepts with the same value |
| Numbers.IntToStringRoundTrip | CopyAsInsert/Models/ConversionResult.cs:43 | parsing the printed integer gives the integer back |
| Numbers.ParseDecimal | CopyAsInsert/Services/SqlServerGenerator.cs:286 | a parsed decimal has only digits before and after the point, and at least one digit |
| Numbers.IntegerIsDecimal | CopyAsInsert/Services/TypeInferenceEngine.cs:73-79 | every integer text is also a decimal text |
| Numbers.FormatDecimalIsLiteral | CopyAsInsert/Services/SqlServerGenerator.cs:287 | a printed decimal is a plain numeric literal: sign, digits, at most one point |
| Numbers.SignedLiteral | CopyAsInsert/Services/SqlServerGenerator.cs:287 | digits with an optional point and fraction digits, signed or not, form a numeric literal |
| Numbers.ParsePointDecimal | CopyAsInsert/Services/SqlServerGenerator.cs:286 | digits, a point and digits parse as that decimal with the fraction kept |
| Models.NewColumn | CopyAsInsert/Models/ColumnTypeInfo.cs:8-56 | a new descriptor has the given name and type and every other field at its default |
| Models.ColumnTypeInfo.constructor | CopyAsInsert/Models/ColumnTypeInfo.cs:8-56 | the object's fields are those of NewColumn |
| Models.Values | CopyAsInsert/Models/DataTableSchema.cs:13 | the values of a descriptor list, one per descriptor in order |
| Models.DataTableSchema.constructor | CopyAsInsert/Models/DataTableSchema.cs:8-33 | defaults: "ParsedTable", no columns or rows, "ClipboardTSV", key index -1, override allowed |
| Models.SummaryOf | CopyAsInsert/Models/ConversionResult.cs:43 | the summary is the table name, " (", the row count as a parsable integer, " rows)" |
| Models.ConversionResult.constructor | CopyAsInsert/Models/ConversionResult.cs:8-33 | defaults: not successful, empty SQL, no rows, empty name, schema "dbo", no error |
| SqlServerGenerator.ValidateTableNameAsWritten | CopyAsInsert/Services/SqlServerGenerator.cs:337-353 | the validation as written never reports an index error (its rejections are stated by ValidationErrorsAsWritten) |
| SqlServerGenerator.ValidationErrorsAsWritten | CopyAsInsert/Services/SqlServerGenerator.cs:339-352 | the source's check rejects exactly in order: blank, over 128 characters, pattern (with `$` before a final line feed), reserved word; it accepts exactly when all four pass |
| SqlServerGenerator.TrailingLineFeedAccepted | CopyAsInsert/Services/SqlServerGenerator.cs:346 | as written, "SELECT\n" passes every check |
| SqlServerGenerator.NoSevenLetterReservedWord | CopyAsInsert/Services/SqlServerGenerator.cs:350 | no reserved word has seven letters |
| SqlServerGenerator.ValidationErrors | CopyAsInsert/Services/SqlServerGenerator.cs:339-352 | for the corrected check (whole-name pattern): each rejection happens exactly when its own check fails and the earlier checks pass |
| SqlServerGenerator.ReservedWordsUpperCase | CopyAsInsert/Services/SqlServerGenerator.cs:350 | the reserved words are upper-case, so comparing the upper-cased name ignores case |
| SqlServerGenerator.AcceptedNameShape | CopyAsInsert/Services/SqlServerGenerator.cs:339-352 | a name the source accepts has 1 to 128 characters and is no reserved word in any case; it is letters, digits, '_', '@', '#' without a leading digit, possibly followed by one line feed; the corrected check accepts exactly those without the line feed |
| SqlServerGenerator.ReservedWordRejected | CopyAsInsert/Services/SqlServerGenerator.cs:350-352 | a reserved word in any mix of ASCII cases is rejected as reserved, by the source's check and by the corrected one |
| SqlServerGenerator.ValidationDifference | CopyAsInsert/Services/SqlServerGenerator.cs:346 | the corrected check accepts only names the source accepts; the two differ only on a name ending in a line feed, which the source accepts and the corrected check rejects as invalid characters |
| SqlServerGenerator.LineFeedNotReserved | CopyAsInsert/Services/SqlServerGenerator.cs:350-351 | a name ending in a line feed is never a reserved word |
| SqlServerGenerator.InsertTargetsCreatedTable | CopyAsInsert/Services/SqlServerGenerator.cs:168-178 | INSERT names the created table exactly when auto-append is off or the table is temporal |
| SqlServerGenerator.NvarcharLength | CopyAsInsert/Services/SqlServerGenerator.cs:142 | the length is MaxLength when set and positive, else 255; it is at least 1 |
| SqlServerGenerator.OtherTypesAreNvarchar | CopyAsInsert/Services/SqlServerGenerator.cs:140-148 | any type but INT, FLOAT, DATETIME2 and BIT is NVARCHAR(n) with n in 1..4000, or NVARCHAR(MAX) above 4000 |
| SqlServerGenerator.LastColumnLineEndsWithComma | CopyAsInsert/Services/SqlServerGenerator.cs:84-87 | the column lines end in ",\r\n", the last included |
| SqlServerGenerator.CreateTableShape | CopyAsInsert/Services/SqlServerGenerator.cs:75-107 | CREATE opens with the table and the column lines; a temporal table ends with the versioning clause naming the history table, otherwise ")" and ";" |
| SqlServerGenerator.HistoryTableIsSeparate | CopyAsInsert/Services/SqlServerGenerator.cs:60-73 | the history table's name differs from the created table's |
| SqlServerGenerator.ColumnDefinitionLines | CopyAsInsert/Services/SqlServerGenerator.cs:79-88 | the loop appends exactly the column lines of the specification, in column order |
| SqlServerGenerator.GenerateCreateTableStatement | CopyAsInsert/Services/SqlServerGenerator.cs:52-110 | the built text equals the CREATE statement of the specification |
| SqlServerGenerator.ZeroPad | CopyAsInsert/Services/SqlServerGenerator.cs:300 | a zero-padded number is all digits |
| SqlServerGenerator.ZeroPadLength | CopyAsInsert/Services/SqlServerGenerator.cs:300 | a number below 10^w pads to exactly w characters |
| SqlServerGenerator.FormatDateTimeLength | CopyAsInsert/Services/SqlServerGenerator.cs:300 | a valid date prints as "yyyy-MM-dd HH:mm:ss.fffffff", exactly 27 characters |
| SqlServerGenerator.EscapeSqlString | CopyAsInsert/Services/SqlServerGenerator.cs:329-332 | escaping lengthens the text by its number of quotes |
| SqlServerGenerator.EscapeRoundTrip | CopyAsInsert/Services/SqlServerGenerator.cs:329-332 | undoubling the quotes gives the text back, and the escaped text holds quotes only in pairs |
| SqlServerGenerator.FormatIntValueIsInt64 | CopyAsInsert/Services/SqlServerGenerator.cs:263-276 | INT formatting is the 64-bit value of the text with '.' and ',' removed, else NULL |
| SqlServerGenerator.CommaBecomesPoint | CopyAsInsert/Services/SqlServerGenerator.cs:284 | digits, comma, digits become digits, point, digits |
| SqlServerGenerator.PointDropped | CopyAsInsert/Services/SqlServerGenerator.cs:284 | digits, point, digits lose the point |
| SqlServerGenerator.FloatDecimalComma | CopyAsInsert/Services/SqlServerGenerator.cs:281-290 | "a,b" formats as a.b without leading zeros in a ("0,0673" gives 0.0673) |
| SqlServerGenerator.FloatDecimalPointDropped | CopyAsInsert/Services/SqlServerGenerator.cs:281-290 | "a.b" formats as the integer ab ("19.99" gives 1999) |
| SqlServerGenerator.BooleanWordsDisjoint | CopyAsInsert/Services/SqlServerGenerator.cs:310-311 | no word is both a true word and a false word |
| SqlServerGenerator.BooleanValueMeaning | CopyAsInsert/Services/SqlServerGenerator.cs:308-324 | BIT is 1 exactly for a true word, 0 exactly for a false word, NULL otherwise, after lower-casing, trimming and dropping '.' and ',' |
| SqlServerGenerator.NullValues | CopyAsInsert/Services/SqlServerGenerator.cs:239-257 | blank or "NULL" in any case is NULL for every type; for a text column nothing else is |
| SqlServerGenerator.NotApplicableIsText | CopyAsInsert/Services/SqlServerGenerator.cs:239-256 | "N/A" in an NVARCHAR column is the string 'N/A' |
| SqlServerGenerator.TextValueQuoted | CopyAsInsert/Services/SqlServerGenerator.cs:246-257 | any other type ("MONEY", "VARCHAR" included) is quoted: length + 2 + quotes, and undoubling the inside gives the value back |
| SqlServerGenerator.FormattedValueIsSafe | CopyAsInsert/Services/SqlServerGenerator.cs:237-324 | every formatted value is NULL, a numeric literal or a quoted string with its quotes doubled |
| SqlServerGenerator.DateTextHasNoQuotes | CopyAsInsert/Services/SqlServerGenerator.cs:300 | printed dates hold no quote |
| SqlServerGenerator.BracketedNames | CopyAsInsert/Services/SqlServerGenerator.cs:182-185 | one "[name]" per column in column order |
| SqlServerGenerator.FormattedValueAt | CopyAsInsert/Services/SqlServerGenerator.cs:211-216 | literal j of a row is column j's value formatted with column j's type |
| SqlServerGenerator.TupleAt | CopyAsInsert/Services/SqlServerGenerator.cs:205-220 | tuple k is the tuple of row k |
| SqlServerGenerator.BatchCountIsCeiling | CopyAsInsert/Services/SqlServerGenerator.cs:190-192 | the batch count is the ceiling of rows/1000, zero exactly for no rows |
| SqlServerGenerator.BatchRows | CopyAsInsert/Services/SqlServerGenerator.cs:194-205 | every emitted batch has 1 to 1000 rows, and position i of batch b is row 1000b+i |
| SqlServerGenerator.BatchBounds | CopyAsInsert/Services/SqlServerGenerator.cs:196-197 | batch b starts at row 1000b, inside the rows |
| SqlServerGenerator.BatchedRowsPrefix | CopyAsInsert/Services/SqlServerGenerator.cs:194-205 | the first k batches are the first min(1000k, N) rows in order |
| SqlServerGenerator.BatchesPartitionRows | CopyAsInsert/Services/SqlServerGenerator.cs:190-205 | all batches together are exactly the rows, each once, in order |
| SqlServerGenerator.Statements | CopyAsInsert/Services/SqlServerGenerator.cs:194-228 | statement b is the INSERT of batch b |
| SqlServerGenerator.InsertsUpToIsJoin | CopyAsInsert/Services/SqlServerGenerator.cs:222-227 | the text appended so far is the statements joined by an empty line |
| SqlServerGenerator.InsertTextIsJoin | CopyAsInsert/Services/SqlServerGenerator.cs:194-230 | all INSERT text is the batch statements joined by an empty line |
| SqlServerGenerator.StatementShape | CopyAsInsert/Services/SqlServerGenerator.cs:200-222 | each statement opens with the header naming every column and holds 1 to 1000 tuples, tuple i of batch b being row 1000b+i |
| SqlServerGenerator.StatementCount | CopyAsInsert/Services/SqlServerGenerator.cs:190-194 | the statements cover all rows, and there are none exactly when there are no rows |
| SqlServerGenerator.FormatRowValues | CopyAsInsert/Services/SqlServerGenerator.cs:208-216 | the inner loop gives the row's literals, or fails exactly when the row has fewer values than columns |
| SqlServerGenerator.BatchTuples | CopyAsInsert/Services/SqlServerGenerator.cs:204-220 | the middle loop gives the batch's tuples, or fails exactly when one of its rows is short |
| SqlServerGenerator.RowsCoverAppend | CopyAsInsert/Services/SqlServerGenerator.cs:205-214 | rows cover the columns exactly when both parts of them do |
| SqlServerGenerator.ShortBatchRow | CopyAsInsert/Services/SqlServerGenerator.cs:205-214 | a short row in a batch is a short row in the table |
| SqlServerGenerator.BuildBatchStatement | CopyAsInsert/Services/SqlServerGenerator.cs:196-223 | one loop iteration gives the statement of batch b, or fails exactly when the batch has a short row |
| SqlServerGenerator.BracketedColumnList | CopyAsInsert/Services/SqlServerGenerator.cs:181-187 | the column list is every "[name]" joined by ", " |
| SqlServerGenerator.AllBatchStatements | CopyAsInsert/Services/SqlServerGenerator.cs:190-228 | the batch loop gives the INSERT text of the specification, or fails exactly when some row is short |
| SqlServerGenerator.GenerateInsertStatements | CopyAsInsert/Services/SqlServerGenerator.cs:162-231 | the INSERT text for the suffixed target, or IndexOutOfRange exactly when some row is short |
| SqlServerGenerator.GenerateOutcome | CopyAsInsert/Services/SqlServerGenerator.cs:14-47 | success exactly when the source's name check passes and every row covers the columns; name, schema and row count always set; on failure no SQL and the exception's message; on success CREATE, an empty line, then the INSERTs |
| SqlServerGenerator.GenerateIntendedDiffers | CopyAsInsert/Services/SqlServerGenerator.cs:25 | with the corrected check the result is the same except for a name ending in a line feed: the source succeeds there whenever the rows are complete, the corrected conversion fails with the invalid-characters message |
| SqlServerGenerator.GenerateScript | CopyAsInsert/Services/SqlServerGenerator.cs:25-37 | the try block, with the source's name check, gives the script of the specification Script or its error |
| SqlServerGenerator.GenerateSql | CopyAsInsert/Services/SqlServerGenerator.cs:14-47 | a fresh result whose fields are those of the specification Generate |
| SqlServerGenerator.FillResult | CopyAsInsert/Services/SqlServerGenerator.cs:16-45 | a fresh result carrying the name, schema and row count, and the script on success or the error message on failure |
| TypeInferenceEngine.NonBlank | CopyAsInsert/Services/TypeInferenceEngine.cs:61 | the non-blank values in order: a value is kept exactly when it is not blank |
| TypeInferenceEngine.LeadingZeroMeaning | CopyAsInsert/Services/TypeInferenceEngine.cs:67-69 | the veto holds exactly for values starting with '0' |
| TypeInferenceEngine.CountInts | CopyAsInsert/Services/TypeInferenceEngine.cs:73 | the count of 32-bit integers is at most the number of values |
| TypeInferenceEngine.CountMoney | CopyAsInsert/Services/TypeInferenceEngine.cs:78-79 | the count of decimals is at most the number of values |
| TypeInferenceEngine.PercentageBounds | CopyAsInsert/Services/TypeInferenceEngine.cs:107-118 | a percentage of a part is in 0..100, 100 for the whole, and reaches a threshold exactly when 100·part reaches threshold·whole |
| TypeInferenceEngine.InferenceRules | CopyAsInsert/Services/TypeInferenceEngine.cs:56-85 | blank or vetoed columns are NVARCHAR; otherwise INT exactly when 70% are integers, MONEY exactly when not INT and 70% are decimals; only INT, MONEY, NVARCHAR arise |
| TypeInferenceEngine.ConfidenceRules | CopyAsInsert/Services/TypeInferenceEngine.cs:90-108 | the confidence is in 0..100, at least 70 for INT and MONEY, 100 for NVARCHAR with a non-blank value, 0 for an all-blank column |
| TypeInferenceEngine.SampleValueRule | CopyAsInsert/Services/TypeInferenceEngine.cs:33-34 | the sample is the first non-blank value, else the first value, else "" |
| TypeInferenceEngine.FirstNonBlankNone | CopyAsInsert/Services/TypeInferenceEngine.cs:33 | no first non-blank value means every value is blank |
| TypeInferenceEngine.MaxLengthIsMaximum | CopyAsInsert/Services/TypeInferenceEngine.cs:42-46 | the width is the maximum: every value fits and one attains it |
| TypeInferenceEngine.ColumnValues | CopyAsInsert/Services/TypeInferenceEngine.cs:25 | value k of column j is row k's value j |
| TypeInferenceEngine.InferAll | CopyAsInsert/Services/TypeInferenceEngine.cs:17-20 | without rows the descriptors are unchanged; the count is always kept |
| TypeInferenceEngine.InferAllAt | CopyAsInsert/Services/TypeInferenceEngine.cs:22-48 | descriptor j is inferred from the values at index j |
| TypeInferenceEngine.InferAllInvariant | CopyAsInsert/Services/TypeInferenceEngine.cs:22-48 | after inference: name, key flag and offered types kept, type in {INT, MONEY, NVARCHAR}, nullable, confidence in 0..100, text width is the longest non-blank value, numeric MaxLength kept |
| TypeInferenceEngine.BlankColumn | CopyAsInsert/Services/TypeInferenceEngine.cs:40-46 | a column of blanks becomes NVARCHAR with confidence 0 and width 0 |
| TypeInferenceEngine.ApplyInference | CopyAsInsert/Services/TypeInferenceEngine.cs:28-47 | the descriptor's fields become the inferred column of its old fields |
| TypeInferenceEngine.InferEachColumn | CopyAsInsert/Services/TypeInferenceEngine.cs:22-48 | every descriptor becomes its old value inferred from its own column |
| TypeInferenceEngine.InferAllFromEach | CopyAsInsert/Services/TypeInferenceEngine.cs:17-48 | inferring each column from its own values is InferAll |
| TypeInferenceEngine.InferColumnTypes | CopyAsInsert/Services/TypeInferenceEngine.cs:17-49 | the schema's descriptors become InferAll of their old values and the rows |
| TableDataParser.Fields | CopyAsInsert/Services/TableDataParser.cs:118-126 | a line always has at least one field |
| TableDataParser.NormalizedName | CopyAsInsert/Services/TableDataParser.cs:16-40 | a blank name is kept; any other loses every space and non-spacing mark |
| TableDataParser.NormalizedNameKeepsOthers | CopyAsInsert/Services/TableDataParser.cs:16-40 | in a non-blank name every character other than a space or a mark is kept as often as it occurs |
| TableDataParser.NormalizedNameAppend | CopyAsInsert/Services/TableDataParser.cs:26-36 | normalisation works character by character in order: the name of a + b is what a keeps followed by what b keeps |
| TableDataParser.NormalizedNameOfChar | CopyAsInsert/Services/TableDataParser.cs:26-36 | a single character is dropped exactly when it is a non-spacing mark (a lone space is a blank name and is kept) |
| TableDataParser.NormalizedNameOfCleanName | CopyAsInsert/Services/TableDataParser.cs:16-40 | a non-blank name without spaces or marks comes back unchanged |
| Strings.RemoveAllCounts | CopyAsInsert/Services/TableDataParser.cs:26-36 | removing a set of characters keeps every other character as often as it occurs and leaves none of the removed ones |
| TableDataParser.NormalizeColumnName | CopyAsInsert/Services/TableDataParser.cs:16-40 | the loop and the space removal give the normalised name |
| TableDataParser.RemoveAllTwice | CopyAsInsert/Services/TableDataParser.cs:26-36 | dropping marks then spaces drops both at once |
| TableDataParser.NormalizedNameIdempotent | CopyAsInsert/Services/TableDataParser.cs:16-40 | normalising twice changes nothing more |
| TableDataParser.HeaderNames | CopyAsInsert/Services/TableDataParser.cs:81-83 | header i is field i trimmed and normalised |
| TableDataParser.GenericNamesDistinct | CopyAsInsert/Services/TableDataParser.cs:98 | "Col{i+1}" differs for different i |
| TableDataParser.GenericNames | CopyAsInsert/Services/TableDataParser.cs:95-99 | the loop fills header i with "Col{i+1}" |
| TableDataParser.GenericNameList | CopyAsInsert/Services/TableDataParser.cs:95-99 | name i is "Col{i+1}" |
| TableDataParser.InitialColumns | CopyAsInsert/Services/TableDataParser.cs:104-112 | one VARCHAR nullable column per header, in order |
| TableDataParser.NewColumns | CopyAsInsert/Services/TableDataParser.cs:104-112 | one fresh, distinct descriptor per header holding the initial column |
| TableDataParser.PaddedRow | CopyAsInsert/Services/TableDataParser.cs:129-133 | a padded row has one value per column |
| TableDataParser.PaddedRowAt | CopyAsInsert/Services/TableDataParser.cs:132 | value j is field j trimmed, or "" when the line has fewer fields |
| TableDataParser.PadRow | CopyAsInsert/Services/TableDataParser.cs:129-133 | the loop builds the padded row |
| TableDataParser.Rows | CopyAsInsert/Services/TableDataParser.cs:115-136 | one row per data line |
| TableDataParser.RowsSnoc | CopyAsInsert/Services/TableDataParser.cs:115-136 | one more data line adds its row at the end |
| TableDataParser.RowsAt | CopyAsInsert/Services/TableDataParser.cs:115-136 | row k is the padded fields of data line k |
| TableDataParser.ColumnNames | CopyAsInsert/Services/TableDataParser.cs:78-101 | one name per field of the first line |
| TableDataParser.ParseFailsOnlyOnBlank | CopyAsInsert/Services/TableDataParser.cs:44-56 | parsing fails exactly on blank text, with "Clipboard is empty"; otherwise the table comes from the lines |
| TableDataParser.TableDataSource | CopyAsInsert/Services/TableDataParser.cs:58-73 | TSV exactly when the first line has a tab, CSV when it has a comma but no tab, Single otherwise |
| TableDataParser.TableColumns | CopyAsInsert/Services/TableDataParser.cs:78-112 | one column per field of the first line, named from the header or Col{i+1}, VARCHAR, nullable, no length |
| TableDataParser.TableRows | CopyAsInsert/Services/TableDataParser.cs:115-136 | one row per line after the header, or per line without one; every row has one value per column |
| TableDataParser.TableValue | CopyAsInsert/Services/TableDataParser.cs:115-135 | row k value j is field j of data line k trimmed, or "" |
| TableDataParser.RowValue | CopyAsInsert/Services/TableDataParser.cs:115-135 | value j of data line k's row |
| TableDataParser.GeneratedNamesUnique | CopyAsInsert/Services/TableDataParser.cs:92-99 | generated column names are all different |
| TableDataParser.AddDataRows | CopyAsInsert/Services/TableDataParser.cs:115-136 | the loop appends the rows of the data lines to DataRows |
| TableDataParser.AppendRow | CopyAsInsert/Services/TableDataParser.cs:123-135 | appending the padded row of line i extends the rows of the earlier data lines to the rows up to line i |
| TableDataParser.BuildSchema | CopyAsInsert/Services/TableDataParser.cs:69-136 | a fresh schema with the tag, fresh distinct descriptors, the rows and the defaults |
| TableDataParser.NewSchema | CopyAsInsert/Services/TableDataParser.cs:69-112 | a fresh schema with the tag and fresh distinct descriptors, no rows yet |
| TableDataParser.SchemaWith | CopyAsInsert/Services/TableDataParser.cs:69-73 | a fresh schema tagged "ParsedTable" with the data source of the delimiter, the given descriptors, no rows and the default key settings |
| TableDataParser.ParseClipboardText | CopyAsInsert/Services/TableDataParser.cs:44-139 | the parse error, or a fresh schema with distinct descriptors whose fields are the specification's table |
| TableDataParser.TabularTextParses | CopyAsInsert/Services/TableDataParser.cs:213-226 | tabular-looking text parses with headers into TSV or CSV, at least two columns and one row |
| TableDataParser.DelimitedFields | CopyAsInsert/Services/TableDataParser.cs:223 | a line with a tab or comma has at least two fields |
| TableDataParser.CountPositive | CopyAsInsert/Services/TableDataParser.cs:223 | a character the text holds is counted at least once |
| UpdateChecker.CompareFrom | CopyAsInsert/Services/UpdateChecker.cs:124-133 | the loop returns -1, 0 or 1 |
| UpdateChecker.CompareVersions | CopyAsInsert/Services/UpdateChecker.cs:117-134 | the result is -1, 0 or 1 |
| UpdateChecker.CompareFromDecidedByFirstDifference | CopyAsInsert/Services/UpdateChecker.cs:124-133 | 0 exactly when every component agrees (missing or unparsable as 0); -1 or 1 exactly when the first difference is smaller or larger |
| UpdateChecker.CompareFromZeroIffAgree | CopyAsInsert/Services/UpdateChecker.cs:124-133 | the loop ends in 0 exactly when every remaining component agrees |
| UpdateChecker.CompareFromSignAtFirstDifference | CopyAsInsert/Services/UpdateChecker.cs:124-133 | a non-zero result has a first differing component, and its sign is that component's order |
| UpdateChecker.CompareFromReflexive | CopyAsInsert/Services/UpdateChecker.cs:124-133 | a component list compares equal to itself |
| UpdateChecker.CompareFromAntisymmetric | CopyAsInsert/Services/UpdateChecker.cs:124-133 | swapping the lists negates the result |
| UpdateChecker.CompareVersionsReflexive | CopyAsInsert/Services/UpdateChecker.cs:117-134 | compare(a, a) is 0 |
| UpdateChecker.CompareVersionsAntisymmetric | CopyAsInsert/Services/UpdateChecker.cs:117-134 | compare(a, b) is -compare(b, a) |
| UpdateChecker.TrailingZeroIgnored | CopyAsInsert/Services/UpdateChecker.cs:119-127 | v and v + ".0" compare equal, so "1.0" equals "1.0.0" |
| UpdateChecker.SplitAtSeparator | CopyAsInsert/Services/UpdateChecker.cs:119 | splitting a + sep + b is splitting a then b |
| UpdateChecker.SplitWithoutSeparator | CopyAsInsert/Services/UpdateChecker.cs:119 | a text without the separator is one piece |
| UpdateChecker.CompareFromExtraZero | CopyAsInsert/Services/UpdateChecker.cs:126-127 | a trailing zero component changes no comparison |
| UpdateChecker.IsNewerStrict | CopyAsInsert/Services/UpdateChecker.cs:91 | no update to the same version, and never in both directions |
| UpdateChecker.TrimLeadingV | CopyAsInsert/Services/UpdateChecker.cs:141-143 | the result is a suffix, what was removed is all 'v', and the result does not start with 'v' |
| UpdateChecker.TrimLeadingVIdempotent | CopyAsInsert/Services/UpdateChecker.cs:143 | trimming twice trims nothing more |
| UpdateChecker.ReleaseCheckOutcome | CopyAsInsert/Services/UpdateChecker.cs:79-100 | an update is reported exactly when a tag was read and it is newer without its 'v's; a missing tag is the parse error; the current version, with or without 'v', is never an update |
| UpdateChecker.ToStringCases | CopyAsInsert/Services/UpdateChecker.cs:201-210 | "Error: " plus the message exactly when there is one; "Update available: " exactly when there is no error and an update; the latest-version text otherwise |
| Updater.GetArgValue | CopyAsInsert.Updater/Program.cs:96-104 | a value exactly when the flag occurs before the last element; it is the element after the first occurrence, at an index of at least 1 |
| MainForm.Pushed | CopyAsInsert/MainForm.cs:246-253 | the new entry is first; the length is min(old + 1, 10); the rest is a prefix of the old list, all of it under 10 entries, all but the oldest at 10 |
| MainForm.PushedAllKeepsNewest | CopyAsInsert/MainForm.cs:246-253 | after any adds the history is the added entries newest first, then the earlier history, cut to 10 |
| MainForm.PushedIsPrefix | CopyAsInsert/MainForm.cs:248-252 | one add is the new entry in front of the history, cut to 10 |
| MainForm.PrefixOfAppend | CopyAsInsert/MainForm.cs:251 | cutting the tail of a concatenation early does not change a shorter prefix |
| MainForm.PushedAllBounded | CopyAsInsert/MainForm.cs:249-252 | the history never exceeds 10 entries, and nothing is dropped while it fits |
| MainForm.MainForm.AddToHistory | CopyAsInsert/MainForm.cs:246-253 | the history becomes Pushed of the old history and stays within 10 entries |
| HistoryForm.GetSqlPreview | CopyAsInsert/Forms/HistoryForm.cs:175-182 | "" for null or empty; unchanged up to 100 characters; otherwise the first 100 characters and "...", 103 in all |
| HistoryForm.PreviewIsPrefix | CopyAsInsert/Forms/HistoryForm.cs:181 | the preview is a prefix of the SQL, or a prefix followed by "..."; it equals the SQL exactly when the SQL fits or is 103 characters ending in "..." |
| HistoryForm.HistoryForm.DeleteRow | CopyAsInsert/Forms/HistoryForm.cs:216-238 | only a confirmed row inside the list is removed; the others keep their order; otherwise nothing changes |

## Left out

- User interface, clipboard and hot keys. This covers the rest of MainForm.cs and HistoryForm.cs, the other forms, ClipboardInterceptor.cs and Program.cs. The dialog answers are parameters: `confirmed` in `DeleteRow`, the selected row as an `Option`.
- Persistence, registry and logging: SettingsManager.cs, HistoryManager.cs, StartupManager.cs and Logger.cs. This includes the debug log call in GenerateInsertStatements and the history save in DeleteRow.
- Network and processes:
  - `CheckForUpdatesAsync` and the JSON lookups are not modelled. The values they return are parameters of `ReleaseCheck`.
  - `GetCurrentVersion` is not modelled.
  - The updater's `Main`, download, file replacement and logging are not modelled.
- `TableDataParser.ParseExcelFile`: reads files through a spreadsheet library.
- ConversionTime: a clock reading, left out of `Conversion`. ConfidenceScore is a double that no modelled code assigns; it stays 0.0.
- FormatDateTimeValue: `DateTime.TryParse` with the invariant and then the current culture is the parameter `parseDate`. Its output format is modelled.
- Numbers.ParseDecimal: `decimal.TryParse` with `NumberStyles.Any` is restricted to sign, digits with group commas, point and fraction, and surrounding white space. It leaves out exponents, currency symbols, parentheses, trailing signs and the 28-digit precision limit.
- Numbers.TryParseInt32: int.TryParse and long.TryParse use the invariant reading (ASCII digits, leading '-' or '+') and ignore the current culture's sign symbols.
- TypeInferenceEngine.PercentageBounds: `(int)((m / (double)t) * 100)` is modelled as the exact floor `(100·m)/t`. Double rounding can give one less for some m, t, for example 29 of 100.
- TableDataParser.NormalizedName: FormD decomposition and FormC recomposition are taken as the identity. Only the combining marks U+0300..U+036F count as non-spacing marks, so precomposed accented letters keep their accents.
- TypeInferenceEngine.InferColumnTypes: requires every row to have a value for every column and no descriptor to appear twice in the list. Both hold for the parser's output, which the model does not chain to inference: the source would otherwise throw or alias.
- TableDataParser.NewColumns: the descriptors are created before the schema object rather than inside it. The order of allocation is not observable.
- SqlServerGenerator.IsReservedWord, SqlServerGenerator.ReservedWordRejected, SqlServerGenerator.FormatDateTime, TypeInferenceEngine.HasLeadingZero: the invariant culture is assumed. `ToUpper()` at SqlServerGenerator.cs:351 uses the current culture, so under a Turkish culture "insert" and "view" upper-case to words with a dotted capital I and pass the check. The ':' in `HH:mm:ss` is the culture's time separator. `StartsWith("0")` is a culture-sensitive comparison; it is read here as an ordinal one.
- TypeInferenceEngine.MaxLength, TypeInferenceEngine.MaxNonBlankLength, HistoryForm.GetSqlPreview, SqlServerGenerator.ValidateTableNameAsWritten, SqlServerGenerator.ValidateTableName: a string is a sequence of Unicode scalar values, whereas .NET `Length` and `Substring` count UTF-16 code units. A character outside the Basic Multilingual Plane counts 1 here and 2 in the source. That affects the NVARCHAR width, the 128-character limit on table names (a name of 100 emoji is "too long" in the source and "invalid characters" here) and the 100-character preview cut.
- Strings.IsWhiteSpace: it follows Unicode's White_Space property, as `char.IsWhiteSpace` does. It does not model surrogate pairs.
- Strings.ToUpper: `ToUpper` and `ToLowerInvariant` are ASCII-only. A reserved word or boolean word written with non-ASCII letters that case-fold to ASCII is not recognised.

## Findings

| source | as written | input that shows it | evidently intended | confidence | as-written member | corrected member |
|---|---|---|---|---|---|---|
| CopyAsInsert/Services/SqlServerGenerator.cs:346 | `Regex.IsMatch` with `^…$` and no options; in .NET `$` also matches just before a final line feed | the table name "SELECT\n" (a reserved word plus a line feed) passes every check | the name as a whole matches `[a-zA-Z_@#][a-zA-Z0-9_@#]*`, so no line feed gets into the bracketed table name | high, not executed | SqlServerGenerator.TrailingLineFeedAccepted | SqlServerGenerator.ValidationErrors |
