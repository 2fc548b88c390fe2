/** TableDataParser: turns clipboard text into a DataTableSchema. The text is cut
    into non-empty lines, the first line picks the delimiter (tab, else comma, else
    none), the column names come from a header line or are generated, and every data
    line becomes a row of exactly one trimmed value per column. */
module TableDataParser {
  import opened Strings
  import opened Numbers
  import opened Models

  /** The InvalidOperationException messages of ParseClipboardText. */
  datatype ParseError = ClipboardEmpty | NoDataFound | HeaderRowRequired | NoColumnsInHeader {
    function Message(): string {
      match this
      case ClipboardEmpty => "Clipboard is empty"
      case NoDataFound => "No data found in clipboard"
      case HeaderRowRequired => "At least one header row required"
      case NoColumnsInHeader => "No columns found in header"
    }
  }

  /** The delimiter found in the first line; NoDelimiter is the '\0' of the source. */
  datatype Delimiter = Tab | Comma | NoDelimiter

  function DetectDelimiter(firstLine: string): Delimiter {
    if '\t' in firstLine then Tab
    else if ',' in firstLine then Comma
    else NoDelimiter
  }

  /** The DataSource tag of a delimiter. */
  function DataSourceName(d: Delimiter): string {
    match d
    case Tab => "ClipboardTSV"
    case Comma => "ClipboardCSV"
    case NoDelimiter => "ClipboardSingle"
  }

  /** The raw fields of a line: split on the delimiter, or the whole trimmed line. */
  function Fields(line: string, d: Delimiter): (fields: seq<string>)
    ensures |fields| >= 1
  {
    match d
    case Tab => Split(line, '\t')
    case Comma => Split(line, ',')
    case NoDelimiter => [Trim(line)]
  }

  // ---------------------------------------------------------------------------
  // Column names

  /** The combining diacritical marks: the non-spacing marks dropped from a name.
      Other Unicode non-spacing marks are not part of this model. */
  predicate IsNonSpacingMark(c: char) {
    '\U{0300}' <= c <= '\U{036F}'
  }

  /** The characters a normalised column name never holds: non-spacing marks and
      the space. */
  const NON_SPACING_MARKS: set<char> := set c: char | '\U{0300}' <= c <= '\U{036F}'

  const DROPPED_FROM_NAMES: set<char> := NON_SPACING_MARKS + {' '}

  /** A normalised column name: blank names are kept as they are, every other name
      loses its non-spacing marks and its spaces. */
  function NormalizedName(columnName: string): (r: string)
    ensures IsBlank(columnName) ==> r == columnName
    ensures !IsBlank(columnName) ==> forall c | c in r :: c != ' ' && !IsNonSpacingMark(c)
  {
    if IsBlank(columnName) then columnName else RemoveAll(columnName, DROPPED_FROM_NAMES)
  }

  /** Nothing but spaces and marks is dropped: every other character stays in a
      non-blank name as often as it was there. */
  lemma NormalizedNameKeepsOthers(columnName: string)
    requires !IsBlank(columnName)
    ensures forall c | c != ' ' && !IsNonSpacingMark(c) ::
      Count(NormalizedName(columnName), c) == Count(columnName, c)
  {
    RemoveAllCounts(columnName, DROPPED_FROM_NAMES);
  }

  /** A non-blank name without spaces or non-spacing marks is already normalised. */
  lemma NormalizedNameOfCleanName(columnName: string)
    requires !IsBlank(columnName)
    requires forall i :: 0 <= i < |columnName| ==> columnName[i] != ' ' && !IsNonSpacingMark(columnName[i])
    ensures NormalizedName(columnName) == columnName
  {
    RemoveAllAbsent(columnName, DROPPED_FROM_NAMES);
  }

  /** Normalisation works character by character, in order: the name of a + b is
      what a keeps followed by what b keeps, so the kept characters stay in order. */
  lemma NormalizedNameAppend(a: string, b: string)
    requires !IsBlank(a + b)
    ensures NormalizedName(a + b) == RemoveAll(a, DROPPED_FROM_NAMES) + RemoveAll(b, DROPPED_FROM_NAMES)
    ensures !IsBlank(a) && !IsBlank(b) ==> NormalizedName(a + b) == NormalizedName(a) + NormalizedName(b)
  {
    RemoveAllAppend(a, b, DROPPED_FROM_NAMES);
  }

  /** A single character is kept unless it is a non-spacing mark; a lone space is
      a blank name and is kept as it is. */
  lemma NormalizedNameOfChar(c: char)
    ensures NormalizedName([c]) == if IsNonSpacingMark(c) then "" else [c]
  {
    if IsWhiteSpace(c) {
      assert IsBlank([c]);
    } else {
      assert !IsBlank([c]) by { assert [c][0] == c; }
      assert RemoveAll([c], DROPPED_FROM_NAMES)
          == (if c in DROPPED_FROM_NAMES then "" else [c]) + RemoveAll([c][1..], DROPPED_FROM_NAMES);
      assert [c][1..] == "";
    }
  }

  /** NormalizeColumnName: copy the name without its non-spacing marks, then delete
      its spaces. FormD decomposition and FormC recomposition are the identity here. */
  method NormalizeColumnName(columnName: string) returns (r: string)
    ensures r == NormalizedName(columnName)
  {
    if IsBlank(columnName) {
      return columnName;
    }
    var normalized := columnName;
    var sb := "";
    for i := 0 to |normalized|
      invariant sb == RemoveAll(normalized[..i], NON_SPACING_MARKS)
    {
      RemoveAllAppend(normalized[..i], [normalized[i]], NON_SPACING_MARKS);
      assert normalized[..i + 1] == normalized[..i] + [normalized[i]];
      if !IsNonSpacingMark(normalized[i]) {
        sb := sb + [normalized[i]];
      }
    }
    assert normalized[..|normalized|] == normalized;
    r := RemoveAll(sb, {' '});
    RemoveAllTwice(columnName, NON_SPACING_MARKS, {' '});
  }

  /** Removing two sets of characters one after the other removes their union. */
  lemma {:induction false} RemoveAllTwice(s: string, a: set<char>, b: set<char>)
    ensures RemoveAll(RemoveAll(s, a), b) == RemoveAll(s, a + b)
  {
    if |s| > 0 {
      RemoveAllTwice(s[1..], a, b);
      var head := if s[0] in a then "" else [s[0]];
      RemoveAllAppend(head, RemoveAll(s[1..], a), b);
      if s[0] !in a {
        assert RemoveAll(head, b) == (if s[0] in b then "" else [s[0]]) by {
          assert head[1..] == "";
        }
      }
    }
  }

  /** Normalising twice changes nothing more. */
  lemma NormalizedNameIdempotent(columnName: string)
    ensures NormalizedName(NormalizedName(columnName)) == NormalizedName(columnName)
  {
    var r := NormalizedName(columnName);
    if !IsBlank(columnName) {
      RemoveAllAbsent(r, DROPPED_FROM_NAMES);
      if IsBlank(r) {
        assert NormalizedName(r) == r;
      }
    }
  }

  /** The column name a header field gives: the field trimmed, then normalised. */
  function HeaderName(field: string): string {
    NormalizedName(Trim(field))
  }

  /** With headers: each field of the first line, trimmed and normalised. */
  function HeaderNames(fields: seq<string>): (names: seq<string>)
    ensures |names| == |fields|
    ensures forall i :: 0 <= i < |fields| ==> names[i] == HeaderName(fields[i])
  {
    if |fields| == 0 then [] else HeaderNames(fields[..|fields| - 1]) + [HeaderName(fields[|fields| - 1])]
  }

  /** Without headers: the generated name of column i (from 0) is Col{i + 1}. */
  function GenericName(i: nat): string {
    "Col" + NatToString(i + 1)
  }

  /** Generated names never collide. */
  lemma GenericNamesDistinct(i: nat, j: nat)
    requires i != j
    ensures GenericName(i) != GenericName(j)
  {
    assert GenericName(i)[3..] == NatToString(i + 1);
    assert GenericName(j)[3..] == NatToString(j + 1);
  }

  /** The loop that fills headers[i] = "Col{i + 1}". */
  method GenericNames(count: nat) returns (headers: seq<string>)
    ensures |headers| == count
    ensures forall i :: 0 <= i < count ==> headers[i] == GenericName(i)
  {
    headers := [];
    for i := 0 to count
      invariant |headers| == i
      invariant forall k :: 0 <= k < i ==> headers[k] == GenericName(k)
    {
      headers := headers + [GenericName(i)];
    }
  }

  /** The same names as a function, for the specification. */
  function GenericNameList(count: nat): (names: seq<string>)
    ensures |names| == count
    ensures forall i :: 0 <= i < count ==> names[i] == GenericName(i)
  {
    if count == 0 then [] else GenericNameList(count - 1) + [GenericName(count - 1)]
  }

  // ---------------------------------------------------------------------------
  // Columns and rows

  /** A column as the parser creates it: the name, type VARCHAR, nullable. */
  function InitialColumn(name: string): Column {
    NewColumn(name, "VARCHAR").(allowNull := true)
  }

  function InitialColumns(names: seq<string>): (cols: seq<Column>)
    ensures |cols| == |names|
    ensures forall i :: 0 <= i < |names| ==> cols[i] == InitialColumn(names[i])
  {
    if |names| == 0 then [] else InitialColumns(names[..|names| - 1]) + [InitialColumn(names[|names| - 1])]
  }

  /** One fresh descriptor per header, in order (the loop adding to schema.Columns). */
  method NewColumns(headers: seq<string>) returns (columns: seq<ColumnTypeInfo>)
    ensures forall c | c in columns :: fresh(c)
    ensures forall i, j :: 0 <= i < j < |columns| ==> columns[i] != columns[j]
    ensures Values(columns) == InitialColumns(headers)
  {
    columns := [];
    for i := 0 to |headers|
      invariant |columns| == i
      invariant forall c | c in columns :: fresh(c)
      invariant forall a, b :: 0 <= a < b < i ==> columns[a] != columns[b]
      invariant forall k :: 0 <= k < i ==> columns[k].Value() == InitialColumn(headers[k])
    {
      var column := new ColumnTypeInfo(headers[i], "VARCHAR");
      column.allowNull := true;
      columns := columns + [column];
    }
  }

  /** Value j of a data row: field j trimmed, or "" when the line has no field j. */
  function Cell(values: seq<string>, j: nat): string {
    if j < |values| then Trim(values[j]) else ""
  }

  /** A data row: one value per column, the field trimmed, or "" past the last field. */
  function PaddedRow(values: seq<string>, columnCount: nat): (row: seq<string>)
    ensures |row| == columnCount
  {
    if columnCount == 0 then [] else PaddedRow(values, columnCount - 1) + [Cell(values, columnCount - 1)]
  }

  /** Value j of a padded row is field j trimmed, or "" when the line has no field j. */
  lemma {:induction false} PaddedRowAt(values: seq<string>, columnCount: nat, j: nat)
    requires j < columnCount
    ensures PaddedRow(values, columnCount)[j] == Cell(values, j)
  {
    var shorter := PaddedRow(values, columnCount - 1);
    var last := Cell(values, columnCount - 1);
    assert PaddedRow(values, columnCount) == shorter + [last];
    if j < columnCount - 1 {
      PaddedRowAt(values, columnCount - 1, j);
      assert (shorter + [last])[j] == shorter[j];
    } else {
      assert (shorter + [last])[j] == last;
    }
  }

  /** The loop building paddedValues. */
  method PadRow(values: seq<string>, columnCount: nat) returns (paddedValues: seq<string>)
    ensures paddedValues == PaddedRow(values, columnCount)
  {
    paddedValues := [];
    for j := 0 to columnCount
      invariant paddedValues == PaddedRow(values, j)
    {
      paddedValues := paddedValues + [if j < |values| then Trim(values[j]) else ""];
      assert paddedValues == PaddedRow(values, j + 1);
    }
  }

  /** The data rows of a list of data lines. */
  function Rows(lines: seq<string>, d: Delimiter, columnCount: nat): (rows: seq<seq<string>>)
    ensures |rows| == |lines|
  {
    if |lines| == 0 then []
    else Rows(lines[..|lines| - 1], d, columnCount) + [PaddedRow(Fields(lines[|lines| - 1], d), columnCount)]
  }

  /** One more data line adds its row at the end. */
  lemma RowsSnoc(lines: seq<string>, start: nat, i: nat, d: Delimiter, columnCount: nat)
    requires start <= i < |lines|
    ensures Rows(lines[start..i + 1], d, columnCount)
      == Rows(lines[start..i], d, columnCount) + [PaddedRow(Fields(lines[i], d), columnCount)]
  {
    var done := lines[start..i + 1];
    assert done[..|done| - 1] == lines[start..i];
    assert done[|done| - 1] == lines[i];
    assert Rows(done, d, columnCount) == Rows(done[..|done| - 1], d, columnCount) + [PaddedRow(Fields(done[|done| - 1], d), columnCount)];
  }

  /** The rows built so far, extended by the row of the next data line. */
  lemma AppendRow(rows0: seq<seq<string>>, lines: seq<string>, start: nat, i: nat, d: Delimiter, columnCount: nat,
                  built: seq<seq<string>>, row: seq<string>)
    requires start <= i < |lines|
    requires built == rows0 + Rows(lines[start..i], d, columnCount)
    requires row == PaddedRow(Fields(lines[i], d), columnCount)
    ensures built + [row] == rows0 + Rows(lines[start..i + 1], d, columnCount)
  {
    RowsSnoc(lines, start, i, d, columnCount);
    SnocAssociates(rows0, Rows(lines[start..i], d, columnCount), row);
  }

  lemma SnocAssociates(a: seq<seq<string>>, b: seq<seq<string>>, x: seq<string>)
    ensures a + b + [x] == a + (b + [x])
  {
  }

  lemma {:induction false} RowsAt(lines: seq<string>, d: Delimiter, columnCount: nat, k: nat)
    requires k < |lines|
    ensures Rows(lines, d, columnCount)[k] == PaddedRow(Fields(lines[k], d), columnCount)
  {
    if k < |lines| - 1 {
      RowsAt(lines[..|lines| - 1], d, columnCount, k);
    }
  }

  // ---------------------------------------------------------------------------
  // The whole parse

  /** The fields of a parsed schema, as ParseClipboardText leaves them. */
  datatype Table = Table(originalTableName: string, dataSource: string, columns: seq<Column>, dataRows: seq<seq<string>>)

  /** The column names of a parse, from the first line. */
  function ColumnNames(firstLine: string, d: Delimiter, hasHeaders: bool): (names: seq<string>)
    ensures |names| == |Fields(firstLine, d)|
  {
    if hasHeaders then HeaderNames(Fields(firstLine, d)) else GenericNameList(|Fields(firstLine, d)|)
  }

  /** The table built from the non-empty lines of the text. */
  function TableOfLines(lines: seq<string>, hasHeaders: bool): Table
    requires |lines| >= 1
  {
    var d := DetectDelimiter(lines[0]);
    var names := ColumnNames(lines[0], d, hasHeaders);
    var dataStartIndex := if hasHeaders then 1 else 0;
    Table("ParsedTable", DataSourceName(d), InitialColumns(names), Rows(lines[dataStartIndex..], d, |names|))
  }

  /** ParseClipboardText as a function of the text. */
  function Parse(clipboardText: string, hasHeaders: bool): Result<Table, ParseError> {
    if IsBlank(clipboardText) then Failure(ClipboardEmpty)
    else
      var lines := Lines(clipboardText);
      if |lines| < 1 then Failure(NoDataFound)
      else if hasHeaders && |lines| < 1 then Failure(HeaderRowRequired)
      else if hasHeaders && |ColumnNames(lines[0], DetectDelimiter(lines[0]), hasHeaders)| == 0 then Failure(NoColumnsInHeader)
      else Success(TableOfLines(lines, hasHeaders))
  }

  /** Parsing fails exactly on blank text, with "Clipboard is empty"; the other three
      errors can never be raised. Otherwise the table is built from the lines. */
  lemma ParseFailsOnlyOnBlank(clipboardText: string, hasHeaders: bool)
    ensures Parse(clipboardText, hasHeaders).Failure? <==> IsBlank(clipboardText)
    ensures Parse(clipboardText, hasHeaders).Failure? ==> Parse(clipboardText, hasHeaders).error == ClipboardEmpty
    ensures !IsBlank(clipboardText) ==>
      |Lines(clipboardText)| >= 1 && Parse(clipboardText, hasHeaders) == Success(TableOfLines(Lines(clipboardText), hasHeaders))
  {
    if !IsBlank(clipboardText) {
      NonBlankHasLines(clipboardText);
    }
  }

  /** The delimiter is picked from the first line, and DataSource names it. */
  lemma TableDataSource(lines: seq<string>, hasHeaders: bool)
    requires |lines| >= 1
    ensures var t := TableOfLines(lines, hasHeaders);
      && t.originalTableName == "ParsedTable"
      && (t.dataSource == "ClipboardTSV" <==> '\t' in lines[0])
      && (t.dataSource == "ClipboardCSV" <==> '\t' !in lines[0] && ',' in lines[0])
      && (t.dataSource == "ClipboardSingle" <==> '\t' !in lines[0] && ',' !in lines[0])
  {
  }

  /** One column per field of the first line, named from the header field (trimmed and
      normalised) or Col1..ColN, each VARCHAR and nullable. */
  lemma TableColumns(lines: seq<string>, hasHeaders: bool, i: nat)
    requires |lines| >= 1
    ensures var fields := Fields(lines[0], DetectDelimiter(lines[0]));
      |TableOfLines(lines, hasHeaders).columns| == |fields|
    ensures var fields := Fields(lines[0], DetectDelimiter(lines[0]));
      var cols := TableOfLines(lines, hasHeaders).columns;
      i < |cols| ==>
        && cols[i].sqlType == "VARCHAR" && cols[i].allowNull && cols[i].maxLength == None
        && cols[i].columnName == (if hasHeaders then NormalizedName(Trim(fields[i])) else GenericName(i))
  {
  }

  /** One row per line after the header (every line without headers), and every row
      has exactly one value per column. */
  lemma TableRows(lines: seq<string>, hasHeaders: bool)
    requires |lines| >= 1
    ensures var t := TableOfLines(lines, hasHeaders);
      && |t.dataRows| == (if hasHeaders then |lines| - 1 else |lines|)
      && forall row | row in t.dataRows :: |row| == |t.columns|
  {
    var t := TableOfLines(lines, hasHeaders);
    var d := DetectDelimiter(lines[0]);
    var start := if hasHeaders then 1 else 0;
    assert t.dataRows == Rows(lines[start..], d, |t.columns|);
    forall row | row in t.dataRows ensures |row| == |t.columns| {
      var k :| 0 <= k < |t.dataRows| && t.dataRows[k] == row;
      RowsAt(lines[start..], d, |t.columns|, k);
    }
  }

  /** Row k, value j: field j of data line k, trimmed, or "" when the line is short. */
  lemma TableValue(lines: seq<string>, hasHeaders: bool, k: nat, j: nat)
    requires |lines| >= 1
    requires k < |TableOfLines(lines, hasHeaders).dataRows|
    requires j < |TableOfLines(lines, hasHeaders).columns|
    ensures |TableOfLines(lines, hasHeaders).dataRows[k]| == |TableOfLines(lines, hasHeaders).columns|
    ensures var fields := Fields(lines[k + if hasHeaders then 1 else 0], DetectDelimiter(lines[0]));
      TableOfLines(lines, hasHeaders).dataRows[k][j] == if j < |fields| then Trim(fields[j]) else ""
  {
    var d := DetectDelimiter(lines[0]);
    var start := if hasHeaders then 1 else 0;
    var dataLines := lines[start..];
    assert dataLines[k] == lines[k + start];
    RowValue(dataLines, d, |TableOfLines(lines, hasHeaders).columns|, k, j);
  }

  /** Value j of the row of data line k. */
  lemma RowValue(dataLines: seq<string>, d: Delimiter, columnCount: nat, k: nat, j: nat)
    requires k < |dataLines| && j < columnCount
    ensures |Rows(dataLines, d, columnCount)[k]| == columnCount
    ensures var fields := Fields(dataLines[k], d);
      Rows(dataLines, d, columnCount)[k][j] == if j < |fields| then Trim(fields[j]) else ""
  {
    RowsAt(dataLines, d, columnCount, k);
    PaddedRowAt(Fields(dataLines[k], d), columnCount, j);
  }

  /** Generated column names are all different. */
  lemma GeneratedNamesUnique(lines: seq<string>)
    requires |lines| >= 1
    ensures var cols := TableOfLines(lines, false).columns;
      forall i, j :: 0 <= i < j < |cols| ==> cols[i].columnName != cols[j].columnName
  {
    var cols := TableOfLines(lines, false).columns;
    forall i, j | 0 <= i < j < |cols| ensures cols[i].columnName != cols[j].columnName {
      GenericNamesDistinct(i, j);
    }
  }

  // ---------------------------------------------------------------------------
  // The method

  /** The fields of a schema object as a Table. */
  function TableOf(schema: DataTableSchema): Table
    reads schema, set c | c in schema.columns
  {
    Table(schema.originalTableName, schema.dataSource, schema.Columns(), schema.dataRows)
  }

  /** The loop adding one padded row per data line to schema.DataRows. */
  method AddDataRows(schema: DataTableSchema, lines: seq<string>, dataStartIndex: nat, d: Delimiter, columnCount: nat)
    requires dataStartIndex <= |lines|
    modifies schema`dataRows
    ensures schema.dataRows == old(schema.dataRows) + Rows(lines[dataStartIndex..], d, columnCount)
  {
    ghost var rows0 := schema.dataRows;
    for i := dataStartIndex to |lines|
      invariant schema.dataRows == rows0 + Rows(lines[dataStartIndex..i], d, columnCount)
    {
      var values := Fields(lines[i], d);
      var paddedValues := PadRow(values, columnCount);
      AppendRow(rows0, lines, dataStartIndex, i, d, columnCount, schema.dataRows, paddedValues);
      schema.dataRows := schema.dataRows + [paddedValues];
    }
    assert lines[dataStartIndex..|lines|] == lines[dataStartIndex..];
  }

  /** ParseClipboardText: a fresh schema with fresh, distinct column descriptors whose
      fields are the parse of the text, or the parse error. */
  method ParseClipboardText(clipboardText: string, hasHeaders: bool) returns (r: Result<DataTableSchema, ParseError>)
    ensures Parse(clipboardText, hasHeaders).Failure? ==> r == Failure(Parse(clipboardText, hasHeaders).error)
    ensures Parse(clipboardText, hasHeaders).Success? ==>
      && r.Success? && fresh(r.value)
      && (forall c | c in r.value.columns :: fresh(c))
      && r.value.DistinctColumns()
      && TableOf(r.value) == Parse(clipboardText, hasHeaders).value
      && r.value.primaryKeyColumnIndex == -1 && r.value.allowUserOverride
  {
    if IsBlank(clipboardText) {
      return Failure(ClipboardEmpty);
    }
    var lines := Lines(clipboardText);
    if |lines| < 1 {
      return Failure(NoDataFound);
    }
    if hasHeaders && |lines| < 1 {
      return Failure(HeaderRowRequired);
    }
    var delimiter := DetectDelimiter(lines[0]);
    var headers: seq<string>;
    var dataStartIndex: nat;
    if hasHeaders {
      headers := HeaderNames(Fields(lines[0], delimiter));
      dataStartIndex := 1;
      if |headers| == 0 {
        return Failure(NoColumnsInHeader);
      }
    } else {
      var firstRow := Fields(lines[0], delimiter);
      headers := GenericNames(|firstRow|);
      dataStartIndex := 0;
    }
    assert headers == ColumnNames(lines[0], delimiter, hasHeaders);
    var schema := BuildSchema(lines, delimiter, headers, dataStartIndex);
    return Success(schema);
  }

  /** The schema object of a parse: tag, one fresh descriptor per header, the rows. */
  method BuildSchema(lines: seq<string>, delimiter: Delimiter, headers: seq<string>, dataStartIndex: nat)
    returns (schema: DataTableSchema)
    requires dataStartIndex <= |lines|
    ensures fresh(schema) && (forall c | c in schema.columns :: fresh(c))
    ensures schema.DistinctColumns()
    ensures schema.originalTableName == "ParsedTable" && schema.dataSource == DataSourceName(delimiter)
    ensures schema.Columns() == InitialColumns(headers)
    ensures schema.dataRows == Rows(lines[dataStartIndex..], delimiter, |headers|)
    ensures schema.primaryKeyColumnIndex == -1 && schema.allowUserOverride
  {
    schema := NewSchema(delimiter, headers);
    AddDataRows(schema, lines, dataStartIndex, delimiter, |headers|);
  }

  /** The schema object before its rows: tag and one fresh descriptor per header. */
  method NewSchema(delimiter: Delimiter, headers: seq<string>) returns (schema: DataTableSchema)
    ensures fresh(schema) && (forall c | c in schema.columns :: fresh(c))
    ensures schema.DistinctColumns()
    ensures schema.originalTableName == "ParsedTable" && schema.dataSource == DataSourceName(delimiter)
    ensures schema.Columns() == InitialColumns(headers)
    ensures schema.dataRows == []
    ensures schema.primaryKeyColumnIndex == -1 && schema.allowUserOverride
  {
    var columns := NewColumns(headers);
    schema := SchemaWith(delimiter, columns);
  }

  /** A fresh schema object holding the given descriptors and no rows. */
  method SchemaWith(delimiter: Delimiter, columns: seq<ColumnTypeInfo>) returns (schema: DataTableSchema)
    ensures fresh(schema)
    ensures schema.originalTableName == "ParsedTable" && schema.dataSource == DataSourceName(delimiter)
    ensures schema.columns == columns && schema.dataRows == []
    ensures schema.primaryKeyColumnIndex == -1 && schema.allowUserOverride
  {
    schema := new DataTableSchema();
    schema.dataSource := DataSourceName(delimiter);
    schema.columns := columns;
  }

  // ---------------------------------------------------------------------------
  // Tabular text detection

  /** IsValidTabularText: non-blank text of at least two non-empty lines whose first
      line holds a tab or a comma. */
  predicate IsValidTabularText(text: string) {
    !IsBlank(text)
    && var lines := Lines(text);
    |lines| >= 2 && ('\t' in lines[0] || ',' in lines[0])
  }

  /** Text that looks tabular parses, with headers, into a TSV or CSV table of at
      least two columns and at least one data row. */
  lemma TabularTextParses(text: string)
    requires IsValidTabularText(text)
    ensures Parse(text, true).Success?
    ensures var t := Parse(text, true).value;
      && t.dataSource in {"ClipboardTSV", "ClipboardCSV"}
      && |t.columns| >= 2 && |t.dataRows| >= 1
  {
    var lines := Lines(text);
    ParseFailsOnlyOnBlank(text, true);
    TableDataSource(lines, true);
    TableColumns(lines, true, 0);
    TableRows(lines, true);
    DelimitedFields(lines[0]);
  }

  /** A line holding a tab or a comma splits into at least two fields. */
  lemma DelimitedFields(line: string)
    requires '\t' in line || ',' in line
    ensures |Fields(line, DetectDelimiter(line))| >= 2
  {
    var sep := if '\t' in line then '\t' else ',';
    SplitCount(line, sep);
    CountPositive(line, sep);
  }

  /** A text holding a character counts it at least once. */
  lemma {:induction false} CountPositive(s: string, c: char)
    requires c in s
    ensures Count(s, c) >= 1
  {
    if s[0] != c {
      assert c in s[1..];
      CountPositive(s[1..], c);
    }
  }
}
