/** SqlServerGenerator: turns a parsed schema into a SQL Server script, one CREATE
    TABLE statement (optionally a temporary or a system-versioned temporal table)
    followed by INSERT statements of at most 1000 rows each. */
module SqlServerGenerator {
  import opened Strings
  import opened Numbers
  import opened Models

  const TEMPORAL_SUFFIX: string := "_Temporal"
  const HISTORY_SUFFIX: string := "_History"
  const BATCH_SIZE: nat := 1000
  const MAX_NAME_LENGTH: nat := 128
  const DEFAULT_NVARCHAR_LENGTH: int := 255
  const MAX_NVARCHAR_LENGTH: int := 4000

  const RESERVED_WORDS: seq<string> :=
    ["SELECT", "INSERT", "UPDATE", "DELETE", "CREATE", "ALTER", "DROP", "TABLE", "DATABASE", "VIEW"]

  /** Why GenerateSql produced no script: one of the ArgumentExceptions of the
      table name validation, or the IndexOutOfRangeException of a row with fewer
      values than there are columns. */
  datatype GenerationError = EmptyName | NameTooLong | InvalidCharacters | ReservedKeyword | IndexOutOfRange {
    /** The exception's message, which GenerateSql stores as the error message. */
    function Message(): string {
      match this
      case EmptyName => "Table name cannot be empty"
      case NameTooLong => "Table name cannot exceed 128 characters"
      case InvalidCharacters => "Table name contains invalid characters"
      case ReservedKeyword => "Table name is a reserved SQL keyword"
      case IndexOutOfRange => "Index was outside the bounds of the array."
    }
  }

  const NULL_LITERAL: string := "NULL"

  // ---------------------------------------------------------------------------
  // Table name validation

  predicate IsNameStart(c: char) {
    ('a' <= c <= 'z') || ('A' <= c <= 'Z') || c == '_' || c == '@' || c == '#'
  }

  predicate IsNameChar(c: char) {
    IsNameStart(c) || ('0' <= c <= '9')
  }

  /** The pattern ^[a-zA-Z_@#][a-zA-Z0-9_@#]*$ matched against the whole name. */
  predicate MatchesNamePattern(name: string) {
    |name| >= 1 && IsNameStart(name[0]) && forall i :: 1 <= i < |name| ==> IsNameChar(name[i])
  }

  /** The same pattern as .NET's Regex.IsMatch reads it: without the Multiline
      option `$` matches at the end of the text and also just before a final "\n". */
  predicate MatchesNamePatternAsWritten(name: string) {
    MatchesNamePattern(name) || (|name| >= 2 && name[|name| - 1] == '\n' && MatchesNamePattern(name[..|name| - 1]))
  }

  /** The table name upper-cased is one of the reserved words. */
  predicate IsReservedWord(name: string) {
    ToUpper(name) in RESERVED_WORDS
  }

  /** ValidateTableName as the source writes it: the error of the first check that
      fails, or None when the name is accepted. */
  function ValidateTableNameAsWritten(name: string): (r: Option<GenerationError>)
    ensures r.Some? ==> r.value != IndexOutOfRange
  {
    if IsBlank(name) then Some(EmptyName)
    else if |name| > MAX_NAME_LENGTH then Some(NameTooLong)
    else if !MatchesNamePatternAsWritten(name) then Some(InvalidCharacters)
    else if IsReservedWord(name) then Some(ReservedKeyword)
    else None
  }

  /** No reserved word has seven letters. */
  lemma NoSevenLetterReservedWord()
    ensures forall w | w in RESERVED_WORDS :: |w| != 7
  {
  }

  /** The source's validation lets a name with a trailing line feed through, even a
      reserved word: "SELECT\n" is accepted. */
  lemma TrailingLineFeedAccepted()
    ensures ValidateTableNameAsWritten("SELECT\n") == None
  {
    var name := "SELECT\n";
    assert !IsWhiteSpace(name[0]);
    assert name[..6] == "SELECT";
    assert MatchesNamePattern(name[..6]);
    assert |ToUpper(name)| == 7;
    NoSevenLetterReservedWord();
  }

  /** ValidateTableName with the pattern matched against the whole name, as its
      comment intends ("alphanumeric, underscore, @, #"). The checks run in the
      source's order and each rejection has its own error. */
  function ValidateTableName(name: string): Option<GenerationError> {
    if IsBlank(name) then Some(EmptyName)
    else if |name| > MAX_NAME_LENGTH then Some(NameTooLong)
    else if !MatchesNamePattern(name) then Some(InvalidCharacters)
    else if IsReservedWord(name) then Some(ReservedKeyword)
    else None
  }

  /** Each rejection of the source's check has exactly its own condition, the earlier
      checks having passed; validation never reports an index error. */
  lemma ValidationErrorsAsWritten(name: string)
    ensures ValidateTableNameAsWritten(name) == Some(EmptyName) <==> IsBlank(name)
    ensures ValidateTableNameAsWritten(name) == Some(NameTooLong) <==> !IsBlank(name) && |name| > MAX_NAME_LENGTH
    ensures ValidateTableNameAsWritten(name) == Some(InvalidCharacters) <==>
      !IsBlank(name) && |name| <= MAX_NAME_LENGTH && !MatchesNamePatternAsWritten(name)
    ensures ValidateTableNameAsWritten(name) == Some(ReservedKeyword) <==>
      !IsBlank(name) && |name| <= MAX_NAME_LENGTH && MatchesNamePatternAsWritten(name) && IsReservedWord(name)
    ensures ValidateTableNameAsWritten(name) == None <==>
      !IsBlank(name) && |name| <= MAX_NAME_LENGTH && MatchesNamePatternAsWritten(name) && !IsReservedWord(name)
  {
  }

  /** The same for the corrected check. */
  lemma ValidationErrors(name: string)
    ensures ValidateTableName(name) == Some(EmptyName) <==> IsBlank(name)
    ensures ValidateTableName(name) == Some(NameTooLong) <==> !IsBlank(name) && |name| > MAX_NAME_LENGTH
    ensures ValidateTableName(name) == Some(InvalidCharacters) <==>
      !IsBlank(name) && |name| <= MAX_NAME_LENGTH && !MatchesNamePattern(name)
    ensures ValidateTableName(name) == Some(ReservedKeyword) <==>
      !IsBlank(name) && |name| <= MAX_NAME_LENGTH && MatchesNamePattern(name) && IsReservedWord(name)
    ensures ValidateTableName(name) != Some(IndexOutOfRange)
  {
  }

  /** The reserved words are written in upper case. */
  lemma ReservedWordsUpperCase()
    ensures forall w | w in RESERVED_WORDS :: ToUpper(w) == w
  {
    forall w | w in RESERVED_WORDS ensures ToUpper(w) == w {
      UpperCaseWordUnchanged(w);
    }
  }

  /** The reserved words are 4 to 8 upper-case letters. */
  lemma ReservedWordsLetters()
    ensures forall w | w in RESERVED_WORDS :: 4 <= |w| <= 8 && IsUpperCaseWord(w)
  {
  }

  /** A name that is not reserved upper-cased matches no reserved word in any case. */
  lemma NotReservedInAnyCase(name: string)
    requires !IsReservedWord(name)
    ensures forall w | w in RESERVED_WORDS :: !EqualsIgnoreCase(name, w)
  {
    ReservedWordsUpperCase();
  }

  /** A name that upper-cases to a word of upper-case letters is itself made of
      letters, so it passes the blank and pattern checks. */
  lemma UpperCasesToLetters(name: string, w: string)
    requires |w| >= 1 && IsUpperCaseWord(w) && ToUpper(name) == w
    ensures !IsBlank(name) && MatchesNamePattern(name) && MatchesNamePatternAsWritten(name)
  {
    forall i | 0 <= i < |name| ensures IsNameStart(name[i]) {
      assert ToUpperAscii(name[i]) == w[i];
    }
    assert !IsWhiteSpace(name[0]);
  }

  /** The name without the final line feed the source's pattern lets through. */
  function NameCore(name: string): string {
    if |name| >= 2 && name[|name| - 1] == '\n' then name[..|name| - 1] else name
  }

  /** A name the source accepts is 1 to 128 characters, equals no reserved word in
      any mix of cases, and is a run of letters, digits, '_', '@' and '#' that does
      not start with a digit, possibly followed by one line feed; the corrected check
      accepts exactly the accepted names without that line feed. */
  lemma AcceptedNameShape(name: string)
    requires ValidateTableNameAsWritten(name) == None
    ensures 1 <= |name| <= MAX_NAME_LENGTH
    ensures var core := NameCore(name);
      && 1 <= |core| && !('0' <= core[0] <= '9') && (forall i :: 0 <= i < |core| ==> IsNameChar(core[i]))
      && (name == core || name == core + "\n")
    ensures forall w | w in RESERVED_WORDS :: !EqualsIgnoreCase(name, w)
    ensures ValidateTableName(name) == None <==> name == NameCore(name)
  {
    NotReservedInAnyCase(name);
    if !MatchesNamePattern(name) {
      assert name == name[..|name| - 1] + "\n";
    }
  }

  /** Conversely a reserved word is rejected as reserved whatever its case ("select",
      "Select"), by the source's check and by the corrected one. */
  lemma ReservedWordRejected(name: string, w: string)
    requires w in RESERVED_WORDS && EqualsIgnoreCase(name, w)
    ensures ValidateTableNameAsWritten(name) == Some(ReservedKeyword)
    ensures ValidateTableName(name) == Some(ReservedKeyword)
  {
    ReservedWordFacts(w);
    UpperCasesToLetters(name, w);
    assert IsReservedWord(name);
  }

  lemma ReservedWordFacts(w: string)
    requires w in RESERVED_WORDS
    ensures ToUpper(w) == w && 4 <= |w| <= 8 && IsUpperCaseWord(w)
  {
    ReservedWordsUpperCase();
    ReservedWordsLetters();
  }

  /** Where the two readings of the pattern part: the corrected validation accepts
      only names the source accepts, and every name only the source accepts ends in
      a line feed. */
  lemma ValidationDifference(name: string)
    ensures ValidateTableName(name) == None ==> ValidateTableNameAsWritten(name) == None
    ensures ValidateTableNameAsWritten(name) == None && ValidateTableName(name) != None ==>
      |name| >= 2 && name[|name| - 1] == '\n'
    ensures ValidateTableName(name) != ValidateTableNameAsWritten(name) ==>
      ValidateTableNameAsWritten(name) == None && ValidateTableName(name) == Some(InvalidCharacters)
      && name == NameCore(name) + "\n"
    ensures name == NameCore(name) ==> ValidateTableName(name) == ValidateTableNameAsWritten(name)
  {
    if MatchesNamePatternAsWritten(name) && !MatchesNamePattern(name) {
      assert name == name[..|name| - 1] + "\n";
      LineFeedNotReserved(name);
    }
  }

  /** A name ending in a line feed is no reserved word. */
  lemma LineFeedNotReserved(name: string)
    requires |name| >= 1 && name[|name| - 1] == '\n'
    ensures !IsReservedWord(name)
  {
    forall w | w in RESERVED_WORDS ensures ToUpper(name) != w {
      ReservedWordFacts(w);
      if |w| == |name| {
        assert ToUpper(name)[|name| - 1] != w[|name| - 1];
      }
    }
  }

  // ---------------------------------------------------------------------------
  // Table names

  /** The suffix CREATE TABLE appends: only for temporal tables with auto-append on. */
  function CreateSuffix(isTemporal: bool, autoAppend: bool): string {
    if isTemporal && autoAppend then TEMPORAL_SUFFIX else ""
  }

  /** The suffix INSERT appends: whenever auto-append is on. */
  function InsertSuffix(autoAppend: bool): string {
    if autoAppend then TEMPORAL_SUFFIX else ""
  }

  /** `[#name]` for a session temporary table, `[schema].[name]` otherwise. */
  function QualifiedName(tableName: string, schemaName: string, isTemporary: bool, suffix: string): string {
    if isTemporary then "[#" + tableName + suffix + "]"
    else "[" + schemaName + "].[" + tableName + suffix + "]"
  }

  function CreateTableName(tableName: string, schemaName: string, isTemporal: bool, isTemporary: bool, autoAppend: bool): string {
    QualifiedName(tableName, schemaName, isTemporary, CreateSuffix(isTemporal, autoAppend))
  }

  function InsertTableName(tableName: string, schemaName: string, isTemporary: bool, autoAppend: bool): string {
    QualifiedName(tableName, schemaName, isTemporary, InsertSuffix(autoAppend))
  }

  /** The history table never carries the temporal suffix. */
  function HistoryTableName(tableName: string, schemaName: string, isTemporary: bool): string {
    QualifiedName(tableName, schemaName, isTemporary, HISTORY_SUFFIX)
  }

  /** The INSERT statements target the table that CREATE TABLE makes exactly when
      auto-append is off or the table is temporal; with auto-append on and a
      non-temporal table they name "<name>_Temporal", which was never created. */
  lemma InsertTargetsCreatedTable(tableName: string, schemaName: string, isTemporal: bool, isTemporary: bool, autoAppend: bool)
    ensures InsertTableName(tableName, schemaName, isTemporary, autoAppend)
         == CreateTableName(tableName, schemaName, isTemporal, isTemporary, autoAppend)
        <==> !autoAppend || isTemporal
  {
    if autoAppend && !isTemporal {
      assert |InsertTableName(tableName, schemaName, isTemporary, autoAppend)|
          == |CreateTableName(tableName, schemaName, isTemporal, isTemporary, autoAppend)| + 9;
    }
  }

  // ---------------------------------------------------------------------------
  // Column definitions

  /** The NVARCHAR length: MaxLength when it is set and positive, 255 otherwise. */
  function NvarcharLength(maxLength: Option<int>): (n: int)
    ensures n >= 1
    ensures maxLength.Some? && maxLength.value > 0 ==> n == maxLength.value
    ensures maxLength.None? || maxLength.value <= 0 ==> n == DEFAULT_NVARCHAR_LENGTH
  {
    if maxLength.Some? && maxLength.value > 0 then maxLength.value else DEFAULT_NVARCHAR_LENGTH
  }

  /** The physical SQL type of a column. */
  function PhysicalType(sqlType: string, maxLength: Option<int>): string {
    match sqlType
    case "INT" => "INT"
    case "FLOAT" => "DECIMAL(18, 4)"
    case "DATETIME2" => "DATETIME2(7)"
    case "BIT" => "BIT"
    case _ =>
      var length := NvarcharLength(maxLength);
      if length > MAX_NVARCHAR_LENGTH then "NVARCHAR(MAX)" else "NVARCHAR(" + IntToString(length) + ")"
  }

  /** Any type string other than the four known ones, "NVARCHAR", "MONEY" and
      "VARCHAR" included, becomes NVARCHAR: MAX above 4000 characters, otherwise a
      length between 1 and 4000 that is MaxLength when positive and 255 when not. */
  lemma OtherTypesAreNvarchar(sqlType: string, maxLength: Option<int>)
    requires sqlType !in {"INT", "FLOAT", "DATETIME2", "BIT"}
    ensures var n := NvarcharLength(maxLength);
      if n > MAX_NVARCHAR_LENGTH then PhysicalType(sqlType, maxLength) == "NVARCHAR(MAX)"
      else 1 <= n <= MAX_NVARCHAR_LENGTH && PhysicalType(sqlType, maxLength) == "NVARCHAR(" + NatToString(n) + ")"
  {
  }

  /** GenerateColumnDefinition: "[name] TYPE NULL"; every column is nullable. */
  function GenerateColumnDefinition(col: Column): string {
    "[" + col.columnName + "] " + PhysicalType(col.sqlType, col.maxLength) + " NULL"
  }

  /** The line of one column: indented, and ended with a comma. */
  function ColumnLine(col: Column): string {
    "    " + GenerateColumnDefinition(col) + "," + NEW_LINE
  }

  /** The column lines of CREATE TABLE, one per column in order; each ends with a
      comma, the last one too. */
  function ColumnLines(cols: seq<Column>): string {
    if |cols| == 0 then "" else ColumnLines(cols[..|cols| - 1]) + ColumnLine(cols[|cols| - 1])
  }

  /** Even the last column line ends in ",\r\n", so without the period columns of a
      temporal table the column list ends with a trailing comma. */
  lemma LastColumnLineEndsWithComma(cols: seq<Column>)
    requires |cols| >= 1
    ensures var lines := ColumnLines(cols); |lines| >= 3 && lines[|lines| - 3..] == "," + NEW_LINE
  {
  }

  const SYS_START_LINE: string := "    SysStartTime DATETIME2 GENERATED ALWAYS AS ROW START NOT NULL," + NEW_LINE
  const SYS_END_LINE: string := "    SysEndTime DATETIME2 GENERATED ALWAYS AS ROW END NOT NULL," + NEW_LINE
  const PERIOD_LINE: string := "    PERIOD FOR SYSTEM_TIME (SysStartTime, SysEndTime)" + NEW_LINE
  const CLOSE_LINE: string := ")" + NEW_LINE
  const END_LINE: string := ";" + NEW_LINE

  function VersioningClause(historyTableName: string): string {
    "WITH (SYSTEM_VERSIONING = ON (HISTORY_TABLE = " + historyTableName + ", DATA_CONSISTENCY_CHECK = ON));" + NEW_LINE
  }

  /** The first two lines of CREATE TABLE. */
  function CreateHeader(fullTableName: string): string {
    "CREATE TABLE " + fullTableName + NEW_LINE + "(" + NEW_LINE
  }

  /** The CREATE TABLE statement. */
  function CreateTableText(cols: seq<Column>, tableName: string, schemaName: string,
                           isTemporal: bool, isTemporary: bool, autoAppend: bool): string
  {
    var body := CreateHeader(CreateTableName(tableName, schemaName, isTemporal, isTemporary, autoAppend)) + ColumnLines(cols);
    var columns := if isTemporal then body + SYS_START_LINE + SYS_END_LINE + PERIOD_LINE else body;
    columns + CLOSE_LINE + (if isTemporal then VersioningClause(HistoryTableName(tableName, schemaName, isTemporary)) else END_LINE)
  }

  /** The statement opens with the created table and the column lines. A
      non-temporal table closes with ")" and ";"; a temporal one ends with the
      versioning clause, which names the history table. */
  lemma CreateTableShape(cols: seq<Column>, tableName: string, schemaName: string,
                         isTemporal: bool, isTemporary: bool, autoAppend: bool)
    ensures var text := CreateTableText(cols, tableName, schemaName, isTemporal, isTemporary, autoAppend);
      && CreateHeader(CreateTableName(tableName, schemaName, isTemporal, isTemporary, autoAppend)) + ColumnLines(cols) <= text
      && (isTemporal ==> EndsWith(text, VersioningClause(HistoryTableName(tableName, schemaName, isTemporary))))
      && (!isTemporal ==> EndsWith(text, CLOSE_LINE + END_LINE))
  {
    var body := CreateHeader(CreateTableName(tableName, schemaName, isTemporal, isTemporary, autoAppend)) + ColumnLines(cols);
    if isTemporal {
      AppendedShape(body, SYS_START_LINE, SYS_END_LINE, PERIOD_LINE, CLOSE_LINE);
      var clause := VersioningClause(HistoryTableName(tableName, schemaName, isTemporary));
      EndsWithAppend(body + SYS_START_LINE + SYS_END_LINE + PERIOD_LINE + CLOSE_LINE, clause);
      assert body <= body + SYS_START_LINE + SYS_END_LINE + PERIOD_LINE + CLOSE_LINE + clause;
    } else {
      AppendedTwice(body, CLOSE_LINE, END_LINE);
    }
  }

  /** The history table is never the table created: their names differ in length. */
  lemma HistoryTableIsSeparate(tableName: string, schemaName: string, isTemporal: bool, isTemporary: bool, autoAppend: bool)
    ensures HistoryTableName(tableName, schemaName, isTemporary)
         != CreateTableName(tableName, schemaName, isTemporal, isTemporary, autoAppend)
  {
    assert |HistoryTableName(tableName, schemaName, isTemporary)|
        != |CreateTableName(tableName, schemaName, isTemporal, isTemporary, autoAppend)|;
  }

  /** The column loop of GenerateCreateTableStatement. Both of its branches, the
      one for the last column included, append the line with a comma. */
  method ColumnDefinitionLines(cols: seq<Column>) returns (lines: string)
    ensures lines == ColumnLines(cols)
  {
    lines := "";
    for i := 0 to |cols|
      invariant lines == ColumnLines(cols[..i])
    {
      var colDef := GenerateColumnDefinition(cols[i]);
      var line := "    " + colDef + "," + NEW_LINE;
      ColumnLinesSnoc(cols, i);
      if i < |cols| - 1 {
        lines := lines + line;
      } else {
        lines := lines + line;
      }
    }
    assert cols[..|cols|] == cols;
  }

  /** One more column adds its line at the end. */
  lemma ColumnLinesSnoc(cols: seq<Column>, i: nat)
    requires i < |cols|
    ensures ColumnLines(cols[..i + 1]) == ColumnLines(cols[..i]) + ColumnLine(cols[i])
  {
    assert cols[..i + 1][..i] == cols[..i];
  }

  /** GenerateCreateTableStatement: builds the statement line by line. */
  method GenerateCreateTableStatement(schema: DataTableSchema, tableName: string, schemaName: string,
                                      isTemporal: bool, isTemporary: bool, autoAppend: bool)
    returns (text: string)
    ensures text == CreateTableText(schema.Columns(), tableName, schemaName, isTemporal, isTemporary, autoAppend)
  {
    var suffix := if isTemporal && autoAppend then TEMPORAL_SUFFIX else "";
    var fullTableName: string;
    var historyTableName: string;
    if isTemporary {
      fullTableName := "[#" + tableName + suffix + "]";
      historyTableName := "[#" + tableName + HISTORY_SUFFIX + "]";
    } else {
      fullTableName := "[" + schemaName + "].[" + tableName + suffix + "]";
      historyTableName := "[" + schemaName + "].[" + tableName + HISTORY_SUFFIX + "]";
    }
    var sb := "CREATE TABLE " + fullTableName + NEW_LINE;
    sb := sb + "(" + NEW_LINE;
    var lines := ColumnDefinitionLines(schema.Columns());
    sb := sb + lines;
    if isTemporal {
      sb := sb + SYS_START_LINE;
      sb := sb + SYS_END_LINE;
      sb := sb + PERIOD_LINE;
    }
    sb := sb + CLOSE_LINE;
    if isTemporal {
      sb := sb + VersioningClause(historyTableName);
    } else {
      sb := sb + END_LINE;
    }
    text := sb;
  }

  // ---------------------------------------------------------------------------
  // Value formatting

  /** A date and time as DateTime holds it; `ticks` counts 100 ns within the second. */
  datatype DateTime = DateTime(year: nat, month: nat, day: nat, hour: nat, minute: nat, second: nat, ticks: nat)

  predicate ValidDateTime(dt: DateTime) {
    1 <= dt.year <= 9999 && 1 <= dt.month <= 12 && 1 <= dt.day <= 31
    && dt.hour < 24 && dt.minute < 60 && dt.second < 60 && dt.ticks < 10_000_000
  }

  /** DateTime.TryParse with the invariant culture and then with the current culture;
      the culture is the caller's, so the parser is a parameter. */
  type DateParser = string -> Option<DateTime>

  /** A number in decimal with zeros on the left up to the given width. */
  function ZeroPad(n: nat, width: nat): (s: string)
    ensures AllDigits(s)
  {
    var digits := NatToString(n);
    if |digits| >= width then digits else seq(width - |digits|, _ => '0') + digits
  }

  lemma ZeroPadLength(n: nat, width: nat)
    requires width >= 1 && n < Pow10(width)
    ensures |ZeroPad(n, width)| == width
  {
    NatToStringShort(n, width);
  }

  /** The format "yyyy-MM-dd HH:mm:ss.fffffff". */
  function FormatDateTime(dt: DateTime): string {
    ZeroPad(dt.year, 4) + "-" + ZeroPad(dt.month, 2) + "-" + ZeroPad(dt.day, 2) + " "
    + ZeroPad(dt.hour, 2) + ":" + ZeroPad(dt.minute, 2) + ":" + ZeroPad(dt.second, 2) + "."
    + ZeroPad(dt.ticks, 7)
  }

  /** A valid date prints as exactly 27 characters, the width of the format. */
  lemma FormatDateTimeLength(dt: DateTime)
    requires ValidDateTime(dt)
    ensures |FormatDateTime(dt)| == 27
  {
    assert Pow10(2) == 100;
    assert Pow10(4) == 10_000;
    assert Pow10(7) == 10_000_000;
    ZeroPadLength(dt.year, 4);
    ZeroPadLength(dt.month, 2);
    ZeroPadLength(dt.day, 2);
    ZeroPadLength(dt.hour, 2);
    ZeroPadLength(dt.minute, 2);
    ZeroPadLength(dt.second, 2);
    ZeroPadLength(dt.ticks, 7);
  }

  function FormatDateTimeValue(value: string, parseDate: DateParser): string {
    match parseDate(value)
    case Some(dt) => "'" + FormatDateTime(dt) + "'"
    case None => NULL_LITERAL
  }

  /** EscapeSqlString: every single quote doubled. */
  function EscapeSqlString(s: string): (r: string)
    ensures |r| == |s| + Count(s, '\'')
  {
    if |s| == 0 then "" else (if s[0] == '\'' then "''" else [s[0]]) + EscapeSqlString(s[1..])
  }

  /** The inverse of EscapeSqlString: every doubled quote undoubled. */
  function UnescapeSqlString(s: string): string {
    if |s| >= 2 && s[0] == '\'' && s[1] == '\'' then "'" + UnescapeSqlString(s[2..])
    else if |s| == 0 then ""
    else [s[0]] + UnescapeSqlString(s[1..])
  }

  /** Quotes only in pairs: text that cannot close the literal it stands in. */
  predicate QuotesDoubled(s: string) {
    if |s| == 0 then true
    else if s[0] == '\'' then |s| >= 2 && s[1] == '\'' && QuotesDoubled(s[2..])
    else QuotesDoubled(s[1..])
  }

  /** Escaping can be undone, and its result holds quotes only in pairs. */
  lemma {:induction false} EscapeRoundTrip(s: string)
    ensures UnescapeSqlString(EscapeSqlString(s)) == s
    ensures QuotesDoubled(EscapeSqlString(s))
  {
    if |s| > 0 {
      var e := EscapeSqlString(s);
      EscapeRoundTrip(s[1..]);
      if s[0] == '\'' {
        assert e == "''" + EscapeSqlString(s[1..]);
        assert e[2..] == EscapeSqlString(s[1..]);
      } else {
        assert e == [s[0]] + EscapeSqlString(s[1..]);
        assert e[1..] == EscapeSqlString(s[1..]);
      }
    }
  }

  /** FormatIntValue: every '.' and ',' removed, then int, then long parsing. */
  function FormatIntValue(value: string): string {
    var normalized := RemoveAll(value, {'.', ','});
    match TryParseInt32(normalized)
    case Some(i) => IntToString(i)
    case None =>
      match TryParseInt64(normalized)
      case Some(l) => IntToString(l)
      case None => NULL_LITERAL
  }

  /** The int attempt is subsumed by the long one: the result is the 64-bit value of
      the text without separators, or NULL. So "1.5" and "1,5" both give 15. */
  lemma FormatIntValueIsInt64(value: string)
    ensures FormatIntValue(value) ==
      match TryParseInt64(RemoveAll(value, {'.', ','}))
      case Some(l) => IntToString(l)
      case None => NULL_LITERAL
  {
    var normalized := RemoveAll(value, {'.', ','});
    if TryParseInt32(normalized).Some? {
      Int32IsInt64(normalized);
    }
  }

  /** FormatFloatValue: every '.' removed, then ',' made the decimal point. */
  function FormatFloatValue(value: string): string {
    match ParseDecimal(FloatText(value))
    case Some(d) => FormatDecimal(d)
    case None => NULL_LITERAL
  }

  /** The text FormatFloatValue parses: every '.' removed, then ',' made the point. */
  function FloatText(value: string): string {
    ReplaceChar(RemoveAll(value, {'.'}), ',', '.')
  }

  lemma CommaBecomesPoint(a: string, b: string)
    requires AllDigits(a) && AllDigits(b)
    ensures FloatText(a + "," + b) == a + "." + b
  {
    var s := a + "," + b;
    RemoveAllAbsent(s, {'.'});
  }

  lemma PointDropped(a: string, b: string)
    requires AllDigits(a) && AllDigits(b)
    ensures FloatText(a + "." + b) == a + b
  {
    assert RemoveAll(a + "." + b, {'.'}) == a + b by {
      RemoveAllAppend(a + ".", b, {'.'});
      RemoveAllAppend(a, ".", {'.'});
      RemoveAllAbsent(a, {'.'});
      RemoveAllAbsent(b, {'.'});
      assert RemoveAll(".", {'.'}) == "";
      assert a + "" == a;
    }
    assert forall i :: 0 <= i < |a + b| ==> IsDigit((a + b)[i]);
    ReplaceCharAbsent(a + b, ',', '.');
  }

  /** A European decimal comma becomes the point: digits a, a comma and digits b
      give the literal a.b, without leading zeros in a ("0,0673" gives 0.0673). */
  lemma FloatDecimalComma(a: string, b: string)
    requires |a| >= 1 && |b| >= 1 && AllDigits(a) && AllDigits(b)
    ensures FormatFloatValue(a + "," + b) == StripLeadingZeros(a) + "." + b
  {
    CommaBecomesPoint(a, b);
    ParsePointDecimal(a, b);
    var whole := StripLeadingZeros(a);
    assert FormatDecimal(Decimal(false, a, b)) == "" + whole + ("." + b);
    AppendAssociative(whole, ".", b);
    assert "" + whole == whole;
  }

  /** A decimal point is taken for a group separator and dropped: digits a, a point
      and digits b give the integer ab ("19.99" gives 1999). */
  lemma FloatDecimalPointDropped(a: string, b: string)
    requires |a| >= 1 && AllDigits(a) && AllDigits(b)
    ensures FormatFloatValue(a + "." + b) == StripLeadingZeros(a + b)
  {
    AllDigitsAppend(a, b);
    PointDropped(a, b);
    ParseDigitsDecimal(a + b);
    FormatWholeDecimal(a + b);
  }

  const TRUE_WORDS: seq<string> := ["true", "yes", "1", "on", "t", "y"]
  const FALSE_WORDS: seq<string> := ["false", "no", "0", "off", "f", "n"]

  /** The text FormatBooleanValue looks up: lower-cased, trimmed, '.' and ',' dropped. */
  function BooleanKey(value: string): string {
    RemoveAll(Trim(ToLower(value)), {'.', ','})
  }

  /** FormatBooleanValue: 1 for a true word, 0 for a false word, NULL otherwise. */
  function FormatBooleanValue(value: string): (r: string)
    ensures r == "1" || r == "0" || r == NULL_LITERAL
  {
    var lower := Trim(ToLower(value));
    var cleaned := RemoveAll(lower, {'.', ','});
    if cleaned in TRUE_WORDS then "1"
    else if cleaned in FALSE_WORDS then "0"
    else NULL_LITERAL
  }

  /** No word is both true and false, so the order of the two look-ups is immaterial. */
  lemma BooleanWordsDisjoint()
    ensures forall w | w in TRUE_WORDS :: w !in FALSE_WORDS
  {
  }

  /** A BIT value is 1 exactly for the true words and 0 exactly for the false words,
      ignoring case, surrounding white space and '.' and ','; anything else is NULL. */
  lemma BooleanValueMeaning(value: string)
    ensures FormatBooleanValue(value) == "1" <==> BooleanKey(value) in TRUE_WORDS
    ensures FormatBooleanValue(value) == "0" <==> BooleanKey(value) in FALSE_WORDS
    ensures FormatBooleanValue(value) == NULL_LITERAL <==>
      BooleanKey(value) !in TRUE_WORDS && BooleanKey(value) !in FALSE_WORDS
  {
    BooleanWordsDisjoint();
  }

  /** The value is SQL NULL: blank, or "NULL" in any case. */
  predicate IsNullValue(value: string) {
    IsBlank(value) || EqualsIgnoreCase(value, NULL_LITERAL)
  }

  /** FormatSqlValue: the SQL literal for one value of a column of the given type. */
  function FormatSqlValue(value: string, sqlType: string, parseDate: DateParser): string {
    if IsBlank(value) then NULL_LITERAL
    else if EqualsIgnoreCase(value, NULL_LITERAL) then NULL_LITERAL
    else
      match sqlType
      case "INT" => FormatIntValue(value)
      case "FLOAT" => FormatFloatValue(value)
      case "DATETIME2" => FormatDateTimeValue(value, parseDate)
      case "BIT" => FormatBooleanValue(value)
      case _ => "'" + EscapeSqlString(value) + "'"
  }

  /** Blank values and "NULL" in any case are NULL whatever the column type; for a
      text column nothing else is: "N/A" stays the string 'N/A'. */
  lemma NullValues(value: string, sqlType: string, parseDate: DateParser)
    ensures IsNullValue(value) ==> FormatSqlValue(value, sqlType, parseDate) == NULL_LITERAL
    ensures sqlType !in {"INT", "FLOAT", "DATETIME2", "BIT"} ==>
      (FormatSqlValue(value, sqlType, parseDate) == NULL_LITERAL <==> IsNullValue(value))
  {
  }

  lemma NotApplicableIsText(parseDate: DateParser)
    ensures FormatSqlValue("N/A", "NVARCHAR", parseDate) == "'N/A'"
  {
    assert ToUpper("N/A") == "N/A";
    assert !IsBlank("N/A") by { assert !IsWhiteSpace("N/A"[0]); }
  }

  /** A value of any other type, "MONEY" and "VARCHAR" included, is quoted with its
      quotes doubled: two characters longer plus one per quote, and undoubling the
      inside gives the value back. */
  lemma TextValueQuoted(value: string, sqlType: string, parseDate: DateParser)
    requires !IsNullValue(value) && sqlType !in {"INT", "FLOAT", "DATETIME2", "BIT"}
    ensures var r := FormatSqlValue(value, sqlType, parseDate);
      |r| == |value| + 2 + Count(value, '\'')
      && r[0] == '\'' && r[|r| - 1] == '\''
      && UnescapeSqlString(r[1..|r| - 1]) == value
      && QuotesDoubled(r[1..|r| - 1])
  {
    var r := FormatSqlValue(value, sqlType, parseDate);
    assert r[1..|r| - 1] == EscapeSqlString(value);
    EscapeRoundTrip(value);
  }

  /** A SQL literal that cannot break out of the statement: NULL, a plain number, or a
      quoted string whose quotes inside are doubled. */
  predicate IsSafeLiteral(s: string) {
    s == NULL_LITERAL || IsNumericLiteral(s)
    || (|s| >= 2 && s[0] == '\'' && s[|s| - 1] == '\'' && QuotesDoubled(s[1..|s| - 1]))
  }

  lemma {:induction false} DigitsHaveNoQuotes(s: string)
    requires AllDigits(s)
    ensures QuotesDoubled(s)
  {
    if |s| > 0 {
      DigitsHaveNoQuotes(s[1..]);
    }
  }

  lemma {:induction false} QuotesDoubledAppend(a: string, b: string)
    requires QuotesDoubled(a) && QuotesDoubled(b)
    ensures QuotesDoubled(a + b)
    decreases |a|
  {
    if |a| > 0 {
      assert (a + b)[0] == a[0];
      if a[0] == '\'' {
        assert (a + b)[1] == a[1];
        assert (a + b)[2..] == a[2..] + b;
        QuotesDoubledAppend(a[2..], b);
      } else {
        assert (a + b)[1..] == a[1..] + b;
        QuotesDoubledAppend(a[1..], b);
      }
    } else {
      assert a + b == b;
    }
  }

  lemma DateTextHasNoQuotes(dt: DateTime)
    ensures QuotesDoubled(FormatDateTime(dt))
  {
    var parts := [ZeroPad(dt.year, 4), "-", ZeroPad(dt.month, 2), "-", ZeroPad(dt.day, 2), " ",
                  ZeroPad(dt.hour, 2), ":", ZeroPad(dt.minute, 2), ":", ZeroPad(dt.second, 2), ".",
                  ZeroPad(dt.ticks, 7)];
    DigitsHaveNoQuotes(ZeroPad(dt.year, 4));
    DigitsHaveNoQuotes(ZeroPad(dt.month, 2));
    DigitsHaveNoQuotes(ZeroPad(dt.day, 2));
    DigitsHaveNoQuotes(ZeroPad(dt.hour, 2));
    DigitsHaveNoQuotes(ZeroPad(dt.minute, 2));
    DigitsHaveNoQuotes(ZeroPad(dt.second, 2));
    DigitsHaveNoQuotes(ZeroPad(dt.ticks, 7));
    var acc := ZeroPad(dt.year, 4);
    QuotesDoubledAppend(acc, "-");
    acc := acc + "-";
    QuotesDoubledAppend(acc, ZeroPad(dt.month, 2));
    acc := acc + ZeroPad(dt.month, 2);
    QuotesDoubledAppend(acc, "-");
    acc := acc + "-";
    QuotesDoubledAppend(acc, ZeroPad(dt.day, 2));
    acc := acc + ZeroPad(dt.day, 2);
    QuotesDoubledAppend(acc, " ");
    acc := acc + " ";
    QuotesDoubledAppend(acc, ZeroPad(dt.hour, 2));
    acc := acc + ZeroPad(dt.hour, 2);
    QuotesDoubledAppend(acc, ":");
    acc := acc + ":";
    QuotesDoubledAppend(acc, ZeroPad(dt.minute, 2));
    acc := acc + ZeroPad(dt.minute, 2);
    QuotesDoubledAppend(acc, ":");
    acc := acc + ":";
    QuotesDoubledAppend(acc, ZeroPad(dt.second, 2));
    acc := acc + ZeroPad(dt.second, 2);
    QuotesDoubledAppend(acc, ".");
    acc := acc + ".";
    QuotesDoubledAppend(acc, ZeroPad(dt.ticks, 7));
    acc := acc + ZeroPad(dt.ticks, 7);
    assert acc == FormatDateTime(dt);
  }

  lemma IntValueIsSafe(value: string)
    ensures IsSafeLiteral(FormatIntValue(value))
  {
    FormatIntValueIsInt64(value);
    var parsed := TryParseInt64(RemoveAll(value, {'.', ','}));
    if parsed.Some? {
      IntToStringIsLiteral(parsed.value);
    }
  }

  lemma FloatValueIsSafe(value: string)
    ensures IsSafeLiteral(FormatFloatValue(value))
  {
    var parsed := ParseDecimal(FloatText(value));
    if parsed.Some? {
      FormatDecimalIsLiteral(parsed.value);
    }
  }

  lemma DateTimeValueIsSafe(value: string, parseDate: DateParser)
    ensures IsSafeLiteral(FormatDateTimeValue(value, parseDate))
  {
    var r := FormatDateTimeValue(value, parseDate);
    if parseDate(value).Some? {
      var dt := parseDate(value).value;
      DateTextHasNoQuotes(dt);
      assert r[1..|r| - 1] == FormatDateTime(dt);
    }
  }

  lemma BooleanValueIsSafe(value: string)
    ensures IsSafeLiteral(FormatBooleanValue(value))
  {
    BitLiteralsSafe();
  }

  /** The three literals a BIT value can print as are safe. */
  lemma BitLiteralsSafe()
    ensures IsSafeLiteral("1") && IsSafeLiteral("0") && IsSafeLiteral(NULL_LITERAL)
  {
    assert IsNumericLiteral("1") by { assert FirstDot("1") == 1; }
    assert IsNumericLiteral("0") by { assert FirstDot("0") == 1; }
  }

  /** Every formatted value is a safe literal, whatever the text and the type. */
  lemma FormattedValueIsSafe(value: string, sqlType: string, parseDate: DateParser)
    ensures IsSafeLiteral(FormatSqlValue(value, sqlType, parseDate))
  {
    if !IsNullValue(value) {
      if sqlType == "INT" {
        IntValueIsSafe(value);
      } else if sqlType == "FLOAT" {
        FloatValueIsSafe(value);
      } else if sqlType == "DATETIME2" {
        DateTimeValueIsSafe(value, parseDate);
      } else if sqlType == "BIT" {
        BooleanValueIsSafe(value);
      } else {
        TextValueQuoted(value, sqlType, parseDate);
      }
    }
  }

  // ---------------------------------------------------------------------------
  // INSERT statements

  /** The literal for a value, given the SQL type of its column. */
  type ValueFormatter = (string, string) -> string

  /** FormatSqlValue with the date parser of the running culture. */
  function SqlLiteral(parseDate: DateParser): ValueFormatter {
    (value, sqlType) => FormatSqlValue(value, sqlType, parseDate)
  }

  /** The value a row holds for a column. Only a row with at least as many values as
      there are columns is formatted: a shorter one makes GenerateSql fail before. */
  function ValueAt(row: seq<string>, j: nat): string {
    if j < |row| then row[j] else ""
  }

  /** Every row has a value for every column. */
  predicate RowsCoverColumns(rows: seq<seq<string>>, columnCount: nat) {
    forall k :: 0 <= k < |rows| ==> |rows[k]| >= columnCount
  }

  /** "[name]" for every column, in column order. */
  function BracketedNames(cols: seq<Column>): (r: seq<string>)
    ensures |r| == |cols| && forall j :: 0 <= j < |cols| ==> r[j] == "[" + cols[j].columnName + "]"
  {
    if |cols| == 0 then [] else BracketedNames(cols[..|cols| - 1]) + ["[" + cols[|cols| - 1].columnName + "]"]
  }

  /** The literals of one row, one per column in column order. */
  function FormattedValues(cols: seq<Column>, row: seq<string>, format: ValueFormatter): (r: seq<string>)
    ensures |r| == |cols|
  {
    if |cols| == 0 then []
    else FormattedValues(cols[..|cols| - 1], row, format) + [format(ValueAt(row, |cols| - 1), cols[|cols| - 1].sqlType)]
  }

  /** Literal j of a row is the formatted value of column j. */
  lemma {:induction false} FormattedValueAt(cols: seq<Column>, row: seq<string>, format: ValueFormatter, j: nat)
    requires j < |cols|
    ensures FormattedValues(cols, row, format)[j] == format(ValueAt(row, j), cols[j].sqlType)
  {
    if j < |cols| - 1 {
      FormattedValueAt(cols[..|cols| - 1], row, format, j);
    }
  }

  /** One row tuple: "    (v1, v2, ...)". */
  function TupleText(cols: seq<Column>, row: seq<string>, format: ValueFormatter): string {
    "    (" + Join(FormattedValues(cols, row, format), ", ") + ")"
  }

  /** The tuples of a list of rows, in row order. */
  function Tuples(cols: seq<Column>, rows: seq<seq<string>>, format: ValueFormatter): (r: seq<string>)
    ensures |r| == |rows|
  {
    if |rows| == 0 then []
    else Tuples(cols, rows[..|rows| - 1], format) + [TupleText(cols, rows[|rows| - 1], format)]
  }

  /** A list holding the tuple of every row, in row order, is Tuples. */
  lemma TuplesPointwise(cols: seq<Column>, rows: seq<seq<string>>, format: ValueFormatter, tuples: seq<string>)
    requires |tuples| == |rows|
    requires forall k :: 0 <= k < |rows| ==> tuples[k] == TupleText(cols, rows[k], format)
    ensures tuples == Tuples(cols, rows, format)
  {
    forall k | 0 <= k < |rows| ensures tuples[k] == Tuples(cols, rows, format)[k] {
      TupleAt(cols, rows, format, k);
    }
  }

  /** A row short of the columns makes the rows short of them. */
  lemma ShortRow(rows: seq<seq<string>>, i: nat, n: nat)
    requires i < |rows| && |rows[i]| < n
    ensures !RowsCoverColumns(rows, n)
  {
  }

  /** Tuple k is the tuple of row k. */
  lemma {:induction false} TupleAt(cols: seq<Column>, rows: seq<seq<string>>, format: ValueFormatter, k: nat)
    requires k < |rows|
    ensures Tuples(cols, rows, format)[k] == TupleText(cols, rows[k], format)
  {
    if k < |rows| - 1 {
      TupleAt(cols, rows[..|rows| - 1], format, k);
    }
  }

  function Min(a: int, b: int): int {
    if a <= b then a else b
  }

  /** (totalRows + BATCH_SIZE - 1) / BATCH_SIZE. */
  function BatchCount(totalRows: nat): nat {
    (totalRows + BATCH_SIZE - 1) / BATCH_SIZE
  }

  /** The number of batches is the ceiling of rows / 1000: none for no rows, and the
      batches hold all rows with fewer than 1000 places to spare. */
  lemma BatchCountIsCeiling(totalRows: nat)
    ensures BatchCount(totalRows) * BATCH_SIZE >= totalRows
    ensures totalRows > 0 ==> (BatchCount(totalRows) - 1) * BATCH_SIZE < totalRows
    ensures totalRows == 0 <==> BatchCount(totalRows) == 0
  {
  }

  /** Batch b: rows [1000 b, min(1000 b + 1000, N)), clipped to the rows there are. */
  function Batch(rows: seq<seq<string>>, b: nat): seq<seq<string>> {
    rows[Min(b * BATCH_SIZE, |rows|)..Min(b * BATCH_SIZE + BATCH_SIZE, |rows|)]
  }

  /** Every batch the loop emits has between 1 and 1000 rows, and position i of
      batch b holds row 1000 b + i. */
  lemma BatchRows(rows: seq<seq<string>>, b: nat)
    requires b < BatchCount(|rows|)
    ensures 1 <= |Batch(rows, b)| <= BATCH_SIZE
    ensures forall i :: 0 <= i < |Batch(rows, b)| ==>
      b * BATCH_SIZE + i < |rows| && Batch(rows, b)[i] == rows[b * BATCH_SIZE + i]
  {
    BatchCountIsCeiling(|rows|);
  }

  /** Batch b of those the loop emits starts at row 1000 b, inside the rows. */
  lemma BatchBounds(totalRows: nat, b: nat)
    requires b < BatchCount(totalRows)
    ensures b * BATCH_SIZE < totalRows
    ensures Min(b * BATCH_SIZE, totalRows) == b * BATCH_SIZE
    ensures Min((b + 1) * BATCH_SIZE, totalRows) == Min(b * BATCH_SIZE + BATCH_SIZE, totalRows)
  {
    BatchCountIsCeiling(totalRows);
  }

  /** The rows of the first k batches, one batch after the other. */
  function BatchedRows(rows: seq<seq<string>>, k: nat): seq<seq<string>> {
    if k == 0 then [] else BatchedRows(rows, k - 1) + Batch(rows, k - 1)
  }

  /** The first k batches are the first min(1000 k, N) rows, in order. */
  lemma {:induction false} BatchedRowsPrefix(rows: seq<seq<string>>, k: nat)
    ensures BatchedRows(rows, k) == rows[..Min(k * BATCH_SIZE, |rows|)]
  {
    if k > 0 {
      BatchedRowsPrefix(rows, k - 1);
      var a := Min((k - 1) * BATCH_SIZE, |rows|);
      var b := Min(k * BATCH_SIZE, |rows|);
      assert rows[..a] + rows[a..b] == rows[..b];
    }
  }

  /** All batches together are exactly the rows, each once and in order. */
  lemma BatchesPartitionRows(rows: seq<seq<string>>)
    ensures BatchedRows(rows, BatchCount(|rows|)) == rows
  {
    BatchedRowsPrefix(rows, BatchCount(|rows|));
    BatchCountIsCeiling(|rows|);
    assert rows[..|rows|] == rows;
  }

  /** The first two lines of every INSERT: the target and the full column list. */
  function InsertHeader(fullTableName: string, cols: seq<Column>): string {
    "INSERT INTO " + fullTableName + " (" + Join(BracketedNames(cols), ", ") + ")" + NEW_LINE + "VALUES" + NEW_LINE
  }

  /** One INSERT statement for one batch of rows. */
  function BatchStatement(fullTableName: string, cols: seq<Column>, batch: seq<seq<string>>, format: ValueFormatter): string {
    InsertHeader(fullTableName, cols) + Join(Tuples(cols, batch, format), "," + NEW_LINE) + NEW_LINE + ";" + NEW_LINE
  }

  /** The statements of the first k batches. */
  function Statements(fullTableName: string, cols: seq<Column>, rows: seq<seq<string>>, format: ValueFormatter, k: nat): (r: seq<string>)
    ensures |r| == k
    ensures forall b :: 0 <= b < k ==> r[b] == BatchStatement(fullTableName, cols, Batch(rows, b), format)
  {
    if k == 0 then []
    else Statements(fullTableName, cols, rows, format, k - 1) + [BatchStatement(fullTableName, cols, Batch(rows, k - 1), format)]
  }

  /** The text of the first k of count batches as the loop appends it: each
      statement followed by an empty line, except the last of all. */
  function InsertsUpTo(fullTableName: string, cols: seq<Column>, rows: seq<seq<string>>, format: ValueFormatter,
                       count: nat, k: nat): string
  {
    if k == 0 then ""
    else InsertsUpTo(fullTableName, cols, rows, format, count, k - 1)
         + BatchStatement(fullTableName, cols, Batch(rows, k - 1), format)
         + (if k < count then NEW_LINE else "")
  }

  /** All INSERT statements. */
  function InsertText(fullTableName: string, cols: seq<Column>, rows: seq<seq<string>>, format: ValueFormatter): string {
    var count := BatchCount(|rows|);
    InsertsUpTo(fullTableName, cols, rows, format, count, count)
  }

  /** The appended text is the statements joined by an empty line. */
  lemma {:induction false} InsertsUpToIsJoin(fullTableName: string, cols: seq<Column>, rows: seq<seq<string>>,
                                             format: ValueFormatter, count: nat, k: nat)
    requires 1 <= k <= count
    ensures InsertsUpTo(fullTableName, cols, rows, format, count, k)
         == Join(Statements(fullTableName, cols, rows, format, k), NEW_LINE) + (if k < count then NEW_LINE else "")
  {
    var stmts := Statements(fullTableName, cols, rows, format, k);
    var last := BatchStatement(fullTableName, cols, Batch(rows, k - 1), format);
    var before := InsertsUpTo(fullTableName, cols, rows, format, count, k - 1);
    assert InsertsUpTo(fullTableName, cols, rows, format, count, k) == before + last + (if k < count then NEW_LINE else "");
    if k == 1 {
      assert stmts == [last];
    } else {
      var prev := Statements(fullTableName, cols, rows, format, k - 1);
      InsertsUpToIsJoin(fullTableName, cols, rows, format, count, k - 1);
      assert before == Join(prev, NEW_LINE) + NEW_LINE;
      assert stmts == prev + [last];
      JoinSnoc(prev, last, NEW_LINE);
    }
  }

  /** The INSERT statements are the statements of the batches, joined by an empty line. */
  lemma InsertTextIsJoin(fullTableName: string, cols: seq<Column>, rows: seq<seq<string>>, format: ValueFormatter)
    ensures InsertText(fullTableName, cols, rows, format)
         == Join(Statements(fullTableName, cols, rows, format, BatchCount(|rows|)), NEW_LINE)
  {
    var count := BatchCount(|rows|);
    if count > 0 {
      InsertsUpToIsJoin(fullTableName, cols, rows, format, count, count);
    }
  }

  /** Statement b: it starts with the header naming every column in order, and holds
      between 1 and 1000 tuples, the i-th of which is that of row 1000 b + i. */
  lemma StatementShape(fullTableName: string, cols: seq<Column>, rows: seq<seq<string>>, format: ValueFormatter, b: nat)
    requires b < BatchCount(|rows|)
    ensures InsertHeader(fullTableName, cols) <= Statements(fullTableName, cols, rows, format, BatchCount(|rows|))[b]
    ensures 1 <= |Tuples(cols, Batch(rows, b), format)| <= BATCH_SIZE
    ensures forall i :: 0 <= i < |Batch(rows, b)| ==>
      b * BATCH_SIZE + i < |rows| && Tuples(cols, Batch(rows, b), format)[i] == TupleText(cols, rows[b * BATCH_SIZE + i], format)
  {
    BatchRows(rows, b);
    forall i | 0 <= i < |Batch(rows, b)|
      ensures Tuples(cols, Batch(rows, b), format)[i] == TupleText(cols, rows[b * BATCH_SIZE + i], format)
    {
      TupleAt(cols, Batch(rows, b), format, i);
    }
  }

  /** There is one statement per batch, ceil(N / 1000) of them, and none for no rows. */
  lemma StatementCount(fullTableName: string, cols: seq<Column>, rows: seq<seq<string>>, format: ValueFormatter)
    ensures |Statements(fullTableName, cols, rows, format, BatchCount(|rows|))| * BATCH_SIZE >= |rows|
    ensures |rows| == 0 <==> Statements(fullTableName, cols, rows, format, BatchCount(|rows|)) == []
  {
    BatchCountIsCeiling(|rows|);
  }

  /** The inner loop of GenerateInsertStatements: the literals of one row, or None
      when the row has fewer values than there are columns. */
  method FormatRowValues(cols: seq<Column>, row: seq<string>, format: ValueFormatter)
    returns (values: Option<seq<string>>)
    ensures values.Some? <==> |row| >= |cols|
    ensures values.Some? ==> values.value == FormattedValues(cols, row, format)
  {
    var literals: seq<string> := [];
    for colIndex := 0 to |cols|
      invariant colIndex <= |row|
      invariant literals == FormattedValues(cols[..colIndex], row, format)
    {
      if colIndex >= |row| {
        return None;
      }
      assert cols[..colIndex + 1][..colIndex] == cols[..colIndex];
      literals := literals + [format(row[colIndex], cols[colIndex].sqlType)];
    }
    assert cols[..|cols|] == cols;
    return Some(literals);
  }

  /** The middle loop of GenerateInsertStatements: the tuples of rows start to end,
      or None when one of them has fewer values than there are columns. */
  method BatchTuples(cols: seq<Column>, rows: seq<seq<string>>, batchStart: nat, batchEnd: nat, format: ValueFormatter)
    returns (tuples: Option<seq<string>>)
    requires batchStart <= batchEnd <= |rows|
    ensures tuples == if RowsCoverColumns(rows[batchStart..batchEnd], |cols|)
                      then Some(Tuples(cols, rows[batchStart..batchEnd], format))
                      else None
  {
    ghost var batch := rows[batchStart..batchEnd];
    var batchValues: seq<string> := [];
    for rowIndex := batchStart to batchEnd
      invariant |batchValues| == rowIndex - batchStart
      invariant forall k :: 0 <= k < |batchValues| ==> batchValues[k] == TupleText(cols, batch[k], format)
      invariant forall k :: 0 <= k < rowIndex - batchStart ==> |batch[k]| >= |cols|
    {
      var row := rows[rowIndex];
      assert row == batch[rowIndex - batchStart];
      var values := FormatRowValues(cols, row, format);
      if values.None? {
        ShortRow(batch, rowIndex - batchStart, |cols|);
        return None;
      }
      batchValues := batchValues + ["    (" + Join(values.value, ", ") + ")"];
    }
    TuplesPointwise(cols, batch, format, batchValues);
    return Some(batchValues);
  }

  /** Rows cover the columns exactly when both parts of them do. */
  lemma RowsCoverAppend(a: seq<seq<string>>, b: seq<seq<string>>, n: nat)
    ensures RowsCoverColumns(a + b, n) <==> RowsCoverColumns(a, n) && RowsCoverColumns(b, n)
  {
    if RowsCoverColumns(a, n) && RowsCoverColumns(b, n) {
      forall k | 0 <= k < |a + b| ensures |(a + b)[k]| >= n {
        if k >= |a| { assert (a + b)[k] == b[k - |a|]; }
      }
    }
    if RowsCoverColumns(a + b, n) {
      forall k | 0 <= k < |a| ensures |a[k]| >= n {
        assert (a + b)[k] == a[k];
      }
      forall k | 0 <= k < |b| ensures |b[k]| >= n {
        assert (a + b)[|a| + k] == b[k];
      }
    }
  }

  /** A batch with a short row means the rows as a whole do not cover the columns. */
  lemma ShortBatchRow(rows: seq<seq<string>>, b: nat, n: nat)
    requires b < BatchCount(|rows|)
    requires !RowsCoverColumns(Batch(rows, b), n)
    ensures !RowsCoverColumns(rows, n)
  {
    BatchRows(rows, b);
    var i :| 0 <= i < |Batch(rows, b)| && |Batch(rows, b)[i]| < n;
    assert |rows[b * BATCH_SIZE + i]| < n;
  }

  /** One loop iteration of GenerateInsertStatements: the statement for batch b, or
      None when a row of that batch has fewer values than there are columns. */
  method BuildBatchStatement(fullTableName: string, columnList: string, cols: seq<Column>, rows: seq<seq<string>>,
                             batchIndex: nat, format: ValueFormatter)
    returns (statement: Option<string>)
    requires batchIndex < BatchCount(|rows|)
    requires columnList == Join(BracketedNames(cols), ", ")
    ensures statement == if RowsCoverColumns(Batch(rows, batchIndex), |cols|)
                         then Some(BatchStatement(fullTableName, cols, Batch(rows, batchIndex), format))
                         else None
  {
    var batchStart := batchIndex * BATCH_SIZE;
    var batchEnd := Min(batchStart + BATCH_SIZE, |rows|);
    BatchBounds(|rows|, batchIndex);
    var text := "INSERT INTO " + fullTableName + " (" + columnList + ")" + NEW_LINE;
    text := text + "VALUES" + NEW_LINE;
    var batchValues := BatchTuples(cols, rows, batchStart, batchEnd, format);
    if batchValues.None? {
      return None;
    }
    text := text + Join(batchValues.value, "," + NEW_LINE) + NEW_LINE;
    text := text + ";" + NEW_LINE;
    return Some(text);
  }

  /** The column list of the INSERT header: "[name]" for every column, joined by ", ". */
  method BracketedColumnList(cols: seq<Column>) returns (columnList: string)
    ensures columnList == Join(BracketedNames(cols), ", ")
  {
    var insertColumns: seq<string> := [];
    for i := 0 to |cols|
      invariant insertColumns == BracketedNames(cols[..i])
    {
      insertColumns := insertColumns + ["[" + cols[i].columnName + "]"];
      assert cols[..i + 1][..i] == cols[..i];
    }
    assert cols[..|cols|] == cols;
    columnList := Join(insertColumns, ", ");
  }

  /** The batch loop of GenerateInsertStatements: every statement, followed by an
      empty line except the last, or None at the first batch with a short row. */
  method AllBatchStatements(fullTableName: string, cols: seq<Column>, rows: seq<seq<string>>, format: ValueFormatter)
    returns (r: Option<string>)
    ensures r == if RowsCoverColumns(rows, |cols|) then Some(InsertText(fullTableName, cols, rows, format)) else None
  {
    var columnList := BracketedColumnList(cols);
    var batchCount := (|rows| + BATCH_SIZE - 1) / BATCH_SIZE;
    assert batchCount == BatchCount(|rows|);
    var sb := "";
    for batchIndex := 0 to batchCount
      invariant RowsCoverColumns(BatchedRows(rows, batchIndex), |cols|)
      invariant sb == InsertsUpTo(fullTableName, cols, rows, format, batchCount, batchIndex)
    {
      var statement := BuildBatchStatement(fullTableName, columnList, cols, rows, batchIndex, format);
      RowsCoverAppend(BatchedRows(rows, batchIndex), Batch(rows, batchIndex), |cols|);
      if statement.None? {
        ShortBatchRow(rows, batchIndex, |cols|);
        return None;
      }
      sb := sb + statement.value;
      if batchIndex < batchCount - 1 {
        sb := sb + NEW_LINE;
      }
    }
    BatchesPartitionRows(rows);
    return Some(sb);
  }

  /** GenerateInsertStatements: one INSERT per batch of at most 1000 rows. A row
      with fewer values than there are columns raises IndexOutOfRangeException.
      The value formatter is a parameter; GenerateSql passes SqlLiteral, that is
      FormatSqlValue with the culture's date parser. */
  method GenerateInsertStatements(schema: DataTableSchema, tableName: string, schemaName: string,
                                  isTemporary: bool, autoAppend: bool, format: ValueFormatter)
    returns (r: Result<string, GenerationError>)
    ensures r == if RowsCoverColumns(schema.dataRows, |schema.columns|)
                 then Success(InsertText(InsertTableName(tableName, schemaName, isTemporary, autoAppend),
                                         schema.Columns(), schema.dataRows, format))
                 else Failure(IndexOutOfRange)
  {
    var suffix := if autoAppend then TEMPORAL_SUFFIX else "";
    var fullTableName: string;
    if isTemporary {
      fullTableName := "[#" + tableName + suffix + "]";
    } else {
      fullTableName := "[" + schemaName + "].[" + tableName + suffix + "]";
    }
    assert fullTableName == InsertTableName(tableName, schemaName, isTemporary, autoAppend);
    var statements := AllBatchStatements(fullTableName, schema.Columns(), schema.dataRows, format);
    if statements.None? {
      return Failure(IndexOutOfRange);
    }
    return Success(statements.value);
  }

  // ---------------------------------------------------------------------------
  // The whole script

  /** The script the try block of GenerateSql builds once the name check has given
      `validation`, or the error it raises. */
  function ScriptAfter(validation: Option<GenerationError>, cols: seq<Column>, rows: seq<seq<string>>,
                       tableName: string, schemaName: string, isTemporal: bool, isTemporary: bool,
                       autoAppend: bool, parseDate: DateParser): Result<string, GenerationError>
  {
    match validation
    case Some(error) => Failure(error)
    case None =>
      if !RowsCoverColumns(rows, |cols|) then Failure(IndexOutOfRange)
      else
        var create := CreateTableText(cols, tableName, schemaName, isTemporal, isTemporary, autoAppend);
        var inserts := InsertText(InsertTableName(tableName, schemaName, isTemporary, autoAppend), cols, rows, SqlLiteral(parseDate));
        Success(create + NEW_LINE + NEW_LINE + inserts)
  }

  /** The try block of GenerateSql with the source's name check. */
  function Script(cols: seq<Column>, rows: seq<seq<string>>, tableName: string, schemaName: string,
                  isTemporal: bool, isTemporary: bool, autoAppend: bool, parseDate: DateParser): Result<string, GenerationError>
  {
    ScriptAfter(ValidateTableNameAsWritten(tableName), cols, rows, tableName, schemaName,
                isTemporal, isTemporary, autoAppend, parseDate)
  }

  /** The fields of the result GenerateSql fills in, given what its try block gave. */
  function Outcome(rowCount: int, tableName: string, schemaName: string, script: Result<string, GenerationError>): Conversion {
    var base := Conversion(false, "", rowCount, tableName, schemaName, None);
    match script
    case Success(sql) => base.(success := true, generatedSql := sql)
    case Failure(error) => base.(errorMessage := Some(error.Message()))
  }

  /** The result GenerateSql gives: the table name, schema and row count always; the
      script on success; on an error, no script and the exception's message. */
  function Generate(cols: seq<Column>, rows: seq<seq<string>>, tableName: string, schemaName: string,
                    isTemporal: bool, isTemporary: bool, autoAppend: bool, parseDate: DateParser): Conversion
  {
    Outcome(|rows|, tableName, schemaName,
      Script(cols, rows, tableName, schemaName, isTemporal, isTemporary, autoAppend, parseDate))
  }

  /** A conversion succeeds exactly when the name is valid and every row has a value
      for every column; then the script is the CREATE statement, an empty line and
      the INSERT statements, and otherwise there is no script and the message says why. */
  lemma GenerateOutcome(cols: seq<Column>, rows: seq<seq<string>>, tableName: string, schemaName: string,
                        isTemporal: bool, isTemporary: bool, autoAppend: bool, parseDate: DateParser)
    ensures var c := Generate(cols, rows, tableName, schemaName, isTemporal, isTemporary, autoAppend, parseDate);
      && c.tableName == tableName && c.schema == schemaName && c.rowCount == |rows|
      && (c.success <==> ValidateTableNameAsWritten(tableName) == None && RowsCoverColumns(rows, |cols|))
      && (!c.success ==> c.generatedSql == "" && c.errorMessage.Some?)
      && (ValidateTableNameAsWritten(tableName).Some? ==> c.errorMessage == Some(ValidateTableNameAsWritten(tableName).value.Message()))
      && (ValidateTableNameAsWritten(tableName).None? && !RowsCoverColumns(rows, |cols|) ==>
            c.errorMessage == Some(IndexOutOfRange.Message()))
      && (c.success ==>
            c.errorMessage == None
            && CreateTableText(cols, tableName, schemaName, isTemporal, isTemporary, autoAppend) + NEW_LINE + NEW_LINE
               <= c.generatedSql
            && EndsWith(c.generatedSql, InsertText(InsertTableName(tableName, schemaName, isTemporary, autoAppend),
                                                   cols, rows, SqlLiteral(parseDate))))
  {
    var c := Generate(cols, rows, tableName, schemaName, isTemporal, isTemporary, autoAppend, parseDate);
    if c.success {
      var head := CreateTableText(cols, tableName, schemaName, isTemporal, isTemporary, autoAppend) + NEW_LINE + NEW_LINE;
      EndsWithAppend(head, InsertText(InsertTableName(tableName, schemaName, isTemporary, autoAppend), cols, rows, SqlLiteral(parseDate)));
    }
  }

  /** GenerateSql with the corrected name check: the result the source evidently
      intends. */
  function GenerateIntended(cols: seq<Column>, rows: seq<seq<string>>, tableName: string, schemaName: string,
                            isTemporal: bool, isTemporary: bool, autoAppend: bool, parseDate: DateParser): Conversion
  {
    Outcome(|rows|, tableName, schemaName,
      ScriptAfter(ValidateTableName(tableName), cols, rows, tableName, schemaName,
                  isTemporal, isTemporary, autoAppend, parseDate))
  }

  /** The corrected conversion gives the source's result except for a name with a
      trailing line feed that the source accepts: there it fails with the
      invalid-characters message, where the source succeeds whenever the rows are
      complete. */
  lemma GenerateIntendedDiffers(cols: seq<Column>, rows: seq<seq<string>>, tableName: string, schemaName: string,
                                isTemporal: bool, isTemporary: bool, autoAppend: bool, parseDate: DateParser)
    ensures var c := Generate(cols, rows, tableName, schemaName, isTemporal, isTemporary, autoAppend, parseDate);
      var d := GenerateIntended(cols, rows, tableName, schemaName, isTemporal, isTemporary, autoAppend, parseDate);
      && (d != c ==> tableName == NameCore(tableName) + "\n")
      && (tableName == NameCore(tableName) ==> d == c)
      && (ValidateTableName(tableName) != ValidateTableNameAsWritten(tableName) ==>
            !d.success && d.errorMessage == Some(InvalidCharacters.Message())
            && (c.success <==> RowsCoverColumns(rows, |cols|)))
  {
    ValidationDifference(tableName);
  }

  /** The try block of GenerateSql: validate the name, then the CREATE statement,
      an empty line and the INSERT statements. */
  method GenerateScript(schema: DataTableSchema, tableName: string, schemaName: string,
                        isTemporal: bool, isTemporary: bool, autoAppend: bool, parseDate: DateParser)
    returns (r: Result<string, GenerationError>)
    ensures r == Script(schema.Columns(), schema.dataRows, tableName, schemaName,
                        isTemporal, isTemporary, autoAppend, parseDate)
  {
    var error := ValidateTableNameAsWritten(tableName);
    if error.Some? {
      return Failure(error.value);
    }
    var sql := GenerateCreateTableStatement(schema, tableName, schemaName, isTemporal, isTemporary, autoAppend);
    sql := sql + NEW_LINE + NEW_LINE;
    var inserts := GenerateInsertStatements(schema, tableName, schemaName, isTemporary, autoAppend, SqlLiteral(parseDate));
    if inserts.Failure? {
      return Failure(inserts.error);
    }
    return Success(sql + inserts.value);
  }

  /** The result object GenerateSql fills in: table name, schema and row count first,
      then the script and Success, or Success = false and the exception's message. */
  method FillResult(rowCount: int, tableName: string, schemaName: string, script: Result<string, GenerationError>)
    returns (result: ConversionResult)
    ensures fresh(result)
    ensures result.Value() == Outcome(rowCount, tableName, schemaName, script)
  {
    result := new ConversionResult();
    result.tableName := tableName;
    result.schema := schemaName;
    result.rowCount := rowCount;
    match script
    case Success(sql) =>
      result.generatedSql := sql;
      result.success := true;
    case Failure(error) =>
      result.success := false;
      result.errorMessage := Some(error.Message());
  }

  /** GenerateSql: fills a new ConversionResult; an exception becomes Success = false
      with its message. */
  method GenerateSql(schema: DataTableSchema, tableName: string, schemaName: string,
                     isTemporal: bool, isTemporary: bool, autoAppend: bool, parseDate: DateParser)
    returns (result: ConversionResult)
    ensures fresh(result)
    ensures result.Value() == Generate(old(schema.Columns()), old(schema.dataRows), tableName, schemaName,
                                       isTemporal, isTemporary, autoAppend, parseDate)
  {
    var rowCount := schema.RowCount();
    var script := GenerateScript(schema, tableName, schemaName, isTemporal, isTemporary, autoAppend, parseDate);
    result := FillResult(rowCount, tableName, schemaName, script);
  }
}
