/** The data model shared by the parser, the type inference and the SQL generator:
    the column descriptor, the table schema and the conversion result. Each is a
    class whose fields the pipeline sets in place; `Value()` gives the fields at
    one moment as a datatype, which the specifications of the pipeline speak of. */
module Models {
  import opened Strings
  import opened Numbers

  /** The type options a column offers for user override, in order. */
  const SUPPORTED_TYPES: seq<string> := ["INT", "FLOAT", "DATETIME2", "NVARCHAR"]

  /** The fields of a column descriptor. ConfidenceScore is a double in the source;
      it is never assigned by the code modelled here and stays 0. */
  datatype Column = Column(
    columnName: string,
    sqlType: string,
    confidencePercent: int,
    confidenceScore: real,
    inferenceReason: string,
    sampleValue: string,
    isPrimaryKey: bool,
    allowNull: bool,
    maxLength: Option<int>,
    supportedTypes: seq<string>)

  /** A column descriptor as first created: name and type given, every other field
      at its default. */
  function NewColumn(columnName: string, sqlType: string): (c: Column)
    ensures c.columnName == columnName && c.sqlType == sqlType
    ensures c.confidencePercent == 0 && c.inferenceReason == "" && c.sampleValue == ""
    ensures !c.isPrimaryKey && !c.allowNull && c.maxLength == None
    ensures c.supportedTypes == SUPPORTED_TYPES
  {
    Column(columnName, sqlType, 0, 0.0, "", "", false, false, None, SUPPORTED_TYPES)
  }

  /** Inferred type information for one column (ColumnTypeInfo). */
  class ColumnTypeInfo {
    var columnName: string
    var sqlType: string
    var confidencePercent: int
    var confidenceScore: real
    var inferenceReason: string
    var sampleValue: string
    var isPrimaryKey: bool
    var allowNull: bool
    var maxLength: Option<int>
    var supportedTypes: seq<string>

    /** ColumnName and SqlType are required; the rest take their defaults. */
    constructor (columnName: string, sqlType: string)
      ensures Value() == NewColumn(columnName, sqlType)
    {
      this.columnName := columnName;
      this.sqlType := sqlType;
      confidencePercent := 0;
      confidenceScore := 0.0;
      inferenceReason := "";
      sampleValue := "";
      isPrimaryKey := false;
      allowNull := false;
      maxLength := None;
      supportedTypes := SUPPORTED_TYPES;
    }

    function Value(): Column
      reads this
    {
      Column(columnName, sqlType, confidencePercent, confidenceScore, inferenceReason,
        sampleValue, isPrimaryKey, allowNull, maxLength, supportedTypes)
    }
  }

  /** The values of a list of column descriptors, in order. */
  function Values(cs: seq<ColumnTypeInfo>): (r: seq<Column>)
    reads set c | c in cs
    ensures |r| == |cs| && forall i :: 0 <= i < |cs| ==> r[i] == cs[i].Value()
  {
    if |cs| == 0 then [] else Values(cs[..|cs| - 1]) + [cs[|cs| - 1].Value()]
  }

  /** The parsed table (DataTableSchema): columns in order and raw rows of text. */
  class DataTableSchema {
    var originalTableName: string
    var columns: seq<ColumnTypeInfo>
    var dataRows: seq<seq<string>>
    var dataSource: string
    var primaryKeyColumnIndex: int
    var allowUserOverride: bool

    constructor ()
      ensures originalTableName == "ParsedTable" && dataSource == "ClipboardTSV"
      ensures columns == [] && dataRows == []
      ensures primaryKeyColumnIndex == -1 && allowUserOverride
    {
      originalTableName := "ParsedTable";
      columns := [];
      dataRows := [];
      dataSource := "ClipboardTSV";
      primaryKeyColumnIndex := -1;
      allowUserOverride := true;
    }

    /** The number of data rows, header excluded. */
    function RowCount(): nat
      reads this
    {
      |dataRows|
    }

    function Columns(): seq<Column>
      reads this, set c | c in columns
    {
      Values(columns)
    }

    /** Every row has exactly one value per column, as the parser leaves it. */
    predicate Rectangular()
      reads this
    {
      forall row | row in dataRows :: |row| == |columns|
    }

    /** No descriptor object appears twice in the column list. */
    predicate DistinctColumns()
      reads this
    {
      forall i, j :: 0 <= i < j < |columns| ==> columns[i] != columns[j]
    }
  }

  /** The fields of a conversion result; ConversionTime, a clock reading, is left out. */
  datatype Conversion = Conversion(
    success: bool,
    generatedSql: string,
    rowCount: int,
    tableName: string,
    schema: string,
    errorMessage: Option<string>)

  /** The one-line summary of a conversion: the table name and the row count. */
  function SummaryOf(tableName: string, rowCount: int): (s: string)
    ensures tableName <= s && |s| >= |tableName| + 8
    ensures s[|tableName|..|tableName| + 2] == " (" && s[|s| - 6..] == " rows)"
    ensures ParseInteger(s[|tableName| + 2..|s| - 6]) == Some(rowCount)
  {
    var count := IntToString(rowCount);
    IntToStringRoundTrip(rowCount);
    var s := tableName + " (" + count + " rows)";
    assert s[|tableName| + 2..|s| - 6] == count;
    s
  }

  /** The result of one SQL generation (ConversionResult). */
  class ConversionResult {
    var success: bool
    var generatedSql: string
    var rowCount: int
    var tableName: string
    var schema: string
    var errorMessage: Option<string>

    constructor ()
      ensures Value() == Conversion(false, "", 0, "", "dbo", None)
    {
      success := false;
      generatedSql := "";
      rowCount := 0;
      tableName := "";
      schema := "dbo";
      errorMessage := None;
    }

    function Value(): Conversion
      reads this
    {
      Conversion(success, generatedSql, rowCount, tableName, schema, errorMessage)
    }

    /** The summary shown to the user; it depends on TableName and RowCount only. */
    function Summary(): string
      reads this`tableName, this`rowCount
    {
      SummaryOf(tableName, rowCount)
    }
  }
}
