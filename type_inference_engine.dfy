/** TypeInferenceEngine: picks a SQL type for every column of a parsed table from
    its values, with a lenient 70% threshold, and records the choice, a confidence
    percentage, a sample value, nullability and the text width on the column
    descriptors in place. */
module TypeInferenceEngine {
  import opened Strings
  import opened Numbers
  import opened Models

  /** At least this percentage of the non-blank values must match a type. */
  const LENIENT_THRESHOLD: int := 70

  /** The only types inference ever gives. */
  const INFERRED_TYPES: set<string> := {"INT", "MONEY", "NVARCHAR"}

  // ---------------------------------------------------------------------------
  // The values of a column

  /** The non-blank values, in their order. */
  function NonBlank(values: seq<string>): (r: seq<string>)
    ensures |r| <= |values|
    ensures forall v | v in r :: v in values && !IsBlank(v)
    ensures forall v | v in values && !IsBlank(v) :: v in r
  {
    if |values| == 0 then []
    else (if IsBlank(values[0]) then [] else [values[0]]) + NonBlank(values[1..])
  }

  /** int.TryParse(v, out _) succeeds. */
  predicate IsInt(v: string) {
    TryParseInt32(v).Some?
  }

  /** decimal.TryParse(v, NumberStyles.Any, InvariantCulture, out _) succeeds. */
  predicate IsMoney(v: string) {
    ParseDecimal(v).Some?
  }

  /** v.StartsWith("0") && v.Length > 1, or v == "0". */
  predicate HasLeadingZero(v: string) {
    (|v| > 1 && v[0] == '0') || v == "0"
  }

  /** The veto is exactly "the value starts with the digit 0". */
  lemma LeadingZeroMeaning(v: string)
    ensures HasLeadingZero(v) <==> |v| >= 1 && v[0] == '0'
  {
    if |v| == 1 && v[0] == '0' {
      assert v == "0";
    }
  }

  function CountInts(vs: seq<string>): (n: nat)
    ensures n <= |vs|
  {
    if |vs| == 0 then 0 else (if IsInt(vs[0]) then 1 else 0) + CountInts(vs[1..])
  }

  function CountMoney(vs: seq<string>): (n: nat)
    ensures n <= |vs|
  {
    if |vs| == 0 then 0 else (if IsMoney(vs[0]) then 1 else 0) + CountMoney(vs[1..])
  }

  /** (int)((matchCount / (double)totalCount) * 100), in integer arithmetic. */
  function Percentage(matchCount: nat, totalCount: nat): int
    requires totalCount > 0
  {
    (matchCount * 100) / totalCount
  }

  /** A percentage of a part lies in [0, 100], is 100 for the whole, and reaches
      a threshold exactly when 100 times the part reaches threshold times the whole. */
  lemma PercentageBounds(matchCount: nat, totalCount: nat, threshold: nat)
    requires 0 < totalCount && matchCount <= totalCount
    ensures 0 <= Percentage(matchCount, totalCount) <= 100
    ensures matchCount == totalCount ==> Percentage(matchCount, totalCount) == 100
    ensures Percentage(matchCount, totalCount) >= threshold <==> matchCount * 100 >= threshold * totalCount
  {
    var a := matchCount * 100;
    assert a <= totalCount * 100;
    DivAtLeast(a, totalCount, 0);
    DivAtLeast(a, totalCount, 101);
    DivAtLeast(a, totalCount, 100);
    DivAtLeast(a, totalCount, threshold);
  }

  /** Euclidean division by a positive number reaches k exactly when the dividend
      reaches k times the divisor. */
  lemma DivAtLeast(a: int, t: int, k: int)
    requires t > 0
    ensures a / t >= k <==> a >= k * t
  {
    var q := a / t;
    assert a == q * t + a % t && 0 <= a % t < t;
    if q >= k {
      MulMonotone(k, q, t);
    } else {
      MulMonotone(q + 1, k, t);
      assert (q + 1) * t == q * t + t;
    }
  }

  lemma MulMonotone(x: int, y: int, t: int)
    requires x <= y && t > 0
    ensures x * t <= y * t
  {
    assert y * t - x * t == (y - x) * t;
  }

  // ---------------------------------------------------------------------------
  // The rules

  /** InferColumnType: the first matching rule of blank, veto, INT, MONEY, NVARCHAR. */
  function InferColumnType(values: seq<string>): string {
    if |values| == 0 then "NVARCHAR"
    else
      var nonEmpty := NonBlank(values);
      if |nonEmpty| == 0 then "NVARCHAR"
      else if exists v | v in nonEmpty :: HasLeadingZero(v) then "NVARCHAR"
      else if Percentage(CountInts(nonEmpty), |nonEmpty|) >= LENIENT_THRESHOLD then "INT"
      else if Percentage(CountMoney(nonEmpty), |nonEmpty|) >= LENIENT_THRESHOLD then "MONEY"
      else "NVARCHAR"
  }

  /** CalculateTypeConfidence: the percentage of non-blank values matching the type;
      any type other than INT and MONEY matches every non-blank value. */
  function CalculateTypeConfidence(values: seq<string>, sqlType: string): int {
    if |values| == 0 then 0
    else
      var nonEmpty := NonBlank(values);
      if |nonEmpty| == 0 then 0
      else
        var matchCount :=
          match sqlType
          case "INT" => CountInts(nonEmpty)
          case "MONEY" => CountMoney(nonEmpty)
          case _ => |nonEmpty|;
        Percentage(matchCount, |nonEmpty|)
  }

  /** The rules in priority order. A column with no non-blank value, or with a
      non-blank value starting with '0', is NVARCHAR; otherwise INT when at least 70%
      of the non-blank values are 32-bit integers, else MONEY when at least 70% are
      decimals, else NVARCHAR. No other type is ever inferred. */
  lemma InferenceRules(values: seq<string>)
    ensures InferColumnType(values) in INFERRED_TYPES
    ensures var nonEmpty := NonBlank(values);
      && (|nonEmpty| == 0 ==> InferColumnType(values) == "NVARCHAR")
      && ((exists v | v in values :: !IsBlank(v) && HasLeadingZero(v)) ==> InferColumnType(values) == "NVARCHAR")
      && (InferColumnType(values) == "INT" <==>
            |nonEmpty| > 0 && (forall v | v in nonEmpty :: !HasLeadingZero(v))
            && CountInts(nonEmpty) * 100 >= LENIENT_THRESHOLD * |nonEmpty|)
      && (InferColumnType(values) == "MONEY" <==>
            |nonEmpty| > 0 && (forall v | v in nonEmpty :: !HasLeadingZero(v))
            && CountInts(nonEmpty) * 100 < LENIENT_THRESHOLD * |nonEmpty|
            && CountMoney(nonEmpty) * 100 >= LENIENT_THRESHOLD * |nonEmpty|)
  {
    var nonEmpty := NonBlank(values);
    if |nonEmpty| > 0 {
      PercentageBounds(CountInts(nonEmpty), |nonEmpty|, LENIENT_THRESHOLD);
      PercentageBounds(CountMoney(nonEmpty), |nonEmpty|, LENIENT_THRESHOLD);
    }
  }

  /** The confidence is a percentage; for INT and MONEY it is the one that passed the
      threshold, for NVARCHAR with any non-blank value it is 100, and it is 0 when
      every value is blank. */
  lemma ConfidenceRules(values: seq<string>)
    ensures var confidence := CalculateTypeConfidence(values, InferColumnType(values));
      && 0 <= confidence <= 100
      && (InferColumnType(values) in {"INT", "MONEY"} ==> LENIENT_THRESHOLD <= confidence)
      && (InferColumnType(values) == "NVARCHAR" && |NonBlank(values)| > 0 ==> confidence == 100)
      && (|NonBlank(values)| == 0 ==> confidence == 0)
  {
    var nonEmpty := NonBlank(values);
    if |nonEmpty| > 0 {
      PercentageBounds(CountInts(nonEmpty), |nonEmpty|, LENIENT_THRESHOLD);
      PercentageBounds(CountMoney(nonEmpty), |nonEmpty|, LENIENT_THRESHOLD);
      PercentageBounds(|nonEmpty|, |nonEmpty|, LENIENT_THRESHOLD);
    }
  }

  /** The first non-blank value, if there is one. */
  function FirstNonBlank(values: seq<string>): Option<string> {
    if |values| == 0 then None
    else if !IsBlank(values[0]) then Some(values[0])
    else FirstNonBlank(values[1..])
  }

  /** The sample value: the first non-blank value, else the first value, else "". */
  function SampleValue(values: seq<string>): string {
    match FirstNonBlank(values)
    case Some(v) => v
    case None => if |values| > 0 then values[0] else ""
  }

  /** The sample is the non-blank value at the smallest index that has one; when
      every value is blank it is the first value. */
  lemma {:induction false} SampleValueRule(values: seq<string>)
    ensures (exists i :: 0 <= i < |values| && !IsBlank(values[i])) ==>
      exists i :: 0 <= i < |values| && values[i] == SampleValue(values) && !IsBlank(values[i])
        && forall j :: 0 <= j < i ==> IsBlank(values[j])
    ensures (forall i :: 0 <= i < |values| ==> IsBlank(values[i])) && |values| > 0 ==> SampleValue(values) == values[0]
  {
    if |values| > 0 {
      SampleValueRule(values[1..]);
      if !IsBlank(values[0]) {
        assert values[0] == SampleValue(values);
      } else if exists i :: 0 <= i < |values| && !IsBlank(values[i]) {
        var k :| 0 <= k < |values| && !IsBlank(values[k]);
        assert values[1..][k - 1] == values[k];
        var i :| 0 <= i < |values[1..]| && values[1..][i] == SampleValue(values[1..]) && !IsBlank(values[1..][i])
          && forall j :: 0 <= j < i ==> IsBlank(values[1..][j]);
        assert FirstNonBlank(values[1..]).Some?;
        assert SampleValue(values) == SampleValue(values[1..]);
        assert values[i + 1] == SampleValue(values);
        forall j | 0 <= j < i + 1 ensures IsBlank(values[j]) {
          if j > 0 {
            assert values[j] == values[1..][j - 1];
          }
        }
      } else {
        assert FirstNonBlank(values[1..]) == None by {
          FirstNonBlankNone(values[1..]);
        }
      }
    }
  }

  /** No first non-blank value means every value is blank. */
  lemma {:induction false} FirstNonBlankNone(values: seq<string>)
    requires forall i :: 0 <= i < |values| ==> IsBlank(values[i])
    ensures FirstNonBlank(values) == None
  {
    if |values| > 0 {
      FirstNonBlankNone(values[1..]);
    }
  }

  /** The largest length of a list of values, 0 for none. */
  function MaxLength(vs: seq<string>): nat {
    if |vs| == 0 then 0
    else
      var rest := MaxLength(vs[1..]);
      if |vs[0]| > rest then |vs[0]| else rest
  }

  /** The width recorded for a text column: the longest non-blank value, or 0. */
  function MaxNonBlankLength(values: seq<string>): nat {
    MaxLength(NonBlank(values))
  }

  /** MaxLength is the maximum: every value fits, and some value attains it. */
  lemma {:induction false} MaxLengthIsMaximum(vs: seq<string>)
    ensures forall v | v in vs :: |v| <= MaxLength(vs)
    ensures |vs| > 0 ==> exists v | v in vs :: |v| == MaxLength(vs)
    ensures |vs| == 0 ==> MaxLength(vs) == 0
  {
    if |vs| > 0 {
      MaxLengthIsMaximum(vs[1..]);
      forall v | v in vs ensures |v| <= MaxLength(vs) {
        if v != vs[0] {
          assert v in vs[1..];
        }
      }
      if |vs[0]| <= MaxLength(vs[1..]) && |vs| > 1 {
        var w :| w in vs[1..] && |w| == MaxLength(vs[1..]);
        assert w in vs;
      }
    }
  }

  // ---------------------------------------------------------------------------
  // One column and the whole schema

  /** The values of column colIndex, one per row in row order. */
  function ColumnValues(rows: seq<seq<string>>, colIndex: nat): (values: seq<string>)
    requires forall row | row in rows :: colIndex < |row|
    ensures |values| == |rows|
    ensures forall i :: 0 <= i < |rows| ==> values[i] == rows[i][colIndex]
  {
    if |rows| == 0 then [] else [rows[0][colIndex]] + ColumnValues(rows[1..], colIndex)
  }

  /** A column descriptor after inference over its values: type, confidence and
      sample are set, the column becomes nullable, and a text column records its
      width; every other field, MaxLength of a numeric column included, is kept. */
  function InferredColumn(col: Column, values: seq<string>): Column {
    var sqlType := InferColumnType(values);
    col.(sqlType := sqlType,
         confidencePercent := CalculateTypeConfidence(values, sqlType),
         sampleValue := SampleValue(values),
         allowNull := true,
         maxLength := if sqlType == "NVARCHAR" then Some(MaxNonBlankLength(values)) else col.maxLength)
  }

  /** Every row has a value for each of the first n columns. */
  predicate RowsWideEnough(rows: seq<seq<string>>, n: nat) {
    forall row | row in rows :: n <= |row|
  }

  /** The descriptors after InferColumnTypes: unchanged without rows, each inferred
      from its own column of values otherwise. */
  function InferAll(cols: seq<Column>, rows: seq<seq<string>>): (r: seq<Column>)
    requires RowsWideEnough(rows, |cols|)
    ensures |r| == |cols|
    ensures |rows| == 0 ==> r == cols
  {
    if |rows| == 0 || |cols| == 0 then cols
    else InferAll(cols[..|cols| - 1], rows) + [InferredColumn(cols[|cols| - 1], ColumnValues(rows, |cols| - 1))]
  }

  /** Column j of the result is column j inferred from the values at index j. */
  lemma {:induction false} InferAllAt(cols: seq<Column>, rows: seq<seq<string>>, j: nat)
    requires RowsWideEnough(rows, |cols|) && |rows| > 0 && j < |cols|
    ensures InferAll(cols, rows)[j] == InferredColumn(cols[j], ColumnValues(rows, j))
  {
    if j < |cols| - 1 {
      InferAllAt(cols[..|cols| - 1], rows, j);
    }
  }

  /** What inference guarantees of every column: the name, the key flag and the
      offered types are kept, the type is INT, MONEY or NVARCHAR, the column allows
      NULL, the confidence is a percentage, a text column records the width of its
      longest non-blank value and a numeric column keeps its MaxLength. */
  lemma InferAllInvariant(cols: seq<Column>, rows: seq<seq<string>>, j: nat)
    requires RowsWideEnough(rows, |cols|) && |rows| > 0 && j < |cols|
    ensures var c := InferAll(cols, rows)[j];
      && c.columnName == cols[j].columnName && c.isPrimaryKey == cols[j].isPrimaryKey
      && c.supportedTypes == cols[j].supportedTypes
      && c.sqlType in INFERRED_TYPES && c.allowNull && 0 <= c.confidencePercent <= 100
      && (c.sqlType == "NVARCHAR" ==> c.maxLength == Some(MaxNonBlankLength(ColumnValues(rows, j))))
      && (c.sqlType != "NVARCHAR" ==> c.maxLength == cols[j].maxLength)
  {
    InferAllAt(cols, rows, j);
    var values := ColumnValues(rows, j);
    InferenceRules(values);
    ConfidenceRules(values);
  }

  /** A column of blanks becomes NVARCHAR with confidence 0 and width 0. */
  lemma BlankColumn(col: Column, values: seq<string>)
    requires forall v | v in values :: IsBlank(v)
    ensures var c := InferredColumn(col, values);
      c.sqlType == "NVARCHAR" && c.confidencePercent == 0 && c.maxLength == Some(0)
  {
    NonBlankOfBlanks(values);
  }

  /** Filtering blanks out of blanks leaves nothing. */
  lemma {:induction false} NonBlankOfBlanks(values: seq<string>)
    requires forall v | v in values :: IsBlank(v)
    ensures NonBlank(values) == []
  {
    if |values| > 0 {
      assert values[0] in values;
      NonBlankOfBlanks(values[1..]);
    }
  }

  /** The assignments of one loop iteration of InferColumnTypes. */
  method ApplyInference(column: ColumnTypeInfo, values: seq<string>)
    modifies column
    ensures column.Value() == InferredColumn(old(column.Value()), values)
  {
    var inferredType := InferColumnType(values);
    column.sqlType := inferredType;
    column.confidencePercent := CalculateTypeConfidence(values, inferredType);
    column.sampleValue := SampleValue(values);
    column.allowNull := true;
    if inferredType == "NVARCHAR" {
      column.maxLength := Some(MaxNonBlankLength(values));
    }
  }

  /** The loop of InferColumnTypes over the descriptors, each inferred from its own
      column of values. */
  method InferEachColumn(columns: seq<ColumnTypeInfo>, rows: seq<seq<string>>)
    requires RowsWideEnough(rows, |columns|)
    requires forall i, j :: 0 <= i < j < |columns| ==> columns[i] != columns[j]
    modifies set c | c in columns
    ensures forall j :: 0 <= j < |columns| ==>
      columns[j].Value() == InferredColumn(old(columns[j].Value()), ColumnValues(rows, j))
  {
    for colIndex := 0 to |columns|
      invariant forall j :: 0 <= j < colIndex ==>
        columns[j].Value() == InferredColumn(old(columns[j].Value()), ColumnValues(rows, j))
      invariant forall j :: colIndex <= j < |columns| ==> columns[j].Value() == old(columns[j].Value())
    {
      ApplyInference(columns[colIndex], ColumnValues(rows, colIndex));
    }
  }

  /** Inferring each column from its own values is InferAll. */
  lemma InferAllFromEach(before: seq<Column>, after: seq<Column>, rows: seq<seq<string>>)
    requires RowsWideEnough(rows, |before|) && |rows| > 0 && |after| == |before|
    requires forall j :: 0 <= j < |before| ==> after[j] == InferredColumn(before[j], ColumnValues(rows, j))
    ensures after == InferAll(before, rows)
  {
    forall j | 0 <= j < |before|
      ensures after[j] == InferAll(before, rows)[j]
    {
      InferAllAt(before, rows, j);
    }
  }

  /** InferColumnTypes: infers every column in place. The rows must have a value for
      every column (the parser makes them rectangular) and no descriptor may appear
      twice in the column list. */
  method InferColumnTypes(schema: DataTableSchema)
    requires RowsWideEnough(schema.dataRows, |schema.columns|)
    requires schema.DistinctColumns()
    modifies set c | c in schema.columns
    ensures schema.Columns() == InferAll(old(schema.Columns()), schema.dataRows)
  {
    if |schema.columns| == 0 || |schema.dataRows| == 0 {
      return;
    }
    ghost var before := schema.Columns();
    InferEachColumn(schema.columns, schema.dataRows);
    InferAllFromEach(before, schema.Columns(), schema.dataRows);
  }
}
