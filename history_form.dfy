/** The history window: the shortened SQL shown in the grid and the removal of one
    entry from the history list. */
module HistoryForm {
  import opened Strings
  import opened Models

  /** The longest SQL text shown in full in the grid. */
  const PREVIEW_LENGTH: nat := 100

  const ELLIPSIS: string := "..."

  /** GetSqlPreview: "" for null or empty SQL, the SQL itself when it fits, otherwise
      its first 100 characters followed by "...". */
  function GetSqlPreview(sql: Option<string>): (preview: string)
    ensures IsNullOrEmpty(sql) ==> preview == ""
    ensures sql.Some? && |sql.value| <= PREVIEW_LENGTH ==> preview == sql.value
    ensures sql.Some? && |sql.value| > PREVIEW_LENGTH ==>
      |preview| == PREVIEW_LENGTH + 3 && preview[..PREVIEW_LENGTH] == sql.value[..PREVIEW_LENGTH]
      && preview[PREVIEW_LENGTH..] == ELLIPSIS
    ensures |preview| <= PREVIEW_LENGTH + 3
  {
    if IsNullOrEmpty(sql) then ""
    else if |sql.value| > PREVIEW_LENGTH then sql.value[..PREVIEW_LENGTH] + ELLIPSIS
    else sql.value
  }

  /** The preview is always the start of the SQL, possibly followed by "...". It
      equals the SQL when the SQL fits, and otherwise only in the one case where the
      SQL is 103 characters long and itself ends in "...". */
  lemma PreviewIsPrefix(sql: string)
    ensures var preview := GetSqlPreview(Some(sql));
      (preview <= sql) || (preview[..|preview| - 3] <= sql && EndsWith(preview, ELLIPSIS))
    ensures GetSqlPreview(Some(sql)) == sql <==>
      |sql| <= PREVIEW_LENGTH || (|sql| == PREVIEW_LENGTH + 3 && sql[PREVIEW_LENGTH..] == ELLIPSIS)
  {
    var preview := GetSqlPreview(Some(sql));
    if |sql| > PREVIEW_LENGTH {
      assert preview[..|preview| - 3] == sql[..PREVIEW_LENGTH];
      if |sql| == PREVIEW_LENGTH + 3 {
        assert sql == sql[..PREVIEW_LENGTH] + sql[PREVIEW_LENGTH..];
        assert preview == sql <==> sql[PREVIEW_LENGTH..] == ELLIPSIS;
      }
    }
  }

  /** The history window's list of conversions. */
  class HistoryForm {
    var history: seq<ConversionResult>

    constructor (history: seq<ConversionResult>)
      ensures this.history == history
    {
      this.history := history;
    }

    /** DeleteRow: the selected row, if there is one and it indexes the history, is
        removed once the user confirms; every other entry keeps its order. Saving the
        history file and refreshing the grid are not part of this model. */
    method DeleteRow(selectedRow: Option<int>, confirmed: bool)
      modifies this
      ensures var deleted := selectedRow.Some? && 0 <= selectedRow.value < |old(history)| && confirmed;
        && (!deleted ==> history == old(history))
        && (deleted ==>
              |history| == |old(history)| - 1
              && (forall j :: 0 <= j < selectedRow.value ==> history[j] == old(history)[j])
              && (forall j :: selectedRow.value <= j < |history| ==> history[j] == old(history)[j + 1]))
    {
      if selectedRow.Some? {
        var rowIndex := selectedRow.value;
        if rowIndex >= 0 && rowIndex < |history| {
          if confirmed {
            history := history[..rowIndex] + history[rowIndex + 1..];
          }
        }
      }
    }
  }
}
