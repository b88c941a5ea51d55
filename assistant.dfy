/** `ask`: clean the language model's completion into a statement, run it
    with the row-limit guard, and lay the result set out as printed lines.
    The completion itself is a parameter (the call to the model is not part
    of this model), as is the database's answer. */
module Assistant {
  import opened Text
  import opened Sanitizer
  import opened LimitGuard
  import opened Executor
  import opened ResultPrinter

  /** What `ask` reports for one question. */
  datatype Report =
    | Answered(generated: string, executed: string, lines: seq<string>)
    | ExecutionFailed(generated: string, message: string)

  /** The statement sent to the database for a completion. */
  function ExecutedStatement(completion: string): (sql: string)
    ensures MentionsLimit(sql)
    ensures MentionsLimit(Sanitize(completion)) ==> sql == Sanitize(completion)
  {
    GuardMentionsLimit(Sanitize(completion), DefaultLimit);
    Guard(Sanitize(completion), DefaultLimit)
  }

  /** `ask(question)` once the model has answered with `completion`: the
      cleaned statement is always reported; a failure of `run_sql` (refused
      connection or database error) is reported instead of the results, and
      otherwise the executed statement and the result lines are. */
  method Ask(completion: string, answer: Answer) returns (conn: Connection?, report: Report)
    ensures report.generated == Sanitize(completion)
    ensures answer.Rows? ==> report == Answered(Sanitize(completion), ExecutedStatement(completion), ResultLines(answer.columns, answer.rows))
    ensures !answer.Rows? ==> report == ExecutionFailed(Sanitize(completion), answer.message)
    ensures answer.ConnectionRefused? ==> conn == null
    ensures !answer.ConnectionRefused? ==> conn != null && fresh(conn) && !conn.open && conn.executed == [ExecutedStatement(completion)]
  {
    var sql := Sanitize(completion);
    var outcome;
    conn, outcome := RunSql(sql, DefaultLimit, answer);
    match outcome {
      case Failed(message) =>
        report := ExecutionFailed(sql, message);
      case Executed(columns, rows, executed) =>
        var lines := FormatResults(columns, rows);
        report := Answered(sql, executed, lines);
    }
  }

  lemma SampleCompletionClean()
    ensures Backtick !in SampleStatement && Trimmed(SampleStatement)
  {
  }

  lemma SampleCompletionSanitizes()
    ensures Sanitize(SampleStatement) == SampleStatement
  {
    SampleCompletionClean();
    SanitizeKeepsClean(SampleStatement);
  }

  /** The completion "SELECT * FROM trafico_amg_clean", without a limit, is run with
      the default of 20 rows. */
  lemma PipelineExample()
    ensures ExecutedStatement(SampleStatement) == SampleStatement + " LIMIT 20;"
  {
    SampleCompletionSanitizes();
    GuardDefaultExample();
  }
}
