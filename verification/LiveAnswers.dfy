/** What a query shows of a table. */
module LiveAnswers {
  import opened Rows

  /** The rows a query shows and the number of rows it selects. */
  datatype Shown = Shown(window: seq<Entry>, totalRows: int)

  type Answer = Table -> Shown

  ghost predicate Presentable(shown: Shown) {
    DistinctKeys(shown.window) && shown.totalRows >= |shown.window|
  }

  /** An answer lists distinct keys and no more rows than match. */
  ghost predicate Answering(answer: Answer) {
    forall rows {:trigger answer(rows)} :: Presentable(answer(rows))
  }

  /** The evaluation is exactly what the query shows of the table. */
  ghost predicate Shows(evaluation: QueryEvaluation, rows: Table, answer: Answer) {
    Shown(evaluation.window, evaluation.totalRows) == answer(rows)
  }
}
