/** What a raw query shows of a table, spelled out: which rows, in which order, which of them and which fields. */
module QueryMeaning {
  import opened Values
  import opened Sequences
  import opened Rows
  import opened Predicates
  import opened QueryClauses
  import opened ClauseMeaning
  import opened ValueMeaning
  import opened ActiveRawQuery
  import opened LiveAnswers
  import opened LiveQueries

  // ----- The order of rows -----

  ghost predicate SameColumns(a: Entry, b: Entry, orderBy: seq<OrderColumn>, n: nat)
    requires n <= |orderBy|
  {
    forall c | 0 <= c < n :: FieldValue(a.row, orderBy[c].field) == FieldValue(b.row, orderBy[c].field)
  }

  /** The entries agree in the first `n` columns; the next one decides, or the key after the last. */
  ghost predicate DecidedAt(a: Entry, b: Entry, orderBy: seq<OrderColumn>, n: int) {
    && 0 <= n <= |orderBy| && SameColumns(a, b, orderBy, n)
    && if n == |orderBy| then TextBefore(a.key, b.key)
       else
         var x, y := FieldValue(a.row, orderBy[n].field), FieldValue(b.row, orderBy[n].field);
         if orderBy[n].direction.Ascending? then Before(x, y) else Before(y, x)
  }

  /** One entry is listed before another: by the first column in which they differ, in its direction, or by key. */
  ghost predicate ListedBefore(a: Entry, b: Entry, orderBy: seq<OrderColumn>) {
    exists n :: DecidedAt(a, b, orderBy, n)
  }

  lemma DecidedByRest(a: Entry, b: Entry, orderBy: seq<OrderColumn>, n: int)
    requires orderBy != [] && n >= 0
    requires FieldValue(a.row, orderBy[0].field) == FieldValue(b.row, orderBy[0].field)
    ensures DecidedAt(a, b, orderBy[1..], n) <==> DecidedAt(a, b, orderBy, n + 1)
  {
    if n < |orderBy| {
      assert forall c | 0 <= c < n :: orderBy[1..][c] == orderBy[c + 1];
      assert forall c | 1 <= c < n + 1 :: orderBy[c] == orderBy[1..][c - 1];
      assert SameColumns(a, b, orderBy[1..], n) <==> SameColumns(a, b, orderBy, n + 1);
    }
  }

  lemma {:induction false} CompareRowsMeans(a: Entry, b: Entry, orderBy: seq<OrderColumn>)
    ensures CompareRows(a, b, orderBy) < 0 <==> ListedBefore(a, b, orderBy)
    decreases |orderBy|
  {
    hide Before, TextBefore, CompareQueryValue;
    if orderBy == [] {
      CompareTextMeans(a.key, b.key);
      assert DecidedAt(a, b, orderBy, 0) <==> TextBefore(a.key, b.key);
    } else {
      var x, y := FieldValue(a.row, orderBy[0].field), FieldValue(b.row, orderBy[0].field);
      CompareQueryValueMeans(x, y);
      if x == y {
        SameFirstColumn(a, b, orderBy);
        CompareRowsMeans(a, b, orderBy[1..]);
      } else {
        assert forall n | 0 < n <= |orderBy| :: !SameColumns(a, b, orderBy, n);
        assert DecidedAt(a, b, orderBy, 0) <==> if orderBy[0].direction.Ascending? then Before(x, y) else Before(y, x);
      }
    }
  }

  lemma SameFirstColumn(a: Entry, b: Entry, orderBy: seq<OrderColumn>)
    requires orderBy != []
    requires FieldValue(a.row, orderBy[0].field) == FieldValue(b.row, orderBy[0].field)
    ensures ListedBefore(a, b, orderBy) <==> ListedBefore(a, b, orderBy[1..])
  {
    var x := FieldValue(a.row, orderBy[0].field);
    CompareQueryValueMeans(x, x);
    assert !DecidedAt(a, b, orderBy, 0);
    if ListedBefore(a, b, orderBy) {
      var n :| DecidedAt(a, b, orderBy, n);
      DecidedByRest(a, b, orderBy, n - 1);
    }
    if ListedBefore(a, b, orderBy[1..]) {
      var n :| DecidedAt(a, b, orderBy[1..], n);
      DecidedByRest(a, b, orderBy, n);
    }
  }

  // ----- The view -----

  /** The entries are the stored rows that meet the clause, each once, in the order asked for. */
  ghost predicate ListsTheRows(view: seq<Entry>, rows: Table, where: Clause, orderBy: seq<OrderColumn>) {
    && (forall x :: x in view <==> x.key in rows && rows[x.key] == x.row && RowMeets(x.row, where))
    && forall i, j | 0 <= i < j < |view| :: ListedBefore(view[i], view[j], orderBy)
  }

  lemma ViewListsTheRows(rows: Table, compiled: CompiledRawQuery)
    requires PlainClause(compiled.where)
    ensures IsRowOrder(QueryOf(compiled).compare)
    ensures ListsTheRows(View(rows, QueryOf(compiled)), rows, compiled.where, compiled.orderBy)
  {
    hide RowMeets, WhereMatches, ListedBefore, CompareRows;
    CompiledOrderIsRowOrder(compiled.orderBy);
    var q := QueryOf(compiled);
    var view := View(rows, q);
    forall x
      ensures x in view <==> x.key in rows && rows[x.key] == x.row && RowMeets(x.row, compiled.where)
    {
      ClauseMeans(compiled.where, x.row);
      assert x in view <==> x in Matching(rows, q.matches);
    }
    forall i, j | 0 <= i < j < |view|
      ensures ListedBefore(view[i], view[j], compiled.orderBy)
    {
      CompareRowsMeans(view[i], view[j], compiled.orderBy);
    }
  }

  /** How many entries a window shows of a list. */
  function WindowSize(length: nat, offset: nat, limit: Option<nat>): nat {
    var rest := if offset < length then length - offset else 0;
    if limit.Some? && limit.value < rest then limit.value else rest
  }

  /** A slice shows the entries from its offset on. */
  lemma SliceShows<T>(es: seq<T>, offset: nat, limit: Option<nat>)
    ensures |Slice(es, offset, limit)| == WindowSize(|es|, offset, limit)
    ensures forall i | 0 <= i < |Slice(es, offset, limit)| :: Slice(es, offset, limit)[i] == es[offset + i]
  {
  }

  /** The row shown for a stored one has the selected fields and nothing else. */
  ghost predicate ShowsFields(shown: Row, stored: Row, select: set<string>) {
    && shown.fields.Keys == select
    && forall f | f in select :: shown.fields[f] == if f in stored.fields then stored.fields[f] else Undefined
  }

  /** Of all rows those of a window are shown, with some fields, and their number is told. */
  ghost predicate ShowsRows(shown: Shown, view: seq<Entry>, window: Window, select: set<string>) {
    && shown.totalRows == |view| && |shown.window| == WindowSize(|view|, window.offset, window.limit)
    && forall i | 0 <= i < |shown.window| ::
         && shown.window[i].key == view[window.offset + i].key
         && ShowsFields(shown.window[i].row, view[window.offset + i].row, select)
  }

  lemma ProjectedSliceShows(es: seq<Entry>, window: Window, select: set<string>)
    ensures
      var shown := ProjectEntries(Slice(es, window.offset, window.limit), select);
      ShowsRows(Shown(shown, |es|), es, window, select)
  {
    hide Slice, ShowsFields, ProjectRow;
    SliceShows(es, window.offset, window.limit);
    var shown := ProjectEntries(Slice(es, window.offset, window.limit), select);
    forall i | 0 <= i < |shown|
      ensures ShowsFields(shown[i].row, es[window.offset + i].row, select)
    {
      ProjectedRowShowsFields(es[window.offset + i].row, select);
    }
  }

  /** What a raw query shows: of the matching rows, in order, those of its window, with the selected fields, and the
      number of all of them. */
  lemma RawAnswerMeans(rows: Table, compiled: CompiledRawQuery)
    requires PlainClause(compiled.where)
    ensures exists view: seq<Entry> ::
      && ListsTheRows(view, rows, compiled.where, compiled.orderBy)
      && ShowsRows(ShownByRows(compiled, rows), view, compiled.window, compiled.select)
  {
    hide ListsTheRows, ShowsRows, Slice, ProjectEntries, Matching, IsRowOrder;
    ViewListsTheRows(rows, compiled);
    var view := View(rows, QueryOf(compiled));
    ProjectedSliceShows(view, compiled.window, compiled.select);
    assert ShowsRows(ShownByRows(compiled, rows), view, compiled.window, compiled.select);
  }

  lemma ProjectedRowShowsFields(row: Row, select: set<string>)
    ensures ShowsFields(ProjectRow(row, select), row, select)
  {
    assert ProjectRow(row, select).fields.Keys == select;
  }
}
