/** Shared executions of raw queries, their window leases, and the cursors of their subscribers. */
module ActiveRawQuery {
  import opened Values
  import opened Sequences
  import opened Sums
  import opened Ranking
  import opened Rows
  import opened Predicates
  import opened QueryValueText
  import opened QueryClauses
  import opened OrderedIndex
  import opened WindowScanner
  import opened RowStorage
  import opened RetainedWindow

  // ----- Compiled queries -----

  datatype Window = Window(offset: nat, limit: Option<nat>)

  datatype CompiledRawQuery = CompiledRawQuery(
    where: Clause,
    orderBy: seq<OrderColumn>,
    plan: PredicatePlan,
    select: set<string>,
    window: Window
  )

  /** The key under which queries share an execution. */
  function QueryCacheKey(compiled: CompiledRawQuery, texts: NumberTexts): string {
    RawKeyText(compiled.where, compiled.orderBy, texts)
  }

  function QueryOf(compiled: CompiledRawQuery): Query {
    Query(RowMatcher(FiltersOf(compiled.where)), RowOrder(compiled.orderBy))
  }

  ghost predicate ValidQuery(compiled: CompiledRawQuery, fields: set<string>) {
    && PlainClause(compiled.where) && Sound(compiled.plan, RowMatcher(FiltersOf(compiled.where)))
    && (forall p | p in compiled.plan.filters :: p.field in fields)
    && compiled.select <= fields
  }

  /** Compiles a decoded query: its clause, its order and its selection name fields of the topic. */
  method MakeRawQueryPlan(metadata: Metadata, where: Clause, orderBy: seq<OrderColumn>, select: set<string>,
                          window: Window) returns (compiled: CompiledRawQuery)
    requires PlainClause(where) && select <= metadata.columnKinds.Keys
    requires where.Some? ==> forall field | field in where.value :: field.name in metadata.columnKinds
    ensures ValidQuery(compiled, metadata.columnKinds.Keys)
    ensures compiled == CompiledRawQuery(where, orderBy, compiled.plan, select, window)
  {
    var filters := FiltersOf(where);
    var plan := CompilePredicateParts(metadata, filters);
    forall p | p in plan.filters
      ensures p.field in metadata.columnKinds
    {
      var i :| 0 <= i < |filters| && filters[i].field == p.field;
      assert where.value[i] in where.value;
    }
    compiled := CompiledRawQuery(where, orderBy, plan, select, window);
  }

  /** Queries with one cache key have one matcher, one order and one view of every table. */
  lemma SameKeySameView(a: CompiledRawQuery, b: CompiledRawQuery, rows: Table, texts: NumberTexts)
    requires PlainClause(a.where) && PlainClause(b.where) && TellsNumbersApart(texts)
    requires QueryCacheKey(a, texts) == QueryCacheKey(b, texts)
    ensures forall row :: QueryOf(a).matches(row) == QueryOf(b).matches(row)
    ensures IsRowOrder(QueryOf(a).compare) && QueryOf(a).compare == QueryOf(b).compare
    ensures Matching(rows, QueryOf(a).matches) == Matching(rows, QueryOf(b).matches)
    ensures View(rows, QueryOf(a)) == View(rows, QueryOf(b))
  {
    CompiledOrderIsRowOrder(a.orderBy);
    RawKeyDecidesQuery(a.where, a.orderBy, b.where, b.orderBy, texts);
    OneKeyOnePredicateOneOrder(a.where, a.orderBy, b.where, b.orderBy, texts);
    assert Matching(rows, QueryOf(a).matches) == Matching(rows, QueryOf(b).matches);
    MatchingIsTotal(rows, QueryOf(a));
    SortedListingIsRanked(View(rows, QueryOf(b)), Matching(rows, QueryOf(a).matches), QueryOf(a).compare);
  }

  // ----- Windows of one execution -----

  /** Where a window ends; one without room ends at the start. */
  function WindowEnd(window: Window): nat
    requires window.limit.Some?
  {
    if window.limit.value == 0 then 0 else window.offset + window.limit.value
  }

  /** The limit reaches the end of every window. */
  ghost predicate Reaches(limit: Option<nat>, windows: set<Window>) {
    limit.Some? ==> forall w | w in windows :: w.limit.Some? && WindowEnd(w) <= limit.value
  }

  /** The limit reaches the end of every window and is the end of one: a window without a limit asks for none, and
      windows without room ask for nothing. */
  ghost predicate IsBaseLimit(limit: Option<nat>, windows: set<Window>) {
    && Reaches(limit, windows)
    && (limit.None? ==> exists w :: w in windows && w.limit.None?)
    && (limit.Some? && limit.value > 0 ==>
          exists w :: w in windows && w.limit.Some? && w.limit.value > 0 && limit.value == w.offset + w.limit.value)
  }

  /** The base window: large enough for every active window and no larger. */
  method BaseLimitForActiveWindows(windows: map<Window, nat>) returns (limit: Option<nat>)
    ensures IsBaseLimit(limit, windows.Keys)
  {
    var largest: nat := 0;
    var rest := windows.Keys;
    while rest != {}
      invariant rest <= windows.Keys && Reaches(Some(largest), windows.Keys - rest)
      invariant largest > 0 ==> exists w :: w in windows && w.limit.Some? && WindowEnd(w) == largest
      decreases |rest|
    {
      var window :| window in rest;
      if window.limit.None? {
        return None;
      }
      rest := rest - {window};
      if WindowEnd(window) > largest {
        largest := WindowEnd(window);
      }
    }
    return Some(largest);
  }

  // ----- Evaluating -----

  /** A scanned prefix of the view leads it. */
  lemma SliceLeads(rows: Table, q: Query, base: Option<nat>)
    requires IsRowOrder(q.compare)
    ensures Leads(Slice(View(rows, q), 0, RetainedLimit(base)), Matching(rows, q.matches), q.compare, base)
  {
    var all, view := Matching(rows, q.matches), View(rows, q);
    MatchingIsTotal(rows, q);
    if base.None? {
      WholeRankingLeads(all, q.compare);
      assert Slice(view, 0, None) == view;
    } else {
      var n := RetainedLimit(base).value;
      SliceIsPrefix(view, n);
      PrefixIsTop(all, q.compare, Min(n, |view|));
    }
  }

  lemma TopOfLeading(window: seq<Entry>, rows: Table, q: Query, base: Option<nat>)
    requires IsRowOrder(q.compare) && Leads(window, Matching(rows, q.matches), q.compare, base)
    ensures DistinctKeys(window)
  {
    TopHasDistinctKeys(window, rows, q);
  }

  /** How many rows a scan leaves in the window: all of them without a limit, otherwise those of the base window and
      one more, or 64 more of a base window of 128 rows or beyond. */
  ghost predicate LooksAhead(length: nat, totalRows: int, base: Option<nat>) {
    match base
    case None => length == totalRows
    case Some(0) => length == 0
    case Some(end) => if totalRows <= end then length == totalRows
                      else length == Min(totalRows, if end < 128 then end + 1 else end + 64)
  }

  lemma SliceIsFilled(rows: Table, q: Query, base: Option<nat>)
    requires IsRowOrder(q.compare)
    ensures LooksAhead(|Slice(View(rows, q), 0, RetainedLimit(base))|, |Matching(rows, q.matches)|, base)
    ensures RetainedWindowFilled(Slice(View(rows, q), 0, RetainedLimit(base)), |Matching(rows, q.matches)|,
                                 RetainedLimit(base))
  {
    MatchingIsTotal(rows, q);
  }

  /** The evaluation is the current one of the version the store has reached. */
  ghost predicate EvaluatesCurrentVersion(e: BaseEvaluation, storage: TopicRowStorage, compiled: CompiledRawQuery,
                                          base: Option<nat>)
    reads storage, storage.rowChangeJournal
  {
    && e.version == storage.versionValue < |storage.rowChangeJournal.history|
    && Current(e, storage.rowChangeJournal.history[e.version], QueryOf(compiled), base)
  }

  /** A rescan of the first rows of the query, with lookahead. */
  method EvaluateBaseQuery(storage: TopicRowStorage, compiled: CompiledRawQuery, base: Option<nat>)
    returns (e: BaseEvaluation)
    requires storage.Valid() && storage.rowChangeJournal.Settled() && ValidQuery(compiled, storage.Fields())
    modifies storage`orderedSlotIndexes, storage`scalarPredicateIndexes
    ensures storage.Valid() && storage.Stored() == old(storage.Stored())
    ensures EvaluatesCurrentVersion(e, storage, compiled, base) && e.retainedWindowFilled
    ensures LooksAhead(|e.window|, e.totalRows, base)
  {
    hide Slice, RetainedWindowFilled, RetainedLimit, TotalOn, Matching, Leads, LooksAhead;
    var q := QueryOf(compiled);
    CompiledOrderIsRowOrder(compiled.orderBy);
    var plan := ScanPlan(compiled.plan, Some(compiled.orderBy), q.matches, q.compare, 0, RetainedLimit(base));
    var window, totalRows := storage.ScanRawWindow(plan);
    SliceLeads(storage.Stored(), q, base);
    TopOfLeading(window, storage.Stored(), q, base);
    SliceIsFilled(storage.Stored(), q, base);
    e := EvaluationOf(window, totalRows, storage.versionValue, base);
  }

  /** One execution, shared by all live queries with its cache key: its windows and how often each is leased, the
      base limit and the evaluation it keeps. */
  datatype RawQueryExecution = RawQueryExecution(
    compiled: CompiledRawQuery,
    windows: map<Window, nat>,
    refs: nat,
    baseLimit: Option<nat>,
    snapshot: BaseEvaluation
  )

  /** The execution is held as often as its windows are. */
  ghost predicate LeasesAddUp(x: RawQueryExecution) {
    (forall w | w in x.windows :: x.windows[w] > 0) && x.refs == SumOf(x.windows)
  }

  /** The kept evaluation was current at its version, whatever has been committed since. */
  ghost predicate Remembers(x: RawQueryExecution, history: seq<Table>) {
    x.snapshot.version < |history| && Current(x.snapshot, history[x.snapshot.version], QueryOf(x.compiled), x.baseLimit)
  }

  method MakeRawQueryExecution(storage: TopicRowStorage, compiled: CompiledRawQuery) returns (x: RawQueryExecution)
    requires storage.Valid() && storage.rowChangeJournal.Settled() && ValidQuery(compiled, storage.Fields())
    modifies storage`orderedSlotIndexes, storage`scalarPredicateIndexes
    ensures storage.Valid() && storage.Stored() == old(storage.Stored())
    ensures Remembers(x, storage.rowChangeJournal.history) && LeasesAddUp(x)
    ensures x.compiled == compiled && x.windows == map[compiled.window := 1] && x.refs == 1
    ensures x.snapshot.retainedWindowFilled && IsBaseLimit(x.baseLimit, {compiled.window})
    ensures LooksAhead(|x.snapshot.window|, x.snapshot.totalRows, x.baseLimit)
  {
    var windows := map[compiled.window := 1];
    SumUpdate(map[], compiled.window, 1);
    assert map[][compiled.window := 1] == windows;
    var base := BaseLimitForActiveWindows(windows);
    assert windows.Keys == {compiled.window};
    var snapshot := EvaluateBaseQuery(storage, compiled, base);
    x := RawQueryExecution(compiled, windows, 1, base, snapshot);
  }

  /** The evaluation of the current table, brought up to date from the journal when it can be. */
  method Latest(x: RawQueryExecution, storage: TopicRowStorage) returns (x': RawQueryExecution)
    requires storage.Valid() && storage.rowChangeJournal.Settled() && ValidQuery(x.compiled, storage.Fields())
    requires Remembers(x, storage.rowChangeJournal.history)
    modifies storage`orderedSlotIndexes, storage`scalarPredicateIndexes
    ensures storage.Valid() && storage.Stored() == old(storage.Stored())
    ensures x' == x.(baseLimit := x'.baseLimit, snapshot := x'.snapshot)
    ensures EvaluatesCurrentVersion(x'.snapshot, storage, x.compiled, x'.baseLimit)
    ensures IsBaseLimit(x'.baseLimit, x.windows.Keys)
  {
    var nextBaseLimit := BaseLimitForActiveWindows(x.windows);
    var latest := x.snapshot;
    if nextBaseLimit != x.baseLimit {
      latest := EvaluateBaseQuery(storage, x.compiled, nextBaseLimit);
    } else if x.snapshot.version != storage.versionValue {
      latest := UpdateOrRescan(x, storage);
    }
    x' := x.(baseLimit := nextBaseLimit, snapshot := latest);
  }

  method UpdateOrRescan(x: RawQueryExecution, storage: TopicRowStorage) returns (latest: BaseEvaluation)
    requires storage.Valid() && storage.rowChangeJournal.Settled() && ValidQuery(x.compiled, storage.Fields())
    requires Remembers(x, storage.rowChangeJournal.history)
    modifies storage`orderedSlotIndexes, storage`scalarPredicateIndexes
    ensures storage.Valid() && storage.Stored() == old(storage.Stored())
    ensures EvaluatesCurrentVersion(latest, storage, x.compiled, x.baseLimit)
  {
    var incremental := UpdateIncrementally(x, storage);
    if incremental.Some? {
      return incremental.value;
    }
    latest := EvaluateBaseQuery(storage, x.compiled, x.baseLimit);
  }

  /** The journal reaches back, and its changes lead to the new window. */
  ghost predicate CanUpdateFrom(x: RawQueryExecution, journal: ChangeJournal.TopicRowChangeJournal, stored: Table)
    requires |journal.batches| < |journal.history| && x.snapshot.version < |journal.history|
    reads journal
  {
    && journal.Covers(x.snapshot.version)
    && CanUpdate(x.snapshot, journal.history[x.snapshot.version], ChangesOf(journal.Since(x.snapshot.version)),
                 stored, QueryOf(x.compiled), x.baseLimit)
  }

  /** The update from the journal; it never needs a rescan for a query without a limit or without room. */
  method UpdateIncrementally(x: RawQueryExecution, storage: TopicRowStorage) returns (result: Option<BaseEvaluation>)
    requires storage.Valid() && storage.rowChangeJournal.Settled() && Remembers(x, storage.rowChangeJournal.history)
    ensures result.Some? ==> EvaluatesCurrentVersion(result.value, storage, x.compiled, x.baseLimit)
    ensures storage.rowChangeJournal.Covers(x.snapshot.version) && (x.baseLimit.None? || x.baseLimit == Some(0)) ==>
      result.Some?
    ensures x.baseLimit != Some(0) ==> (result.Some? <==> CanUpdateFrom(x, storage.rowChangeJournal, storage.Stored()))
  {
    CompiledOrderIsRowOrder(x.compiled.orderBy);
    var batches := storage.ChangesSince(x.snapshot.version);
    if batches.None? {
      return None;
    }
    result := UpdateFromRetainedChanges(x.snapshot, batches.value, QueryOf(x.compiled), x.baseLimit, storage.Stored(),
                                        storage.versionValue, storage.rowChangeJournal.history[x.snapshot.version]);
  }

  /** One more lease of a window. */
  method AcquireRawQueryWindow(x: RawQueryExecution, window: Window) returns (x': RawQueryExecution)
    requires LeasesAddUp(x)
    ensures LeasesAddUp(x') && x'.refs == x.refs + 1
    ensures x' == x.(refs := x'.refs, windows := x'.windows)
    ensures x'.windows == x.windows[window := (if window in x.windows then x.windows[window] else 0) + 1]
    ensures window in x'.windows && x.windows.Keys <= x'.windows.Keys
  {
    SumUpdate(x.windows, window, if window in x.windows then x.windows[window] + 1 else 1);
    if window in x.windows {
      SumSplit(x.windows, window);
      return x.(refs := x.refs + 1, windows := x.windows[window := x.windows[window] + 1]);
    }
    assert x.windows - {window} == x.windows;
    return x.(refs := x.refs + 1, windows := x.windows[window := 1]);
  }

  /** The windows after one lease is given back; refused when the window has none. */
  method ReleaseRawQueryWindow(windows: map<Window, nat>, window: Window) returns (released: Option<map<Window, nat>>)
    requires forall w | w in windows :: windows[w] > 0
    ensures released.Some? <==> window in windows
    ensures released.Some? ==>
      && SumOf(released.value) == SumOf(windows) - 1
      && (forall w | w in released.value :: released.value[w] > 0)
      && released.value == if windows[window] > 1 then windows[window := windows[window] - 1] else windows - {window}
  {
    if window !in windows {
      return None;
    }
    SumSplit(windows, window);
    if windows[window] > 1 {
      SumUpdate(windows, window, windows[window] - 1);
      return Some(windows[window := windows[window] - 1]);
    }
    return Some(windows - {window});
  }

  /** Later commits do not touch what an execution remembers. */
  lemma HistoryGrows(x: RawQueryExecution, history: seq<Table>, rows: Table)
    requires Remembers(x, history)
    ensures Remembers(x, history + [rows])
  {
  }

  // ----- Leases -----

  function ProjectRow(row: Row, select: set<string>): Row {
    Row(map f | f in select :: FieldValue(row, f))
  }

  function ProjectEntries(entries: seq<Entry>, select: set<string>): (projected: seq<Entry>)
    ensures |projected| == |entries|
  {
    seq(|entries|, i requires 0 <= i < |entries| => Entry(entries[i].key, ProjectRow(entries[i].row, select)))
  }

  /** What the lease of a query shows of a table: the slice of the query's view, projected. */
  ghost function LeaseView(rows: Table, compiled: CompiledRawQuery): seq<Entry> {
    CompiledOrderIsRowOrder(compiled.orderBy);
    ProjectEntries(Slice(View(rows, QueryOf(compiled)), compiled.window.offset, compiled.window.limit), compiled.select)
  }

  ghost function LeaseTotal(rows: Table, compiled: CompiledRawQuery): nat {
    |Matching(rows, QueryOf(compiled).matches)|
  }

  /** What the lease of a query shows of a table at a version. */
  ghost function LeaseEvaluation(rows: Table, compiled: CompiledRawQuery, version: nat): QueryEvaluation {
    QueryEvaluation(LeaseView(rows, compiled), LeaseTotal(rows, compiled), version)
  }

  /** An evaluation shows exactly what the lease of the query shows of the table. */
  ghost predicate LeaseShows(evaluation: QueryEvaluation, rows: Table, compiled: CompiledRawQuery) {
    evaluation == LeaseEvaluation(rows, compiled, evaluation.version)
  }

  /** The projection of a retained entry, read from the columns of the slot its key is stored in. */
  function ProjectRetainedEntry(storage: TopicRowStorage, entry: Entry, select: set<string>): Row
    reads storage
  {
    if entry.key in storage.keyToSlot then
      Row(map f | f in select :: ColumnValue(storage.columns, f, storage.keyToSlot[entry.key]))
    else ProjectRow(entry.row, select)
  }

  lemma SlotsAreMirrored(storage: TopicRowStorage)
    requires storage.Valid()
    ensures Mirrors(storage.columns, storage.slots) && storage.Fields() == storage.columns.Keys
  {
    assert storage.columns == storage.State().columns && storage.slots == storage.State().slots;
  }

  lemma SlotProjection(columns: Columns, slots: seq<Entry>, slot: nat, select: set<string>)
    requires Mirrors(columns, slots) && slot < |slots| && select <= columns.Keys
    ensures Row(map f | f in select :: ColumnValue(columns, f, slot)) == ProjectRow(slots[slot].row, select)
  {
    assert forall f | f in select :: ColumnValue(columns, f, slot) == FieldValue(slots[slot].row, f);
  }

  lemma ProjectionReadsTheRow(storage: TopicRowStorage, entry: Entry, select: set<string>)
    requires storage.Valid() && select <= storage.Fields()
    requires Lookup(storage.Stored(), entry.key) == Some(entry.row)
    ensures ProjectRetainedEntry(storage, entry, select) == ProjectRow(entry.row, select)
  {
    hide TopicRowStorage.DerivedStateAgrees, Mirrors, ProjectRow, TopicRowStorage.Fields;
    SlotsAreMirrored(storage);
    SlotProjection(storage.columns, storage.slots, storage.keyToSlot[entry.key], select);
  }

  /** Inside the base limit, a slice of a current evaluation is a slice of the view. */
  lemma SliceOfCurrent(e: BaseEvaluation, rows: Table, q: Query, base: Option<nat>, window: Window)
    requires IsRowOrder(q.compare) && Current(e, rows, q, base) && Reaches(base, {window})
    ensures Slice(e.window, window.offset, window.limit) == Slice(View(rows, q), window.offset, window.limit)
  {
    hide TotalOn, IsRowOrder, Matching;
    var all, view := Matching(rows, q.matches), View(rows, q);
    MatchingIsTotal(rows, q);
    TopIsPrefix(e.window, all, q.compare);
    if base.None? {
      assert view[..|view|] == view;
    } else {
      assert window in {window};
      var limit := window.limit.value;
      if limit == 0 {
        assert Slice(e.window, window.offset, Some(0)) == [] == Slice(view, window.offset, Some(0));
      } else {
        SliceOfPrefix(view, |e.window|, window.offset, limit);
      }
    }
  }

  method ProjectWindow(storage: TopicRowStorage, entries: seq<Entry>, select: set<string>) returns (window: seq<Entry>)
    requires forall x | x in entries :: ProjectRetainedEntry(storage, x, select) == ProjectRow(x.row, select)
    ensures window == ProjectEntries(entries, select)
  {
    window := [];
    for i := 0 to |entries|
      invariant window == ProjectEntries(entries, select)[..i]
    {
      var entry := entries[i];
      assert entry in entries;
      window := window + [Entry(entry.key, ProjectRetainedEntry(storage, entry, select))];
    }
  }

  lemma SliceMembers<T>(es: seq<T>, offset: nat, limit: Option<nat>)
    ensures forall x | x in Slice(es, offset, limit) :: x in es
  {
  }

  /** The lease's view of an execution's current evaluation. */
  method ProjectWindowEvaluation(storage: TopicRowStorage, compiled: CompiledRawQuery, e: BaseEvaluation)
    returns (evaluation: QueryEvaluation)
    requires storage.Valid() && compiled.select <= storage.Fields()
    requires forall x | x in e.window :: Lookup(storage.Stored(), x.key) == Some(x.row)
    ensures evaluation.version == e.version && evaluation.totalRows == e.totalRows
    ensures evaluation.window ==
            ProjectEntries(Slice(e.window, compiled.window.offset, compiled.window.limit), compiled.select)
  {
    var sourceWindow := Slice(e.window, compiled.window.offset, compiled.window.limit);
    SliceMembers(e.window, compiled.window.offset, compiled.window.limit);
    forall x | x in sourceWindow
      ensures ProjectRetainedEntry(storage, x, compiled.select) == ProjectRow(x.row, compiled.select)
    {
      ProjectionReadsTheRow(storage, x, compiled.select);
    }
    var window := ProjectWindow(storage, sourceWindow, compiled.select);
    evaluation := QueryEvaluation(window, e.totalRows, e.version);
  }

  /** What a lease sees now: the slice of its query's view on the stored table, with the exact total. */
  method LatestEvaluation(x: RawQueryExecution, storage: TopicRowStorage, compiled: CompiledRawQuery,
                          ghost texts: NumberTexts)
    returns (x': RawQueryExecution, evaluation: QueryEvaluation)
    requires storage.Valid() && storage.rowChangeJournal.Settled() && Remembers(x, storage.rowChangeJournal.history)
    requires ValidQuery(x.compiled, storage.Fields()) && ValidQuery(compiled, storage.Fields())
    requires QueryCacheKey(compiled, texts) == QueryCacheKey(x.compiled, texts) && TellsNumbersApart(texts)
    requires compiled.window in x.windows
    modifies storage`orderedSlotIndexes, storage`scalarPredicateIndexes
    ensures storage.Valid() && storage.Stored() == old(storage.Stored())
    ensures Remembers(x', storage.rowChangeJournal.history)
    ensures x' == x.(baseLimit := x'.baseLimit, snapshot := x'.snapshot)
    ensures IsBaseLimit(x'.baseLimit, x.windows.Keys) && x'.snapshot.version == storage.versionValue
    ensures evaluation.version == storage.versionValue && LeaseShows(evaluation, storage.Stored(), compiled)
  {
    x' := Latest(x, storage);
    ghost var rows := storage.rowChangeJournal.history[x'.snapshot.version];
    assert rows == storage.Stored();
    CurrentShows(x'.snapshot, rows, x.compiled, compiled, x'.baseLimit, texts);
    evaluation := ProjectWindowEvaluation(storage, compiled, x'.snapshot);
  }

  lemma CurrentShows(e: BaseEvaluation, rows: Table, canonical: CompiledRawQuery, compiled: CompiledRawQuery,
                     base: Option<nat>, texts: NumberTexts)
    requires PlainClause(canonical.where) && PlainClause(compiled.where) && TellsNumbersApart(texts)
    requires QueryCacheKey(compiled, texts) == QueryCacheKey(canonical, texts)
    requires Current(e, rows, QueryOf(canonical), base) && Reaches(base, {compiled.window})
    ensures e.totalRows == LeaseTotal(rows, compiled)
    ensures ProjectEntries(Slice(e.window, compiled.window.offset, compiled.window.limit), compiled.select) ==
            LeaseView(rows, compiled)
    ensures forall x | x in e.window :: Lookup(rows, x.key) == Some(x.row)
  {
    SameKeySameView(canonical, compiled, rows, texts);
    SliceOfCurrent(e, rows, QueryOf(canonical), base, compiled.window);
  }
}
