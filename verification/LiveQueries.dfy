/** The two kinds of live query, what each of them shows, and when two queries share an execution. */
module LiveQueries {
  import opened Values
  import opened Sequences
  import opened Ranking
  import opened Rows
  import opened Predicates
  import opened ActiveRawQuery
  import opened QueryValueText
  import opened QueryCacheKeys
  import opened QueryClauses
  import opened GroupedQuery
  import opened GroupedCacheKeys
  import opened LiveAnswers

  /** A decoded grouped query. */
  datatype GroupedLiveQuery = GroupedLiveQuery(
    groupBy: seq<string>,
    aggregates: seq<AggregatePlan>,
    where: Clause,
    orderBy: seq<GroupedOrder>,
    offset: Option<nat>,
    limit: Option<nat>
  )

  ghost predicate ValidGroupedQuery(query: GroupedLiveQuery) {
    Decoded(query.groupBy, query.aggregates, query.orderBy) && PlainClause(query.where)
  }

  function CompileGrouped(query: GroupedLiveQuery, texts: NumberTexts): CompiledGroupedQuery {
    CompiledGroupedQuery(
      MakeGroupedQueryPlan(query.groupBy, query.aggregates, query.orderBy, query.offset, query.limit, texts),
      RowMatcher(FiltersOf(query.where)))
  }

  lemma CompiledPlanIsValid(query: GroupedLiveQuery, texts: NumberTexts)
    requires ValidGroupedQuery(query) && TellsNumbersApart(texts)
    ensures ValidPlan(CompileGrouped(query, texts).plan)
  {
    MadePlanIsValid(query.groupBy, query.aggregates, query.orderBy, query.offset, query.limit, texts);
  }

  // ----- Queries that share an execution -----

  /** What a grouped query's cache key is made from. */
  function KeyPartsOf(query: GroupedLiveQuery): GroupedKeyParts {
    GroupedKeyParts(GroupByValue(query.groupBy), AggregatesValue(query.aggregates), ClauseValue(query.where),
                    GroupedOrderByValue(query.orderBy), query.offset, query.limit)
  }

  function GroupedCacheKey(query: GroupedLiveQuery, texts: NumberTexts): string {
    GroupedQueryPlanCacheKey(KeyPartsOf(query), texts)
  }

  /** Equal queries: the order in which aggregates, filters and operators are listed is of no account. */
  ghost predicate SameGroupedQuery(a: GroupedLiveQuery, b: GroupedLiveQuery) {
    && a.groupBy == b.groupBy && Elements(a.aggregates) == Elements(b.aggregates) && SameClause(a.where, b.where)
    && a.orderBy == b.orderBy && a.offset == b.offset && a.limit == b.limit
  }

  lemma KeyPartsArePlain(query: GroupedLiveQuery)
    requires ValidGroupedQuery(query)
    ensures PlainParts(KeyPartsOf(query))
  {
    GroupByValueDecides(query.groupBy, query.groupBy);
    AggregatesValueIsPlain(query.aggregates);
    GroupedOrderByValueIsPlain(query.orderBy);
  }

  /** Two grouped queries have one cache key exactly when they are equal. */
  lemma GroupedKeyDecidesQuery(a: GroupedLiveQuery, b: GroupedLiveQuery, texts: NumberTexts)
    requires ValidGroupedQuery(a) && ValidGroupedQuery(b) && TellsNumbersApart(texts)
    ensures GroupedCacheKey(a, texts) == GroupedCacheKey(b, texts) <==> SameGroupedQuery(a, b)
  {
    hide Plain;
    KeyPartsArePlain(a);
    KeyPartsArePlain(b);
    GroupedKeyDecidesParts(KeyPartsOf(a), KeyPartsOf(b), texts);
    GroupByValueDecides(a.groupBy, b.groupBy);
    AggregatesValueDecides(a.aggregates, b.aggregates);
    GroupedOrderByValueDecides(a.orderBy, b.orderBy);
  }

  lemma SameAggregatesSameEntry(g: string, members: Members, a: GroupedQueryPlan, b: GroupedQueryPlan)
    requires DistinctAliases(a.aggregatePlans) && DistinctAliases(b.aggregatePlans) && a.groupBy == b.groupBy
    requires Elements(a.aggregatePlans) == Elements(b.aggregatePlans)
    ensures GroupEntry(g, members, a) == GroupEntry(g, members, b)
  {
    assert forall p :: p in Elements(a.aggregatePlans) <==> p in a.aggregatePlans;
    assert forall p :: p in Elements(b.aggregatePlans) <==> p in b.aggregatePlans;
    assert Aliases(a.aggregatePlans) == Aliases(b.aggregatePlans);
    var left, right := AggregateFields(members, a.aggregatePlans), AggregateFields(members, b.aggregatePlans);
    forall alias | alias in left
      ensures left[alias] == right[alias]
    {
      var i, j := PlanOf(a.aggregatePlans, alias), PlanOf(b.aggregatePlans, alias);
      assert a.aggregatePlans[i] in Elements(b.aggregatePlans);
      assert a.aggregatePlans[i] == b.aggregatePlans[j];
    }
    SameMaps(left, right);
  }

  /** Grouped queries with one cache key have one matcher and show the same of every table. */
  lemma SameGroupedKeySameAnswer(a: GroupedLiveQuery, b: GroupedLiveQuery, texts: NumberTexts, rows: Table)
    requires ValidGroupedQuery(a) && ValidGroupedQuery(b) && TellsNumbersApart(texts)
    requires GroupedCacheKey(a, texts) == GroupedCacheKey(b, texts)
    ensures forall row :: CompileGrouped(a, texts).matches(row) == CompileGrouped(b, texts).matches(row)
    ensures ShownByGroups(CompileGrouped(a, texts), rows) == ShownByGroups(CompileGrouped(b, texts), rows)
  {
    GroupedKeyDecidesQuery(a, b, texts);
    var p, q := CompileGrouped(a, texts), CompileGrouped(b, texts);
    forall row
      ensures p.matches(row) == q.matches(row)
    {
      SameClauseMatchesSame(a.where, b.where, row, texts);
    }
    SameQuerySameAnswer(p, q, rows);
  }

  lemma SameQuerySameAnswer(p: CompiledGroupedQuery, q: CompiledGroupedQuery, rows: Table)
    requires DistinctAliases(p.plan.aggregatePlans) && DistinctAliases(q.plan.aggregatePlans)
    requires Elements(p.plan.aggregatePlans) == Elements(q.plan.aggregatePlans)
    requires q.plan == p.plan.(aggregatePlans := q.plan.aggregatePlans)
    requires forall row :: p.matches(row) == q.matches(row)
    ensures ShownByGroups(p, rows) == ShownByGroups(q, rows)
  {
    var grouping := Grouping(rows, p);
    assert Grouping(rows, q) == grouping by {
      assert forall g :: MembersOf(rows, g, q) == MembersOf(rows, g, p);
      assert KeysOfGroups(rows, q) == KeysOfGroups(rows, p);
    }
    forall e
      ensures e in GroupEntries(grouping, p.plan) <==> e in GroupEntries(grouping, q.plan)
    {
      if e.key in grouping {
        SameAggregatesSameEntry(e.key, grouping[e.key], p.plan, q.plan);
      }
      assert IsGroupEntry(e, grouping, p.plan) <==> IsGroupEntry(e, grouping, q.plan);
    }
    GroupOrderIsTotal(grouping, p.plan);
    SortedListingIsRanked(GroupedView(grouping, q.plan), GroupEntries(grouping, p.plan), CompareGroupedRows(p.plan));
  }

  // ----- What queries show -----

  ghost function ShownByGroups(q: CompiledGroupedQuery, rows: Table): Shown
    requires DistinctAliases(q.plan.aggregatePlans)
  {
    Shown(Slice(GroupedView(Grouping(rows, q), q.plan), q.plan.offset, q.plan.limit), |Grouping(rows, q)|)
  }

  lemma ShownByGroupsIsPresentable(q: CompiledGroupedQuery, rows: Table)
    requires DistinctAliases(q.plan.aggregatePlans)
    ensures Presentable(ShownByGroups(q, rows))
  {
    var grouping := Grouping(rows, q);
    var view := GroupedView(grouping, q.plan);
    GroupEntriesCount(grouping, q.plan);
    forall i, j | 0 <= i < j < |view|
      ensures view[i].key != view[j].key
    {
      assert view[i] in view && view[j] in view;
      assert IsGroupEntry(view[i], grouping, q.plan) && IsGroupEntry(view[j], grouping, q.plan);
      assert CompareGroupedRows(q.plan)(view[i], view[j]) < 0;
      CompareRowsLaws(view[i], view[i], OrderColumns(q.plan.orderBy));
    }
    SliceKeepsDistinctKeys(view, q.plan.offset, q.plan.limit);
  }

  lemma SliceKeepsDistinctKeys(es: seq<Entry>, offset: nat, limit: Option<nat>)
    requires DistinctKeys(es)
    ensures DistinctKeys(Slice(es, offset, limit)) && |Slice(es, offset, limit)| <= |es|
  {
  }

  ghost function ShownByRows(compiled: CompiledRawQuery, rows: Table): Shown {
    Shown(LeaseView(rows, compiled), LeaseTotal(rows, compiled))
  }

  lemma ShownByRowsIsPresentable(compiled: CompiledRawQuery, rows: Table)
    ensures Presentable(ShownByRows(compiled, rows))
  {
    CompiledOrderIsRowOrder(compiled.orderBy);
    var q := QueryOf(compiled);
    var view := View(rows, q);
    forall i, j | 0 <= i < j < |view|
      ensures view[i].key != view[j].key
    {
      assert view[i] in view && view[j] in view;
      assert Selected(view[i], rows, q.matches) && Selected(view[j], rows, q.matches);
      assert q.compare(view[i], view[j]) < 0;
      CompareRowsLaws(view[i], view[i], compiled.orderBy);
    }
    SliceKeepsDistinctKeys(view, compiled.window.offset, compiled.window.limit);
  }

  datatype LiveQuery = RawLive(compiled: CompiledRawQuery) | GroupedLive(query: GroupedLiveQuery)

  ghost predicate ValidLiveQuery(query: LiveQuery, fields: set<string>) {
    match query
    case RawLive(compiled) => ValidQuery(compiled, fields)
    case GroupedLive(grouped) => ValidGroupedQuery(grouped)
  }

  /** The answer is what the query shows of the table. */
  ghost predicate AnswersOn(answer: Answer, query: LiveQuery, texts: NumberTexts, rows: Table) {
    match query
    case RawLive(compiled) => answer(rows) == ShownByRows(compiled, rows)
    case GroupedLive(grouped) =>
      DistinctAliases(grouped.aggregates) && answer(rows) == ShownByGroups(CompileGrouped(grouped, texts), rows)
  }

  /** The evaluation is what the query shows of the table. */
  ghost predicate ShownIs(evaluation: QueryEvaluation, query: LiveQuery, texts: NumberTexts, rows: Table) {
    var shown := Shown(evaluation.window, evaluation.totalRows);
    match query
    case RawLive(compiled) => shown == ShownByRows(compiled, rows)
    case GroupedLive(grouped) =>
      DistinctAliases(grouped.aggregates) && shown == ShownByGroups(CompileGrouped(grouped, texts), rows)
  }

  lemma ShownIsAnswer(evaluation: QueryEvaluation, query: LiveQuery, texts: NumberTexts, rows: Table, answer: Answer)
    requires AnswersQuery(answer, query, texts) && ShownIs(evaluation, query, texts, rows)
    ensures Shows(evaluation, rows, answer)
  {
    assert AnswersOn(answer, query, texts, rows);
  }

  /** The answer is what the query shows of every table. */
  ghost predicate AnswersQuery(answer: Answer, query: LiveQuery, texts: NumberTexts) {
    forall rows {:trigger AnswersOn(answer, query, texts, rows)} :: AnswersOn(answer, query, texts, rows)
  }

  ghost function AnswerTo(query: LiveQuery, texts: NumberTexts): Answer
    requires query.GroupedLive? ==> DistinctAliases(query.query.aggregates)
  {
    match query
    case RawLive(compiled) => rows => ShownByRows(compiled, rows)
    case GroupedLive(grouped) => rows => ShownByGroups(CompileGrouped(grouped, texts), rows)
  }

  /** Every valid query has an answer, and it can be presented to a client. */
  lemma QueryHasAnswer(query: LiveQuery, texts: NumberTexts, fields: set<string>)
    requires ValidLiveQuery(query, fields)
    ensures AnswersQuery(AnswerTo(query, texts), query, texts) && Answering(AnswerTo(query, texts))
  {
    var answer := AnswerTo(query, texts);
    forall rows
      ensures AnswersOn(answer, query, texts, rows) && Presentable(answer(rows))
    {
      match query
      case RawLive(compiled) => ShownByRowsIsPresentable(compiled, rows);
      case GroupedLive(grouped) => ShownByGroupsIsPresentable(CompileGrouped(grouped, texts), rows);
    }
  }
}
