/** A grouped query that is kept up to date while it stays within limits, and evaluated anew afterwards. */
module GroupedExecution {
  import opened Values
  import opened Rows
  import opened ChangeJournal
  import opened RowStorage
  import opened GroupedQuery
  import opened GroupedEvaluation
  import opened GroupedBatches
  import opened GroupedState

  /** The evaluation was true of the table at its version. */
  ghost predicate Answers(evaluation: QueryEvaluation, history: seq<Table>, q: CompiledGroupedQuery)
    requires DistinctAliases(q.plan.aggregatePlans)
  {
    && evaluation.version < |history|
    && evaluation == GroupedAnswer(Grouping(history[evaluation.version], q), q.plan, evaluation.version)
  }

  /** The state was true of the table at its version. */
  ghost predicate Holds(state: IncrementalGroupedQueryState, history: seq<Table>, q: CompiledGroupedQuery,
                        limits: GroupedIncrementalAdmissionLimits)
    requires DistinctAliases(q.plan.aggregatePlans)
  {
    state.version < |history| && StateShows(state, history[state.version], q, limits)
  }

  /** A grouped query's answer on the rows as stored now. */
  method EvaluateNow(storage: TopicRowStorage, q: CompiledGroupedQuery) returns (evaluation: QueryEvaluation)
    requires storage.Valid() && storage.rowChangeJournal.Settled() && ValidPlan(q.plan)
    ensures Answers(evaluation, storage.rowChangeJournal.history, q) && evaluation.version == storage.versionValue
  {
    hide Grouping;
    SlotsHoldTheTable(storage.keyToSlot, storage.slots);
    evaluation := EvaluateGroupedRows(storage.slots, q, storage.versionValue);
  }

  method BuildNow(storage: TopicRowStorage, q: CompiledGroupedQuery, limits: GroupedIncrementalAdmissionLimits)
    returns (state: Option<IncrementalGroupedQueryState>)
    requires storage.Valid() && storage.rowChangeJournal.Settled() && ValidPlan(q.plan)
    ensures state.Some? <==> Admissible(storage.Stored(), q, limits)
    ensures state.Some? ==>
      Holds(state.value, storage.rowChangeJournal.history, q, limits) && state.value.version == storage.versionValue
  {
    SlotsHoldTheTable(storage.keyToSlot, storage.slots);
    state := BuildIncrementalGroupedQueryState(storage.slots, q, limits, storage.versionValue);
  }

  /** A state can be brought up to date: if the journal reaches back, the limits held after each change since,
      and otherwise they hold on the table as last committed. */
  ghost predicate CanFollow(version: nat, journal: TopicRowChangeJournal, q: CompiledGroupedQuery,
                            limits: GroupedIncrementalAdmissionLimits)
    requires |journal.batches| < |journal.history| && version < |journal.history|
    reads journal
  {
    if journal.Covers(version) then
      AdmittedThroughout(journal.history[version], journal.Since(version), |journal.Since(version)|, q, limits)
    else Admissible(journal.history[|journal.history| - 1], q, limits)
  }

  /** The state brought up to the rows as stored: from the journal if it reaches back, else from scratch. */
  method LatestState(state: IncrementalGroupedQueryState, storage: TopicRowStorage, q: CompiledGroupedQuery,
                     limits: GroupedIncrementalAdmissionLimits)
    returns (latest: Option<IncrementalGroupedQueryState>)
    requires storage.Valid() && storage.rowChangeJournal.Settled() && ValidPlan(q.plan)
    requires Holds(state, storage.rowChangeJournal.history, q, limits)
    ensures latest.Some? ==>
      Holds(latest.value, storage.rowChangeJournal.history, q, limits) && latest.value.version == storage.versionValue
    ensures latest.Some? <==> CanFollow(state.version, storage.rowChangeJournal, q, limits)
  {
    hide StateShows, ReplayBatches, ValidPlan, Admissible;
    if state.version == storage.versionValue {
      return Some(state);
    }
    var batches := storage.ChangesSince(state.version);
    if batches.None? {
      latest := BuildNow(storage, q, limits);
    } else {
      latest := ApplyIncrementalGroupedQueryBatches(state, q, batches.value, limits,
                                                    storage.rowChangeJournal.history[state.version]);
    }
  }

  /** A query kept up to date, or the last evaluation of one that no longer is. */
  datatype GroupedQueryExecution = GroupedQueryExecution(
    q: CompiledGroupedQuery,
    limits: GroupedIncrementalAdmissionLimits,
    state: Option<IncrementalGroupedQueryState>,
    fallback: Option<QueryEvaluation>
  )

  predicate Incremental(x: GroupedQueryExecution) {
    x.fallback.None?
  }

  ghost predicate ValidExecution(x: GroupedQueryExecution, history: seq<Table>) {
    && ValidPlan(x.q.plan) && (x.state.Some? <==> x.fallback.None?)
    && (x.state.Some? ==> Holds(x.state.value, history, x.q, x.limits))
    && (x.fallback.Some? ==> Answers(x.fallback.value, history, x.q))
  }

  /** The query starts out incremental exactly when the stored rows are within the limits. */
  method MakeIncrementalGroupedQueryExecution(storage: TopicRowStorage, q: CompiledGroupedQuery,
                                              limits: GroupedIncrementalAdmissionLimits)
    returns (x: GroupedQueryExecution)
    requires storage.Valid() && storage.rowChangeJournal.Settled() && ValidPlan(q.plan)
    ensures ValidExecution(x, storage.rowChangeJournal.history) && x.q == q && x.limits == limits
    ensures Incremental(x) <==> Admissible(storage.Stored(), q, limits)
  {
    var built := BuildNow(storage, q, limits);
    if built.None? {
      var evaluation := EvaluateNow(storage, q);
      return GroupedQueryExecution(q, limits, None, Some(evaluation));
    }
    return GroupedQueryExecution(q, limits, built, None);
  }

  /** The query's evaluation of the rows as last committed, however it is obtained. A query that is still
      incremental has its groups within the limits; one that stops being so says so once. */
  method LatestGrouped(x: GroupedQueryExecution, storage: TopicRowStorage)
    returns (x': GroupedQueryExecution, evaluation: QueryEvaluation, released: bool)
    requires storage.Valid() && storage.rowChangeJournal.Settled()
    requires ValidExecution(x, storage.rowChangeJournal.history)
    ensures ValidExecution(x', storage.rowChangeJournal.history) && x'.q == x.q && x'.limits == x.limits
    ensures Answers(evaluation, storage.rowChangeJournal.history, x.q) && evaluation.version == storage.versionValue
    ensures released <==>
      Incremental(x) && !CanFollow(x.state.value.version, storage.rowChangeJournal, x.q, x.limits)
    ensures released <==> Incremental(x) && !Incremental(x')
    ensures !Incremental(x) ==> !Incremental(x')
    ensures Incremental(x') ==> Admissible(storage.rowChangeJournal.history[storage.versionValue], x.q, x.limits)
  {
    hide AdmittedThroughout, Grouping;
    if x.fallback.Some? {
      evaluation := LatestFallback(x.fallback.value, storage, x.q);
      return x.(fallback := Some(evaluation)), evaluation, false;
    }
    var latest := LatestState(x.state.value, storage, x.q, x.limits);
    if latest.Some? {
      return x.(state := latest), latest.value.evaluation, false;
    }
    evaluation := EvaluateNow(storage, x.q);
    return x.(state := None, fallback := Some(evaluation)), evaluation, true;
  }

  method LatestFallback(snapshot: QueryEvaluation, storage: TopicRowStorage, q: CompiledGroupedQuery)
    returns (evaluation: QueryEvaluation)
    requires storage.Valid() && storage.rowChangeJournal.Settled() && ValidPlan(q.plan)
    requires Answers(snapshot, storage.rowChangeJournal.history, q)
    ensures Answers(evaluation, storage.rowChangeJournal.history, q) && evaluation.version == storage.versionValue
  {
    evaluation := snapshot;
    if snapshot.version != storage.versionValue {
      evaluation := EvaluateNow(storage, q);
    }
  }

  /** What was true stays so when a further table is committed. */
  lemma ValidAfterCommit(x: GroupedQueryExecution, history: seq<Table>, rows: Table)
    requires ValidExecution(x, history)
    ensures ValidExecution(x, history + [rows])
  {
  }
}
