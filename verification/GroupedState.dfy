/** The state of an incremental grouped query: groups with their members, or counts only when no row is shown. */
module GroupedState {
  import opened Values
  import opened Sequences
  import opened Rows
  import opened ChangeJournal
  import opened GroupedQuery
  import opened GroupStates
  import opened GroupedWindow
  import opened GroupedHeap
  import opened GroupedEvaluation
  import opened GroupedIncremental
  import opened GroupedPatch
  import opened GroupedBatches

  datatype IncrementalGroupedQueryState =
    | MaterializedState(groups: MaterializedGroups, memberCount: int, evaluation: QueryEvaluation, version: nat)
    | CountOnlyState(counts: map<string, int>, evaluation: QueryEvaluation, version: nat)

  ghost predicate CountedAt(counts: map<string, int>, grouping: map<string, Members>, g: string) {
    g in counts && g in grouping && counts[g] == |grouping[g]|
  }

  /** Every group is counted by its members. */
  ghost predicate Counted(counts: map<string, int>, grouping: map<string, Members>) {
    && counts.Keys == grouping.Keys
    && forall g {:trigger CountedAt(counts, grouping, g)} | g in counts :: CountedAt(counts, grouping, g)
  }

  /** The state holds the groups of the table, within the limits, and shows what the query shows of it. */
  ghost predicate StateShows(state: IncrementalGroupedQueryState, rows: Table, q: CompiledGroupedQuery,
                             limits: GroupedIncrementalAdmissionLimits)
    requires DistinctAliases(q.plan.aggregatePlans)
  {
    && state.evaluation == GroupedAnswer(Grouping(rows, q), q.plan, state.version)
    && Admissible(rows, q, limits) && (state.CountOnlyState? <==> q.plan.limit == Some(0))
    && match state
       case MaterializedState(groups, memberCount, _, _) =>
         Materialized(groups, Grouping(rows, q), q.plan, {}) && memberCount == MemberCount(rows, q)
       case CountOnlyState(counts, _, _) => Counted(counts, Grouping(rows, q))
  }

  // ----- Building -----

  lemma FewerMembersBefore(rows: Table, k: string, row: Row, q: CompiledGroupedQuery)
    requires k !in rows
    ensures MemberCount(rows, q) <= MemberCount(rows[k := row], q)
    ensures !q.matches(row) ==> MemberCount(rows, q) == MemberCount(rows[k := row], q)
  {
    MatchingAfterChange(rows, Change(k, None, Some(row), None), q.matches);
  }

  lemma NoMoreGroups(grouping: map<string, Members>, g: string, k: string)
    requires g in grouping
    ensures |WithoutMember(grouping, g, k)| <= |grouping|
  {
    SmallerMap(grouping, g);
    LargerMap(grouping, g, grouping[g] - {k});
  }

  /** A table within the limits was within them before its last row came. */
  lemma SmallerTableFits(rows: Table, k: string, row: Row, q: CompiledGroupedQuery,
                         limits: GroupedIncrementalAdmissionLimits)
    requires k !in rows && Admissible(rows[k := row], q, limits)
    ensures Admissible(rows, q, limits)
  {
    hide WithinLimits, Grouping, MemberCount, WithoutMember;
    var more := rows[k := row];
    assert more - {k} == rows;
    GroupingRemoved(more, k, q);
    FewerMembersBefore(rows, k, row, q);
    if q.matches(row) {
      var g := q.plan.groupKey(row);
      NoMoreGroups(Grouping(more, q), g, k);
      if q.plan.limit != Some(0) {
        WithinLimitsWithout(Grouping(more, q), MemberCount(more, q), q.plan, limits, g, k, MemberCount(rows, q));
      }
    }
  }

  lemma {:induction false} PrefixFits(slots: seq<Entry>, i: nat, n: nat, q: CompiledGroupedQuery,
                                      limits: GroupedIncrementalAdmissionLimits)
    requires DistinctKeys(slots) && i <= n <= |slots| && Admissible(RowsUpTo(slots, n), q, limits)
    ensures Admissible(RowsUpTo(slots, i), q, limits)
    decreases n
  {
    if i < n {
      RowsUpToNext(slots, n - 1);
      SmallerTableFits(RowsUpTo(slots, n - 1), slots[n - 1].key, slots[n - 1].row, q, limits);
      PrefixFits(slots, i, n - 1, q, limits);
    }
  }

  /** Counts one more member of a group. */
  method CountMember(counts: map<string, int>, key: string, row: Row, q: CompiledGroupedQuery, ghost rows: Table)
    returns (counts': map<string, int>)
    requires Counted(counts, Grouping(rows, q)) && key !in rows && q.matches(row)
    ensures Counted(counts', Grouping(rows[key := row], q)) && |counts'| == |Grouping(rows[key := row], q)|
  {
    var g := q.plan.groupKey(row);
    ghost var grouping, after := Grouping(rows, q), Grouping(rows[key := row], q);
    GroupingAdded(rows, key, row, q);
    counts' := counts[g := (if g in counts then counts[g] else 0) + 1];
    assert g in counts ==> CountedAt(counts, grouping, g);
    LargerMap(MembersIn(grouping, g), key, row);
    forall h | h in counts'
      ensures CountedAt(counts', after, h)
    {
      assert h != g ==> CountedAt(counts, grouping, h);
    }
    assert |counts'| == |counts'.Keys| && |after| == |after.Keys|;
  }

  /** Counts one member of a group less. */
  method UncountMember(counts: map<string, int>, key: string, row: Row, q: CompiledGroupedQuery, ghost rows: Table)
    returns (counts': map<string, int>)
    requires Counted(counts, Grouping(rows, q)) && key in rows && rows[key] == row
    ensures Counted(counts', Grouping(rows - {key}, q))
  {
    GroupingRemoved(rows, key, q);
    if !q.matches(row) {
      return counts;
    }
    var g := q.plan.groupKey(row);
    ghost var grouping, after := Grouping(rows, q), Grouping(rows - {key}, q);
    assert CountedAt(counts, grouping, g);
    SmallerMap(grouping[g], key);
    counts' := if counts[g] - 1 == 0 then counts - {g} else counts[g := counts[g] - 1];
    EmptyMap(grouping[g] - {key});
    forall h | h in counts'
      ensures CountedAt(counts', after, h)
    {
      assert h != g ==> CountedAt(counts, grouping, h);
    }
  }

  lemma EmptyMap<K, V>(m: map<K, V>)
    ensures |m| == 0 <==> m == map[]
  {
  }

  method BuildCountOnlyIncrementalGroupedQueryState(slots: seq<Entry>, q: CompiledGroupedQuery,
                                                    limits: GroupedIncrementalAdmissionLimits, version: nat)
    returns (state: Option<IncrementalGroupedQueryState>)
    requires DistinctKeys(slots) && ValidPlan(q.plan) && q.plan.limit == Some(0)
    ensures state.Some? <==> Admissible(TableOf(slots), q, limits)
    ensures state.Some? ==> StateShows(state.value, TableOf(slots), q, limits) && state.value.version == version
  {
    var groups: map<string, int> := map[];
    NoRowsNoGroups(q);
    RowsUpToAll(slots);
    for i := 0 to |slots|
      invariant Counted(groups, Grouping(RowsUpTo(slots, i), q)) && Admissible(RowsUpTo(slots, i), q, limits)
    {
      RowsUpToNext(slots, i);
      GroupingAdded(RowsUpTo(slots, i), slots[i].key, slots[i].row, q);
      if q.matches(slots[i].row) {
        groups := CountMember(groups, slots[i].key, slots[i].row, q, RowsUpTo(slots, i));
        if |groups| > limits.maxGroups {
          TooLarge(slots, i + 1, q, limits);
          return None;
        }
      }
    }
    CountedShows(groups, TableOf(slots), q, limits, version);
    return Some(CountOnlyState(groups, EmptyGroupedEvaluation(|groups|, version), version));
  }

  lemma CountedShows(counts: map<string, int>, rows: Table, q: CompiledGroupedQuery,
                     limits: GroupedIncrementalAdmissionLimits, version: nat)
    requires ValidPlan(q.plan) && q.plan.limit == Some(0) && Counted(counts, Grouping(rows, q))
    requires Admissible(rows, q, limits)
    ensures StateShows(CountOnlyState(counts, EmptyGroupedEvaluation(|counts|, version), version), rows, q, limits)
  {
    EmptyIsAnswer(Grouping(rows, q), q.plan, version);
    assert |counts| == |counts.Keys| && |Grouping(rows, q)| == |Grouping(rows, q).Keys|;
  }

  lemma TooLarge(slots: seq<Entry>, i: nat, q: CompiledGroupedQuery, limits: GroupedIncrementalAdmissionLimits)
    requires DistinctKeys(slots) && i <= |slots| && !Admissible(RowsUpTo(slots, i), q, limits)
    ensures !Admissible(TableOf(slots), q, limits)
  {
    RowsUpToAll(slots);
    if Admissible(TableOf(slots), q, limits) {
      PrefixFits(slots, i, |slots|, q, limits);
    }
  }

  /** Puts a stored row into its group; the limits say whether the table may go on to be held. */
  method AdmitRow(groups: MaterializedGroups, memberCount: int, key: string, row: Row, q: CompiledGroupedQuery,
                  limits: GroupedIncrementalAdmissionLimits, ghost rows: Table)
    returns (groups': MaterializedGroups, admitted: bool)
    requires ValidPlan(q.plan) && Materialized(groups, Grouping(rows, q), q.plan, {})
    requires memberCount == MemberCount(rows, q)
    requires RowsWithinLimits(rows, q, limits) && key !in rows && q.matches(row)
    ensures Materialized(groups', Grouping(rows[key := row], q), q.plan, {})
    ensures MemberCount(rows[key := row], q) == memberCount + 1
    ensures admitted <==> RowsWithinLimits(rows[key := row], q, limits)
  {
    ghost var grouping := Grouping(rows, q);
    GroupingAdded(rows, key, row, q);
    GroupingIsWellGrouped(rows, q);
    MatchingAfterChange(rows, Change(key, None, Some(row), None), q.matches);
    WithinLimitsWith(grouping, memberCount, q.plan, limits, q.plan.groupKey(row), key, row, memberCount + 1);
    var dirty, groupSize, inserted;
    groups', dirty, groupSize, inserted := UpsertMember(groups, {}, q, key, row, grouping);
    assert |groups'| == |Grouping(rows[key := row], q)| by {
      assert |groups'| == |groups'.Keys| && |Grouping(rows[key := row], q)| == |Grouping(rows[key := row], q).Keys|;
    }
    var retainedAggregateCount := RetainedValueAggregateCount(q.plan.aggregatePlans);
    admitted := !(memberCount + 1 > limits.maxMembers ||
                  RetainedValueEntryEstimate(memberCount + 1,
                                             retainedAggregateCount) > limits.maxRetainedValueEntries ||
                  groupSize > limits.maxMembersPerGroup || |groups'| > limits.maxGroups);
  }

  method BuildMaterializedIncrementalGroupedQueryState(slots: seq<Entry>, q: CompiledGroupedQuery,
                                                       limits: GroupedIncrementalAdmissionLimits, version: nat)
    returns (state: Option<IncrementalGroupedQueryState>)
    requires DistinctKeys(slots) && ValidPlan(q.plan) && q.plan.limit != Some(0)
    ensures state.Some? <==> Admissible(TableOf(slots), q, limits)
    ensures state.Some? ==> StateShows(state.value, TableOf(slots), q, limits) && state.value.version == version
  {
    var groups: MaterializedGroups := map[];
    var memberCount := 0;
    NoRowsNoGroups(q);
    NoRowsFit(q, limits);
    RowsUpToAll(slots);
    for i := 0 to |slots|
      invariant Materialized(groups, Grouping(RowsUpTo(slots, i), q), q.plan, {})
      invariant memberCount == MemberCount(RowsUpTo(slots, i), q) && RowsWithinLimits(RowsUpTo(slots, i), q, limits)
    {
      RowsUpToNext(slots, i);
      var key, row := slots[i].key, slots[i].row;
      if q.matches(row) {
        var admitted;
        groups, admitted := AdmitRow(groups, memberCount, key, row, q, limits, RowsUpTo(slots, i));
        if !admitted {
          TooLarge(slots, i + 1, q, limits);
          return None;
        }
        memberCount := memberCount + 1;
      } else {
        UnmatchedRow(RowsUpTo(slots, i), key, row, q);
      }
    }
    var list := MaterializedList(groups, TableOf(slots), q);
    var evaluation := GroupedEvaluationFromGroups(list, q.plan, version, Grouping(TableOf(slots), q));
    return Some(MaterializedState(groups, memberCount, evaluation, version));
  }

  lemma NoRowsFit(q: CompiledGroupedQuery, limits: GroupedIncrementalAdmissionLimits)
    ensures MemberCount(map[], q) == 0 && RowsWithinLimits(map[], q, limits)
  {
    assert Matching(map[], q.matches) == {};
  }

  /** A row that does not match changes no group. */
  lemma UnmatchedRow(rows: Table, key: string, row: Row, q: CompiledGroupedQuery)
    requires key !in rows && !q.matches(row)
    ensures Grouping(rows[key := row], q) == Grouping(rows, q)
    ensures MemberCount(rows[key := row], q) == MemberCount(rows, q)
  {
    GroupingAdded(rows, key, row, q);
    MatchingAfterChange(rows, Change(key, None, Some(row), None), q.matches);
  }

  /** The states of up-to-date groups, in some order. */
  method MaterializedList(groups: MaterializedGroups, ghost rows: Table, q: CompiledGroupedQuery)
    returns (list: seq<GroupState>)
    requires Materialized(groups, Grouping(rows, q), q.plan, {})
    ensures ListsGroups(list, Grouping(rows, q), q.plan)
  {
    var states := map g | g in groups :: groups[g].state;
    ghost var grouping := Grouping(rows, q);
    GroupingIsWellGrouped(rows, q);
    forall g | g in states
      ensures GroupShownAt(states, grouping, q.plan, g)
    {
      assert MaterializedAt(groups, grouping, q.plan, {}, g);
      assert StaleAliases({}, g) == {};
    }
    list := GroupsList(states, q.plan, grouping);
  }

  method BuildIncrementalGroupedQueryState(slots: seq<Entry>, q: CompiledGroupedQuery,
                                           limits: GroupedIncrementalAdmissionLimits, version: nat)
    returns (state: Option<IncrementalGroupedQueryState>)
    requires DistinctKeys(slots) && ValidPlan(q.plan)
    ensures state.Some? <==> Admissible(TableOf(slots), q, limits)
    ensures state.Some? ==> StateShows(state.value, TableOf(slots), q, limits) && state.value.version == version
  {
    if q.plan.limit == Some(0) {
      state := BuildCountOnlyIncrementalGroupedQueryState(slots, q, limits, version);
    } else {
      state := BuildMaterializedIncrementalGroupedQueryState(slots, q, limits, version);
    }
  }

  // ----- Applying batches -----

  /** Follows one change of a counted table. It is admitted exactly when the groups are not too many. */
  method FollowCountedChange(counts: map<string, int>, change: Change, q: CompiledGroupedQuery,
                             limits: GroupedIncrementalAdmissionLimits, ghost rows: Table)
    returns (counts': map<string, int>, admitted: bool)
    requires Counted(counts, Grouping(rows, q)) && |Grouping(rows, q)| <= limits.maxGroups && Truthful(rows, change)
    ensures Counted(counts', Grouping(ApplyChange(rows, change), q))
    ensures admitted <==> |Grouping(ApplyChange(rows, change), q)| <= limits.maxGroups
  {
    counts', admitted := counts, true;
    ghost var before := rows - {change.key};
    ChangeInTwoSteps(rows, change);
    if change.previous.Some? {
      counts' := UncountMember(counts, change.key, change.previous.value, q, rows);
      FewerGroups(rows, change.key, q);
    }
    if change.next.Some? {
      GroupingAdded(before, change.key, change.next.value, q);
      if q.matches(change.next.value) {
        counts' := CountMember(counts', change.key, change.next.value, q, before);
        admitted := |counts'| <= limits.maxGroups;
      }
    }
  }

  lemma FewerGroups(rows: Table, k: string, q: CompiledGroupedQuery)
    requires k in rows
    ensures |Grouping(rows - {k}, q)| <= |Grouping(rows, q)|
  {
    GroupingRemoved(rows, k, q);
    if q.matches(rows[k]) {
      var g := q.plan.groupKey(rows[k]);
      SmallerMap(Grouping(rows, q), g);
      LargerMap(Grouping(rows, q), g, Grouping(rows, q)[g] - {k});
    }
  }

  method ApplyCountOnlyIncrementalGroupedQueryBatch(counts: map<string, int>, batch: Batch, q: CompiledGroupedQuery,
                                                    limits: GroupedIncrementalAdmissionLimits, ghost rows: Table)
    returns (counts': map<string, int>, admitted: bool)
    requires Counted(counts, Grouping(rows, q)) && |Grouping(rows, q)| <= limits.maxGroups
    requires Replay(rows, batch.changes).Some? && q.plan.limit == Some(0)
    ensures admitted <==> AdmittedUpTo(rows, batch.changes, |batch.changes|, q, limits)
    ensures admitted ==>
      var after := Grouping(Replay(rows, batch.changes).value, q);
      Counted(counts', after) && |after| <= limits.maxGroups
  {
    hide Counted, Grouping;
    counts' := counts;
    ghost var now := rows;
    assert batch.changes[..0] == [];
    for c := 0 to |batch.changes|
      invariant Replay(rows, batch.changes[..c]) == Some(now)
      invariant Counted(counts', Grouping(now, q)) && |Grouping(now, q)| <= limits.maxGroups
      invariant AdmittedUpTo(rows, batch.changes, c, q, limits)
    {
      AdmittedNext(rows, batch.changes, c, now, q, limits);
      counts', admitted := FollowCountedChange(counts', batch.changes[c], q, limits, now);
      if !admitted {
        NotAdmittedLater(rows, batch.changes, c + 1, |batch.changes|, q, limits);
        return;
      }
      now := ApplyChange(now, batch.changes[c]);
    }
    assert batch.changes[..|batch.changes|] == batch.changes;
    admitted := true;
  }

  method ApplyCountOnlyIncrementalGroupedQueryBatches(state: IncrementalGroupedQueryState, q: CompiledGroupedQuery,
                                                      batches: seq<Batch>, limits: GroupedIncrementalAdmissionLimits,
                                                      ghost rows: Table)
    returns (state': Option<IncrementalGroupedQueryState>)
    requires ValidPlan(q.plan) && state.CountOnlyState? && StateShows(state, rows, q, limits)
    requires ReplayBatches(rows, batches).Some? && Consecutive(batches, state.version)
    ensures state'.Some? <==> AdmittedThroughout(rows, batches, |batches|, q, limits)
    ensures state'.Some? ==>
      && StateShows(state'.value, ReplayBatches(rows, batches).value, q, limits)
      && state'.value.version == state.version + |batches|
  {
    var groups, version := state.counts, state.version;
    ghost var now := rows;
    assert batches[..0] == [];
    for b := 0 to |batches|
      invariant ReplayBatches(rows, batches[..b]) == Some(now) && version == state.version + b
      invariant AdmittedThroughout(rows, batches, b, q, limits)
      invariant Counted(groups, Grouping(now, q)) && |Grouping(now, q)| <= limits.maxGroups
    {
      ReplayBatchesStep(rows, batches, b);
      var admitted;
      groups, admitted := ApplyCountOnlyIncrementalGroupedQueryBatch(groups, batches[b], q, limits, now);
      if !admitted {
        NotAdmittedInLaterBatches(rows, batches, b + 1, |batches|, q, limits);
        return None;
      }
      now := Replay(now, batches[b].changes).value;
      version := batches[b].version;
    }
    assert batches[..|batches|] == batches;
    CountedShows(groups, now, q, limits, version);
    return Some(CountOnlyState(groups, EmptyGroupedEvaluation(|groups|, version), version));
  }

  /** Applies batches to groups and then renews the shown window: in place when every change kept the order
      of the groups, from all groups otherwise. */
  method ApplyMaterializedIncrementalGroupedQueryBatches(state: IncrementalGroupedQueryState, q: CompiledGroupedQuery,
                                                         batches: seq<Batch>, limits: GroupedIncrementalAdmissionLimits,
                                                         ghost rows: Table)
    returns (state': Option<IncrementalGroupedQueryState>)
    requires ValidPlan(q.plan) && state.MaterializedState? && StateShows(state, rows, q, limits)
    requires ReplayBatches(rows, batches).Some? && Consecutive(batches, state.version)
    ensures state'.Some? <==> AdmittedThroughout(rows, batches, |batches|, q, limits)
    ensures state'.Some? ==>
      && StateShows(state'.value, ReplayBatches(rows, batches).value, q, limits)
      && state'.value.version == state.version + |batches|
  {
    ghost var grouping0 := Grouping(rows, q);
    var work := BatchWork(state.groups, state.memberCount, {}, MaterializedEvaluationPatch({}, false));
    var version := state.version;
    ghost var now := rows;
    NeutralAtFirst(grouping0, q.plan);
    assert batches[..0] == [];
    for b := 0 to |batches|
      invariant ReplayBatches(rows, batches[..b]) == Some(now) && version == state.version + b
      invariant AdmittedThroughout(rows, batches, b, q, limits)
      invariant Tracks(work, now, q, grouping0) && work.dirty == {} && RowsWithinLimits(now, q, limits)
    {
      ReplayBatchesStep(rows, batches, b);
      var admitted;
      work, admitted := ApplyMaterializedIncrementalGroupedQueryBatch(work, batches[b], q, limits, now, grouping0);
      if !admitted {
        NotAdmittedInLaterBatches(rows, batches, b + 1, |batches|, q, limits);
        return None;
      }
      now := Replay(now, batches[b].changes).value;
      version := batches[b].version;
    }
    assert batches[..|batches|] == batches;
    var evaluation := EvaluateAfterPatches(work, state.evaluation, version, q, now, rows, state.version);
    return Some(MaterializedState(work.groups, work.memberCount, evaluation, version));
  }

  method EvaluateAfterPatches(work: BatchWork, evaluation: QueryEvaluation, version: nat, q: CompiledGroupedQuery,
                              ghost now: Table, ghost rows: Table, ghost version0: nat)
    returns (latest: QueryEvaluation)
    requires ValidPlan(q.plan) && q.plan.limit != Some(0) && Tracks(work, now, q, Grouping(rows, q)) && work.dirty == {}
    requires evaluation == GroupedAnswer(Grouping(rows, q), q.plan, version0)
    ensures latest == GroupedAnswer(Grouping(now, q), q.plan, version)
  {
    GroupingIsWellGrouped(now, q);
    if work.patch.requiresFullEvaluation {
      var list := MaterializedList(work.groups, now, q);
      latest := GroupedEvaluationFromGroups(list, q.plan, version, Grouping(now, q));
    } else {
      latest := PatchOrderNeutralMaterializedEvaluation(evaluation, work.groups, work.patch, version, q.plan,
                                                        Grouping(rows, q),
                                                        Grouping(now, q), version0);
    }
  }

  /** The state after batches, or nothing when the table did not stay within the limits. */
  method ApplyIncrementalGroupedQueryBatches(state: IncrementalGroupedQueryState, q: CompiledGroupedQuery,
                                             batches: seq<Batch>, limits: GroupedIncrementalAdmissionLimits,
                                             ghost rows: Table)
    returns (state': Option<IncrementalGroupedQueryState>)
    requires ValidPlan(q.plan) && StateShows(state, rows, q, limits)
    requires ReplayBatches(rows, batches).Some? && Consecutive(batches, state.version)
    ensures state'.Some? <==> AdmittedThroughout(rows, batches, |batches|, q, limits)
    ensures state'.Some? ==>
      && StateShows(state'.value, ReplayBatches(rows, batches).value, q, limits)
      && state'.value.version == state.version + |batches|
  {
    if state.CountOnlyState? {
      state' := ApplyCountOnlyIncrementalGroupedQueryBatches(state, q, batches, limits, rows);
    } else {
      state' := ApplyMaterializedIncrementalGroupedQueryBatches(state, q, batches, limits, rows);
    }
  }
}
