/** Applying batches of row changes to groups, within admission limits. */
module GroupedBatches {
  import opened Values
  import opened Sequences
  import opened Rows
  import opened GroupedAggregates
  import opened GroupedQuery
  import opened GroupStates
  import opened GroupedIncremental
  import opened GroupedPatch

  datatype GroupedIncrementalAdmissionLimits = GroupedIncrementalAdmissionLimits(
    maxGroups: nat,
    maxMembers: nat,
    maxMembersPerGroup: nat,
    maxRetainedValueEntries: nat
  )

  function RetainedValueAggregateCount(plans: seq<AggregatePlan>): nat {
    if plans == [] then 0
    else
      var aggregate := plans[|plans| - 1].aggregate;
      RetainedValueAggregateCount(plans[..|plans| - 1]) +
      if aggregate.CountDistinct? || aggregate.Minimum? || aggregate.Maximum? then 1 else 0
  }

  function RetainedValueEntryEstimate(memberCount: int, retainedAggregateCount: nat): int {
    memberCount * retainedAggregateCount
  }

  ghost predicate GroupFits(grouping: map<string, Members>, g: string, limits: GroupedIncrementalAdmissionLimits) {
    g in grouping && |grouping[g]| <= limits.maxMembersPerGroup
  }

  ghost predicate MembersFit(memberCount: int, plan: GroupedQueryPlan, limits: GroupedIncrementalAdmissionLimits) {
    && memberCount <= limits.maxMembers
    && RetainedValueEntryEstimate(memberCount, RetainedValueAggregateCount(plan.aggregatePlans)) <=
      limits.maxRetainedValueEntries
  }

  /** Neither the groups nor their members are too many. */
  ghost predicate WithinLimits(grouping: map<string, Members>, memberCount: int, plan: GroupedQueryPlan,
                               limits: GroupedIncrementalAdmissionLimits)
  {
    && |grouping| <= limits.maxGroups && MembersFit(memberCount, plan, limits)
    && forall g {:trigger GroupFits(grouping, g, limits)} | g in grouping :: GroupFits(grouping, g, limits)
  }

  ghost function MemberCount(rows: Table, q: CompiledGroupedQuery): nat {
    |Matching(rows, q.matches)|
  }

  ghost predicate RowsWithinLimits(rows: Table, q: CompiledGroupedQuery, limits: GroupedIncrementalAdmissionLimits) {
    WithinLimits(Grouping(rows, q), MemberCount(rows, q), q.plan, limits)
  }

  /** The table may be held incrementally. */
  ghost predicate Admissible(rows: Table, q: CompiledGroupedQuery, limits: GroupedIncrementalAdmissionLimits) {
    if q.plan.limit == Some(0) then |Grouping(rows, q)| <= limits.maxGroups else RowsWithinLimits(rows, q, limits)
  }

  lemma FewerMembersFit(memberCount: int, fewer: int, plan: GroupedQueryPlan, limits: GroupedIncrementalAdmissionLimits)
    requires MembersFit(memberCount, plan, limits) && fewer <= memberCount
    ensures MembersFit(fewer, plan, limits)
  {
    var retained := RetainedValueAggregateCount(plan.aggregatePlans);
    assert (memberCount - fewer) * retained >= 0;
    assert fewer * retained == memberCount * retained - (memberCount - fewer) * retained;
  }

  /** Taking a member away keeps the limits. */
  lemma WithinLimitsWithout(grouping: map<string, Members>, memberCount: int, plan: GroupedQueryPlan,
                            limits: GroupedIncrementalAdmissionLimits, g: string, k: string, fewer: int)
    requires WithinLimits(grouping, memberCount, plan, limits) && g in grouping && k in grouping[g]
    requires fewer <= memberCount
    ensures WithinLimits(WithoutMember(grouping, g, k), fewer, plan, limits)
  {
    var after := WithoutMember(grouping, g, k);
    FewerMembersFit(memberCount, fewer, plan, limits);
    SmallerMap(grouping, g);
    SmallerMap(grouping[g], k);
    LargerMap(grouping, g, grouping[g] - {k});
    forall h | h in after
      ensures GroupFits(after, h, limits)
    {
      assert GroupFits(grouping, h, limits);
    }
  }

  /** Adding a member keeps the limits exactly when its group, the groups and the members stay within them. */
  lemma WithinLimitsWith(grouping: map<string, Members>, memberCount: int, plan: GroupedQueryPlan,
                         limits: GroupedIncrementalAdmissionLimits, g: string, k: string, row: Row, more: int)
    requires WithinLimits(grouping, memberCount, plan, limits)
    ensures
      var after := WithMember(grouping, g, k, row);
      WithinLimits(after, more, plan, limits) <==>
        && |MembersIn(grouping, g)[k := row]| <= limits.maxMembersPerGroup
        && |after| <= limits.maxGroups && MembersFit(more, plan, limits)
  {
    var after := WithMember(grouping, g, k, row);
    assert GroupFits(after, g, limits) <==> |MembersIn(grouping, g)[k := row]| <= limits.maxMembersPerGroup;
    forall h | h in after && h != g
      ensures GroupFits(after, h, limits)
    {
      assert GroupFits(grouping, h, limits);
    }
  }

  // ----- One change -----

  /** The groups while a batch is applied. */
  datatype BatchWork = BatchWork(
    groups: MaterializedGroups,
    memberCount: int,
    dirty: set<DirtyAggregate>,
    patch: MaterializedEvaluationPatch
  )

  /** The groups are those of the table, and what has changed since the shown evaluation is known. */
  ghost predicate Tracks(work: BatchWork, rows: Table, q: CompiledGroupedQuery, grouping0: map<string, Members>)
    requires DistinctAliases(q.plan.aggregatePlans)
  {
    && Materialized(work.groups, Grouping(rows, q), q.plan, work.dirty) && work.memberCount == MemberCount(rows, q)
    && (!work.patch.requiresFullEvaluation ==>
      OrderNeutral(grouping0, Grouping(rows, q), q.plan, work.patch.dirtyGroups))
  }

  /** The stored row leaves its group. */
  method RemovePrevious(work: BatchWork, key: string, previous: Row, q: CompiledGroupedQuery,
                        ghost limits: GroupedIncrementalAdmissionLimits, ghost rows: Table,
                        ghost grouping0: map<string, Members>)
    returns (work': BatchWork)
    requires ValidPlan(q.plan) && Tracks(work, rows, q, grouping0) && RowsWithinLimits(rows, q, limits)
    requires key in rows && rows[key] == previous
    ensures Tracks(work', rows - {key}, q, grouping0) && RowsWithinLimits(rows - {key}, q, limits)
  {
    ghost var grouping := Grouping(rows, q);
    GroupingRemoved(rows, key, q);
    MatchingAfterChange(rows, Change(key, Some(previous), None, None), q.matches);
    RemovedMember(rows, key, q);
    var removed, groups, dirty := RemoveMember(work.groups, work.dirty, q, key, previous, grouping);
    if removed {
      work' := BatchWork(groups, work.memberCount - 1, dirty, work.patch.(requiresFullEvaluation := true));
      WithinLimitsWithout(grouping, work.memberCount, q.plan, limits, q.plan.groupKey(previous), key,
                          work.memberCount - 1);
    } else {
      work' := work;
    }
  }

  /** A stored row is in the group of its key or in none. */
  lemma RemovedMember(rows: Table, key: string, q: CompiledGroupedQuery)
    requires key in rows
    ensures
      var members := MembersIn(Grouping(rows, q), q.plan.groupKey(rows[key]));
      && (key in members <==> q.matches(rows[key]))
      && (key in members ==> members[key] == rows[key])
  {
    GroupHasMembers(rows, q, q.plan.groupKey(rows[key]));
  }

  /** A new row enters its group; the limits say whether it may. */
  method UpsertNext(work: BatchWork, key: string, next: Row, q: CompiledGroupedQuery,
                    limits: GroupedIncrementalAdmissionLimits, ghost rows: Table, ghost grouping0: map<string, Members>)
    returns (work': BatchWork, admitted: bool)
    requires ValidPlan(q.plan) && Tracks(work, rows, q, grouping0) && RowsWithinLimits(rows, q, limits) && key !in rows
    ensures admitted <==> RowsWithinLimits(rows[key := next], q, limits)
    ensures admitted ==> Tracks(work', rows[key := next], q, grouping0)
  {
    ghost var grouping := Grouping(rows, q);
    GroupingAdded(rows, key, next, q);
    GroupingIsWellGrouped(rows, q);
    MatchingAfterChange(rows, Change(key, None, Some(next), None), q.matches);
    if !q.matches(next) {
      return work, true;
    }
    WithinLimitsWith(grouping, work.memberCount, q.plan, limits, q.plan.groupKey(next), key, next,
                     work.memberCount + 1);
    var groups, dirty, groupSize, inserted := UpsertMember(work.groups, work.dirty, q, key, next, grouping);
    work' := BatchWork(groups, work.memberCount, dirty, work.patch.(requiresFullEvaluation := true));
    assert |groups| == |WithMember(grouping, q.plan.groupKey(next), key, next)| by {
      assert |groups| == |groups.Keys|;
      assert |WithMember(grouping, q.plan.groupKey(next), key, next)| ==
        |WithMember(grouping, q.plan.groupKey(next), key, next).Keys|;
    }
    if groupSize > limits.maxMembersPerGroup {
      return work', false;
    }
    if |groups| > limits.maxGroups {
      return work', false;
    }
    if inserted {
      var memberCount := work.memberCount + 1;
      work' := work'.(memberCount := memberCount);
      var retainedAggregateCount := RetainedValueAggregateCount(q.plan.aggregatePlans);
      if memberCount > limits.maxMembers ||
        RetainedValueEntryEstimate(memberCount, retainedAggregateCount) > limits.maxRetainedValueEntries {
        return work', false;
      }
    }
    return work', true;
  }

  /** The change keeps its row in the group it was in. */
  predicate StaysInGroup(change: Change, q: CompiledGroupedQuery) {
    && change.previous.Some? && change.next.Some? && q.matches(change.previous.value) && q.matches(change.next.value)
    && q.plan.groupKey(change.previous.value) == q.plan.groupKey(change.next.value)
  }

  /** A row that stays in its group changes only what is counted there. */
  lemma GroupingReplaced(rows: Table, change: Change, q: CompiledGroupedQuery)
    requires Truthful(rows, change) && StaysInGroup(change, q)
    ensures
      var g := q.plan.groupKey(change.previous.value);
      var grouping := Grouping(rows, q);
      && g in grouping && change.key in grouping[g] && grouping[g][change.key] == change.previous.value
      && Grouping(ApplyChange(rows, change), q) == grouping[g := grouping[g][change.key := change.next.value]]
      && MemberCount(ApplyChange(rows, change), q) == MemberCount(rows, q)
  {
    var g, k, next := q.plan.groupKey(change.previous.value), change.key, change.next.value;
    var grouping := Grouping(rows, q);
    MatchingAfterChange(rows, change, q.matches);
    GroupHasMembers(rows, q, g);
    assert k in MembersOf(rows, g, q);
    GroupingRemoved(rows, k, q);
    GroupingAdded(rows - {k}, k, next, q);
    assert (rows - {k})[k := next] == rows[k := next];
    MembersReplaced(grouping, g, k, next);
  }

  lemma MembersReplaced(grouping: map<string, Members>, g: string, k: string, next: Row)
    requires g in grouping && k in grouping[g]
    ensures WithMember(WithoutMember(grouping, g, k), g, k, next) == grouping[g := grouping[g][k := next]]
  {
    var without := WithoutMember(grouping, g, k);
    assert MembersIn(without, g)[k := next] == grouping[g][k := next];
    assert without[g := grouping[g][k := next]] == grouping[g := grouping[g][k := next]];
  }

  /** Replaces the row of a member that stays in its group. */
  method ReplaceStaying(work: BatchWork, change: Change, q: CompiledGroupedQuery,
                        ghost limits: GroupedIncrementalAdmissionLimits, ghost rows: Table,
                        ghost grouping0: map<string, Members>)
    returns (work': BatchWork)
    requires ValidPlan(q.plan) && Tracks(work, rows, q, grouping0) && RowsWithinLimits(rows, q, limits)
    requires Truthful(rows, change) && StaysInGroup(change, q)
    ensures Tracks(work', ApplyChange(rows, change), q, grouping0)
    ensures RowsWithinLimits(ApplyChange(rows, change), q, limits)
  {
    var g, key, previous, next :=
      q.plan.groupKey(change.previous.value), change.key, change.previous.value, change.next.value;
    ghost var grouping := Grouping(rows, q);
    GroupingReplaced(rows, change, q);
    GroupingIsWellGrouped(rows, q);
    assert MaterializedAt(work.groups, grouping, q.plan, work.dirty, g);
    var group := work.groups[g];
    ghost var members := grouping[g][key := next];
    var aggregates, dirty, patch :=
      ReplaceInAggregates(g, group.state.aggregates, q.plan, previous, next, change.changedFields,
                                                        work.dirty, work.patch, grouping[g], key);
    var replaced := MaterializedGroup(group.state.(aggregates := aggregates), group.members[key := next]);
    SameGroupSameFields(group.state, g, grouping[g], next, q);
    MaterializedWith(work.groups, grouping, q.plan, work.dirty, g, replaced, members, dirty);
    work' := BatchWork(work.groups[g := replaced], work.memberCount, dirty, patch);
    if !patch.requiresFullEvaluation {
      NeutralAfterReplace(grouping0, grouping, q, g, key, next, work.patch, patch);
    }
    WithinLimitsReplaced(grouping, work.memberCount, q.plan, limits, g, key, next);
  }

  lemma WithinLimitsReplaced(grouping: map<string, Members>, memberCount: int, plan: GroupedQueryPlan,
                             limits: GroupedIncrementalAdmissionLimits, g: string, k: string, next: Row)
    requires WithinLimits(grouping, memberCount, plan, limits) && g in grouping && k in grouping[g]
    ensures WithinLimits(grouping[g := grouping[g][k := next]], memberCount, plan, limits)
  {
    var after := grouping[g := grouping[g][k := next]];
    LargerMap(grouping, g, grouping[g][k := next]);
    LargerMap(grouping[g], k, next);
    forall h | h in after
      ensures GroupFits(after, h, limits)
    {
      assert GroupFits(grouping, h, limits);
    }
  }

  /** Follows one change. It is admitted exactly when the changed table is within the limits. */
  method FollowChange(work: BatchWork, change: Change, q: CompiledGroupedQuery,
                      limits: GroupedIncrementalAdmissionLimits, ghost rows: Table,
                      ghost grouping0: map<string, Members>)
    returns (work': BatchWork, admitted: bool)
    requires ValidPlan(q.plan) && Tracks(work, rows, q, grouping0) && RowsWithinLimits(rows, q, limits)
    requires Truthful(rows, change)
    ensures admitted <==> RowsWithinLimits(ApplyChange(rows, change), q, limits)
    ensures admitted ==> Tracks(work', ApplyChange(rows, change), q, grouping0)
  {
    if StaysInGroup(change, q) {
      GroupingReplaced(rows, change, q);
      var groupedKey := q.plan.groupKey(change.previous.value);
      assert MaterializedAt(work.groups, Grouping(rows, q), q.plan, work.dirty, groupedKey);
      if groupedKey in work.groups && change.key in work.groups[groupedKey].members {
        work' := ReplaceStaying(work, change, q, limits, rows, grouping0);
        return work', true;
      }
    }
    work', admitted := FollowMovingChange(work, change, q, limits, rows, grouping0);
  }

  /** Follows a change by taking the stored row out and putting the new one in. */
  method FollowMovingChange(work: BatchWork, change: Change, q: CompiledGroupedQuery,
                            limits: GroupedIncrementalAdmissionLimits, ghost rows: Table,
                            ghost grouping0: map<string, Members>)
    returns (work': BatchWork, admitted: bool)
    requires ValidPlan(q.plan) && Tracks(work, rows, q, grouping0) && RowsWithinLimits(rows, q, limits)
    requires Truthful(rows, change)
    ensures admitted <==> RowsWithinLimits(ApplyChange(rows, change), q, limits)
    ensures admitted ==> Tracks(work', ApplyChange(rows, change), q, grouping0)
  {
    work', admitted := work, true;
    ghost var before := rows - {change.key};
    ChangeInTwoSteps(rows, change);
    if change.previous.Some? {
      work' := RemovePrevious(work, change.key, change.previous.value, q, limits, rows, grouping0);
    }
    if change.next.Some? {
      work', admitted := UpsertNext(work', change.key, change.next.value, q, limits, before, grouping0);
    }
  }

  lemma ChangeInTwoSteps(rows: Table, change: Change)
    requires Truthful(rows, change)
    ensures change.previous.None? ==> rows - {change.key} == rows
    ensures ApplyChange(rows, change) ==
            if change.next.Some? then (rows - {change.key})[change.key := change.next.value] else rows - {change.key}
  {
  }

  // ----- The end of a batch -----

  /** Finds one stale minimum or maximum anew. */
  method RecomputeAggregate(aggregates: map<string, AggregateState>, alias: string, plan: GroupedQueryPlan,
                            ghost members: Members, ghost stale: set<string>)
    returns (states: map<string, AggregateState>)
    requires DistinctAliases(plan.aggregatePlans) && AllReversible(aggregates)
    requires AggregatesShown(aggregates, plan.aggregatePlans, members, stale)
    ensures AggregatesShown(states, plan.aggregatePlans, members, stale - {alias}) && AllReversible(states)
  {
    states := aggregates;
    if alias in aggregates {
      ghost var i := PlanOf(plan.aggregatePlans, alias);
      assert AggregateShown(aggregates, plan.aggregatePlans[i], members, stale);
      if aggregates[alias].MinMaxState? && aggregates[alias].retained.Some? {
        ghost var bag := Bag(members, plan.aggregatePlans[i].aggregate);
        var state := RecomputeRetainedMinMaxAggregateState(aggregates[alias], bag);
        states := aggregates[alias := state];
      }
      assert AggregateShown(states, plan.aggregatePlans[i], members, stale - {alias});
      CleanElsewhere(aggregates, states, plan.aggregatePlans, i, members, stale);
    } else {
      NoSuchAggregate(aggregates, plan.aggregatePlans, alias, members, stale);
    }
  }

  lemma CleanElsewhere(before: map<string, AggregateState>, states: map<string, AggregateState>,
                       plans: seq<AggregatePlan>, i: nat, members: Members, stale: set<string>)
    requires DistinctAliases(plans) && i < |plans| && plans[i].alias in states
    requires states == before[plans[i].alias := states[plans[i].alias]]
    requires AggregatesShown(before, plans, members, stale)
    requires AggregateShown(states, plans[i], members, stale - {plans[i].alias})
    ensures AggregatesShown(states, plans, members, stale - {plans[i].alias})
  {
    forall j | 0 <= j < |plans|
      ensures AggregateShown(states, plans[j], members, stale - {plans[i].alias})
    {
      assert AggregateShown(before, plans[j], members, stale);
      assert j != i ==> plans[j].alias != plans[i].alias;
    }
  }

  lemma NoSuchAggregate(states: map<string, AggregateState>, plans: seq<AggregatePlan>, alias: string, members: Members,
                        stale: set<string>)
    requires AggregatesShown(states, plans, members, stale) && alias !in states
    ensures AggregatesShown(states, plans, members, stale - {alias})
  {
    forall j | 0 <= j < |plans|
      ensures AggregateShown(states, plans[j], members, stale - {alias})
    {
      assert AggregateShown(states, plans[j], members, stale);
      assert plans[j].alias in Aliases(plans);
    }
  }

  /** Finds the stale minima and maxima anew; then every group is up to date. */
  method RecomputeDirtyAggregateStates(groups: MaterializedGroups, dirty: set<DirtyAggregate>, plan: GroupedQueryPlan,
                                       ghost grouping: map<string, Members>)
    returns (groups': MaterializedGroups)
    requires DistinctAliases(plan.aggregatePlans) && Materialized(groups, grouping, plan, dirty)
    ensures Materialized(groups', grouping, plan, {})
  {
    groups' := groups;
    var remaining := dirty;
    while remaining != {}
      invariant Materialized(groups', grouping, plan, remaining)
      decreases |remaining|
    {
      var d :| d in remaining;
      ghost var before := groups';
      if d.group in groups' {
        assert MaterializedAt(groups', grouping, plan, remaining, d.group);
        var group := groups'[d.group];
        var aggregates := RecomputeAggregate(group.state.aggregates, d.alias, plan, grouping[d.group],
                                             StaleAliases(remaining, d.group));
        assert StaleAliases(remaining - {d}, d.group) == StaleAliases(remaining, d.group) - {d.alias};
        groups' := groups'[d.group := group.(state := group.state.(aggregates := aggregates))];
      }
      MaterializedClean(before, groups', grouping, plan, remaining, d);
      remaining := remaining - {d};
    }
  }

  lemma MaterializedClean(before: MaterializedGroups, groups: MaterializedGroups, grouping: map<string, Members>,
                          plan: GroupedQueryPlan, remaining: set<DirtyAggregate>, d: DirtyAggregate)
    requires Materialized(before, grouping, plan, remaining) && d in remaining
    requires if d.group in before then
               d.group in groups && groups == before[d.group := groups[d.group]] &&
               MaterializedAt(groups, grouping, plan, remaining - {d}, d.group)
             else groups == before
    ensures Materialized(groups, grouping, plan, remaining - {d})
  {
    forall h | h in groups
      ensures MaterializedAt(groups, grouping, plan, remaining - {d}, h)
    {
      if h != d.group {
        assert MaterializedAt(before, grouping, plan, remaining, h);
        assert StaleAliases(remaining - {d}, h) == StaleAliases(remaining, h);
      }
    }
  }

  ghost predicate TableAdmissible(rows: Option<Table>, q: CompiledGroupedQuery,
                                  limits: GroupedIncrementalAdmissionLimits)
  {
    rows.Some? && Admissible(rows.value, q, limits)
  }

  /** The table is within the limits at first and after each of the first `n` changes. */
  ghost predicate AdmittedUpTo(rows: Table, changes: seq<Change>, n: nat, q: CompiledGroupedQuery,
                               limits: GroupedIncrementalAdmissionLimits)
    requires n <= |changes|
  {
    TableAdmissible(Replay(rows, changes[..n]), q, limits)
      && (n > 0 ==> AdmittedUpTo(rows, changes, n - 1, q, limits))
  }

  lemma AdmittedNext(rows: Table, changes: seq<Change>, c: nat, now: Table, q: CompiledGroupedQuery,
                     limits: GroupedIncrementalAdmissionLimits)
    requires c < |changes| && Replay(rows, changes).Some? && Replay(rows, changes[..c]) == Some(now)
    requires AdmittedUpTo(rows, changes, c, q, limits)
    ensures Truthful(now, changes[c]) && Replay(rows, changes[..c + 1]) == Some(ApplyChange(now, changes[c]))
    ensures AdmittedUpTo(rows, changes, c + 1, q, limits) <==> Admissible(ApplyChange(now, changes[c]), q, limits)
  {
    ReplayStep(rows, changes, c);
  }

  lemma {:induction false} NotAdmittedLater(rows: Table, changes: seq<Change>, c: nat, n: nat, q: CompiledGroupedQuery,
                                            limits: GroupedIncrementalAdmissionLimits)
    requires c <= n <= |changes| && !AdmittedUpTo(rows, changes, c, q, limits)
    ensures !AdmittedUpTo(rows, changes, n, q, limits)
    decreases n
  {
    if c < n {
      NotAdmittedLater(rows, changes, c, n - 1, q, limits);
    }
  }

  /** Follows the changes of a batch one by one, as long as the table stays within the limits. */
  method FollowChanges(work: BatchWork, changes: seq<Change>, q: CompiledGroupedQuery,
                       limits: GroupedIncrementalAdmissionLimits, ghost rows: Table,
                       ghost grouping0: map<string, Members>)
    returns (work': BatchWork, admitted: bool)
    requires ValidPlan(q.plan) && Tracks(work, rows, q, grouping0) && RowsWithinLimits(rows, q, limits)
    requires Replay(rows, changes).Some? && q.plan.limit != Some(0)
    ensures admitted <==> AdmittedUpTo(rows, changes, |changes|, q, limits)
    ensures admitted ==> Tracks(work', Replay(rows, changes).value, q, grouping0)
    ensures admitted ==> RowsWithinLimits(Replay(rows, changes).value, q, limits)
  {
    work' := work;
    ghost var now := rows;
    assert changes[..0] == [];
    for c := 0 to |changes|
      invariant Replay(rows, changes[..c]) == Some(now) && AdmittedUpTo(rows, changes, c, q, limits)
      invariant Tracks(work', now, q, grouping0) && RowsWithinLimits(now, q, limits)
    {
      AdmittedNext(rows, changes, c, now, q, limits);
      work', admitted := FollowChange(work', changes[c], q, limits, now, grouping0);
      if !admitted {
        NotAdmittedLater(rows, changes, c + 1, |changes|, q, limits);
        return;
      }
      now := ApplyChange(now, changes[c]);
    }
    assert changes[..|changes|] == changes;
    admitted := true;
  }

  /** Applies a batch: it is admitted exactly when the table stays within the limits all the way, and then
      every group is up to date again. */
  method ApplyMaterializedIncrementalGroupedQueryBatch(work: BatchWork, batch: Batch, q: CompiledGroupedQuery,
                                                       limits: GroupedIncrementalAdmissionLimits, ghost rows: Table,
                                                       ghost grouping0: map<string, Members>)
    returns (work': BatchWork, admitted: bool)
    requires ValidPlan(q.plan) && Tracks(work, rows, q, grouping0) && RowsWithinLimits(rows, q, limits)
    requires Replay(rows, batch.changes).Some? && q.plan.limit != Some(0)
    ensures admitted <==> AdmittedUpTo(rows, batch.changes, |batch.changes|, q, limits)
    ensures admitted ==> Tracks(work', Replay(rows, batch.changes).value, q, grouping0) && work'.dirty == {}
    ensures admitted ==> RowsWithinLimits(Replay(rows, batch.changes).value, q, limits)
  {
    work', admitted := FollowChanges(work, batch.changes, q, limits, rows, grouping0);
    if admitted {
      ghost var grouping := Grouping(Replay(rows, batch.changes).value, q);
      var groups := RecomputeDirtyAggregateStates(work'.groups, work'.dirty, q.plan, grouping);
      work' := work'.(groups := groups, dirty := {});
    }
  }

  /** The table is admissible after every change of the first `n` batches. */
  ghost predicate AdmittedThroughout(rows: Table, batches: seq<Batch>, n: nat, q: CompiledGroupedQuery,
                                     limits: GroupedIncrementalAdmissionLimits)
    requires n <= |batches|
  {
    n > 0 ==>
      && AdmittedThroughout(rows, batches, n - 1, q, limits)
      && AdmittedAfter(ReplayBatches(rows, batches[..n - 1]), batches[n - 1].changes, q, limits)
  }

  ghost predicate AdmittedAfter(rows: Option<Table>, changes: seq<Change>, q: CompiledGroupedQuery,
                                limits: GroupedIncrementalAdmissionLimits)
  {
    rows.Some? && AdmittedUpTo(rows.value, changes, |changes|, q, limits)
  }

  lemma {:induction false} NotAdmittedInLaterBatches(rows: Table, batches: seq<Batch>, b: nat, n: nat,
                                                     q: CompiledGroupedQuery,
                                                     limits: GroupedIncrementalAdmissionLimits)
    requires b <= n <= |batches| && !AdmittedThroughout(rows, batches, b, q, limits)
    ensures !AdmittedThroughout(rows, batches, n, q, limits)
    decreases n
  {
    if b < n {
      NotAdmittedInLaterBatches(rows, batches, b, n - 1, q, limits);
    }
  }
}
