/** Groups kept up to date from row changes. */
module GroupedIncremental {
  import opened Values
  import opened Rows
  import opened GroupKeys
  import opened GroupedAggregates
  import opened GroupedQuery
  import opened GroupStates

  datatype MaterializedGroup = MaterializedGroup(state: GroupState, members: Members)

  type MaterializedGroups = map<string, MaterializedGroup>

  /** An aggregate of a group whose minimum or maximum is to be found anew when the batch ends. */
  datatype DirtyAggregate = DirtyAggregate(group: string, alias: string)

  ghost function StaleAliases(dirty: set<DirtyAggregate>, g: string): (aliases: set<string>)
    ensures forall a :: a in aliases <==> DirtyAggregate(g, a) in dirty
  {
    set d | d in dirty && d.group == g :: d.alias
  }

  /** The group holds exactly its members and reflects them, but for its dirty aggregates. */
  ghost predicate MaterializedAt(groups: MaterializedGroups, grouping: map<string, Members>, plan: GroupedQueryPlan,
                                 dirty: set<DirtyAggregate>, g: string)
  {
    && g in groups && g in grouping && groups[g].members == grouping[g] && AllReversible(groups[g].state.aggregates)
    && GroupShown(groups[g].state, g, grouping[g], plan, StaleAliases(dirty, g))
  }

  ghost predicate Materialized(groups: MaterializedGroups, grouping: map<string, Members>, plan: GroupedQueryPlan,
                               dirty: set<DirtyAggregate>)
  {
    && groups.Keys == grouping.Keys
    && forall g {:trigger MaterializedAt(groups, grouping, plan, dirty, g)} | g in groups ::
         MaterializedAt(groups, grouping, plan, dirty, g)
  }

  // ----- Staleness -----

  lemma ShownWithMoreStale(states: map<string, AggregateState>, p: AggregatePlan, members: Members, stale: set<string>,
                           more: set<string>)
    requires AggregateShown(states, p, members, stale) && (p.alias in stale ==> p.alias in more)
    ensures AggregateShown(states, p, members, more)
  {
  }

  lemma AggregatesWithMoreStale(states: map<string, AggregateState>, plans: seq<AggregatePlan>, members: Members,
                                stale: set<string>, more: set<string>)
    requires AggregatesShown(states, plans, members, stale) && stale <= more
    ensures AggregatesShown(states, plans, members, more)
  {
    forall i | 0 <= i < |plans|
      ensures AggregateShown(states, plans[i], members, more)
    {
      assert AggregateShown(states, plans[i], members, stale);
      ShownWithMoreStale(states, plans[i], members, stale, more);
    }
  }

  /** Changing one group leaves the others as they were. */
  lemma MaterializedWith(groups: MaterializedGroups, grouping: map<string, Members>, plan: GroupedQueryPlan,
                         dirty: set<DirtyAggregate>, g: string, group: MaterializedGroup, members: Members,
                         dirty': set<DirtyAggregate>)
    requires Materialized(groups, grouping, plan, dirty) && dirty <= dirty'
    requires group.members == members && AllReversible(group.state.aggregates)
    requires GroupShown(group.state, g, members, plan, StaleAliases(dirty', g))
    ensures Materialized(groups[g := group], grouping[g := members], plan, dirty')
  {
    var after := groups[g := group];
    forall h | h in after
      ensures MaterializedAt(after, grouping[g := members], plan, dirty', h)
    {
      if h != g {
        assert MaterializedAt(groups, grouping, plan, dirty, h);
        AggregatesWithMoreStale(groups[h].state.aggregates, plan.aggregatePlans, grouping[h], StaleAliases(dirty, h),
                                StaleAliases(dirty', h));
      }
    }
  }

  lemma MaterializedWithout(groups: MaterializedGroups, grouping: map<string, Members>, plan: GroupedQueryPlan,
                            dirty: set<DirtyAggregate>, g: string)
    requires Materialized(groups, grouping, plan, dirty)
    ensures Materialized(groups - {g}, grouping - {g}, plan, dirty)
  {
    var rest := groups - {g};
    forall h | h in rest
      ensures MaterializedAt(rest, grouping - {g}, plan, dirty, h)
    {
      assert MaterializedAt(groups, grouping, plan, dirty, h);
    }
  }

  // ----- The aggregates of one group -----

  /** Takes a member out of every aggregate of its group. */
  method RemoveFromAggregates(g: string, aggregates: map<string, AggregateState>, plan: GroupedQueryPlan, row: Row,
                              dirty: set<DirtyAggregate>, ghost members: Members, ghost key: string)
    returns (states: map<string, AggregateState>, dirty': set<DirtyAggregate>)
    requires DistinctAliases(plan.aggregatePlans) && AllReversible(aggregates)
    requires AggregatesShown(aggregates, plan.aggregatePlans, members, StaleAliases(dirty, g))
    requires key in members && members[key] == row
    ensures AggregatesShown(states, plan.aggregatePlans, members - {key}, StaleAliases(dirty', g))
    ensures AllReversible(states)
    ensures dirty <= dirty'
  {
    var plans := plan.aggregatePlans;
    states, dirty' := aggregates, dirty;
    for i := 0 to |plans|
      invariant states.Keys == aggregates.Keys && AllReversible(states) && dirty <= dirty'
      invariant ShownFrom(states, plans, members, StaleAliases(dirty', g), i, |plans|)
      invariant ShownFrom(states, plans, members - {key}, StaleAliases(dirty', g), 0, i)
    {
      var alias := plans[i].alias;
      assert AggregateShown(states, plans[i], members, StaleAliases(dirty', g));
      ForgetMember(states[alias], plans[i].aggregate, members, key, alias in StaleAliases(dirty', g));
      var (state, requiresRecompute) := RemoveAggregateState(states[alias], plans[i].aggregate, row);
      ghost var before, stale := states, StaleAliases(dirty', g);
      states := states[alias := state];
      if requiresRecompute {
        dirty' := dirty' + {DirtyAggregate(g, alias)};
      }
      ShownAfter(before, states, plans, i, members, stale, StaleAliases(dirty', g), i + 1, |plans|);
      ShownAfter(before, states, plans, i, members - {key}, stale, StaleAliases(dirty', g), 0, i);
    }
  }

  ghost predicate ShownFrom(states: map<string, AggregateState>, plans: seq<AggregatePlan>, members: Members,
                            stale: set<string>, from: nat, to: nat)
    requires to <= |plans|
  {
    forall j {:trigger AggregateShown(states, plans[j], members, stale)} | from <= j < to ::
      AggregateShown(states, plans[j], members, stale)
  }

  /** Setting one aggregate and marking more of them stale keeps a range of others shown. */
  lemma ShownAfter(before: map<string, AggregateState>, states: map<string, AggregateState>, plans: seq<AggregatePlan>,
                   i: nat, members: Members, stale: set<string>, more: set<string>, from: nat, to: nat)
    requires DistinctAliases(plans) && i < |plans| && plans[i].alias in states && from <= to <= |plans|
    requires !(from <= i < to)
    requires states == before[plans[i].alias := states[plans[i].alias]] && stale <= more
    requires ShownFrom(before, plans, members, stale, from, to)
    ensures ShownFrom(states, plans, members, more, from, to)
  {
    forall j | from <= j < to
      ensures AggregateShown(states, plans[j], members, more)
    {
      assert plans[j].alias != plans[i].alias;
      assert AggregateShown(before, plans[j], members, stale);
      ShownWithMoreStale(states, plans[j], members, stale, more);
    }
  }

  lemma ForgetMember(state: AggregateState, aggregate: Aggregate, members: Members, key: string, stale: bool)
    requires Reflects(state, aggregate, Bag(members, aggregate), stale) && Reversible(state) && key in members
    ensures CanForget(state, AggregateFieldValue(members[key], aggregate))
    ensures
      var (state', dirty) := RemoveAggregateState(state, aggregate, members[key]);
      Reflects(state', aggregate, Bag(members - {key}, aggregate), stale || dirty) && Reversible(state')
  {
    var value := AggregateFieldValue(members[key], aggregate);
    BagSplit(members, aggregate, key);
    RemoveReflects(state, aggregate, Bag(members, aggregate), members[key], stale);
    assert Bag(members, aggregate) - multiset{value} == Bag(members - {key}, aggregate);
  }

  // ----- One member -----

  /** Takes a row out of its group, and the group away with its last member. */
  method RemoveMember(groups: MaterializedGroups, dirty: set<DirtyAggregate>, q: CompiledGroupedQuery, key: string,
                      row: Row, ghost grouping: map<string, Members>)
    returns (removed: bool, groups': MaterializedGroups, dirty': set<DirtyAggregate>)
    requires DistinctAliases(q.plan.aggregatePlans) && Materialized(groups, grouping, q.plan, dirty)
    requires key in MembersIn(grouping, q.plan.groupKey(row)) ==> MembersIn(grouping, q.plan.groupKey(row))[key] == row
    ensures removed <==> q.matches(row) && key in MembersIn(grouping, q.plan.groupKey(row))
    ensures !removed ==> groups' == groups && dirty' == dirty
    ensures removed ==> Materialized(groups', WithoutMember(grouping, q.plan.groupKey(row), key), q.plan, dirty')
  {
    groups', dirty' := groups, dirty;
    if !q.matches(row) {
      return false, groups', dirty';
    }
    var g := q.plan.groupKey(row);
    if g !in groups {
      return false, groups', dirty';
    }
    assert MaterializedAt(groups, grouping, q.plan, dirty, g);
    if key !in groups[g].members {
      return false, groups', dirty';
    }
    removed := true;
    var members := groups[g].members - {key};
    if members == map[] {
      groups' := groups - {g};
      MaterializedWithout(groups, grouping, q.plan, dirty, g);
    } else {
      var group := groups[g].state;
      var aggregates;
      aggregates, dirty' := RemoveFromAggregates(g, group.aggregates, q.plan, row, dirty, grouping[g], key);
      var shrunk := MaterializedGroup(group.(aggregates := aggregates), members);
      groups' := groups[g := shrunk];
      MaterializedWith(groups, grouping, q.plan, dirty, g, shrunk, members, dirty');
    }
  }

  lemma DecodedPlan(plan: GroupedQueryPlan)
    requires ValidPlan(plan)
    ensures DistinctAliases(plan.aggregatePlans)
  {
  }

  /** The group a row belongs to, or a new one for it. */
  method GroupToGrow(groups: MaterializedGroups, dirty: set<DirtyAggregate>, q: CompiledGroupedQuery, g: string,
                     row: Row, ghost grouping: map<string, Members>)
    returns (group: MaterializedGroup)
    requires ValidPlan(q.plan) && q.matches(row) && WellGrouped(grouping, q)
    requires Materialized(groups, grouping, q.plan, dirty)
    requires g == q.plan.groupKey(row)
    ensures group.members == MembersIn(grouping, g) && AllReversible(group.state.aggregates)
    ensures GroupShown(group.state, g, group.members, q.plan, StaleAliases(dirty, g))
    ensures group.state.row == GroupFields(q.plan.groupBy, row)
  {
    hide ValidPlan;
    DecodedPlan(q.plan);
    if g in groups {
      assert MaterializedAt(groups, grouping, q.plan, dirty, g);
      group := groups[g];
    } else {
      var newGroup := NewGroupState(g, q.plan, row, true);
      group := MaterializedGroup(newGroup, map[]);
      AggregatesWithMoreStale(newGroup.aggregates, q.plan.aggregatePlans, map[], {}, StaleAliases(dirty, g));
    }
    SameGroupSameFields(group.state, g, group.members, row, q);
  }

  /** Puts a row into its group, which it may open; a row the group already holds under the key gives way. */
  method UpsertMember(groups: MaterializedGroups, dirty: set<DirtyAggregate>, q: CompiledGroupedQuery, key: string,
                      row: Row, ghost grouping: map<string, Members>)
    returns (groups': MaterializedGroups, dirty': set<DirtyAggregate>, groupSize: nat, inserted: bool)
    requires ValidPlan(q.plan) && q.matches(row) && WellGrouped(grouping, q)
    requires Materialized(groups, grouping, q.plan, dirty)
    ensures Materialized(groups', WithMember(grouping, q.plan.groupKey(row), key, row), q.plan, dirty')
    ensures groupSize == |MembersIn(grouping, q.plan.groupKey(row))[key := row]|
    ensures inserted <==> key !in MembersIn(grouping, q.plan.groupKey(row))
    ensures inserted ==> dirty' == dirty
  {
    hide WellGrouped, Materialized, ValidPlan, GroupFields;
    DecodedPlan(q.plan);
    var g := q.plan.groupKey(row);
    ghost var members := MembersIn(grouping, g);
    var group := GroupToGrow(groups, dirty, q, g, row, grouping);
    var aggregates;
    inserted := key !in group.members;
    aggregates, dirty' := ForgetPrevious(g, group, q.plan, key, dirty, members);
    aggregates := AddToAggregates(aggregates, q.plan, row, members - {key}, key, StaleAliases(dirty', g));
    assert (members - {key})[key := row] == members[key := row];
    var grown := MaterializedGroup(group.state.(aggregates := aggregates), group.members[key := row]);
    groups' := groups[g := grown];
    groupSize := |grown.members|;
    MaterializedWith(groups, grouping, q.plan, dirty, g, grown, members[key := row], dirty');
  }

  method ForgetPrevious(g: string, group: MaterializedGroup, plan: GroupedQueryPlan, key: string,
                        dirty: set<DirtyAggregate>, ghost members: Members)
    returns (states: map<string, AggregateState>, dirty': set<DirtyAggregate>)
    requires DistinctAliases(plan.aggregatePlans) && AllReversible(group.state.aggregates) && group.members == members
    requires AggregatesShown(group.state.aggregates, plan.aggregatePlans, members, StaleAliases(dirty, g))
    ensures AggregatesShown(states, plan.aggregatePlans, members - {key}, StaleAliases(dirty', g))
    ensures AllReversible(states)
    ensures dirty <= dirty' && (key !in members ==> dirty' == dirty)
  {
    states, dirty' := group.state.aggregates, dirty;
    if key in group.members {
      states, dirty' := RemoveFromAggregates(g, states, plan, group.members[key], dirty, members, key);
    } else {
      assert members - {key} == members;
    }
  }

  // ----- A member that stays in its group -----

  /** What must be done to the shown window when the batches have been applied. */
  datatype MaterializedEvaluationPatch = MaterializedEvaluationPatch(dirtyGroups: set<string>,
                                                                     requiresFullEvaluation: bool)

  predicate OrderByUsesAggregate(plan: GroupedQueryPlan, alias: string) {
    exists o | o in plan.orderBy :: o.ByAggregate? && o.alias == alias
  }

  function MarkMaterializedAggregateChange(patch: MaterializedEvaluationPatch, plan: GroupedQueryPlan, g: string,
                                           alias: string):
    MaterializedEvaluationPatch
  {
    MaterializedEvaluationPatch(patch.dirtyGroups + {g},
                                patch.requiresFullEvaluation || OrderByUsesAggregate(plan, alias))
  }

  function AggregateValueChanged(aggregate: Aggregate, previous: Row, next: Row,
                                 changedFields: Option<set<string>>): bool
  {
    if aggregate.Count? then false
    else if changedFields.Some? then aggregate.field in changedFields.value
    else FieldValue(previous, aggregate.field) != FieldValue(next, aggregate.field)
  }

  ghost predicate NamesChangedFields(changedFields: Option<set<string>>, previous: Row, next: Row) {
    changedFields.Some? ==> forall f :: f in changedFields.value <==> FieldValue(previous, f) != FieldValue(next, f)
  }

  /** A changed aggregate is noted: its group is patched, and an order that uses it is evaluated anew. */
  ghost predicate Noted(plan: GroupedQueryPlan, i: nat, previous: Row, next: Row, g: string,
                        patch: MaterializedEvaluationPatch)
    requires i < |plan.aggregatePlans|
  {
    var p := plan.aggregatePlans[i];
    AggregateFieldValue(previous, p.aggregate) != AggregateFieldValue(next, p.aggregate) ==>
      g in patch.dirtyGroups && (OrderByUsesAggregate(plan, p.alias) ==> patch.requiresFullEvaluation)
  }

  ghost predicate NotedUpTo(plan: GroupedQueryPlan, i: nat, previous: Row, next: Row, g: string,
                            patch: MaterializedEvaluationPatch)
    requires i <= |plan.aggregatePlans|
  {
    forall j {:trigger Noted(plan, j, previous, next, g, patch)} | 0 <= j < i ::
      Noted(plan, j, previous, next, g, patch)
  }

  ghost predicate AllNoted(plan: GroupedQueryPlan, previous: Row, next: Row, g: string,
                           patch: MaterializedEvaluationPatch)
  {
    NotedUpTo(plan, |plan.aggregatePlans|, previous, next, g, patch)
  }

  ghost predicate PatchGrew(patch: MaterializedEvaluationPatch, patch': MaterializedEvaluationPatch, g: string) {
    && patch.dirtyGroups <= patch'.dirtyGroups <= patch.dirtyGroups + {g}
    && (patch.requiresFullEvaluation ==> patch'.requiresFullEvaluation)
  }

  lemma ReplacedMember(state: AggregateState, aggregate: Aggregate, members: Members, key: string, next: Row,
                       stale: bool)
    requires Reflects(state, aggregate, Bag(members, aggregate), stale) && Reversible(state) && key in members
    ensures CanForget(state, AggregateFieldValue(members[key], aggregate))
    ensures
      var (state', dirty) := RemoveAggregateState(state, aggregate, members[key]);
      var state'' := UpdateAggregateState(state', aggregate, next);
      Reflects(state'', aggregate, Bag(members[key := next], aggregate), stale || dirty) && Reversible(state'')
  {
    hide Reflects, Bag, CanForget, UpdateAggregateState, RemoveAggregateState, AggregateFieldValue, Reversible;
    ForgetMember(state, aggregate, members, key, stale);
    var (state', dirty) := RemoveAggregateState(state, aggregate, members[key]);
    UpdateReflects(state', aggregate, Bag(members - {key}, aggregate), next, stale || dirty);
    BagAdd(members - {key}, aggregate, key, next);
    assert (members - {key})[key := next] == members[key := next];
  }

  lemma SameBag(members: Members, aggregate: Aggregate, key: string, next: Row)
    requires key in members && AggregateFieldValue(members[key], aggregate) == AggregateFieldValue(next, aggregate)
    ensures Bag(members[key := next], aggregate) == Bag(members, aggregate)
  {
    var after, rest := members[key := next], members - {key};
    assert after - {key} == rest && after[key] == next;
    BagSplit(members, aggregate, key);
    BagSplit(after, aggregate, key);
  }

  lemma NotedStill(plan: GroupedQueryPlan, previous: Row, next: Row, g: string, patch: MaterializedEvaluationPatch,
                   patch': MaterializedEvaluationPatch, i: nat)
    requires i < |plan.aggregatePlans| && PatchGrew(patch, patch', g)
    requires NotedUpTo(plan, i, previous, next, g, patch)
    ensures NotedUpTo(plan, i, previous, next, g, patch')
  {
    forall j | 0 <= j < i
      ensures Noted(plan, j, previous, next, g, patch')
    {
      assert Noted(plan, j, previous, next, g, patch);
    }
  }

  /** Replaces a member's row in one aggregate, if it changes the value there. */
  method ReplaceInAggregate(g: string, i: nat, states: map<string, AggregateState>, plan: GroupedQueryPlan,
                            previous: Row, next: Row, changedFields: Option<set<string>>, dirty: set<DirtyAggregate>,
                            patch: MaterializedEvaluationPatch, ghost members: Members, ghost key: string)
    returns (states': map<string, AggregateState>, dirty': set<DirtyAggregate>, patch': MaterializedEvaluationPatch)
    requires i < |plan.aggregatePlans| && AllReversible(states)
    requires AggregateShown(states, plan.aggregatePlans[i], members, StaleAliases(dirty, g))
    requires key in members && members[key] == previous && NamesChangedFields(changedFields, previous, next)
    ensures AggregateShown(states', plan.aggregatePlans[i], members[key := next], StaleAliases(dirty', g))
    ensures states' == states[plan.aggregatePlans[i].alias := states'[plan.aggregatePlans[i].alias]]
    ensures AllReversible(states')
    ensures dirty <= dirty' && PatchGrew(patch, patch', g) && Noted(plan, i, previous, next, g, patch')
  {
    var alias, aggregate := plan.aggregatePlans[i].alias, plan.aggregatePlans[i].aggregate;
    states', dirty', patch' := states, dirty, patch;
    if AggregateValueChanged(aggregate, previous, next, changedFields) {
      patch' := MarkMaterializedAggregateChange(patch, plan, g, alias);
      ReplacedMember(states[alias], aggregate, members, key, next, alias in StaleAliases(dirty, g));
      var (state, requiresRecompute) := RemoveAggregateState(states[alias], aggregate, previous);
      states' := states[alias := UpdateAggregateState(state, aggregate, next)];
      if requiresRecompute {
        dirty' := dirty + {DirtyAggregate(g, alias)};
      }
    } else {
      SameBag(members, aggregate, key, next);
    }
  }

  /** Replaces a member's row in the aggregates whose value it changes. */
  method ReplaceInAggregates(g: string, aggregates: map<string, AggregateState>, plan: GroupedQueryPlan, previous: Row,
                             next: Row, changedFields: Option<set<string>>, dirty: set<DirtyAggregate>,
                             patch: MaterializedEvaluationPatch, ghost members: Members, ghost key: string)
    returns (states: map<string, AggregateState>, dirty': set<DirtyAggregate>, patch': MaterializedEvaluationPatch)
    requires DistinctAliases(plan.aggregatePlans) && AllReversible(aggregates)
    requires AggregatesShown(aggregates, plan.aggregatePlans, members, StaleAliases(dirty, g))
    requires key in members && members[key] == previous && NamesChangedFields(changedFields, previous, next)
    ensures AggregatesShown(states, plan.aggregatePlans, members[key := next], StaleAliases(dirty', g))
    ensures AllReversible(states)
    ensures dirty <= dirty' && PatchGrew(patch, patch', g)
    ensures AllNoted(plan, previous, next, g, patch')
  {
    var plans := plan.aggregatePlans;
    states, dirty', patch' := aggregates, dirty, patch;
    for i := 0 to |plans|
      invariant states.Keys == aggregates.Keys && AllReversible(states) && dirty <= dirty'
      invariant PatchGrew(patch, patch', g)
      invariant ShownFrom(states, plans, members, StaleAliases(dirty', g), i, |plans|)
      invariant ShownFrom(states, plans, members[key := next], StaleAliases(dirty', g), 0, i)
      invariant NotedUpTo(plan, i, previous, next, g, patch')
    {
      ghost var before, stale, noted := states, StaleAliases(dirty', g), patch';
      assert AggregateShown(states, plans[i], members, stale);
      states, dirty', patch' :=
        ReplaceInAggregate(g, i, states, plan, previous, next, changedFields, dirty', patch', members, key);
      ShownAfter(before, states, plans, i, members, stale, StaleAliases(dirty', g), i + 1, |plans|);
      ShownAfter(before, states, plans, i, members[key := next], stale, StaleAliases(dirty', g), 0, i);
      NotedStill(plan, previous, next, g, noted, patch', i);
    }
  }
}
