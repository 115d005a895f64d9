/** The state of a group while its members are gathered. */
module GroupStates {
  import opened Values
  import opened Rows
  import opened GroupedAggregates
  import opened GroupKeys
  import opened GroupedQuery

  datatype GroupState = GroupState(key: string, row: map<string, Value>, aggregates: map<string, AggregateState>)

  ghost predicate AggregateShown(states: map<string, AggregateState>, p: AggregatePlan, members: Members,
                                 stale: set<string>)
  {
    p.alias in states && Reflects(states[p.alias], p.aggregate, Bag(members, p.aggregate), p.alias in stale)
  }

  /** Every aggregate reflects the members; those with a stale alias wait to be computed anew. */
  ghost predicate AggregatesShown(states: map<string, AggregateState>, plans: seq<AggregatePlan>, members: Members,
                                  stale: set<string>)
  {
    && states.Keys == Aliases(plans)
    && forall i {:trigger AggregateShown(states, plans[i], members, stale)} | 0 <= i < |plans| ::
         AggregateShown(states, plans[i], members, stale)
  }

  ghost predicate AllReversible(states: map<string, AggregateState>) {
    forall a | a in states :: Reversible(states[a])
  }

  ghost predicate GroupShown(group: GroupState, g: string, members: Members, plan: GroupedQueryPlan,
                             stale: set<string>)
  {
    && group.key == g
    && (forall k | k in members :: group.row == GroupFields(plan.groupBy, members[k]))
    && AggregatesShown(group.aggregates, plan.aggregatePlans, members, stale)
  }

  function AggregateValues(states: map<string, AggregateState>): map<string, Value> {
    map a | a in states :: AggregateStateValue(states[a])
  }

  /** The result row of a group. */
  function FinalizeGroup(group: GroupState): Entry {
    Entry(group.key, Row(group.row + AggregateValues(group.aggregates)))
  }

  lemma ShownValue(states: map<string, AggregateState>, p: AggregatePlan, members: Members)
    requires AggregateShown(states, p, members, {})
    ensures p.alias in AggregateValues(states) && AggregateValues(states)[p.alias] == MeaningOf(members, p)
  {
    ReflectedValue(states[p.alias], p.aggregate, Bag(members, p.aggregate));
  }

  lemma ShownValues(states: map<string, AggregateState>, plans: seq<AggregatePlan>, members: Members)
    requires DistinctAliases(plans) && AggregatesShown(states, plans, members, {})
    ensures AggregateValues(states) == AggregateFields(members, plans)
  {
    forall i | 0 <= i < |plans|
      ensures AggregateValues(states)[plans[i].alias] == MeaningOf(members, plans[i])
    {
      assert AggregateShown(states, plans[i], members, {});
      ShownValue(states, plans[i], members);
    }
    ValuesAreFields(AggregateValues(states), plans, members);
  }

  lemma ValuesAreFields(values: map<string, Value>, plans: seq<AggregatePlan>, members: Members)
    requires DistinctAliases(plans) && values.Keys == Aliases(plans)
    requires forall i | 0 <= i < |plans| ::
      plans[i].alias in values && values[plans[i].alias] == MeaningOf(members, plans[i])
    ensures values == AggregateFields(members, plans)
  {
  }

  lemma FinalizedGroup(group: GroupState, g: string, members: Members, plan: GroupedQueryPlan)
    requires DistinctAliases(plan.aggregatePlans) && GroupShown(group, g, members, plan, {}) && members != map[]
    ensures FinalizeGroup(group) == GroupEntry(g, members, plan)
  {
    ShownValues(group.aggregates, plan.aggregatePlans, members);
  }

  // ----- Gathering -----

  /** A group without members yet, for the row that opens it. */
  method NewGroupState(key: string, plan: GroupedQueryPlan, row: Row, reversible: bool) returns (group: GroupState)
    requires DistinctAliases(plan.aggregatePlans)
    ensures group.key == key && group.row == GroupFields(plan.groupBy, row)
    ensures AggregatesShown(group.aggregates, plan.aggregatePlans, map[], {})
    ensures reversible ==> AllReversible(group.aggregates)
  {
    var plans := plan.aggregatePlans;
    var states: map<string, AggregateState> := map[];
    for i := 0 to |plans|
      invariant states.Keys == Aliases(plans[..i])
      invariant forall j {:trigger AggregateShown(states, plans[j], map[], {})} | 0 <= j < i ::
          AggregateShown(states, plans[j], map[], {})
      invariant reversible ==> AllReversible(states)
    {
      EmptyReflects(plans[i].aggregate, reversible);
      ghost var before := states;
      states := states[plans[i].alias := EmptyAggregateState(plans[i].aggregate, reversible)];
      AliasesSoFar(plans, i);
      ShownElsewhere(before, states, plans, i, map[], {});
    }
    assert plans[..|plans|] == plans;
    group := GroupState(key, GroupFields(plan.groupBy, row), states);
  }

  lemma AliasesSoFar(plans: seq<AggregatePlan>, i: nat)
    requires i < |plans|
    ensures Aliases(plans[..i + 1]) == Aliases(plans[..i]) + {plans[i].alias}
  {
    assert plans[..i + 1] == plans[..i] + [plans[i]];
  }

  /** Adds a member's row to every aggregate of its group. */
  method AddToAggregates(aggregates: map<string, AggregateState>, plan: GroupedQueryPlan, row: Row,
                         ghost members: Members, ghost key: string, ghost stale: set<string>)
    returns (states: map<string, AggregateState>)
    requires DistinctAliases(plan.aggregatePlans) && AggregatesShown(aggregates, plan.aggregatePlans, members, stale)
    requires key !in members
    ensures AggregatesShown(states, plan.aggregatePlans, members[key := row], stale)
    ensures AllReversible(aggregates) ==> AllReversible(states)
  {
    var plans := plan.aggregatePlans;
    states := aggregates;
    for i := 0 to |plans|
      invariant states.Keys == aggregates.Keys
      invariant forall j {:trigger AggregateShown(states, plans[j], members[key := row], stale)} | 0 <= j < i ::
          AggregateShown(states, plans[j], members[key := row], stale)
      invariant forall j {:trigger AggregateShown(states, plans[j], members, stale)} | i <= j < |plans| ::
          AggregateShown(states, plans[j], members, stale)
      invariant AllReversible(aggregates) ==> AllReversible(states)
    {
      var alias, aggregate := plans[i].alias, plans[i].aggregate;
      ghost var before := states;
      assert AggregateShown(states, plans[i], members, stale);
      UpdateReflects(states[alias], aggregate, Bag(members, aggregate), row, alias in stale);
      BagAdd(members, aggregate, key, row);
      states := states[alias := UpdateAggregateState(states[alias], aggregate, row)];
      ShownElsewhere(before, states, plans, i, members, stale);
      ShownElsewhere(before, states, plans, i, members[key := row], stale);
    }
  }

  /** Setting the state of one aggregate leaves the others shown. */
  lemma ShownElsewhere(before: map<string, AggregateState>, states: map<string, AggregateState>,
                       plans: seq<AggregatePlan>, i: nat, members: Members, stale: set<string>)
    requires DistinctAliases(plans) && i < |plans| && plans[i].alias in states
    requires states == before[plans[i].alias := states[plans[i].alias]]
    ensures forall j {:trigger AggregateShown(states, plans[j], members, stale)} | 0 <= j < |plans| && j != i ::
              AggregateShown(states, plans[j], members, stale) == AggregateShown(before, plans[j], members, stale)
  {
    forall j | 0 <= j < |plans| && j != i
      ensures AggregateShown(states, plans[j], members, stale) == AggregateShown(before, plans[j], members, stale)
    {
      assert plans[j].alias != plans[i].alias;
    }
  }

  /** A row of a group has the group's fields. */
  lemma SameGroupSameFields(group: GroupState, g: string, members: Members, row: Row, q: CompiledGroupedQuery)
    requires ValidPlan(q.plan) && InGroup(row, g, q) && forall k | k in members :: InGroup(members[k], g, q)
    requires forall k | k in members :: group.row == GroupFields(q.plan.groupBy, members[k])
    requires members == map[] ==> group.row == GroupFields(q.plan.groupBy, row)
    ensures group.row == GroupFields(q.plan.groupBy, row)
  {
    if members != map[] {
      var k := SomeMember(members);
      assert SameFields(members[k], row, q.plan);
    }
  }

  // ----- All groups -----

  ghost predicate GroupShownAt(groups: map<string, GroupState>, grouping: map<string, Members>, plan: GroupedQueryPlan,
                               g: string)
  {
    g in groups && g in grouping && GroupShown(groups[g], g, grouping[g], plan, {})
  }

  /** The group states show exactly the groups of a grouping. */
  ghost predicate GroupsShown(groups: map<string, GroupState>, grouping: map<string, Members>, plan: GroupedQueryPlan) {
    && groups.Keys == grouping.Keys
    && forall g {:trigger GroupShownAt(groups, grouping, plan, g)} | g in groups ::
      GroupShownAt(groups, grouping, plan, g)
  }

  /** Groups have members, and these belong to them. */
  ghost predicate WellGrouped(grouping: map<string, Members>, q: CompiledGroupedQuery) {
    forall g | g in grouping :: grouping[g] != map[] && forall k | k in grouping[g] :: InGroup(grouping[g][k], g, q)
  }

  lemma GroupingIsWellGrouped(rows: Table, q: CompiledGroupedQuery)
    ensures WellGrouped(Grouping(rows, q), q)
  {
    forall g | g in Grouping(rows, q)
      ensures Grouping(rows, q)[g] != map[]
    {
      GroupHasMembers(rows, q, g);
    }
  }
}
