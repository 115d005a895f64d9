/** Grouped queries: what they mean on a table, and their evaluation from scratch. */
module GroupedQuery {
  import opened Values
  import opened Sequences
  import opened Ranking
  import opened Rows
  import opened QueryValueText
  import opened GroupKeys
  import opened GroupedAggregates

  /** The rows of a group under their keys. */
  type Members = map<string, Row>

  datatype AggregatePlan = AggregatePlan(alias: string, aggregate: Aggregate)

  datatype GroupedOrder = ByField(field: string, direction: Direction) | ByAggregate(alias: string,
                                                                                     direction: Direction)

  datatype GroupedQueryPlan = GroupedQueryPlan(
    groupBy: seq<string>,
    aggregatePlans: seq<AggregatePlan>,
    orderBy: seq<GroupedOrder>,
    offset: nat,
    limit: Option<nat>,
    groupKey: Row -> string
  )

  datatype CompiledGroupedQuery = CompiledGroupedQuery(plan: GroupedQueryPlan, matches: Row -> bool)

  ghost predicate DistinctAliases(plans: seq<AggregatePlan>) {
    forall i, j | 0 <= i < j < |plans| :: plans[i].alias != plans[j].alias
  }

  ghost function Aliases(plans: seq<AggregatePlan>): set<string> {
    set p | p in plans :: p.alias
  }

  ghost predicate SameFields(a: Row, b: Row, plan: GroupedQueryPlan) {
    GroupFields(plan.groupBy, a) == GroupFields(plan.groupBy, b)
  }

  /** What the decoder guarantees of a grouped query. */
  ghost predicate Decoded(groupBy: seq<string>, aggregatePlans: seq<AggregatePlan>, orderBy: seq<GroupedOrder>) {
    && groupBy != [] && DistinctAliases(aggregatePlans)
    && (forall f | f in groupBy :: f !in Aliases(aggregatePlans))
    && (forall o | o in orderBy :: if o.ByField? then o.field in groupBy else o.alias in Aliases(aggregatePlans))
  }

  /** A plan of a decoded query, whose group keys are equal exactly for rows with equal group fields. */
  ghost predicate ValidPlan(plan: GroupedQueryPlan) {
    && Decoded(plan.groupBy, plan.aggregatePlans, plan.orderBy)
    && (forall a, b {:trigger SameFields(a, b, plan)} :: plan.groupKey(a) == plan.groupKey(b) <==>
      SameFields(a, b, plan))
  }

  function MakeGroupedQueryPlan(groupBy: seq<string>, aggregates: seq<AggregatePlan>, orderBy: seq<GroupedOrder>,
                                offset: Option<nat>, limit: Option<nat>, texts: NumberTexts): GroupedQueryPlan
  {
    GroupedQueryPlan(groupBy, aggregates, orderBy, if offset.Some? then offset.value else 0, limit,
                     (row: Row) => GroupKeyText(groupBy, row, texts))
  }

  /** Every decoded query has a valid plan: its group keys are the canonical texts of the group fields. */
  lemma MadePlanIsValid(groupBy: seq<string>, aggregates: seq<AggregatePlan>, orderBy: seq<GroupedOrder>,
                        offset: Option<nat>, limit: Option<nat>, texts: NumberTexts)
    requires Decoded(groupBy, aggregates, orderBy) && TellsNumbersApart(texts)
    ensures ValidPlan(MakeGroupedQueryPlan(groupBy, aggregates, orderBy, offset, limit, texts))
  {
    var plan := MakeGroupedQueryPlan(groupBy, aggregates, orderBy, offset, limit, texts);
    forall a, b
      ensures plan.groupKey(a) == plan.groupKey(b) <==> SameFields(a, b, plan)
    {
      GroupKeyDecidesFields(groupBy, a, b, texts);
    }
  }

  // ----- What a grouped query means -----

  predicate InGroup(row: Row, g: string, q: CompiledGroupedQuery) {
    q.matches(row) && q.plan.groupKey(row) == g
  }

  ghost function MembersOf(rows: Table, g: string, q: CompiledGroupedQuery): Members {
    map k | k in rows && InGroup(rows[k], g, q) :: rows[k]
  }

  ghost function KeysOfGroups(rows: Table, q: CompiledGroupedQuery): set<string> {
    set k | k in rows && q.matches(rows[k]) :: q.plan.groupKey(rows[k])
  }

  /** The matching rows by group. */
  ghost function Grouping(rows: Table, q: CompiledGroupedQuery): map<string, Members> {
    map g | g in KeysOfGroups(rows, q) :: MembersOf(rows, g, q)
  }

  /** The members of a row's group are the matching rows with its group fields. */
  lemma GroupsAreByFields(rows: Table, q: CompiledGroupedQuery, k: string)
    requires ValidPlan(q.plan) && k in rows && q.matches(rows[k])
    ensures q.plan.groupKey(rows[k]) in Grouping(rows, q)
    ensures Grouping(rows, q)[q.plan.groupKey(rows[k])] ==
            map m | m in rows && q.matches(rows[m]) && SameFields(rows[m], rows[k], q.plan) :: rows[m]
  {
    assert q.plan.groupKey(rows[k]) in KeysOfGroups(rows, q);
  }

  /** The values an aggregate reads from the members of a group. */
  ghost function Bag(members: Members, aggregate: Aggregate): multiset<Value> {
    if members == map[] then multiset{}
    else
      var k := SomeMember(members);
      Bag(members - {k}, aggregate) + multiset{AggregateFieldValue(members[k], aggregate)}
  }

  ghost function SomeMember(members: Members): (k: string)
    requires members != map[]
    ensures k in members
  {
    var k :| k in members;
    k
  }

  ghost function MeaningOf(members: Members, plan: AggregatePlan): Value {
    AggregateValue(plan.aggregate, Bag(members, plan.aggregate))
  }

  ghost function PlanOf(plans: seq<AggregatePlan>, alias: string): (i: nat)
    requires alias in Aliases(plans)
    ensures i < |plans| && plans[i].alias == alias
  {
    var p :| p in plans && p.alias == alias;
    var i :| 0 <= i < |plans| && plans[i] == p;
    i
  }

  ghost function AggregateFields(members: Members, plans: seq<AggregatePlan>): map<string, Value> {
    map a | a in Aliases(plans) :: MeaningOf(members, plans[PlanOf(plans, a)])
  }

  /** The result row of a group. */
  ghost function GroupEntry(g: string, members: Members, plan: GroupedQueryPlan): Entry
    requires DistinctAliases(plan.aggregatePlans)
  {
    var fields := if members == map[] then map[] else GroupFields(plan.groupBy, members[SomeMember(members)]);
    Entry(g, Row(fields + AggregateFields(members, plan.aggregatePlans)))
  }

  ghost predicate IsGroupEntry(e: Entry, grouping: map<string, Members>, plan: GroupedQueryPlan)
    requires DistinctAliases(plan.aggregatePlans)
  {
    e.key in grouping && e == GroupEntry(e.key, grouping[e.key], plan)
  }

  ghost function GroupEntries(grouping: map<string, Members>, plan: GroupedQueryPlan): (entries: set<Entry>)
    requires DistinctAliases(plan.aggregatePlans)
    ensures forall e :: e in entries <==> IsGroupEntry(e, grouping, plan)
  {
    set g | g in grouping :: GroupEntry(g, grouping[g], plan)
  }

  function OrderName(order: GroupedOrder): string {
    if order.ByField? then order.field else order.alias
  }

  function OrderColumns(orderBy: seq<GroupedOrder>): seq<OrderColumn> {
    seq(|orderBy|, i requires 0 <= i < |orderBy| => OrderColumn(OrderName(orderBy[i]), orderBy[i].direction))
  }

  /** Group rows by their order columns, ties broken by group key. */
  function CompareGroupedRows(plan: GroupedQueryPlan): (Entry, Entry) -> int {
    (left, right) => CompareRows(left, right, OrderColumns(plan.orderBy))
  }

  lemma GroupEntriesCount(grouping: map<string, Members>, plan: GroupedQueryPlan)
    requires DistinctAliases(plan.aggregatePlans)
    ensures |GroupEntries(grouping, plan)| == |grouping|
    decreases |grouping|
  {
    if grouping != map[] {
      var g :| g in grouping;
      var rest := grouping - {g};
      GroupEntriesCount(rest, plan);
      var last := GroupEntry(g, grouping[g], plan);
      forall e
        ensures e in GroupEntries(grouping, plan) <==> e in GroupEntries(rest, plan) + {last}
      {
        assert IsGroupEntry(e, grouping, plan) <==> IsGroupEntry(e, rest, plan) || e == last;
      }
      assert GroupEntries(grouping, plan) == GroupEntries(rest, plan) + {last};
      assert !IsGroupEntry(last, rest, plan);
      assert grouping.Keys == rest.Keys + {g} && |rest| == |rest.Keys| && |grouping| == |grouping.Keys|;
    }
  }

  lemma GroupOrderIsTotal(grouping: map<string, Members>, plan: GroupedQueryPlan)
    requires DistinctAliases(plan.aggregatePlans)
    ensures TotalOn(CompareGroupedRows(plan), GroupEntries(grouping, plan))
  {
    var cmp := CompareGroupedRows(plan);
    CompiledOrderIsRowOrder(OrderColumns(plan.orderBy));
    forall a, b, c | cmp(a, b) <= 0 && cmp(b, c) <= 0
      ensures cmp(a, c) <= 0
    {
      CompareRowsTransitive(a, b, c, OrderColumns(plan.orderBy));
    }
    forall a, b
      ensures cmp(a, b) < 0 <==> cmp(b, a) > 0
      ensures cmp(a, b) == 0 ==> a.key == b.key
    {
      CompareRowsLaws(a, b, OrderColumns(plan.orderBy));
    }
  }

  ghost function GroupedView(grouping: map<string, Members>, plan: GroupedQueryPlan): (v: seq<Entry>)
    requires DistinctAliases(plan.aggregatePlans)
    ensures IsRanking(v, GroupEntries(grouping, plan), CompareGroupedRows(plan))
  {
    GroupOrderIsTotal(grouping, plan);
    Ranked(GroupEntries(grouping, plan), CompareGroupedRows(plan))
  }

  /** What a grouped query shows of a grouping: everything else is a faster way to know it. */
  ghost function GroupedAnswer(grouping: map<string, Members>, plan: GroupedQueryPlan, version: nat): QueryEvaluation
    requires DistinctAliases(plan.aggregatePlans)
  {
    QueryEvaluation(Slice(GroupedView(grouping, plan), plan.offset, plan.limit), |grouping|, version)
  }

  // ----- How a grouping changes -----

  ghost function WithoutMember(grouping: map<string, Members>, g: string, k: string): map<string, Members>
    requires g in grouping
  {
    var rest := grouping[g] - {k};
    if rest == map[] then grouping - {g} else grouping[g := rest]
  }

  ghost function MembersIn(grouping: map<string, Members>, g: string): Members {
    if g in grouping then grouping[g] else map[]
  }

  ghost function WithMember(grouping: map<string, Members>, g: string, k: string, row: Row): map<string, Members> {
    grouping[g := MembersIn(grouping, g)[k := row]]
  }

  lemma GroupHasMembers(rows: Table, q: CompiledGroupedQuery, g: string)
    ensures g in Grouping(rows, q) <==> MembersOf(rows, g, q) != map[]
    ensures MembersIn(Grouping(rows, q), g) == MembersOf(rows, g, q)
  {
    if g in Grouping(rows, q) {
      var k :| k in rows && q.matches(rows[k]) && q.plan.groupKey(rows[k]) == g;
      assert k in MembersOf(rows, g, q);
    }
    if MembersOf(rows, g, q) != map[] {
      var k :| k in MembersOf(rows, g, q);
      assert q.plan.groupKey(rows[k]) in KeysOfGroups(rows, q);
    }
  }

  /** Every group is what `members` says, when the empty ones are left out. */
  lemma GroupingIs(rows: Table, q: CompiledGroupedQuery, grouping: map<string, Members>)
    requires forall g {:trigger MembersIn(grouping, g)} :: MembersIn(grouping, g) == MembersOf(rows, g, q)
    requires forall g | g in grouping :: grouping[g] != map[]
    ensures Grouping(rows, q) == grouping
  {
    forall g
      ensures g in Grouping(rows, q) <==> g in grouping
      ensures g in grouping ==> Grouping(rows, q)[g] == grouping[g]
    {
      GroupHasMembers(rows, q, g);
      assert MembersIn(grouping, g) == MembersOf(rows, g, q);
    }
  }

  lemma GroupingRemoved(rows: Table, k: string, q: CompiledGroupedQuery)
    requires k in rows
    ensures q.matches(rows[k]) ==>
      q.plan.groupKey(rows[k]) in Grouping(rows, q) && k in Grouping(rows, q)[q.plan.groupKey(rows[k])]
    ensures Grouping(rows - {k}, q) ==
            if q.matches(rows[k]) then WithoutMember(Grouping(rows, q), q.plan.groupKey(rows[k]), k)
              else Grouping(rows, q)
  {
    var g := q.plan.groupKey(rows[k]);
    GroupHasMembers(rows, q, g);
    if q.matches(rows[k]) {
      assert k in MembersOf(rows, g, q);
    }
    var after := if q.matches(rows[k]) then WithoutMember(Grouping(rows, q), g, k) else Grouping(rows, q);
    forall h
      ensures MembersIn(after, h) == MembersOf(rows - {k}, h, q)
      ensures h in after ==> after[h] != map[]
    {
      GroupHasMembers(rows, q, h);
      assert MembersOf(rows - {k}, h, q) == MembersOf(rows, h, q) - {k};
    }
    GroupingIs(rows - {k}, q, after);
  }

  lemma GroupingAdded(rows: Table, k: string, row: Row, q: CompiledGroupedQuery)
    requires k !in rows
    ensures k !in MembersIn(Grouping(rows, q), q.plan.groupKey(row))
    ensures Grouping(rows[k := row], q) ==
            if q.matches(row) then WithMember(Grouping(rows, q), q.plan.groupKey(row), k, row) else Grouping(rows, q)
  {
    var g := q.plan.groupKey(row);
    var after := if q.matches(row) then WithMember(Grouping(rows, q), g, k, row) else Grouping(rows, q);
    GroupHasMembers(rows, q, g);
    forall h
      ensures MembersIn(after, h) == MembersOf(rows[k := row], h, q)
      ensures h in after ==> after[h] != map[]
    {
      GroupHasMembers(rows, q, h);
      assert MembersOf(rows[k := row], h, q) ==
             if InGroup(row, h, q) then MembersOf(rows, h, q)[k := row] else MembersOf(rows, h, q);
    }
    GroupingIs(rows[k := row], q, after);
  }

  lemma BagLast(members: Members, aggregate: Aggregate)
    requires members != map[]
    ensures
      var x := SomeMember(members);
      Bag(members, aggregate) == Bag(members - {x}, aggregate) + multiset{AggregateFieldValue(members[x], aggregate)}
  {
  }

  lemma {:induction false} BagSplit(members: Members, aggregate: Aggregate, k: string)
    requires k in members
    ensures Bag(members, aggregate) ==
      Bag(members - {k}, aggregate) + multiset{AggregateFieldValue(members[k], aggregate)}
    decreases |members|
  {
    hide Bag, AggregateFieldValue;
    var x := SomeMember(members);
    BagLast(members, aggregate);
    if x != k {
      var rest := members - {x} - {k};
      SmallerMap(members, x);
      SmallerMap(members, k);
      BagSplit(members - {x}, aggregate, k);
      BagSplit(members - {k}, aggregate, x);
      assert members - {k} - {x} == rest;
      SumsCommute(Bag(rest, aggregate), AggregateFieldValue(members[x], aggregate),
                  AggregateFieldValue(members[k], aggregate));
    }
  }

  lemma SumsCommute(bag: multiset<Value>, v: Value, w: Value)
    ensures bag + multiset{v} + multiset{w} == bag + multiset{w} + multiset{v}
  {
  }

  lemma BagAdd(members: Members, aggregate: Aggregate, k: string, row: Row)
    requires k !in members
    ensures Bag(members[k := row], aggregate) == Bag(members, aggregate) + multiset{AggregateFieldValue(row, aggregate)}
  {
    BagSplit(members[k := row], aggregate, k);
    assert members[k := row] - {k} == members;
  }
}
