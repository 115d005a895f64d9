/** Windows over groups: sorting all of them, or keeping the best of them in a bounded heap. */
module GroupedWindow {
  import opened Values
  import opened Sequences
  import opened Ranking
  import opened Rows
  import opened GroupedQuery
  import opened GroupStates

  function EmptyGroupedEvaluation(totalRows: nat, version: nat): QueryEvaluation {
    QueryEvaluation([], totalRows, version)
  }

  /** A window of no rows shows the number of groups only. */
  lemma EmptyIsAnswer(grouping: map<string, Members>, plan: GroupedQueryPlan, version: nat)
    requires DistinctAliases(plan.aggregatePlans) && plan.limit == Some(0)
    ensures EmptyGroupedEvaluation(|grouping|, version) == GroupedAnswer(grouping, plan, version)
  {
  }

  /** The groups of a grouping, each once. */
  ghost predicate ListsGroups(groups: seq<GroupState>, grouping: map<string, Members>, plan: GroupedQueryPlan) {
    && (forall i, j | 0 <= i < j < |groups| :: groups[i].key != groups[j].key)
    && (forall i | 0 <= i < |groups| :: groups[i].key in grouping)
    && (forall g {:trigger ListedAt(groups, g)} | g in grouping :: ListedAt(groups, g))
    && (forall i | 0 <= i < |groups| && groups[i].key in grouping ::
          grouping[groups[i].key] != map[] && GroupShown(groups[i], groups[i].key, grouping[groups[i].key], plan, {}))
  }

  ghost predicate ListedAt(groups: seq<GroupState>, g: string) {
    exists i :: 0 <= i < |groups| && groups[i].key == g
  }

  function FinalizedGroups(groups: seq<GroupState>): seq<Entry> {
    seq(|groups|, i requires 0 <= i < |groups| => FinalizeGroup(groups[i]))
  }

  lemma FinalizedAt(groups: seq<GroupState>, grouping: map<string, Members>, plan: GroupedQueryPlan, i: nat)
    requires DistinctAliases(plan.aggregatePlans) && ListsGroups(groups, grouping, plan) && i < |groups|
    ensures IsGroupEntry(FinalizeGroup(groups[i]), grouping, plan)
  {
    FinalizedGroup(groups[i], groups[i].key, grouping[groups[i].key], plan);
  }

  lemma FinalizedEntries(groups: seq<GroupState>, grouping: map<string, Members>, plan: GroupedQueryPlan)
    requires DistinctAliases(plan.aggregatePlans) && ListsGroups(groups, grouping, plan)
    ensures NoDuplicates(FinalizedGroups(groups))
    ensures forall e :: e in FinalizedGroups(groups) <==> IsGroupEntry(e, grouping, plan)
  {
    var entries := FinalizedGroups(groups);
    forall e
      ensures e in entries <==> IsGroupEntry(e, grouping, plan)
    {
      if e in entries {
        var i :| 0 <= i < |groups| && entries[i] == e;
        FinalizedAt(groups, grouping, plan, i);
      }
      if IsGroupEntry(e, grouping, plan) {
        assert ListedAt(groups, e.key);
        var i :| 0 <= i < |groups| && groups[i].key == e.key;
        FinalizedAt(groups, grouping, plan, i);
        assert entries[i] == e;
      }
    }
  }

  method GroupedEvaluationFromEntries(entries: seq<Entry>, plan: GroupedQueryPlan, version: nat,
                                      ghost grouping: map<string, Members>)
    returns (evaluation: QueryEvaluation)
    requires DistinctAliases(plan.aggregatePlans)
    requires NoDuplicates(entries) && forall e :: e in entries <==> IsGroupEntry(e, grouping, plan)
    ensures evaluation == GroupedAnswer(grouping, plan, version)
  {
    var ordered := SortBy(entries, CompareGroupedRows(plan));
    GroupOrderIsTotal(grouping, plan);
    SortByRanks(entries, GroupEntries(grouping, plan), CompareGroupedRows(plan));
    GroupEntriesCount(grouping, plan);
    var window := Slice(ordered, plan.offset, plan.limit);
    evaluation := QueryEvaluation(window, |ordered|, version);
  }
}
