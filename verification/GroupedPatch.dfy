/** Changes that keep the order of the groups: patching the shown rows is then evaluating anew. */
module GroupedPatch {
  import opened Values
  import opened Sequences
  import opened Ranking
  import opened Rows
  import opened GroupedAggregates
  import opened GroupKeys
  import opened GroupedQuery
  import opened GroupStates
  import opened GroupedIncremental

  /** The two rows stand at the same place in the order of the groups. */
  ghost predicate SameOrderValues(a: Entry, b: Entry, orderBy: seq<GroupedOrder>) {
    && a.key == b.key
    && forall i | 0 <= i < |orderBy| ::
      FieldValue(a.row, OrderName(orderBy[i])) == FieldValue(b.row, OrderName(orderBy[i]))
  }

  lemma {:induction false} SameOrderSameComparison(a: Entry, a': Entry, b: Entry, b': Entry, orderBy: seq<GroupedOrder>)
    requires SameOrderValues(a, a', orderBy) && SameOrderValues(b, b', orderBy)
    ensures CompareRows(a, b, OrderColumns(orderBy)) == CompareRows(a', b', OrderColumns(orderBy))
    decreases |orderBy|
  {
    if orderBy != [] {
      var rest := orderBy[1..];
      assert forall i | 0 <= i < |rest| :: rest[i] == orderBy[i + 1];
      assert OrderColumns(orderBy)[1..] == OrderColumns(rest);
      SameOrderSameComparison(a, a', b, b', rest);
    }
  }

  /** The group has kept its place, and its row as well unless it is marked. */
  ghost predicate NeutralAt(grouping0: map<string, Members>, grouping: map<string, Members>, plan: GroupedQueryPlan,
                            dirtyGroups: set<string>, g: string)
    requires DistinctAliases(plan.aggregatePlans)
  {
    && g in grouping0 && g in grouping
    && SameOrderValues(GroupEntry(g, grouping0[g], plan), GroupEntry(g, grouping[g], plan), plan.orderBy)
    && (g !in dirtyGroups ==> GroupEntry(g, grouping0[g], plan) == GroupEntry(g, grouping[g], plan))
  }

  ghost predicate OrderNeutral(grouping0: map<string, Members>, grouping: map<string, Members>, plan: GroupedQueryPlan,
                               dirtyGroups: set<string>)
    requires DistinctAliases(plan.aggregatePlans)
  {
    && grouping0.Keys == grouping.Keys
    && forall g {:trigger NeutralAt(grouping0, grouping, plan, dirtyGroups, g)} | g in grouping ::
         NeutralAt(grouping0, grouping, plan, dirtyGroups, g)
  }

  lemma NeutralAtFirst(grouping: map<string, Members>, plan: GroupedQueryPlan)
    requires DistinctAliases(plan.aggregatePlans)
    ensures OrderNeutral(grouping, grouping, plan, {})
  {
  }

  // ----- What a replaced member changes -----

  lemma GroupFieldsOfEntry(g: string, members: Members, q: CompiledGroupedQuery, k: string)
    requires ValidPlan(q.plan) && k in members && forall m | m in members :: InGroup(members[m], g, q)
    ensures GroupEntry(g, members, q.plan).row.fields ==
            GroupFields(q.plan.groupBy, members[k]) + AggregateFields(members, q.plan.aggregatePlans)
  {
    assert SameFields(members[SomeMember(members)], members[k], q.plan);
  }

  lemma ReplacedMeaning(members: Members, key: string, next: Row, p: AggregatePlan)
    requires key in members && AggregateFieldValue(members[key], p.aggregate) == AggregateFieldValue(next, p.aggregate)
    ensures MeaningOf(members[key := next], p) == MeaningOf(members, p)
  {
    SameBag(members, p.aggregate, key, next);
  }

  /** What the replaced member does to the values of the aggregates: only noted ones change. */
  lemma ReplacedAggregates(g: string, members: Members, plan: GroupedQueryPlan, key: string, next: Row,
                           patch: MaterializedEvaluationPatch, alias: string)
    requires DistinctAliases(plan.aggregatePlans) && key in members && alias in Aliases(plan.aggregatePlans)
    requires AllNoted(plan, members[key], next, g, patch)
    requires !patch.requiresFullEvaluation && (g !in patch.dirtyGroups || OrderByUsesAggregate(plan, alias))
    ensures AggregateFields(members, plan.aggregatePlans)[alias] ==
      AggregateFields(members[key := next], plan.aggregatePlans)[alias]
  {
    var i := PlanOf(plan.aggregatePlans, alias);
    assert Noted(plan, i, members[key], next, g, patch);
    ReplacedMeaning(members, key, next, plan.aggregatePlans[i]);
  }

  /** A replaced member that changes no aggregate leaves the group's row as it was; one that changes no
      aggregate of the order leaves the group in its place. */
  lemma ReplacedEntry(g: string, members: Members, q: CompiledGroupedQuery, key: string, next: Row,
                      patch: MaterializedEvaluationPatch)
    requires ValidPlan(q.plan) && key in members && InGroup(next, g, q)
    requires forall m | m in members :: InGroup(members[m], g, q)
    requires AllNoted(q.plan, members[key], next, g, patch) && !patch.requiresFullEvaluation
    ensures SameOrderValues(GroupEntry(g, members, q.plan), GroupEntry(g, members[key := next], q.plan), q.plan.orderBy)
    ensures g !in patch.dirtyGroups ==> GroupEntry(g, members, q.plan) == GroupEntry(g, members[key := next], q.plan)
  {
    var plan, after := q.plan, members[key := next];
    var was, now := AggregateFields(members, plan.aggregatePlans), AggregateFields(after, plan.aggregatePlans);
    var fields := ReplacedFields(g, members, q, key, next);
    forall a | a in was && (g !in patch.dirtyGroups || OrderByUsesAggregate(plan, a))
      ensures was[a] == now[a]
    {
      ReplacedAggregates(g, members, plan, key, next, patch, a);
    }
    AlikeEntries(GroupEntry(g, members, plan), GroupEntry(g, after, plan), fields, was, now, plan);
    if g !in patch.dirtyGroups {
      SameMaps(was, now);
    }
  }

  lemma ReplacedFields(g: string, members: Members, q: CompiledGroupedQuery, key: string, next: Row)
    returns (fields: map<string, Value>)
    requires ValidPlan(q.plan) && key in members && InGroup(next, g, q)
    requires forall m | m in members :: InGroup(members[m], g, q)
    ensures GroupEntry(g, members, q.plan).row.fields == fields + AggregateFields(members, q.plan.aggregatePlans)
    ensures GroupEntry(g, members[key := next], q.plan).row.fields ==
            fields + AggregateFields(members[key := next], q.plan.aggregatePlans)
  {
    fields := GroupFields(q.plan.groupBy, next);
    GroupFieldsOfEntry(g, members, q, key);
    GroupFieldsOfEntry(g, members[key := next], q, key);
    assert SameFields(members[key], next, q.plan);
  }

  lemma AlikeEntries(a: Entry, b: Entry, fields: map<string, Value>, was: map<string, Value>, now: map<string, Value>,
                     plan: GroupedQueryPlan)
    requires a.key == b.key && a.row.fields == fields + was && b.row.fields == fields + now && was.Keys == now.Keys
    requires forall alias | alias in was && OrderByUsesAggregate(plan, alias) :: was[alias] == now[alias]
    requires forall o | o in plan.orderBy :: if o.ByField? then o.field !in was else o.alias in was
    ensures SameOrderValues(a, b, plan.orderBy)
  {
    forall o | 0 <= o < |plan.orderBy|
      ensures FieldValue(a.row, OrderName(plan.orderBy[o])) == FieldValue(b.row, OrderName(plan.orderBy[o]))
    {
      assert plan.orderBy[o] in plan.orderBy;
    }
  }

  /** Replacing a member keeps the change order-neutral unless the patch says otherwise. */
  lemma NeutralAfterReplace(grouping0: map<string, Members>, grouping: map<string, Members>, q: CompiledGroupedQuery,
                            g: string, key: string, next: Row, patch: MaterializedEvaluationPatch,
                            patch': MaterializedEvaluationPatch)
    requires ValidPlan(q.plan) && WellGrouped(grouping, q) && g in grouping && key in grouping[g] && InGroup(next, g, q)
    requires OrderNeutral(grouping0, grouping, q.plan, patch.dirtyGroups) && PatchGrew(patch, patch', g)
    requires AllNoted(q.plan, grouping[g][key], next, g, patch') && !patch'.requiresFullEvaluation
    ensures OrderNeutral(grouping0, grouping[g := grouping[g][key := next]], q.plan, patch'.dirtyGroups)
  {
    var after := grouping[g := grouping[g][key := next]];
    ReplacedEntry(g, grouping[g], q, key, next, patch');
    forall h | h in after
      ensures NeutralAt(grouping0, after, q.plan, patch'.dirtyGroups, h)
    {
      assert NeutralAt(grouping0, grouping, q.plan, patch.dirtyGroups, h);
    }
  }

  // ----- Patching the window -----

  /** What a shown row has become. */
  ghost function Renewed(entry: Entry, grouping: map<string, Members>, plan: GroupedQueryPlan): Entry
    requires DistinctAliases(plan.aggregatePlans)
  {
    if entry.key in grouping then GroupEntry(entry.key, grouping[entry.key], plan) else entry
  }

  ghost function AllRenewed(window: seq<Entry>, grouping: map<string, Members>, plan: GroupedQueryPlan): seq<Entry>
    requires DistinctAliases(plan.aggregatePlans)
  {
    seq(|window|, i requires 0 <= i < |window| => Renewed(window[i], grouping, plan))
  }

  /** Without a change of order, ranking the groups anew is renewing their rows in place. */
  lemma NeutralView(grouping0: map<string, Members>, grouping: map<string, Members>, plan: GroupedQueryPlan,
                    dirtyGroups: set<string>)
    requires DistinctAliases(plan.aggregatePlans) && OrderNeutral(grouping0, grouping, plan, dirtyGroups)
    ensures GroupedView(grouping, plan) == AllRenewed(GroupedView(grouping0, plan), grouping, plan)
  {
    var view := GroupedView(grouping0, plan);
    var renewed := AllRenewed(view, grouping, plan);
    forall i | 0 <= i < |view|
      ensures IsGroupEntry(view[i], grouping0, plan) && NeutralAt(grouping0, grouping, plan, dirtyGroups, view[i].key)
    {
      assert view[i] in view && view[i] in GroupEntries(grouping0, plan);
      assert IsGroupEntry(view[i], grouping0, plan);
      assert NeutralAt(grouping0, grouping, plan, dirtyGroups, view[i].key);
    }
    RenewedIsSorted(view, grouping0, grouping, plan, dirtyGroups);
    forall e
      ensures e in renewed <==> IsGroupEntry(e, grouping, plan)
    {
      if e in renewed {
        var i :| 0 <= i < |view| && renewed[i] == e;
      }
      if IsGroupEntry(e, grouping, plan) {
        var was := GroupEntry(e.key, grouping0[e.key], plan);
        assert IsGroupEntry(was, grouping0, plan);
        assert was in view;
        var i :| 0 <= i < |view| && view[i] == was;
        assert renewed[i] == e;
      }
    }
    GroupOrderIsTotal(grouping, plan);
    SortedListingIsRanked(renewed, GroupEntries(grouping, plan), CompareGroupedRows(plan));
  }

  lemma RenewedIsSorted(view: seq<Entry>, grouping0: map<string, Members>, grouping: map<string, Members>,
                        plan: GroupedQueryPlan, dirtyGroups: set<string>)
    requires DistinctAliases(plan.aggregatePlans) && Sorted(view, CompareGroupedRows(plan))
    requires forall i | 0 <= i < |view| ::
               IsGroupEntry(view[i], grouping0, plan) && NeutralAt(grouping0, grouping, plan, dirtyGroups, view[i].key)
    ensures Sorted(AllRenewed(view, grouping, plan), CompareGroupedRows(plan))
  {
    var renewed := AllRenewed(view, grouping, plan);
    forall i, j | 0 <= i < j < |view|
      ensures CompareGroupedRows(plan)(renewed[i], renewed[j]) < 0
    {
      assert CompareGroupedRows(plan)(view[i], view[j]) < 0;
      SameOrderSameComparison(view[i], renewed[i], view[j], renewed[j], plan.orderBy);
    }
  }

  /** An unmarked group's row stays; the row of a marked one is finalized anew. */
  lemma PatchedRow(entry: Entry, groups: MaterializedGroups, grouping: map<string, Members>, plan: GroupedQueryPlan)
    requires DistinctAliases(plan.aggregatePlans) && Materialized(groups, grouping, plan, {})
    requires (forall g | g in grouping :: grouping[g] != map[]) && entry.key in groups
    ensures FinalizeGroup(groups[entry.key].state) == Renewed(entry, grouping, plan)
  {
    assert MaterializedAt(groups, grouping, plan, {}, entry.key);
    assert StaleAliases({}, entry.key) == {};
    FinalizedGroup(groups[entry.key].state, entry.key, grouping[entry.key], plan);
  }

  lemma SameGroups(groups: MaterializedGroups, grouping: map<string, Members>, plan: GroupedQueryPlan)
    requires Materialized(groups, grouping, plan, {})
    ensures groups.Keys == grouping.Keys
  {
  }

  lemma NothingRenewed(window: seq<Entry>, grouping: map<string, Members>, plan: GroupedQueryPlan)
    requires DistinctAliases(plan.aggregatePlans)
    ensures AllRenewed(window[..0], grouping, plan) == []
  {
  }

  lemma NeutralTotal(grouping0: map<string, Members>, grouping: map<string, Members>, plan: GroupedQueryPlan,
                     dirtyGroups: set<string>)
    requires DistinctAliases(plan.aggregatePlans) && OrderNeutral(grouping0, grouping, plan, dirtyGroups)
    ensures |grouping0| == |grouping|
  {
    assert |grouping0| == |grouping0.Keys| && |grouping| == |grouping.Keys|;
  }

  /** Renewing the rows of marked groups renews the window. */
  method PatchOrderNeutralMaterializedEvaluation(evaluation: QueryEvaluation, groups: MaterializedGroups,
                                                 patch: MaterializedEvaluationPatch, version: nat,
                                                 plan: GroupedQueryPlan, ghost grouping0: map<string, Members>,
                                                 ghost grouping: map<string, Members>, ghost version0: nat)
    returns (patched: QueryEvaluation)
    requires DistinctAliases(plan.aggregatePlans) && OrderNeutral(grouping0, grouping, plan, patch.dirtyGroups)
    requires Materialized(groups, grouping, plan, {}) && forall g | g in grouping :: grouping[g] != map[]
    requires evaluation == GroupedAnswer(grouping0, plan, version0)
    ensures patched == GroupedAnswer(grouping, plan, version)
  {
    hide OrderNeutral, GroupedView, Materialized, Renewed, AllRenewed, Slice;
    NeutralView(grouping0, grouping, plan, patch.dirtyGroups);
    RenewedSlice(GroupedView(grouping0, plan), grouping, plan);
    NeutralTotal(grouping0, grouping, plan, patch.dirtyGroups);
    assert groups.Keys == grouping.Keys by { SameGroups(groups, grouping, plan); }
    NothingRenewed(evaluation.window, grouping, plan);
    var visibleWindowChanged := false;
    var window: seq<Entry> := [];
    for i := 0 to |evaluation.window|
      invariant window == AllRenewed(evaluation.window[..i], grouping, plan)
      invariant !visibleWindowChanged ==> window == evaluation.window[..i]
    {
      var entry := evaluation.window[i];
      ShownEntry(evaluation.window, i, grouping0, grouping, plan, patch.dirtyGroups);
      RenewedMore(evaluation.window, i, grouping, plan);
      if entry.key in patch.dirtyGroups && entry.key in groups {
        PatchedRow(entry, groups, grouping, plan);
        visibleWindowChanged := true;
        window := window + [FinalizeGroup(groups[entry.key].state)];
      } else {
        window := window + [entry];
      }
    }
    assert evaluation.window[..|evaluation.window|] == evaluation.window;
    patched := if visibleWindowChanged then QueryEvaluation(window, evaluation.totalRows, version)
      else evaluation.(version := version);
  }

  lemma RenewedMore(window: seq<Entry>, i: nat, grouping: map<string, Members>, plan: GroupedQueryPlan)
    requires DistinctAliases(plan.aggregatePlans) && i < |window|
    ensures window[..i + 1] == window[..i] + [window[i]]
    ensures AllRenewed(window[..i + 1], grouping, plan) ==
      AllRenewed(window[..i], grouping, plan) + [Renewed(window[i], grouping, plan)]
  {
  }

  lemma RenewedSlice(view: seq<Entry>, grouping: map<string, Members>, plan: GroupedQueryPlan)
    requires DistinctAliases(plan.aggregatePlans)
    ensures Slice(AllRenewed(view, grouping, plan), plan.offset, plan.limit) ==
            AllRenewed(Slice(view, plan.offset, plan.limit), grouping, plan)
  {
  }

  lemma ShownEntry(window: seq<Entry>, i: nat, grouping0: map<string, Members>, grouping: map<string, Members>,
                   plan: GroupedQueryPlan, dirtyGroups: set<string>)
    requires DistinctAliases(plan.aggregatePlans) && OrderNeutral(grouping0, grouping, plan, dirtyGroups)
    requires i < |window|
    requires window == Slice(GroupedView(grouping0, plan), plan.offset, plan.limit)
    ensures window[i].key in grouping
    ensures (window[i].key !in dirtyGroups ==> Renewed(window[i], grouping, plan) == window[i])
  {
    var view := GroupedView(grouping0, plan);
    assert window[i] in view;
    assert IsGroupEntry(window[i], grouping0, plan);
    assert NeutralAt(grouping0, grouping, plan, dirtyGroups, window[i].key);
  }
}
