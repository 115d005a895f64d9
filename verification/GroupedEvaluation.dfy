/** Evaluating a grouped query from scratch, over all stored rows. */
module GroupedEvaluation {
  import opened Values
  import opened Sequences
  import opened Rows
  import opened GroupedQuery
  import opened GroupStates
  import opened GroupedWindow
  import opened GroupedHeap

  /** The table of the first `i` slots. */
  ghost function RowsUpTo(slots: seq<Entry>, i: nat): Table
    requires i <= |slots|
  {
    if i == 0 then map[] else RowsUpTo(slots, i - 1)[slots[i - 1].key := slots[i - 1].row]
  }

  ghost predicate HasSlot(slots: seq<Entry>, i: nat, k: string)
    requires i <= |slots|
  {
    exists j :: 0 <= j < i && slots[j].key == k
  }

  lemma {:induction false} RowsUpToHolds(slots: seq<Entry>, i: nat)
    requires DistinctKeys(slots) && i <= |slots|
    ensures forall j | 0 <= j < i ::
      slots[j].key in RowsUpTo(slots, i) && RowsUpTo(slots, i)[slots[j].key] == slots[j].row
    ensures forall k | k in RowsUpTo(slots, i) :: HasSlot(slots, i, k)
  {
    if i > 0 {
      RowsUpToHolds(slots, i - 1);
      forall k | k in RowsUpTo(slots, i)
        ensures HasSlot(slots, i, k)
      {
        if k == slots[i - 1].key {
          assert slots[i - 1].key == k;
        } else {
          assert HasSlot(slots, i - 1, k);
        }
      }
    }
  }

  lemma RowsUpToNext(slots: seq<Entry>, i: nat)
    requires DistinctKeys(slots) && i < |slots|
    ensures slots[i].key !in RowsUpTo(slots, i)
    ensures RowsUpTo(slots, i + 1) == RowsUpTo(slots, i)[slots[i].key := slots[i].row]
  {
    RowsUpToHolds(slots, i);
    assert !HasSlot(slots, i, slots[i].key);
  }

  lemma RowsUpToAll(slots: seq<Entry>)
    requires DistinctKeys(slots)
    ensures RowsUpTo(slots, |slots|) == TableOf(slots)
  {
    var rows := RowsUpTo(slots, |slots|);
    RowsUpToHolds(slots, |slots|);
    forall k | k in rows
      ensures k in TableOf(slots) && TableOf(slots)[k] == rows[k]
    {
      assert HasSlot(slots, |slots|, k);
    }
    assert forall k | k in TableOf(slots) :: k in rows;
  }

  /** With no rows there are no groups. */
  lemma NoRowsNoGroups(q: CompiledGroupedQuery)
    ensures Grouping(map[], q) == map[]
  {
  }

  /** The number of groups is the number of group keys. */
  lemma GroupingCount(rows: Table, q: CompiledGroupedQuery)
    ensures |Grouping(rows, q)| == |KeysOfGroups(rows, q)|
  {
    assert Grouping(rows, q).Keys == KeysOfGroups(rows, q);
    assert |Grouping(rows, q)| == |Grouping(rows, q).Keys|;
  }

  /** Adds a row to the state of its group, which it may open. */
  method AddRow(groups: map<string, GroupState>, key: string, row: Row, q: CompiledGroupedQuery,
                ghost grouping: map<string, Members>)
    returns (groups': map<string, GroupState>)
    requires ValidPlan(q.plan) && q.matches(row) && WellGrouped(grouping, q) && GroupsShown(groups, grouping, q.plan)
    requires key !in MembersIn(grouping, q.plan.groupKey(row))
    ensures GroupsShown(groups', WithMember(grouping, q.plan.groupKey(row), key, row), q.plan)
  {
    var g := q.plan.groupKey(row);
    var group;
    if g in groups {
      group := groups[g];
      assert GroupShownAt(groups, grouping, q.plan, g);
    } else {
      group := NewGroupState(g, q.plan, row, false);
    }
    ghost var members := MembersIn(grouping, g);
    SameGroupSameFields(group, g, members, row, q);
    var aggregates := AddToAggregates(group.aggregates, q.plan, row, members, key, {});
    groups' := groups[g := group.(aggregates := aggregates)];
    ghost var grouping' := WithMember(grouping, g, key, row);
    forall h | h in groups'
      ensures GroupShownAt(groups', grouping', q.plan, h)
    {
      if h != g {
        assert GroupShownAt(groups, grouping, q.plan, h);
      }
    }
  }

  method GroupsList(groups: map<string, GroupState>, plan: GroupedQueryPlan, ghost grouping: map<string, Members>)
    returns (list: seq<GroupState>)
    requires GroupsShown(groups, grouping, plan) && forall g | g in grouping :: grouping[g] != map[]
    ensures ListsGroups(list, grouping, plan)
  {
    var keys := ListOf(groups.Keys);
    list := seq(|keys|, i requires 0 <= i < |keys| => assert keys[i] in keys; groups[keys[i]]);
    forall i | 0 <= i < |list|
      ensures list[i].key == keys[i] && GroupShownAt(groups, grouping, plan, keys[i])
    {
      assert keys[i] in keys;
      assert GroupShownAt(groups, grouping, plan, keys[i]);
    }
    forall g | g in grouping
      ensures ListedAt(list, g)
    {
      assert g in keys;
      var i :| 0 <= i < |keys| && keys[i] == g;
      assert list[i].key == g;
    }
  }

  method EvaluateZeroLimitGroupedRows(slots: seq<Entry>, q: CompiledGroupedQuery, version: nat)
    returns (evaluation: QueryEvaluation)
    requires DistinctKeys(slots) && ValidPlan(q.plan) && q.plan.limit == Some(0)
    ensures evaluation == GroupedAnswer(Grouping(TableOf(slots), q), q.plan, version)
  {
    var groupKeys: set<string> := {};
    for i := 0 to |slots|
      invariant groupKeys == KeysOfGroups(RowsUpTo(slots, i), q)
    {
      RowsUpToNext(slots, i);
      if q.matches(slots[i].row) {
        groupKeys := groupKeys + {q.plan.groupKey(slots[i].row)};
      }
      GroupKeysAdded(RowsUpTo(slots, i), slots[i].key, slots[i].row, q);
    }
    RowsUpToAll(slots);
    GroupingCount(TableOf(slots), q);
    EmptyIsAnswer(Grouping(TableOf(slots), q), q.plan, version);
    evaluation := EmptyGroupedEvaluation(|groupKeys|, version);
  }

  lemma GroupKeysAdded(rows: Table, k: string, row: Row, q: CompiledGroupedQuery)
    requires k !in rows
    ensures KeysOfGroups(rows[k := row], q) ==
      KeysOfGroups(rows, q) + if q.matches(row) then {q.plan.groupKey(row)} else {}
  {
    GroupingAdded(rows, k, row, q);
    assert KeysOfGroups(rows, q) == Grouping(rows, q).Keys && KeysOfGroups(rows[k := row], q) ==
      Grouping(rows[k := row], q).Keys;
  }

  /** One pass over all rows gives what the query shows of the table. */
  method EvaluateGroupedRows(slots: seq<Entry>, q: CompiledGroupedQuery, version: nat)
    returns (evaluation: QueryEvaluation)
    requires DistinctKeys(slots) && ValidPlan(q.plan)
    ensures evaluation == GroupedAnswer(Grouping(TableOf(slots), q), q.plan, version)
  {
    if q.plan.limit == Some(0) {
      evaluation := EvaluateZeroLimitGroupedRows(slots, q, version);
      return;
    }
    var groups: map<string, GroupState> := map[];
    NoRowsNoGroups(q);
    for i := 0 to |slots|
      invariant GroupsShown(groups, Grouping(RowsUpTo(slots, i), q), q.plan)
    {
      RowsUpToNext(slots, i);
      GroupingAdded(RowsUpTo(slots, i), slots[i].key, slots[i].row, q);
      GroupingIsWellGrouped(RowsUpTo(slots, i), q);
      if q.matches(slots[i].row) {
        groups := AddRow(groups, slots[i].key, slots[i].row, q, Grouping(RowsUpTo(slots, i), q));
      }
    }
    RowsUpToAll(slots);
    GroupingIsWellGrouped(TableOf(slots), q);
    var list := GroupsList(groups, q.plan, Grouping(TableOf(slots), q));
    evaluation := GroupedEvaluationFromGroups(list, q.plan, version, Grouping(TableOf(slots), q));
  }
}
