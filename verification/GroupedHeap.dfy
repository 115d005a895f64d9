/** The best groups of a grouping, kept in a worst-first heap whose order values are recycled. */
module GroupedHeap {
  import opened Values
  import opened Sequences
  import opened Ranking
  import opened Rows
  import opened BoundedWindow
  import opened GroupedAggregates
  import opened GroupKeys
  import opened GroupedQuery
  import opened GroupStates
  import opened GroupedWindow

  // ----- Comparing groups by their order values -----

  function GroupValue(group: GroupState, order: GroupedOrder): Value {
    match order
    case ByField(field, _) => if field in group.row then group.row[field] else Undefined
    case ByAggregate(alias, _) =>
      if alias in group.aggregates then AggregateStateValue(group.aggregates[alias]) else Undefined
  }

  function OrderValues(group: GroupState, orderBy: seq<GroupedOrder>): seq<Value> {
    seq(|orderBy|, i requires 0 <= i < |orderBy| => GroupValue(group, orderBy[i]))
  }

  /** Order values one by one, ties broken by group key. */
  function CompareOrderValues(left: seq<Value>, leftKey: string, right: seq<Value>, rightKey: string,
                              orderBy: seq<GroupedOrder>): int
    requires |left| == |right| == |orderBy|
  {
    if orderBy == [] then CompareText(leftKey, rightKey)
    else
      var comparison := CompareQueryValue(left[0], right[0]);
      if comparison != 0 then (if orderBy[0].direction.Ascending? then comparison else -comparison)
      else CompareOrderValues(left[1..], leftKey, right[1..], rightKey, orderBy[1..])
  }

  function CompareGroups(left: GroupState, right: GroupState, orderBy: seq<GroupedOrder>): int {
    CompareOrderValues(OrderValues(left, orderBy), left.key, OrderValues(right, orderBy), right.key, orderBy)
  }

  /** The order columns of the result rows read the same values as those of the states. */
  ghost predicate ReadsAlike(group: GroupState, orderBy: seq<GroupedOrder>) {
    forall i | 0 <= i < |orderBy| ::
      GroupValue(group, orderBy[i]) == FieldValue(FinalizeGroup(group).row, OrderName(orderBy[i]))
  }

  lemma ShownReadsAlike(group: GroupState, g: string, members: Members, plan: GroupedQueryPlan)
    requires ValidPlan(plan) && GroupShown(group, g, members, plan, {}) && members != map[]
    ensures ReadsAlike(group, plan.orderBy)
  {
    var k := SomeMember(members);
    assert group.row == GroupFields(plan.groupBy, members[k]);
    forall i | 0 <= i < |plan.orderBy|
      ensures GroupValue(group, plan.orderBy[i]) == FieldValue(FinalizeGroup(group).row, OrderName(plan.orderBy[i]))
    {
      assert plan.orderBy[i] in plan.orderBy;
    }
  }

  lemma {:induction false} CompareGroupsIsRowOrder(a: GroupState, b: GroupState, orderBy: seq<GroupedOrder>)
    requires ReadsAlike(a, orderBy) && ReadsAlike(b, orderBy)
    ensures CompareGroups(a, b, orderBy) == CompareRows(FinalizeGroup(a), FinalizeGroup(b), OrderColumns(orderBy))
    decreases |orderBy|
  {
    if orderBy != [] {
      var rest := orderBy[1..];
      assert ReadsAlike(a, rest) && ReadsAlike(b, rest) by {
        assert forall i | 0 <= i < |rest| :: rest[i] == orderBy[i + 1];
      }
      assert OrderValues(a, orderBy)[1..] == OrderValues(a, rest) && OrderValues(b, orderBy)[1..] ==
        OrderValues(b, rest);
      assert OrderColumns(orderBy)[1..] == OrderColumns(rest);
      CompareGroupsIsRowOrder(a, b, rest);
    }
  }

  /** Groups by their place in a list of groups. */
  function ComparePlaces(all: seq<GroupState>, orderBy: seq<GroupedOrder>): (nat, nat) -> int {
    (i: nat, j: nat) => if i < |all| && j < |all| then CompareGroups(all[i], all[j], orderBy) else 0
  }

  ghost function Places(n: nat): (places: set<nat>)
    ensures |places| == n && forall i: nat :: i in places <==> i < n
  {
    if n == 0 then {} else Places(n - 1) + {n - 1}
  }

  lemma PlacesAreTotal(all: seq<GroupState>, grouping: map<string, Members>, plan: GroupedQueryPlan)
    requires ValidPlan(plan) && ListsGroups(all, grouping, plan)
    ensures TotalOn(ComparePlaces(all, plan.orderBy), Places(|all|))
    ensures forall i: nat, j: nat | i < |all| && j < |all| ::
              ComparePlaces(all, plan.orderBy)(i, j) ==
                CompareGroupedRows(plan)(FinalizeGroup(all[i]), FinalizeGroup(all[j]))
  {
    var cmp, rows := ComparePlaces(all, plan.orderBy), CompareGroupedRows(plan);
    CompiledOrderIsRowOrder(OrderColumns(plan.orderBy));
    forall i: nat, j: nat | i < |all| && j < |all|
      ensures cmp(i, j) == rows(FinalizeGroup(all[i]), FinalizeGroup(all[j]))
      ensures cmp(i, j) < 0 <==> cmp(j, i) > 0
      ensures cmp(i, j) == 0 ==> i == j
    {
      var a, b := all[i], all[j];
      ShownReadsAlike(a, a.key, grouping[a.key], plan);
      ShownReadsAlike(b, b.key, grouping[b.key], plan);
      CompareGroupsIsRowOrder(a, b, plan.orderBy);
      CompareGroupsIsRowOrder(b, a, plan.orderBy);
      CompareRowsLaws(FinalizeGroup(a), FinalizeGroup(b), OrderColumns(plan.orderBy));
    }
    forall i: nat, j: nat, k: nat | i < |all| && j < |all| && k < |all| && cmp(i, j) <= 0 && cmp(j, k) <= 0
      ensures cmp(i, k) <= 0
    {
      CompareRowsTransitive(FinalizeGroup(all[i]), FinalizeGroup(all[j]), FinalizeGroup(all[k]),
                            OrderColumns(plan.orderBy));
    }
  }

  /** Different places, all of them known to the comparator. */
  ghost predicate Comparable(places: seq<nat>, compare: (nat, nat) -> int, all: set<nat>) {
    TotalOn(compare, all) && NoDuplicates(places) && forall x | x in places :: x in all
  }

  lemma SameMembersChain(a: seq<nat>, b: seq<nat>, c: seq<nat>)
    requires SameMembers(a, b) && SameMembers(b, c)
    ensures SameMembers(a, c)
  {
  }

  lemma SameMembersComparable(a: seq<nat>, b: seq<nat>, compare: (nat, nat) -> int, all: set<nat>)
    requires Comparable(a, compare, all) && SameMembers(a, b)
    ensures Comparable(b, compare, all)
  {
  }

  lemma Turned(places: seq<nat>, compare: (nat, nat) -> int, all: set<nat>, i: nat, j: nat)
    requires i < |places| && j < |places| && TotalOn(compare, all) && forall x | x in places :: x in all
    ensures compare(places[i], places[j]) > 0 <==> compare(places[j], places[i]) < 0
  {
    assert places[i] in places && places[j] in places;
  }

  /** None of the children of `current` is worse than `worst`. */
  ghost predicate WorstChild(places: seq<nat>, current: nat, worst: nat, compare: (nat, nat) -> int)
    requires worst < |places|
  {
    forall i | 0 < i < |places| && Parent(i) == current :: compare(places[worst], places[i]) >= 0
  }

  lemma BestAmongChildren(places: seq<nat>, current: nat, compare: (nat, nat) -> int)
    requires current < |places| && IsHeapAround(places, current, compare)
    requires WorstChild(places, current, current, compare)
    ensures IsHeap(places, compare)
  {
  }

  /** Different places that are the best of the first `n`, in any order. */
  ghost predicate ReadyPlaces(kept: seq<nat>, n: nat, compare: (nat, nat) -> int, total: nat, bound: nat) {
    n <= total && Comparable(kept, compare, Places(total)) && HoldsBest(kept, Places(n), compare, bound)
  }

  /** A heap of the best of the first `n` places. */
  ghost predicate KeepsBestOf(kept: seq<nat>, n: nat, compare: (nat, nat) -> int, total: nat, bound: nat) {
    ReadyPlaces(kept, n, compare, total, bound) && IsHeap(kept, compare)
  }

  lemma NewPlace(kept: seq<nat>, n: nat, compare: (nat, nat) -> int, total: nat, bound: nat)
    requires KeepsBestOf(kept, n, compare, total, bound) && |kept| < bound && n < total
    ensures n !in kept && IsHeapBelow(kept + [n], |kept|, compare)
    ensures ReadyPlaces(kept + [n], n + 1, compare, total, bound)
  {
    AppendHoldsBest(kept, Places(n), n, compare, bound);
    AppendIsHeapBelow(kept, n, compare);
  }

  lemma RootIsWorstOfAll(kept: seq<nat>, n: nat, compare: (nat, nat) -> int, total: nat, bound: nat)
    requires KeepsBestOf(kept, n, compare, total, bound) && kept != []
    ensures forall i | 0 <= i < |kept| :: compare(kept[0], kept[i]) >= 0
  {
    forall i | 0 <= i < |kept|
      ensures compare(kept[0], kept[i]) >= 0
    {
      RootIsWorst(kept, compare, Places(total), i);
    }
  }

  lemma WorsePlace(kept: seq<nat>, n: nat, compare: (nat, nat) -> int, total: nat, bound: nat)
    requires KeepsBestOf(kept, n, compare, total, bound) && |kept| == bound > 0 && n < total && compare(n, kept[0]) >= 0
    ensures KeepsBestOf(kept, n + 1, compare, total, bound)
  {
    TotalOnSubset(compare, Places(total), Places(n) + {n});
    RootIsWorstOfAll(kept, n, compare, total, bound);
    WorseIsNotBest(kept, Places(n), n, compare, bound);
  }

  lemma BetterPlace(kept: seq<nat>, n: nat, compare: (nat, nat) -> int, total: nat, bound: nat)
    requires KeepsBestOf(kept, n, compare, total, bound) && |kept| == bound > 0 && n < total && compare(n, kept[0]) < 0
    ensures n !in kept && IsHeapAround(kept[0 := n], 0, compare)
    ensures ReadyPlaces(kept[0 := n], n + 1, compare, total, bound)
  {
    TotalOnSubset(compare, Places(total), Places(n) + {n});
    RootIsWorstOfAll(kept, n, compare, total, bound);
    ReplaceRootHoldsBest(kept, Places(n), n, compare, bound);
    ReplaceRootIsHeapAround(kept, n, compare);
  }

  lemma RearrangedPlaces(before: seq<nat>, after: seq<nat>, n: nat, compare: (nat, nat) -> int, total: nat, bound: nat)
    requires ReadyPlaces(before, n, compare, total, bound) && SameMembers(before, after) && IsHeap(after, compare)
    ensures KeepsBestOf(after, n, compare, total, bound)
  {
    MembersHoldBest(before, after, Places(n), compare, bound);
  }

  // ----- The heap -----

  /** A list of order values that is written again and again. */
  class OrderValueList {
    var values: seq<Value>

    constructor ()
      ensures values == []
    {
      values := [];
    }

    method WriteGroupOrderValues(group: GroupState, orderBy: seq<GroupedOrder>)
      modifies this
      ensures values == OrderValues(group, orderBy)
    {
      values := [];
      for i := 0 to |orderBy|
        invariant values == OrderValues(group, orderBy)[..i]
      {
        values := values + [GroupValue(group, orderBy[i])];
      }
    }
  }

  class BoundedGroupEntry {
    var group: GroupState
    var orderValues: OrderValueList
    /** Where the group stands among all groups. */
    ghost var place: nat

    constructor (group: GroupState, orderValues: OrderValueList, ghost place: nat)
      ensures this.group == group && this.orderValues == orderValues && this.place == place
    {
      this.group, this.orderValues, this.place := group, orderValues, place;
    }
  }

  class BoundedGroups {
    const orderBy: seq<GroupedOrder>
    const windowEnd: nat
    /** The one list that stands for order values when there is nothing to order by. */
    const emptyOrderValues: OrderValueList
    var groups: seq<BoundedGroupEntry>
    ghost const all: seq<GroupState>
    ghost const compare: (nat, nat) -> int

    /** Places compare like the groups there. */
    ghost predicate Judged(i: nat, j: nat) {
      i < |all| && j < |all| ==> compare(i, j) == CompareGroups(all[i], all[j], orderBy)
    }

    ghost predicate ValidEntry(entry: BoundedGroupEntry)
      reads entry, entry.orderValues
    {
      && entry.place < |all| && entry.group == all[entry.place]
      && entry.orderValues.values == OrderValues(entry.group, orderBy)
      && (orderBy != [] <==> entry.orderValues != emptyOrderValues)
    }

    ghost predicate Apart(e: BoundedGroupEntry, f: BoundedGroupEntry)
      reads e, f
    {
      orderBy != [] && e != f ==> e.orderValues != f.orderValues
    }

    /** No two entries are one, and no two of them share the list their order values are written to. */
    ghost predicate Valid()
      reads this, emptyOrderValues, groups, set e | e in groups :: e.orderValues
    {
      && (forall i: nat, j: nat {:trigger Judged(i, j)} :: Judged(i, j))
      && NoDuplicates(groups) && emptyOrderValues.values == []
      && (forall e | e in groups :: ValidEntry(e))
      && (forall e, f {:trigger Apart(e, f)} | e in groups && f in groups :: Apart(e, f))
    }

    /** A list no entry uses. */
    ghost predicate Free(scratch: OrderValueList)
      reads this, groups
    {
      scratch != emptyOrderValues && forall e | e in groups :: e.orderValues != scratch
    }

    ghost function PlacesOf(entries: seq<BoundedGroupEntry>): seq<nat>
      reads entries
    {
      seq(|entries|, i requires 0 <= i < |entries| reads entries => entries[i].place)
    }

    ghost function PlacesKept(): seq<nat>
      reads this, groups
    {
      PlacesOf(groups)
    }

    constructor (orderBy: seq<GroupedOrder>, windowEnd: nat, ghost all: seq<GroupState>)
      ensures Valid() && groups == [] && this.orderBy == orderBy && this.windowEnd == windowEnd && this.all == all
      ensures compare == ComparePlaces(all, orderBy) && fresh(emptyOrderValues)
    {
      this.orderBy, this.windowEnd, this.all, compare := orderBy, windowEnd, all, ComparePlaces(all, orderBy);
      emptyOrderValues := new OrderValueList();
      groups := [];
    }

    predicate BoundedGroupEntryIsWorse(left: BoundedGroupEntry, right: BoundedGroupEntry): (worse: bool)
      requires Judged(left.place, right.place) && ValidEntry(left) && ValidEntry(right)
      reads left, right, left.orderValues, right.orderValues
      ensures worse <==> compare(left.place, right.place) > 0
    {
      CompareOrderValues(left.orderValues.values, left.group.key, right.orderValues.values, right.group.key,
                         orderBy) > 0
    }

    ghost predicate Rearranged(before: seq<BoundedGroupEntry>, after: seq<BoundedGroupEntry>) {
      && |before| == |after|
      && (forall e | e in before :: e in after) && (forall e | e in after :: e in before)
    }

    ghost function Lists(): set<OrderValueList>
      reads this, groups
    {
      {emptyOrderValues} + set e | e in groups :: e.orderValues
    }

    lemma SwapRearranges(before: seq<BoundedGroupEntry>, left: nat, right: nat)
      requires left < |before| && right < |before|
      ensures Rearranged(before, Swapped(before, left, right))
      ensures PlacesOf(Swapped(before, left, right)) == Swapped(PlacesOf(before), left, right)
    {
      var after := Swapped(before, left, right);
      forall e | e in before
        ensures e in after
      {
        var i :| 0 <= i < |before| && before[i] == e;
        assert after[if i == left then right else if i == right then left else i] == e;
      }
    }

    /** Swapping two entries rearranges them and their places. */
    lemma SwapBoundedGroupEntries(sifted: seq<BoundedGroupEntry>, left: nat, right: nat)
      requires Rearranged(groups, sifted) && SameMembers(PlacesKept(), PlacesOf(sifted)) && left < |sifted|
      requires right < |sifted|
      ensures PlacesOf(Swapped(sifted, left, right)) == Swapped(PlacesOf(sifted), left, right)
      ensures Rearranged(groups, Swapped(sifted, left, right))
      ensures SameMembers(PlacesKept(), PlacesOf(Swapped(sifted, left, right)))
    {
      SwapRearranges(sifted, left, right);
      SwapKeepsMembers(PlacesOf(sifted), left, right);
      SameMembersChain(PlacesKept(), PlacesOf(sifted), Swapped(PlacesOf(sifted), left, right));
    }

    method Contents() returns (ranked: seq<RankedGroup>, ghost kept: seq<nat>)
      requires Valid() && KeepsBest(|all|)
      ensures KeepsBestOf(kept, |all|, compare, |all|, windowEnd)
      ensures ranked == Mapped(kept, RankedAt(all, orderBy))
    {
      kept := PlacesKept();
      ranked := [];
      for i := 0 to |groups|
        invariant ranked == Mapped(PlacesKept()[..i], RankedAt(all, orderBy))
      {
        assert groups[i] in groups && ValidEntry(groups[i]);
        MappedAppend(PlacesKept()[..i], groups[i].place, RankedAt(all, orderBy));
        assert PlacesKept()[..i + 1] == PlacesKept()[..i] + [groups[i].place];
        ranked := ranked + [RankedGroup(groups[i].group, groups[i].orderValues.values)];
      }
      assert PlacesKept()[..|groups|] == PlacesKept();
    }

    lemma KnownPair(sifted: seq<BoundedGroupEntry>, i: nat, j: nat)
      requires Valid() && Rearranged(groups, sifted) && i < |sifted| && j < |sifted|
      ensures ValidEntry(sifted[i]) && ValidEntry(sifted[j]) && Judged(sifted[i].place, sifted[j].place)
    {
      assert sifted[i] in sifted && sifted[j] in sifted;
      assert Judged(sifted[i].place, sifted[j].place);
    }

    lemma DistinctPlaces(entries: seq<BoundedGroupEntry>)
      requires NoDuplicates(PlacesOf(entries))
      ensures NoDuplicates(entries)
    {
      forall i, j | 0 <= i < j < |entries|
        ensures entries[i] != entries[j]
      {
        assert PlacesOf(entries)[i] != PlacesOf(entries)[j];
      }
    }

    /** The worst of an entry and its children. */
    function WorstOf(sifted: seq<BoundedGroupEntry>, current: nat): (worst: nat)
      requires Valid() && Rearranged(groups, sifted) && current < |sifted|
      requires Comparable(PlacesOf(sifted), compare, Places(|all|))
      reads this, emptyOrderValues, groups, sifted, set e | e in groups :: e.orderValues, set e | e in sifted ::
        e.orderValues
      ensures worst < |sifted|
    {
      var left := current * 2 + 1;
      var right := left + 1;
      var worse :=
        if left < |sifted| then
          KnownPair(sifted, left, current);
          (if BoundedGroupEntryIsWorse(sifted[left], sifted[current]) then left else current)
        else current;
      if right < |sifted| then
        KnownPair(sifted, right, worse);
        (if BoundedGroupEntryIsWorse(sifted[right], sifted[worse]) then right else worse)
      else worse
    }

    lemma WorstOfIsWorst(sifted: seq<BoundedGroupEntry>, current: nat, places: seq<nat>)
      requires Valid() && Rearranged(groups, sifted) && current < |sifted| && places == PlacesOf(sifted)
      requires Comparable(places, compare, Places(|all|))
      ensures
        var worst := WorstOf(sifted, current);
        && worst < |places| && (worst == current || (worst > current && Parent(worst) == current))
        && compare(places[worst], places[current]) >= 0 && WorstChild(places, current, worst, compare)
    {
      assert WorstOf(sifted, current) == LargestOf(places, current, compare, Places(|all|));
    }

    method SiftedUp(index: nat) returns (sifted: seq<BoundedGroupEntry>)
      requires Valid() && index < |groups| && Comparable(PlacesKept(), compare, Places(|all|))
      requires IsHeapBelow(PlacesKept(), index, compare)
      ensures Rearranged(groups, sifted)
      ensures IsHeap(PlacesOf(sifted), compare) && SameMembers(PlacesKept(), PlacesOf(sifted))
    {
      sifted := groups;
      var current: nat := index;
      while current > 0
        invariant current < |sifted| && Rearranged(groups, sifted)
        invariant IsHeapBelow(PlacesOf(sifted), current, compare) && SameMembers(PlacesKept(), PlacesOf(sifted))
        invariant current == 0 ==> IsHeap(PlacesOf(sifted), compare)
      {
        ghost var places := PlacesOf(sifted);
        SameMembersComparable(PlacesKept(), places, compare, Places(|all|));
        var parent := (current - 1) / 2;
        KnownPair(sifted, current, parent);
        Turned(places, compare, Places(|all|), current, parent);
        if !BoundedGroupEntryIsWorse(sifted[current], sifted[parent]) {
          assert ParentIsWorse(places, current, compare);
          break;
        }
        SiftUpStep(places, current, compare, Places(|all|));
        SwapBoundedGroupEntries(sifted, parent, current);
        sifted := Swapped(sifted, parent, current);
        current := parent;
      }
    }

    method SiftWorstBoundedGroupEntryUp(index: nat)
      requires Valid() && index < |groups| && Comparable(PlacesKept(), compare, Places(|all|))
      requires IsHeapBelow(PlacesKept(), index, compare)
      modifies this`groups
      ensures Valid() && Rearranged(old(groups), groups)
      ensures IsHeap(PlacesKept(), compare) && SameMembers(old(PlacesKept()), PlacesKept())
    {
      var sifted := SiftedUp(index);
      DistinctPlaces(sifted);
      groups := sifted;
    }

    method SiftedDown(index: nat) returns (sifted: seq<BoundedGroupEntry>)
      requires Valid() && index < |groups| && Comparable(PlacesKept(), compare, Places(|all|))
      requires IsHeapAround(PlacesKept(), index, compare)
      ensures Rearranged(groups, sifted)
      ensures IsHeap(PlacesOf(sifted), compare) && SameMembers(PlacesKept(), PlacesOf(sifted))
    {
      sifted := groups;
      var current: nat := index;
      while true
        invariant current < |sifted| && Rearranged(groups, sifted)
        invariant IsHeapAround(PlacesOf(sifted), current, compare) && SameMembers(PlacesKept(), PlacesOf(sifted))
        decreases |sifted| - current
      {
        ghost var places := PlacesOf(sifted);
        SameMembersComparable(PlacesKept(), places, compare, Places(|all|));
        WorstOfIsWorst(sifted, current, places);
        var worst := WorstOf(sifted, current);
        if worst == current {
          BestAmongChildren(places, current, compare);
          break;
        }
        SiftDownStep(places, current, worst, compare, Places(|all|));
        SwapBoundedGroupEntries(sifted, current, worst);
        sifted := Swapped(sifted, current, worst);
        current := worst;
      }
    }

    method SiftWorstBoundedGroupEntryDown(index: nat)
      requires Valid() && index < |groups| && Comparable(PlacesKept(), compare, Places(|all|))
      requires IsHeapAround(PlacesKept(), index, compare)
      modifies this`groups
      ensures Valid() && Rearranged(old(groups), groups)
      ensures IsHeap(PlacesKept(), compare) && SameMembers(old(PlacesKept()), PlacesKept())
    {
      var sifted := SiftedDown(index);
      DistinctPlaces(sifted);
      groups := sifted;
    }

    /** Opens a new entry for a group. */
    method PushGroup(group: GroupState, ghost place: nat)
      requires Valid() && place < |all| && all[place] == group && place !in PlacesKept()
      modifies this`groups
      ensures Valid() && PlacesKept() == old(PlacesKept()) + [place]
      ensures groups != [] && forall e | e in groups :: e in old(groups) || fresh(e)
      ensures fresh(Lists() - old(Lists()))
    {
      var entry := NewBoundedGroupEntry(group, place);
      groups := groups + [entry];
    }

    method NewBoundedGroupEntry(group: GroupState, ghost place: nat) returns (entry: BoundedGroupEntry)
      requires place < |all| && all[place] == group && emptyOrderValues.values == []
      ensures fresh(entry) && ValidEntry(entry) && entry.place == place
      ensures entry.orderValues == emptyOrderValues || fresh(entry.orderValues)
    {
      var orderValues := emptyOrderValues;
      if orderBy != [] {
        orderValues := new OrderValueList();
        orderValues.WriteGroupOrderValues(group, orderBy);
      }
      entry := new BoundedGroupEntry(group, orderValues, place);
    }

    /** Puts a group in the place of the worst one; the list of the worst one's order values is free again. */
    method ReplaceWorstGroup(group: GroupState, candidateOrderValues: OrderValueList, scratch: OrderValueList,
                             ghost place: nat)
      returns (nextScratch: OrderValueList)
      requires Valid() && groups != [] && place < |all| && all[place] == group && place !in PlacesKept()
      requires Free(scratch)
      requires candidateOrderValues == if orderBy == [] then emptyOrderValues else scratch
      requires candidateOrderValues.values == OrderValues(group, orderBy)
      modifies groups[0]
      ensures Valid() && Free(nextScratch) && PlacesKept() == old(PlacesKept())[0 := place]
      ensures Lists() <= old(Lists()) + {scratch} && nextScratch in old(Lists()) + {scratch}
    {
      hide OrderValues, BoundedGroups.Judged, CompareGroups;
      var worstGroup := groups[0];
      nextScratch := if worstGroup.orderValues == emptyOrderValues then scratch else worstGroup.orderValues;
      assert forall e | e in groups :: Apart(e, worstGroup);
      worstGroup.group := group;
      worstGroup.orderValues := candidateOrderValues;
      worstGroup.place := place;
    }

    method GroupIsNotBetter(group: GroupState, orderValues: OrderValueList, ghost place: nat) returns (notBetter: bool)
      requires Valid() && groups != [] && place < |all| && all[place] == group
      requires orderValues.values == OrderValues(group, orderBy)
      ensures notBetter <==> compare(place, PlacesKept()[0]) >= 0
    {
      var worst := groups[0];
      assert ValidEntry(worst) && Judged(place, worst.place);
      notBetter := CompareOrderValues(orderValues.values, group.key, worst.orderValues.values, worst.group.key,
                                      orderBy) >= 0;
    }

    ghost predicate KeepsBest(n: nat)
      reads this, groups
    {
      KeepsBestOf(PlacesKept(), n, compare, |all|, windowEnd)
    }

    /** Everything the heap is made of. */
    ghost function Owned(): set<object>
      reads this, groups
    {
      var entries: set<object> := Elements(groups);
      {this as object} + entries + Lists()
    }

    /** An empty heap keeps the best of no groups, and nothing but its own parts. */
    lemma StartsEmpty(scratch: OrderValueList)
      requires groups == [] && scratch != emptyOrderValues && TotalOn(compare, Places(|all|)) && windowEnd > 0
      ensures KeepsBest(0) && Free(scratch) && Owned() <= {this, emptyOrderValues}
    {
    }

    /** Keeps a group if it is among the best, and says which list of order values to use next: one that no
        entry holds. */
    method RetainBoundedGroup(group: GroupState, scratch: OrderValueList, ghost n: nat)
      returns (nextScratch: OrderValueList, ghost made: set<object>)
      requires Valid() && Free(scratch) && KeepsBest(n) && windowEnd > 0 && n < |all| && all[n] == group
      modifies Owned(), scratch
      ensures Valid() && Free(nextScratch) && KeepsBest(n + 1)
      ensures nextScratch in old(Owned()) + {scratch}
      ensures fresh(made) && Owned() <= old(Owned()) + {scratch} + made
    {
      hide BoundedGroups.Valid, BoundedGroups.KeepsBest;
      if |groups| < windowEnd {
        RetainNewGroup(group, n);
        nextScratch, made := scratch, Owned() - old(Owned()) - {scratch};
        return;
      }
      var candidateOrderValues := CandidateOrderValues(group, scratch);
      nextScratch := RetainBetterGroup(group, candidateOrderValues, scratch, n);
      made := {};
    }

    /** The order values of a group that wants to get in, written over the free list. */
    method CandidateOrderValues(group: GroupState, scratch: OrderValueList)
      returns (candidateOrderValues: OrderValueList)
      requires Valid() && Free(scratch)
      modifies scratch
      ensures Valid() && Free(scratch) && PlacesKept() == old(PlacesKept()) && Lists() == old(Lists())
      ensures candidateOrderValues == if orderBy == [] then emptyOrderValues else scratch
      ensures candidateOrderValues.values == OrderValues(group, orderBy)
    {
      candidateOrderValues := emptyOrderValues;
      if orderBy != [] {
        scratch.WriteGroupOrderValues(group, orderBy);
        candidateOrderValues := scratch;
      }
    }

    method RetainNewGroup(group: GroupState, ghost n: nat)
      requires Valid() && KeepsBest(n) && |groups| < windowEnd && n < |all| && all[n] == group
      modifies this`groups
      ensures Valid() && KeepsBest(n + 1)
      ensures forall e | e in groups :: e in old(groups) || fresh(e)
      ensures fresh(Lists() - old(Lists()))
    {
      ghost var kept := PlacesKept();
      NewPlace(kept, n, compare, |all|, windowEnd);
      PushGroup(group, n);
      SettleNewGroup(kept + [n], n + 1);
    }

    /** Lets the last group rise to its place. */
    method SettleNewGroup(ghost kept: seq<nat>, ghost n: nat)
      requires Valid() && groups != [] && PlacesKept() == kept && n <= |all|
      requires IsHeapBelow(kept, |kept| - 1, compare) && ReadyPlaces(kept, n, compare, |all|, windowEnd)
      modifies this`groups
      ensures Valid() && KeepsBest(n)
      ensures (forall e | e in groups :: e in old(groups)) && Lists() == old(Lists())
    {
      ghost var lists := Lists();
      SiftWorstBoundedGroupEntryUp(|groups| - 1);
      assert forall e | e in groups :: e.orderValues in lists;
      RearrangedPlaces(kept, PlacesKept(), n, compare, |all|, windowEnd);
    }

    method RetainBetterGroup(group: GroupState, candidateOrderValues: OrderValueList, scratch: OrderValueList,
                             ghost n: nat)
      returns (nextScratch: OrderValueList)
      requires Valid() && Free(scratch) && KeepsBest(n) && |groups| >= windowEnd > 0 && n < |all| && all[n] == group
      requires candidateOrderValues == if orderBy == [] then emptyOrderValues else scratch
      requires candidateOrderValues.values == OrderValues(group, orderBy)
      modifies this`groups, groups
      ensures Valid() && Free(nextScratch) && KeepsBest(n + 1)
      ensures forall e | e in groups :: e in old(groups)
      ensures Lists() <= old(Lists()) + {scratch} && nextScratch in old(Lists()) + {scratch}
    {
      ghost var kept := PlacesKept();
      var notBetter := GroupIsNotBetter(group, candidateOrderValues, n);
      if notBetter {
        WorsePlace(kept, n, compare, |all|, windowEnd);
        return scratch;
      }
      BetterPlace(kept, n, compare, |all|, windowEnd);
      nextScratch := ReplaceWorstGroup(group, candidateOrderValues, scratch, n);
      SettleWorstGroup(kept[0 := n], n + 1, nextScratch);
    }

    /** Lets the group that replaced the worst one sink to its place. */
    method SettleWorstGroup(ghost kept: seq<nat>, ghost n: nat, ghost free: OrderValueList)
      requires Valid() && Free(free) && groups != [] && PlacesKept() == kept && n <= |all|
      requires IsHeapAround(kept, 0, compare) && ReadyPlaces(kept, n, compare, |all|, windowEnd)
      modifies this`groups
      ensures Valid() && Free(free) && KeepsBest(n)
      ensures (forall e | e in groups :: e in old(groups)) && Lists() == old(Lists())
    {
      ghost var lists := Lists();
      SiftWorstBoundedGroupEntryDown(0);
      assert forall e | e in groups :: e.orderValues in lists;
      RearrangedPlaces(kept, PlacesKept(), n, compare, |all|, windowEnd);
    }
  }

  // ----- Windows -----

  function Mapped<S, T>(es: seq<S>, f: S -> T): seq<T> {
    seq(|es|, i requires 0 <= i < |es| => f(es[i]))
  }

  lemma SliceMapped<S, T>(es: seq<S>, f: S -> T, offset: nat, limit: Option<nat>)
    ensures Slice(Mapped(es, f), offset, limit) == Mapped(Slice(es, offset, limit), f)
  {
  }

  lemma MappedAppend<S, T>(es: seq<S>, x: S, f: S -> T)
    ensures Mapped(es + [x], f) == Mapped(es, f) + [f(x)]
  {
  }

  lemma {:induction false} InsertMapped<S(!new), T>(es: seq<S>, x: S, f: S -> T, cmp: (S, S) -> int,
                                                    mapped: (T, T) -> int)
    requires forall a | a in es :: mapped(f(a), f(x)) == cmp(a, x)
    ensures Insert(Mapped(es, f), f(x), mapped) == Mapped(Insert(es, x, cmp), f)
    decreases |es|
  {
    if es != [] {
      InsertMapped(es[1..], x, f, cmp, mapped);
      assert Mapped(es, f)[1..] == Mapped(es[1..], f);
      assert es[0] in es;
    }
  }

  /** Sorting by a property of the elements is sorting the elements by it. */
  lemma {:induction false} SortByMapped<S(!new), T>(es: seq<S>, f: S -> T, cmp: (S, S) -> int, mapped: (T, T) -> int)
    requires forall a, b | a in es && b in es :: mapped(f(a), f(b)) == cmp(a, b)
    ensures SortBy(Mapped(es, f), mapped) == Mapped(SortBy(es, cmp), f)
    decreases |es|
  {
    if es != [] {
      SortByMapped(es[1..], f, cmp, mapped);
      assert Mapped(es, f)[1..] == Mapped(es[1..], f);
      SortByAgrees(es[1..], cmp, cmp);
      InsertMapped(SortBy(es[1..], cmp), es[0], f, cmp, mapped);
    }
  }

  /** What an entry of the heap holds when all groups have been seen. */
  datatype RankedGroup = RankedGroup(group: GroupState, orderValues: seq<Value>)

  function CompareRankedGroups(orderBy: seq<GroupedOrder>): (RankedGroup, RankedGroup) -> int {
    (left: RankedGroup, right: RankedGroup) =>
      if |left.orderValues| == |right.orderValues| == |orderBy| then
        CompareOrderValues(left.orderValues, left.group.key, right.orderValues, right.group.key, orderBy)
      else 0
  }

  function GroupAt(groups: seq<GroupState>, i: nat): GroupState {
    if i < |groups| then groups[i] else GroupState("", map[], map[])
  }

  function RankedAt(groups: seq<GroupState>, orderBy: seq<GroupedOrder>): nat -> RankedGroup {
    (i: nat) => RankedGroup(GroupAt(groups, i), OrderValues(GroupAt(groups, i), orderBy))
  }

  function EntryAt(groups: seq<GroupState>): nat -> Entry {
    (i: nat) => FinalizeGroup(GroupAt(groups, i))
  }

  /** The places in order are the groups in order. */
  lemma RankedPlacesAreView(groups: seq<GroupState>, grouping: map<string, Members>, plan: GroupedQueryPlan)
    requires ValidPlan(plan) && ListsGroups(groups, grouping, plan)
    ensures TotalOn(ComparePlaces(groups, plan.orderBy), Places(|groups|))
    ensures Mapped(Ranked(Places(|groups|), ComparePlaces(groups, plan.orderBy)), EntryAt(groups)) ==
      GroupedView(grouping, plan)
  {
    hide TotalOn, ListsGroups, CompareGroupedRows, ComparePlaces, EntryAt;
    PlacesAreTotal(groups, grouping, plan);
    FinalizedEntries(groups, grouping, plan);
    GroupOrderIsTotal(grouping, plan);
    var ranked := Ranked(Places(|groups|), ComparePlaces(groups, plan.orderBy));
    MappedMembers(ranked, groups);
    MappedIsSorted(ranked, groups, plan);
    SortedListingIsRanked(Mapped(ranked, EntryAt(groups)), GroupEntries(grouping, plan), CompareGroupedRows(plan));
  }

  lemma GroupsCount(groups: seq<GroupState>, grouping: map<string, Members>, plan: GroupedQueryPlan)
    requires DistinctAliases(plan.aggregatePlans) && ListsGroups(groups, grouping, plan)
    ensures |groups| == |grouping|
  {
    FinalizedEntries(groups, grouping, plan);
    NoDuplicatesCount(FinalizedGroups(groups));
    assert Elements(FinalizedGroups(groups)) == GroupEntries(grouping, plan);
    GroupEntriesCount(grouping, plan);
  }

  lemma MappedMembers(ranked: seq<nat>, groups: seq<GroupState>)
    requires forall x: nat :: x in ranked <==> x < |groups|
    ensures forall e :: e in Mapped(ranked, EntryAt(groups)) <==> e in FinalizedGroups(groups)
  {
    var entries := Mapped(ranked, EntryAt(groups));
    forall i | 0 <= i < |ranked|
      ensures entries[i] in FinalizedGroups(groups)
    {
      assert ranked[i] in ranked;
      assert FinalizedGroups(groups)[ranked[i]] == entries[i];
    }
    forall i: nat | i < |groups|
      ensures FinalizedGroups(groups)[i] in entries
    {
      assert i in ranked;
      var j :| 0 <= j < |ranked| && ranked[j] == i;
      assert entries[j] == FinalizedGroups(groups)[i];
    }
  }

  lemma MappedIsSorted(ranked: seq<nat>, groups: seq<GroupState>, plan: GroupedQueryPlan)
    requires Sorted(ranked, ComparePlaces(groups, plan.orderBy)) && forall x | x in ranked :: x < |groups|
    requires forall i: nat, j: nat | i < |groups| && j < |groups| ::
               ComparePlaces(groups, plan.orderBy)(i, j) ==
                 CompareGroupedRows(plan)(FinalizeGroup(groups[i]), FinalizeGroup(groups[j]))
    ensures Sorted(Mapped(ranked, EntryAt(groups)), CompareGroupedRows(plan))
  {
    forall i, j | 0 <= i < j < |ranked|
      ensures CompareGroupedRows(plan)(EntryAt(groups)(ranked[i]), EntryAt(groups)(ranked[j])) < 0
    {
      var x, y := ranked[i], ranked[j];
      assert x in ranked && y in ranked;
      assert ComparePlaces(groups, plan.orderBy)(x, y) < 0;
      assert EntryAt(groups)(x) == FinalizeGroup(groups[x]) && EntryAt(groups)(y) == FinalizeGroup(groups[y]);
    }
  }

  function GroupedWindowEnd(plan: GroupedQueryPlan): Option<nat> {
    if plan.limit.None? || plan.offset + plan.limit.value > MAX_BOUNDED_GROUPED_WINDOW_END then None
    else Some(plan.offset + plan.limit.value)
  }

  const MAX_BOUNDED_GROUPED_WINDOW_END: nat := 1024

  /** The best groups of a list, from the heap, as the entries they hold. */
  method KeepBestGroups(groups: seq<GroupState>, orderBy: seq<GroupedOrder>, windowEnd: nat)
    returns (totalRows: nat, ranked: seq<RankedGroup>, ghost kept: seq<nat>)
    requires TotalOn(ComparePlaces(groups, orderBy), Places(|groups|)) && windowEnd > 0
    ensures totalRows == |groups|
    ensures KeepsBestOf(kept, |groups|, ComparePlaces(groups, orderBy), |groups|, windowEnd)
    ensures ranked == Mapped(kept, RankedAt(groups, orderBy))
  {
    hide TotalOn, BoundedGroups.Valid, BoundedGroups.Free, BoundedGroups.KeepsBest, BoundedGroups.Owned;
    var heap := new BoundedGroups(orderBy, windowEnd, groups);
    var scratchOrderValues := new OrderValueList();
    heap.StartsEmpty(scratchOrderValues);
    ghost var parts := heap.Owned() + {scratchOrderValues};
    totalRows := 0;
    for i := 0 to |groups|
      invariant totalRows == i && heap.Valid() && heap.Free(scratchOrderValues) && heap.KeepsBest(i)
      invariant fresh(parts) && heap.Owned() + {scratchOrderValues} <= parts
    {
      totalRows := totalRows + 1;
      ghost var made;
      scratchOrderValues, made := heap.RetainBoundedGroup(groups[i], scratchOrderValues, i);
      parts := parts + made;
    }
    ranked, kept := heap.Contents();
  }

  function FinalizeRanked(): RankedGroup -> Entry {
    (ranked: RankedGroup) => FinalizeGroup(ranked.group)
  }

  lemma RankedEntries(places: seq<nat>, groups: seq<GroupState>, orderBy: seq<GroupedOrder>)
    ensures Mapped(Mapped(places, RankedAt(groups, orderBy)), FinalizeRanked()) == Mapped(places, EntryAt(groups))
  {
  }

  lemma SortedRankedGroups(kept: seq<nat>, groups: seq<GroupState>, orderBy: seq<GroupedOrder>)
    requires forall x | x in kept :: x < |groups|
    ensures SortBy(Mapped(kept, RankedAt(groups, orderBy)), CompareRankedGroups(orderBy)) ==
            Mapped(SortBy(kept, ComparePlaces(groups, orderBy)), RankedAt(groups, orderBy))
  {
    SortByMapped(kept, RankedAt(groups, orderBy), ComparePlaces(groups, orderBy), CompareRankedGroups(orderBy));
  }

  /** The kept places, sorted, finalized and cut, are the window of the query. */
  lemma KeptWindow(kept: seq<nat>, groups: seq<GroupState>, grouping: map<string, Members>, plan: GroupedQueryPlan,
                   windowEnd: nat)
    requires ValidPlan(plan) && ListsGroups(groups, grouping, plan) && plan.limit.Some?
    requires windowEnd == plan.offset + plan.limit.value
    requires KeepsBestOf(kept, |groups|, ComparePlaces(groups, plan.orderBy), |groups|, windowEnd)
    ensures Mapped(Slice(SortBy(kept, ComparePlaces(groups, plan.orderBy)), plan.offset, None), EntryAt(groups)) ==
            Slice(GroupedView(grouping, plan), plan.offset, plan.limit)
  {
    var cmp, all := ComparePlaces(groups, plan.orderBy), Places(|groups|);
    RankedPlacesAreView(groups, grouping, plan);
    BestSortedIsBest(kept, all, cmp, windowEnd);
    BestIsWindow(SortBy(kept, cmp), all, cmp, plan.offset, plan.limit.value);
    SliceMapped(Ranked(all, cmp), EntryAt(groups), plan.offset, plan.limit);
  }

  method BoundedGroupedEvaluationFromGroups(groups: seq<GroupState>, plan: GroupedQueryPlan, version: nat,
                                            windowEnd: nat, ghost grouping: map<string, Members>)
    returns (evaluation: QueryEvaluation)
    requires ValidPlan(plan) && ListsGroups(groups, grouping, plan)
    requires plan.limit.Some? && windowEnd == plan.offset + plan.limit.value && windowEnd > 0
    ensures evaluation == GroupedAnswer(grouping, plan, version)
  {
    PlacesAreTotal(groups, grouping, plan);
    var totalRows, retained, kept := KeepBestGroups(groups, plan.orderBy, windowEnd);
    var ordered := SortBy(retained, CompareRankedGroups(plan.orderBy));
    var window := Mapped(Slice(ordered, plan.offset, None), FinalizeRanked());
    ghost var best := SortBy(kept, ComparePlaces(groups, plan.orderBy));
    SortedRankedGroups(kept, groups, plan.orderBy);
    SliceMapped(best, RankedAt(groups, plan.orderBy), plan.offset, None);
    RankedEntries(Slice(best, plan.offset, None), groups, plan.orderBy);
    KeptWindow(kept, groups, grouping, plan, windowEnd);
    GroupsCount(groups, grouping, plan);
    evaluation := QueryEvaluation(window, totalRows, version);
  }

  /** The window over a list of groups, in whatever order it lists them. */
  method GroupedEvaluationFromGroups(groups: seq<GroupState>, plan: GroupedQueryPlan, version: nat,
                                     ghost grouping: map<string, Members>)
    returns (evaluation: QueryEvaluation)
    requires ValidPlan(plan) && ListsGroups(groups, grouping, plan) && plan.limit != Some(0)
    ensures evaluation == GroupedAnswer(grouping, plan, version)
  {
    var windowEnd := GroupedWindowEnd(plan);
    if windowEnd.Some? {
      evaluation := BoundedGroupedEvaluationFromGroups(groups, plan, version, windowEnd.value, grouping);
    } else {
      FinalizedEntries(groups, grouping, plan);
      evaluation := GroupedEvaluationFromEntries(FinalizedGroups(groups), plan, version, grouping);
    }
  }
}
