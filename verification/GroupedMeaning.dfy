/** What a grouped query shows of a table, spelled out: its groups, what each row of the answer holds, their order
    and which of them are shown. */
module GroupedMeaning {
  import opened Values
  import opened Sequences
  import opened Ranking
  import opened Rows
  import opened Predicates
  import opened QueryValueText
  import opened GroupKeys
  import opened QueryClauses
  import opened ClauseMeaning
  import opened QueryMeaning
  import opened GroupedAggregates
  import opened AggregateMeaning
  import opened GroupedQuery
  import opened GroupedBatches
  import opened LiveAnswers
  import opened LiveQueries
  import RetainedWindow

  // ----- One group -----

  /** The row has the group values that the shown row has. */
  ghost predicate Belongs(row: Row, shown: Row, groupBy: seq<string>) {
    forall f | f in groupBy :: f in shown.fields &&
      shown.fields[f] == if f in row.fields then row.fields[f] else Undefined
  }

  /** The values an aggregate is taken over: those of its field in the listed rows. */
  ghost function ValuesOf(rows: Table, listing: seq<string>, aggregate: Aggregate): seq<Value>
    requires forall k | k in listing :: k in rows
  {
    seq(|listing|, i requires 0 <= i < |listing| && listing[i] in rows =>
      if aggregate.Count? || aggregate.field !in rows[listing[i]].fields then Undefined
      else rows[listing[i]].fields[aggregate.field])
  }

  /** The listed keys are those of the matching rows of the shown group, each once. */
  ghost predicate ListsTheMembers(listing: seq<string>, shown: Row, rows: Table, query: GroupedLiveQuery) {
    && listing != [] && NoDuplicates(listing)
    && forall k :: k in listing <==>
         k in rows && RowMeets(rows[k], query.where) && Belongs(rows[k], shown, query.groupBy)
  }

  /** The entry shows a group: it has the group fields, one field for each aggregate, which is taken over the members
      of the group, and nothing else. */
  ghost predicate ShowsGroup(e: Entry, listing: seq<string>, rows: Table, query: GroupedLiveQuery) {
    && ListsTheMembers(listing, e.row, rows, query)
    && e.row.fields.Keys == Elements(query.groupBy) + Aliases(query.aggregates)
    && forall p | p in query.aggregates ::
         && p.alias in e.row.fields
         && IsAggregate(e.row.fields[p.alias], p.aggregate, ValuesOf(rows, listing, p.aggregate))
  }

  lemma Listing(keys: set<string>) returns (listing: seq<string>)
    ensures NoDuplicates(listing) && forall k :: k in listing <==> k in keys
  {
    listing := [];
    var rest := keys;
    while rest != {}
      invariant rest <= keys && NoDuplicates(listing) && forall k :: k in listing <==> k in keys && k !in rest
      decreases rest
    {
      var k :| k in rest;
      assert forall x :: x in listing + [k] <==> x in listing || x == k;
      listing, rest := listing + [k], rest - {k};
    }
  }

  lemma {:induction false} BagOfListing(members: Members, listing: seq<string>, aggregate: Aggregate)
    requires NoDuplicates(listing) && forall k :: k in listing <==> k in members
    ensures Bag(members, aggregate) == multiset(ValuesOf(members, listing, aggregate))
    decreases |listing|
  {
    hide Bag, AggregateFieldValue;
    if listing == [] {
      assert members == map[];
      EmptyBag(aggregate);
    } else {
      var front, last := listing[..|listing| - 1], listing[|listing| - 1];
      assert listing == front + [last];
      var rest := members - {last};
      assert forall k :: k in front <==> k in rest;
      BagOfListing(rest, front, aggregate);
      BagSplit(members, aggregate, last);
      var values := ValuesOf(members, listing, aggregate);
      LastValue(members, listing, aggregate);
      assert values == ValuesOf(rest, front, aggregate) + [AggregateFieldValue(members[last], aggregate)];
    }
  }

  lemma LastValue(rows: Table, listing: seq<string>, aggregate: Aggregate)
    requires listing != [] && forall k | k in listing :: k in rows
    ensures ValuesOf(rows, listing, aggregate)[|listing| - 1] ==
      AggregateFieldValue(rows[listing[|listing| - 1]], aggregate)
  {
  }

  lemma EmptyBag(aggregate: Aggregate)
    ensures Bag(map[], aggregate) == multiset{}
  {
  }

  /** The members of a group are its matching rows. */
  lemma MembersAreRows(rows: Table, q: CompiledGroupedQuery, g: string, m: string)
    requires ValidPlan(q.plan) && g in Grouping(rows, q) && m in Grouping(rows, q)[g]
    ensures m in rows && q.matches(rows[m]) && q.plan.groupKey(rows[m]) == g
    ensures forall k :: k in Grouping(rows, q)[g] <==>
      k in rows && q.matches(rows[k]) && SameFields(rows[k], rows[m], q.plan)
    ensures forall k | k in Grouping(rows, q)[g] :: Grouping(rows, q)[g][k] == rows[k]
  {
    assert InGroup(rows[m], g, q);
    GroupsAreByFields(rows, q, m);
  }

  lemma BelongsMeans(row: Row, member: Row, shown: Row, groupBy: seq<string>)
    requires forall f | f in groupBy :: f in shown.fields && shown.fields[f] == FieldValue(member, f)
    ensures Belongs(row, shown, groupBy) <==> GroupFields(groupBy, row) == GroupFields(groupBy, member)
  {
    FieldsAgree(groupBy, row, member);
    assert Belongs(row, shown, groupBy) <==> forall i | 0 <= i < |groupBy| ::
      FieldValue(row, groupBy[i]) == FieldValue(member, groupBy[i]);
  }

  lemma EntryFields(members: Members, plan: GroupedQueryPlan, g: string)
    requires DistinctAliases(plan.aggregatePlans) && members != map[]
    requires forall f | f in plan.groupBy :: f !in Aliases(plan.aggregatePlans)
    ensures
      var e := GroupEntry(g, members, plan);
      && e.key == g
      && e.row.fields.Keys == Elements(plan.groupBy) + Aliases(plan.aggregatePlans)
      && (forall f | f in plan.groupBy :: e.row.fields[f] == FieldValue(members[SomeMember(members)], f))
      && forall p | p in plan.aggregatePlans ::
           p.alias in e.row.fields && e.row.fields[p.alias] == MeaningOf(members, p)
  {
    hide FieldValue, Bag, AggregateValue;
    var e := GroupEntry(g, members, plan);
    forall p | p in plan.aggregatePlans
      ensures p.alias in e.row.fields && e.row.fields[p.alias] == MeaningOf(members, p)
    {
      assert p.alias in Aliases(plan.aggregatePlans);
      assert plan.aggregatePlans[PlanOf(plan.aggregatePlans, p.alias)] == p;
    }
  }

  /** What an aggregate shows of the members is the aggregate of their rows' values. */
  lemma AggregateOfListing(rows: Table, members: Members, listing: seq<string>, aggregate: Aggregate)
    requires NoDuplicates(listing) && forall k :: k in listing <==> k in members
    requires forall k | k in members :: k in rows && members[k] == rows[k]
    ensures IsAggregate(AggregateValue(aggregate, Bag(members, aggregate)), aggregate,
                        ValuesOf(rows, listing, aggregate))
  {
    hide Bag, IsAggregate, AggregateValue, AggregateFieldValue;
    BagOfListing(members, listing, aggregate);
    assert ValuesOf(members, listing, aggregate) == ValuesOf(rows, listing, aggregate);
    AggregateMeans(aggregate, ValuesOf(rows, listing, aggregate));
  }

  /** An entry of the answer shows its group. */
  lemma EntryShowsGroup(rows: Table, query: GroupedLiveQuery, texts: NumberTexts, e: Entry)
    returns (listing: seq<string>)
    requires ValidGroupedQuery(query) && TellsNumbersApart(texts)
    requires IsGroupEntry(e, Grouping(rows, CompileGrouped(query, texts)), CompileGrouped(query, texts).plan)
    ensures ShowsGroup(e, listing, rows, query) && e.key == GroupKeyText(query.groupBy, e.row, texts)
  {
    hide RowMeets, WhereMatches, Bag, IsAggregate, AggregateValue, GroupKeyText, AggregateFieldValue, FieldValue;
    var q := CompileGrouped(query, texts);
    CompiledPlanIsValid(query, texts);
    var members := Grouping(rows, q)[e.key];
    GroupHasMembers(rows, q, e.key);
    var m := SomeMember(members);
    MembersAreRows(rows, q, e.key, m);
    EntryFields(members, q.plan, e.key);
    listing := Listing(members.Keys);
    forall k
      ensures k in listing <==> k in rows && RowMeets(rows[k], query.where) && Belongs(rows[k], e.row, query.groupBy)
    {
      if k in rows {
        ClauseMeans(query.where, rows[k]);
        BelongsMeans(rows[k], rows[m], e.row, query.groupBy);
      }
    }
    forall p | p in query.aggregates
      ensures IsAggregate(e.row.fields[p.alias], p.aggregate, ValuesOf(rows, listing, p.aggregate))
    {
      AggregateOfListing(rows, members, listing, p.aggregate);
    }
    ShownFields(e.row, rows[m], query.groupBy);
    GroupKeyDecidesFields(query.groupBy, e.row, rows[m], texts);
  }

  lemma ShownFields(shown: Row, member: Row, groupBy: seq<string>)
    requires forall f | f in groupBy :: f in shown.fields && shown.fields[f] == FieldValue(member, f)
    ensures GroupFields(groupBy, shown) == GroupFields(groupBy, member)
  {
  }

  // ----- All groups -----

  ghost predicate IsOfGroup(e: Entry, rows: Table, query: GroupedLiveQuery, texts: NumberTexts) {
    e.key == GroupKeyText(query.groupBy, e.row, texts) && exists listing :: ShowsGroup(e, listing, rows, query)
  }

  ghost predicate HasGroup(row: Row, view: seq<Entry>, groupBy: seq<string>) {
    exists e :: e in view && Belongs(row, e.row, groupBy)
  }

  /** A column for every order: the group field or the aggregate it names, in its direction. */
  ghost predicate OrdersBy(columns: seq<OrderColumn>, orderBy: seq<GroupedOrder>) {
    && |columns| == |orderBy|
    && forall c | 0 <= c < |orderBy| ::
         columns[c] == match orderBy[c]
                       case ByField(field, direction) => OrderColumn(field, direction)
                       case ByAggregate(alias, direction) => OrderColumn(alias, direction)
  }

  /** The entries are the groups: each shows one, every matching row belongs to one and no row to two, and they come
      in the order asked for. */
  ghost predicate ListsTheGroups(view: seq<Entry>, rows: Table, query: GroupedLiveQuery, columns: seq<OrderColumn>,
                                 texts: NumberTexts)
  {
    && (forall e | e in view :: IsOfGroup(e, rows, query, texts))
    && (forall k | k in rows && RowMeets(rows[k], query.where) :: HasGroup(rows[k], view, query.groupBy))
    && (forall i, j, row | 0 <= i < j < |view| && Belongs(row, view[i].row, query.groupBy) ::
          !Belongs(row, view[j].row, query.groupBy))
    && forall i, j | 0 <= i < j < |view| :: ListedBefore(view[i], view[j], columns)
  }

  lemma TwoGroupsShareNoRow(a: Entry, b: Entry, groupBy: seq<string>, texts: NumberTexts, row: Row)
    requires TellsNumbersApart(texts) && a.key != b.key
    requires a.key == GroupKeyText(groupBy, a.row, texts) && b.key == GroupKeyText(groupBy, b.row, texts)
    requires Belongs(row, a.row, groupBy)
    ensures !Belongs(row, b.row, groupBy)
  {
    hide Belongs, GroupFields;
    GroupKeyDecidesFields(groupBy, a.row, b.row, texts);
    SharedRow(a.row, b.row, groupBy, row);
  }

  lemma SharedRow(a: Row, b: Row, groupBy: seq<string>, row: Row)
    ensures Belongs(row, a, groupBy) && Belongs(row, b, groupBy) ==> GroupFields(groupBy, a) == GroupFields(groupBy, b)
  {
  }

  /** A matching row belongs to the group its key names. */
  lemma RowHasGroup(rows: Table, query: GroupedLiveQuery, texts: NumberTexts, view: seq<Entry>, k: string)
    requires ValidGroupedQuery(query) && TellsNumbersApart(texts)
    requires forall e :: e in view <==>
      IsGroupEntry(e, Grouping(rows, CompileGrouped(query, texts)), CompileGrouped(query, texts).plan)
    requires k in rows && RowMeets(rows[k], query.where)
    ensures HasGroup(rows[k], view, query.groupBy)
  {
    hide RowMeets, WhereMatches, Bag, IsAggregate, GroupKeyText, Belongs;
    var q := CompileGrouped(query, texts);
    CompiledPlanIsValid(query, texts);
    ClauseMeans(query.where, rows[k]);
    GroupsAreByFields(rows, q, k);
    var g := q.plan.groupKey(rows[k]);
    var e := GroupEntry(g, Grouping(rows, q)[g], q.plan);
    assert IsGroupEntry(e, Grouping(rows, q), q.plan);
    var listing := EntryShowsGroup(rows, query, texts, e);
    assert k in Grouping(rows, q)[g];
    var members := Grouping(rows, q)[g];
    var m := SomeMember(members);
    MembersAreRows(rows, q, g, m);
    EntryFields(members, q.plan, g);
    BelongsMeans(rows[k], rows[m], e.row, query.groupBy);
  }

  lemma ViewListsTheGroups(rows: Table, query: GroupedLiveQuery, texts: NumberTexts, columns: seq<OrderColumn>)
    requires ValidGroupedQuery(query) && TellsNumbersApart(texts) && OrdersBy(columns, query.orderBy)
    ensures
      var q := CompileGrouped(query, texts);
      ListsTheGroups(GroupedView(Grouping(rows, q), q.plan), rows, query, columns, texts)
  {
    hide RowMeets, WhereMatches, Bag, IsAggregate, GroupKeyText, Belongs, ShowsGroup, ListedBefore, CompareRows;
    var q := CompileGrouped(query, texts);
    var view := GroupedView(Grouping(rows, q), q.plan);
    assert OrderColumns(query.orderBy) == columns;
    forall e
      ensures e in view <==> IsGroupEntry(e, Grouping(rows, q), q.plan)
    {
      assert e in view <==> e in GroupEntries(Grouping(rows, q), q.plan);
    }
    forall e | e in view
      ensures IsOfGroup(e, rows, query, texts)
    {
      var listing := EntryShowsGroup(rows, query, texts, e);
    }
    forall k | k in rows && RowMeets(rows[k], query.where)
      ensures HasGroup(rows[k], view, query.groupBy)
    {
      RowHasGroup(rows, query, texts, view, k);
    }
    forall i, j | 0 <= i < j < |view|
      ensures ListedBefore(view[i], view[j], columns)
      ensures forall row | Belongs(row, view[i].row, query.groupBy) :: !Belongs(row, view[j].row, query.groupBy)
    {
      CompareRowsMeans(view[i], view[j], columns);
      DifferentGroups(view, i, j, query, texts, rows, q);
    }
  }

  lemma DifferentGroups(view: seq<Entry>, i: nat, j: nat, query: GroupedLiveQuery, texts: NumberTexts, rows: Table,
                        q: CompiledGroupedQuery)
    requires TellsNumbersApart(texts) && DistinctAliases(q.plan.aggregatePlans)
    requires i < j < |view| && IsRanking(view, GroupEntries(Grouping(rows, q), q.plan), CompareGroupedRows(q.plan))
    requires forall e | e in view :: IsOfGroup(e, rows, query, texts)
    ensures forall row | Belongs(row, view[i].row, query.groupBy) :: !Belongs(row, view[j].row, query.groupBy)
  {
    hide ShowsGroup, Belongs, GroupKeyText, CompareRows;
    assert view[i] in view && view[j] in view;
    assert IsGroupEntry(view[i], Grouping(rows, q), q.plan) && IsGroupEntry(view[j], Grouping(rows, q), q.plan);
    assert CompareGroupedRows(q.plan)(view[i], view[j]) < 0;
    CompareRowsLaws(view[i], view[i], OrderColumns(q.plan.orderBy));
    forall row | Belongs(row, view[i].row, query.groupBy)
      ensures !Belongs(row, view[j].row, query.groupBy)
    {
      TwoGroupsShareNoRow(view[i], view[j], query.groupBy, texts, row);
    }
  }

  /** Of all groups those from an offset on up to a limit are shown, and their number is told. */
  ghost predicate ShowsGroups(shown: Shown, view: seq<Entry>, offset: nat, limit: Option<nat>) {
    && shown.totalRows == |view| && |shown.window| == WindowSize(|view|, offset, limit)
    && forall i | 0 <= i < |shown.window| :: shown.window[i] == view[offset + i]
  }

  /** What a grouped query shows: of its groups, in order, those of its window, and the number of all of them. */
  lemma GroupedAnswerMeans(rows: Table, query: GroupedLiveQuery, texts: NumberTexts, columns: seq<OrderColumn>)
    requires ValidGroupedQuery(query) && TellsNumbersApart(texts) && OrdersBy(columns, query.orderBy)
    ensures exists view: seq<Entry> ::
      && ListsTheGroups(view, rows, query, columns, texts)
      && ShowsGroups(ShownByGroups(CompileGrouped(query, texts), rows), view,
                     if query.offset.Some? then query.offset.value else 0, query.limit)
  {
    hide ListsTheGroups, GroupedView, Grouping, Slice, WindowSize;
    var q := CompileGrouped(query, texts);
    var view := GroupedView(Grouping(rows, q), q.plan);
    ViewListsTheGroups(rows, query, texts, columns);
    AllGroupsAreListed(q, rows);
    SliceShows(view, q.plan.offset, q.plan.limit);
    assert ShowsGroups(ShownByGroups(q, rows), view, q.plan.offset, q.plan.limit);
  }

  lemma AllGroupsAreListed(q: CompiledGroupedQuery, rows: Table)
    requires DistinctAliases(q.plan.aggregatePlans)
    ensures |GroupedView(Grouping(rows, q), q.plan)| == |Grouping(rows, q)|
  {
    GroupEntriesCount(Grouping(rows, q), q.plan);
  }

  // ----- Limits -----

  /** The keys of the rows that meet the clause. */
  ghost function MatchingKeys(rows: Table, where: Clause): set<string> {
    set k | k in rows && RowMeets(rows[k], where)
  }

  /** The aggregates that have to remember their values. */
  ghost function RememberingAggregates(plans: seq<AggregatePlan>): set<int> {
    set i | 0 <= i < |plans| &&
      (plans[i].aggregate.CountDistinct? || plans[i].aggregate.Minimum? || plans[i].aggregate.Maximum?)
  }

  /** No group has more members than allowed. */
  ghost predicate GroupsFit(view: seq<Entry>, rows: Table, query: GroupedLiveQuery, maxMembersPerGroup: nat) {
    forall e, listing | e in view && ListsTheMembers(listing, e.row, rows, query) :: |listing| <= maxMembersPerGroup
  }

  lemma {:induction false} RememberingCount(plans: seq<AggregatePlan>)
    ensures RetainedValueAggregateCount(plans) == |RememberingAggregates(plans)|
  {
    if plans != [] {
      var n := |plans| - 1;
      RememberingCount(plans[..n]);
      var last := plans[n].aggregate;
      assert RememberingAggregates(plans) ==
        RememberingAggregates(plans[..n]) + if last.CountDistinct? || last.Minimum? || last.Maximum? then {n} else {};
    }
  }

  lemma MatchingCount(rows: Table, query: GroupedLiveQuery, texts: NumberTexts)
    requires PlainClause(query.where)
    ensures MemberCount(rows, CompileGrouped(query, texts)) == |MatchingKeys(rows, query.where)|
  {
    hide RowMeets, FiltersOf;
    var matches := CompileGrouped(query, texts).matches;
    var entries := Matching(rows, matches);
    forall k
      ensures k in MatchingKeys(rows, query.where) <==> k in set x | x in entries :: x.key
    {
      if k in rows {
        ClauseMeans(query.where, rows[k]);
        assert Entry(k, rows[k]) in entries <==> matches(rows[k]);
      }
    }
    assert MatchingKeys(rows, query.where) == set x | x in entries :: x.key;
    RetainedWindow.KeysCount(entries, MatchingKeys(rows, query.where));
  }

  lemma ListingsAgree(listing: seq<string>, other: seq<string>, shown: Row, rows: Table, query: GroupedLiveQuery)
    requires ListsTheMembers(listing, shown, rows, query) && ListsTheMembers(other, shown, rows, query)
    ensures |listing| == |other|
  {
    NoDuplicatesCount(listing);
    NoDuplicatesCount(other);
    assert Elements(listing) == Elements(other);
  }

  /** A listing of a group is as long as the group has members. */
  lemma GroupSize(rows: Table, query: GroupedLiveQuery, texts: NumberTexts, e: Entry, listing: seq<string>)
    requires ValidGroupedQuery(query) && TellsNumbersApart(texts)
    requires IsGroupEntry(e, Grouping(rows, CompileGrouped(query, texts)), CompileGrouped(query, texts).plan)
    requires ListsTheMembers(listing, e.row, rows, query)
    ensures |listing| == |Grouping(rows, CompileGrouped(query, texts))[e.key]|
  {
    hide RowMeets, Belongs, Bag, IsAggregate, GroupKeyText;
    var own := EntryShowsGroup(rows, query, texts, e);
    ListingsAgree(listing, own, e.row, rows, query);
    OwnListing(rows, query, texts, e, own);
  }

  lemma OwnListing(rows: Table, query: GroupedLiveQuery, texts: NumberTexts, e: Entry, listing: seq<string>)
    requires ValidGroupedQuery(query) && TellsNumbersApart(texts)
    requires IsGroupEntry(e, Grouping(rows, CompileGrouped(query, texts)), CompileGrouped(query, texts).plan)
    requires ListsTheMembers(listing, e.row, rows, query)
    ensures |listing| == |Grouping(rows, CompileGrouped(query, texts))[e.key]|
  {
    hide RowMeets, Belongs, Bag, IsAggregate, GroupKeyText, GroupFields, WhereMatches;
    var q := CompileGrouped(query, texts);
    var members := Grouping(rows, q)[e.key];
    CompiledPlanIsValid(query, texts);
    GroupHasMembers(rows, q, e.key);
    var m := SomeMember(members);
    MembersAreRows(rows, q, e.key, m);
    EntryFields(members, q.plan, e.key);
    forall k
      ensures k in listing <==> k in members
    {
      if k in rows {
        ClauseMeans(query.where, rows[k]);
        BelongsMeans(rows[k], rows[m], e.row, query.groupBy);
      }
    }
    NoDuplicatesCount(listing);
    assert Elements(listing) == members.Keys;
    assert |members| == |members.Keys|;
  }

  lemma GroupsFitMeans(rows: Table, query: GroupedLiveQuery, texts: NumberTexts,
                       limits: GroupedIncrementalAdmissionLimits)
    requires ValidGroupedQuery(query) && TellsNumbersApart(texts)
    ensures
      var q := CompileGrouped(query, texts);
      (forall g | g in Grouping(rows, q) :: GroupFits(Grouping(rows, q), g, limits)) <==>
      GroupsFit(GroupedView(Grouping(rows, q), q.plan), rows, query, limits.maxMembersPerGroup)
  {
    hide ListsTheMembers, GroupKeyText, Grouping, ShowsGroup, GroupEntry;
    var q := CompileGrouped(query, texts);
    var grouping, view := Grouping(rows, q), GroupedView(Grouping(rows, q), q.plan);
    forall e
      ensures e in view <==> IsGroupEntry(e, grouping, q.plan)
    {
      assert e in view <==> e in GroupEntries(grouping, q.plan);
    }
    forall e, listing | e in view && ListsTheMembers(listing, e.row, rows, query)
      ensures |listing| == |grouping[e.key]|
    {
      GroupSize(rows, query, texts, e, listing);
    }
    forall g | g in grouping
      ensures exists e, listing :: e in view && e.key == g && ListsTheMembers(listing, e.row, rows, query)
    {
      var e := GroupOf(g, grouping, q.plan);
      var listing := EntryShowsGroup(rows, query, texts, e);
      ShownIsListed(e, listing, rows, query);
    }
  }

  lemma GroupOf(g: string, grouping: map<string, Members>, plan: GroupedQueryPlan) returns (e: Entry)
    requires DistinctAliases(plan.aggregatePlans) && g in grouping
    ensures e.key == g && IsGroupEntry(e, grouping, plan)
  {
    e := GroupEntry(g, grouping[g], plan);
  }

  lemma ShownIsListed(e: Entry, listing: seq<string>, rows: Table, query: GroupedLiveQuery)
    requires ShowsGroup(e, listing, rows, query)
    ensures ListsTheMembers(listing, e.row, rows, query)
  {
  }

  /** When a grouped query may be followed: its groups are not too many, and, unless it only counts them, neither are
      its matching rows, the rows of one group, and the values that have to be remembered. */
  lemma AdmissibleMeans(rows: Table, query: GroupedLiveQuery, texts: NumberTexts,
                        limits: GroupedIncrementalAdmissionLimits)
    requires ValidGroupedQuery(query) && TellsNumbersApart(texts)
    ensures
      var q := CompileGrouped(query, texts);
      var view, matching := GroupedView(Grouping(rows, q), q.plan), |MatchingKeys(rows, query.where)|;
      Admissible(rows, q, limits) <==>
        && |view| <= limits.maxGroups
        && (query.limit != Some(0) ==>
              && matching <= limits.maxMembers && GroupsFit(view, rows, query, limits.maxMembersPerGroup)
              && matching * |RememberingAggregates(query.aggregates)| <= limits.maxRetainedValueEntries)
  {
    hide GroupedView, Grouping, GroupsFit, MatchingKeys, RetainedValueAggregateCount, RememberingAggregates, GroupFits,
        MemberCount;
    AllGroupsAreListed(CompileGrouped(query, texts), rows);
    MatchingCount(rows, query, texts);
    RememberingCount(query.aggregates);
    GroupsFitMeans(rows, query, texts, limits);
  }
}
