/** The values a grouped query's aggregates and orders are written as in its cache key. */
module GroupedCacheKeys {
  import opened Values
  import opened Ranking
  import opened QueryValueText
  import opened QueryClauses
  import opened GroupedAggregates
  import opened GroupedQuery

  // ----- Aggregates -----

  function AggregateFunction(aggregate: Aggregate): string {
    match aggregate
    case Count => "count"
    case CountDistinct(_) => "countDistinct"
    case Sum(_, _) => "sum"
    case Average(_) => "avg"
    case Minimum(_) => "min"
    case Maximum(_) => "max"
  }

  function SumKindText(kind: SumKind): string {
    if kind.SumBigInt? then "bigint" else "bigDecimal"
  }

  function AggregateObject(aggregate: Aggregate): seq<QueryField> {
    [QueryField("aggFunc", TextValue(AggregateFunction(aggregate)))]
    + (if aggregate.Count? then [] else [QueryField("field", TextValue(aggregate.field))])
    + (if aggregate.Sum? then [QueryField("resultKind", TextValue(SumKindText(aggregate.resultKind)))] else [])
  }

  function AggregatePlanValue(plan: AggregatePlan): QueryValue {
    ArrayValue([TextValue(plan.alias), ObjectValue(AggregateObject(plan.aggregate))])
  }

  function CompareAliases(): (AggregatePlan, AggregatePlan) -> int {
    (left: AggregatePlan, right: AggregatePlan) => CompareText(left.alias, right.alias)
  }

  function AggregatePlanValues(plans: seq<AggregatePlan>): seq<QueryValue> {
    seq(|plans|, i requires 0 <= i < |plans| => AggregatePlanValue(plans[i]))
  }

  /** The aggregates in the order of their aliases. */
  function AggregatesValue(plans: seq<AggregatePlan>): QueryValue {
    ArrayValue(AggregatePlanValues(SortBy(plans, CompareAliases())))
  }

  lemma AggregateFunctionDecides(a: Aggregate, b: Aggregate)
    requires AggregateFunction(a) == AggregateFunction(b)
    ensures a.Count? == b.Count? && a.CountDistinct? == b.CountDistinct? && a.Sum? == b.Sum?
    ensures a.Average? == b.Average? && a.Minimum? == b.Minimum?
  {
    var s, t := AggregateFunction(a), AggregateFunction(b);
    assert |s| == |t| && s[0] == t[0] && s[1] == t[1];
  }

  lemma AggregateObjectHasItsFields(a: Aggregate)
    ensures DistinctNames(AggregateObject(a)) && Plain(ObjectValue(AggregateObject(a)))
    ensures forall i | 0 <= i < |AggregateObject(a)| ::
      AggregateObject(a)[i].name == ["aggFunc", "field", "resultKind"][i] && AggregateObject(a)[i].value.ScalarValue?
    ensures 1 <= |AggregateObject(a)| <= 3
  {
    var names := ["aggFunc", "field", "resultKind"];
    assert |names[0]| == 7 && |names[1]| == 5 && |names[2]| == 10;
  }

  lemma AggregateObjectDecides(a: Aggregate, b: Aggregate)
    ensures SameValue(ObjectValue(AggregateObject(a)), ObjectValue(AggregateObject(b))) <==> a == b
  {
    var s, t := AggregateObject(a), AggregateObject(b);
    AggregateObjectHasItsFields(a);
    AggregateObjectHasItsFields(b);
    if |s| == |t| {
      forall i | 0 <= i < |s|
        ensures HasField(t, s[i].name) && FieldAt(t, s[i].name) == i
      {
        assert t[i].name == s[i].name;
      }
      assert SameValue(ObjectValue(s), ObjectValue(t)) <==>
        forall i | 0 <= i < |s| :: SameValue(s[i].value, t[i].value);
      if forall i | 0 <= i < |s| :: SameValue(s[i].value, t[i].value) {
        ScalarsDecideAggregate(a, b);
      }
    }
  }

  lemma ScalarsDecideAggregate(a: Aggregate, b: Aggregate)
    requires |AggregateObject(a)| == |AggregateObject(b)|
    requires forall i | 0 <= i < |AggregateObject(a)| ::
      SameValue(AggregateObject(a)[i].value, AggregateObject(b)[i].value)
    ensures a == b
  {
    var s, t := AggregateObject(a), AggregateObject(b);
    assert SameValue(s[0].value, t[0].value);
    AggregateFunctionDecides(a, b);
    if !a.Count? {
      assert SameValue(s[1].value, t[1].value);
    }
    if a.Sum? {
      assert SameValue(s[2].value, t[2].value);
      assert |SumKindText(a.resultKind)| == |SumKindText(b.resultKind)|;
    }
  }

  lemma AggregatePlanValueDecides(a: AggregatePlan, b: AggregatePlan)
    ensures SameValue(AggregatePlanValue(a), AggregatePlanValue(b)) <==> a == b
  {
    AggregateObjectDecides(a.aggregate, b.aggregate);
    var s, t := AggregatePlanValue(a).items, AggregatePlanValue(b).items;
    assert SameValue(s[0], t[0]) <==> a.alias == b.alias;
    assert SameValue(s[1], t[1]) <==> a.aggregate == b.aggregate;
  }

  lemma AggregatesValueIsPlain(plans: seq<AggregatePlan>)
    ensures Plain(AggregatesValue(plans))
  {
    var sorted := SortBy(plans, CompareAliases());
    forall i | 0 <= i < |sorted|
      ensures Plain(AggregatePlanValue(sorted[i]))
    {
      AggregateObjectHasItsFields(sorted[i].aggregate);
      var items := AggregatePlanValue(sorted[i]).items;
      assert Plain(items[0]) && Plain(items[1]);
    }
  }

  lemma AliasesAreTotal(plans: seq<AggregatePlan>)
    requires DistinctAliases(plans)
    ensures NoDuplicates(plans) && TotalOn(CompareAliases(), Elements(plans))
  {
    var cmp := CompareAliases();
    forall a, b, c | a in Elements(plans) && b in Elements(plans)
      ensures cmp(a, b) < 0 <==> cmp(b, a) > 0
      ensures cmp(a, b) == 0 ==> a == b
      ensures cmp(a, b) <= 0 && cmp(b, c) <= 0 ==> cmp(a, c) <= 0
    {
      CompareTextLaws(a.alias, b.alias);
      if cmp(a, b) <= 0 && cmp(b, c) <= 0 {
        CompareTextTransitive(a.alias, b.alias, c.alias);
      }
      var i :| 0 <= i < |plans| && plans[i] == a;
      var j :| 0 <= j < |plans| && plans[j] == b;
    }
  }

  lemma SortedAliases(plans: seq<AggregatePlan>)
    requires DistinctAliases(plans)
    ensures TotalOn(CompareAliases(), Elements(plans))
    ensures SortBy(plans, CompareAliases()) == Ranked(Elements(plans), CompareAliases())
    ensures forall p :: p in SortBy(plans, CompareAliases()) <==> p in plans
  {
    AliasesAreTotal(plans);
    SortBySorts(plans, Elements(plans), CompareAliases());
    SortByRanks(plans, Elements(plans), CompareAliases());
  }

  /** Aggregates are written alike exactly when they are the same, in whatever order they are listed. */
  lemma AggregatesValueDecides(a: seq<AggregatePlan>, b: seq<AggregatePlan>)
    requires DistinctAliases(a) && DistinctAliases(b)
    ensures SameValue(AggregatesValue(a), AggregatesValue(b)) <==> Elements(a) == Elements(b)
  {
    var s, t := SortBy(a, CompareAliases()), SortBy(b, CompareAliases());
    SortedAliases(a);
    SortedAliases(b);
    forall i | 0 <= i < |s| && i < |t|
      ensures SameValue(AggregatePlanValues(s)[i], AggregatePlanValues(t)[i]) <==> s[i] == t[i]
    {
      AggregatePlanValueDecides(s[i], t[i]);
    }
    assert SameValue(AggregatesValue(a), AggregatesValue(b)) <==> s == t;
    if s == t {
      assert Elements(a) == Elements(b);
    }
  }

  // ----- Orders and group fields -----

  function GroupedOrderObject(order: GroupedOrder): seq<QueryField> {
    [if order.ByField? then QueryField("field", TextValue(order.field))
     else QueryField("aggregate", TextValue(order.alias)),
     QueryField("direction", TextValue(DirectionText(order.direction)))]
  }

  function GroupedOrderByValue(orderBy: seq<GroupedOrder>): QueryValue {
    ArrayValue(seq(|orderBy|, i requires 0 <= i < |orderBy| => ObjectValue(GroupedOrderObject(orderBy[i]))))
  }

  lemma GroupedOrderObjectIsPlain(order: GroupedOrder)
    ensures Plain(ObjectValue(GroupedOrderObject(order)))
  {
    var fields := GroupedOrderObject(order);
    assert fields[1].name[0] == 'd' && fields[0].name[0] != 'd';
  }

  lemma GroupedOrderByValueIsPlain(orderBy: seq<GroupedOrder>)
    ensures Plain(GroupedOrderByValue(orderBy))
  {
    forall i | 0 <= i < |orderBy|
      ensures Plain(ObjectValue(GroupedOrderObject(orderBy[i])))
    {
      GroupedOrderObjectIsPlain(orderBy[i]);
    }
  }

  lemma GroupedOrderObjectDecides(a: GroupedOrder, b: GroupedOrder)
    ensures SameValue(ObjectValue(GroupedOrderObject(a)), ObjectValue(GroupedOrderObject(b))) <==> a == b
  {
    var s, t := GroupedOrderObject(a), GroupedOrderObject(b);
    assert t[1].name[0] == 'd' && t[0].name[0] != 'd' && s[1].name[0] == 'd' && s[0].name[0] != 'd';
    assert HasField(t, s[1].name) && FieldAt(t, s[1].name) == 1 by {
      assert t[1].name == s[1].name;
    }
    if HasField(t, s[0].name) {
      assert FieldAt(t, s[0].name) == 0;
      assert t[0].name[0] == s[0].name[0];
    }
    if a.ByField? == b.ByField? {
      assert t[0].name == s[0].name;
    }
    assert DirectionText(a.direction)[0] == DirectionText(b.direction)[0] <==> a.direction == b.direction;
    assert SameValue(s[1].value, t[1].value) <==> a.direction == b.direction;
  }

  /** Grouped orders are written alike exactly when they are equal. */
  lemma GroupedOrderByValueDecides(a: seq<GroupedOrder>, b: seq<GroupedOrder>)
    ensures SameValue(GroupedOrderByValue(a), GroupedOrderByValue(b)) <==> a == b
  {
    forall i | 0 <= i < |a| && i < |b|
      ensures SameValue(GroupedOrderByValue(a).items[i], GroupedOrderByValue(b).items[i]) <==> a[i] == b[i]
    {
      GroupedOrderObjectDecides(a[i], b[i]);
    }
  }

  function GroupByValue(groupBy: seq<string>): QueryValue {
    ArrayValue(seq(|groupBy|, i requires 0 <= i < |groupBy| => TextValue(groupBy[i])))
  }

  lemma GroupByValueDecides(a: seq<string>, b: seq<string>)
    ensures Plain(GroupByValue(a))
    ensures SameValue(GroupByValue(a), GroupByValue(b)) <==> a == b
  {
    forall i | 0 <= i < |a| && i < |b|
      ensures SameValue(GroupByValue(a).items[i], GroupByValue(b).items[i]) <==> a[i] == b[i]
    {
    }
  }
}
