/** What a query's clause and its orders denote, and that queries with one cache key denote the same. */
module QueryClauses {
  import opened Values
  import opened Rows
  import opened Predicates
  import opened QueryValueText
  import opened QueryCacheKeys

  // ----- Filters -----

  function FieldNamed(fields: seq<QueryField>, name: string): Option<QueryValue> {
    if fields == [] then None
    else if fields[0].name == name then Some(fields[0].value)
    else FieldNamed(fields[1..], name)
  }

  function OperandOf(value: QueryValue): Operand {
    if value.ScalarValue? then Scalar(value.value) else Structured
  }

  function OperandsOf(items: seq<QueryValue>): seq<Operand> {
    seq(|items|, i requires 0 <= i < |items| => OperandOf(items[i]))
  }

  function CandidatesOf(value: QueryValue): Candidates {
    if value.ArrayValue? then Values(OperandsOf(value.items)) else NotAList
  }

  const FILTER_OPERATOR_KEYS := {"eq", "neq", "in", "gt", "gte", "lt", "lte", "startsWith"}

  predicate IsOperatorFilterObject(fields: seq<QueryField>) {
    fields != [] && forall i | 0 <= i < |fields| :: fields[i].name in FILTER_OPERATOR_KEYS
  }

  function OperandNamed(fields: seq<QueryField>, name: string): Option<Operand> {
    match FieldNamed(fields, name)
    case Some(value) => Some(OperandOf(value))
    case None => None
  }

  function CandidatesNamed(fields: seq<QueryField>, name: string): Option<Candidates> {
    match FieldNamed(fields, name)
    case Some(value) => Some(CandidatesOf(value))
    case None => None
  }

  /** The filter a query value stands for: operators by name, or a value to be equal to. */
  function FilterOf(value: QueryValue): Filter {
    if value.ObjectValue? && IsOperatorFilterObject(value.fields) then
      var fields := value.fields;
      Operators(OperandNamed(fields, "eq"), OperandNamed(fields, "neq"), CandidatesNamed(fields, "in"),
                OperandNamed(fields, "gt"), OperandNamed(fields, "gte"), OperandNamed(fields, "lt"),
                OperandNamed(fields, "lte"), OperandNamed(fields, "startsWith"))
    else Exactly(OperandOf(value))
  }

  /** A clause gives fields their filters; a query may have none. */
  type Clause = Option<seq<QueryField>>

  function ClauseValue(clause: Clause): Option<QueryValue> {
    match clause
    case Some(fields) => Some(ObjectValue(fields))
    case None => None
  }

  /** The clause names no field twice, and neither does an object in it. */
  ghost predicate PlainClause(clause: Clause) {
    clause.Some? ==> Plain(ObjectValue(clause.value))
  }

  function FiltersOf(clause: Clause): (filters: seq<FieldFilter>)
    ensures |filters| == if clause.Some? then |clause.value| else 0
  {
    match clause
    case Some(fields) =>
      seq(|fields|, i requires 0 <= i < |fields| => FieldFilter(fields[i].name, FilterOf(fields[i].value)))
    case None => []
  }

  // ----- Equal values denote equal filters -----

  lemma {:induction false} FieldNamedFinds(fields: seq<QueryField>, name: string)
    requires DistinctNames(fields)
    ensures FieldNamed(fields, name).Some? <==> HasField(fields, name)
    ensures forall i | 0 <= i < |fields| && fields[i].name == name :: FieldNamed(fields, name) == Some(fields[i].value)
  {
    if fields != [] {
      var rest := fields[1..];
      assert forall i | 0 <= i < |rest| :: rest[i] == fields[i + 1];
      assert forall i | 1 <= i < |fields| :: fields[i] == rest[i - 1];
      FieldNamedFinds(rest, name);
      if HasField(fields, name) && fields[0].name != name {
        var i := FieldAt(fields, name);
        assert rest[i - 1].name == name;
      }
      if HasField(rest, name) {
        assert fields[FieldAt(rest, name) + 1].name == name;
      }
    }
  }

  lemma SameValueIsSymmetric(a: QueryValue, b: QueryValue, texts: NumberTexts)
    requires Plain(a) && Plain(b) && TellsNumbersApart(texts) && SameValue(a, b)
    ensures SameValue(b, a)
  {
    TokenDecidesEquality(a, b, texts);
    TokenDecidesEquality(b, a, texts);
  }

  /** Equal objects hold equal values under every name. */
  lemma SameFieldNamed(s: seq<QueryField>, t: seq<QueryField>, name: string, texts: NumberTexts)
    requires Plain(ObjectValue(s)) && Plain(ObjectValue(t)) && TellsNumbersApart(texts)
    requires SameValue(ObjectValue(s), ObjectValue(t))
    ensures HasField(s, name) <==> HasField(t, name)
    ensures SameOption(FieldNamed(s, name), FieldNamed(t, name))
  {
    SameValueIsSymmetric(ObjectValue(s), ObjectValue(t), texts);
    FieldNamedFinds(s, name);
    FieldNamedFinds(t, name);
    if HasField(s, name) {
      var i := FieldAt(s, name);
      assert HasField(t, s[i].name);
    }
    if HasField(t, name) {
      var j := FieldAt(t, name);
      assert HasField(s, t[j].name);
    }
  }

  lemma SameOperand(a: QueryValue, b: QueryValue)
    requires SameValue(a, b)
    ensures OperandOf(a) == OperandOf(b) && CandidatesOf(a) == CandidatesOf(b)
  {
    if a.ArrayValue? {
      assert OperandsOf(a.items) == OperandsOf(b.items);
    }
  }

  lemma SameOperandNamed(s: seq<QueryField>, t: seq<QueryField>, name: string, texts: NumberTexts)
    requires Plain(ObjectValue(s)) && Plain(ObjectValue(t)) && TellsNumbersApart(texts)
    requires SameValue(ObjectValue(s), ObjectValue(t))
    ensures OperandNamed(s, name) == OperandNamed(t, name) && CandidatesNamed(s, name) == CandidatesNamed(t, name)
  {
    SameFieldNamed(s, t, name, texts);
    if FieldNamed(s, name).Some? {
      SameOperand(FieldNamed(s, name).value, FieldNamed(t, name).value);
    }
  }

  lemma SameOperatorKeys(s: seq<QueryField>, t: seq<QueryField>, texts: NumberTexts)
    requires Plain(ObjectValue(s)) && Plain(ObjectValue(t)) && TellsNumbersApart(texts)
    requires SameValue(ObjectValue(s), ObjectValue(t)) && IsOperatorFilterObject(s)
    ensures IsOperatorFilterObject(t)
  {
    forall j | 0 <= j < |t|
      ensures t[j].name in FILTER_OPERATOR_KEYS
    {
      assert HasField(t, t[j].name);
      SameFieldNamed(s, t, t[j].name, texts);
      assert s[FieldAt(s, t[j].name)].name in FILTER_OPERATOR_KEYS;
    }
  }

  /** Equal values stand for one filter, in whatever order its operators were written. */
  lemma SameFilter(a: QueryValue, b: QueryValue, texts: NumberTexts)
    requires Plain(a) && Plain(b) && TellsNumbersApart(texts) && SameValue(a, b)
    ensures FilterOf(a) == FilterOf(b)
  {
    hide OperandNamed, CandidatesNamed, IsOperatorFilterObject;
    SameOperand(a, b);
    if a.ObjectValue? {
      var s, t := a.fields, b.fields;
      if IsOperatorFilterObject(s) {
        SameOperatorKeys(s, t, texts);
      }
      if IsOperatorFilterObject(t) {
        SameValueIsSymmetric(a, b, texts);
        SameOperatorKeys(t, s, texts);
      }
      SameOperandNamed(s, t, "eq", texts);
      SameOperandNamed(s, t, "neq", texts);
      SameOperandNamed(s, t, "in", texts);
      SameOperandNamed(s, t, "gt", texts);
      SameOperandNamed(s, t, "gte", texts);
      SameOperandNamed(s, t, "lt", texts);
      SameOperandNamed(s, t, "lte", texts);
      SameOperandNamed(s, t, "startsWith", texts);
    }
  }

  ghost predicate SameClause(a: Clause, b: Clause) {
    SameOption(ClauseValue(a), ClauseValue(b))
  }

  /** Every filter of one clause is a filter of the other. */
  lemma FilterOfOther(s: seq<QueryField>, t: seq<QueryField>, i: nat, texts: NumberTexts) returns (j: nat)
    requires Plain(ObjectValue(s)) && Plain(ObjectValue(t)) && TellsNumbersApart(texts)
    requires SameValue(ObjectValue(s), ObjectValue(t)) && i < |s|
    ensures j < |t| && FiltersOf(Some(t))[j] == FiltersOf(Some(s))[i]
  {
    j := FieldAt(t, s[i].name);
    SameFilter(s[i].value, t[j].value, texts);
  }

  /** Equal clauses match the same rows. */
  lemma SameClauseMatchesSame(a: Clause, b: Clause, row: Row, texts: NumberTexts)
    requires PlainClause(a) && PlainClause(b) && TellsNumbersApart(texts) && SameClause(a, b)
    ensures WhereMatches(FiltersOf(a), row) <==> WhereMatches(FiltersOf(b), row)
  {
    if a.Some? {
      SameClauseMatchesToo(a.value, b.value, row, texts);
      SameValueIsSymmetric(ObjectValue(a.value), ObjectValue(b.value), texts);
      SameClauseMatchesToo(b.value, a.value, row, texts);
    }
  }

  lemma SameClauseMatchesToo(s: seq<QueryField>, t: seq<QueryField>, row: Row, texts: NumberTexts)
    requires Plain(ObjectValue(s)) && Plain(ObjectValue(t)) && TellsNumbersApart(texts)
    requires SameValue(ObjectValue(s), ObjectValue(t))
    ensures WhereMatches(FiltersOf(Some(t)), row) ==> WhereMatches(FiltersOf(Some(s)), row)
  {
    if WhereMatches(FiltersOf(Some(t)), row) {
      forall i | 0 <= i < |s|
        ensures FilterMatches(FiltersOf(Some(s))[i].filter, FieldValue(row, FiltersOf(Some(s))[i].field))
      {
        var j := FilterOfOther(s, t, i, texts);
      }
    }
  }

  // ----- Orders -----

  function DirectionText(direction: Direction): string {
    if direction.Ascending? then "asc" else "desc"
  }

  function TextValue(text: string): QueryValue {
    ScalarValue(Text(text))
  }

  function OrderValue(order: OrderColumn): QueryValue {
    ArrayValue([TextValue(order.field), TextValue(DirectionText(order.direction))])
  }

  function OrderByValue(orderBy: seq<OrderColumn>): QueryValue {
    ArrayValue(seq(|orderBy|, i requires 0 <= i < |orderBy| => OrderValue(orderBy[i])))
  }

  lemma OrderByValueIsPlain(orderBy: seq<OrderColumn>)
    ensures Plain(OrderByValue(orderBy))
  {
    forall i | 0 <= i < |orderBy|
      ensures Plain(OrderValue(orderBy[i]))
    {
    }
  }

  lemma OrderValueDecides(a: OrderColumn, b: OrderColumn)
    ensures SameValue(OrderValue(a), OrderValue(b)) <==> a == b
  {
    assert DirectionText(a.direction)[0] == DirectionText(b.direction)[0] <==> a.direction == b.direction;
    var s, t := OrderValue(a).items, OrderValue(b).items;
    assert SameValue(s[0], t[0]) <==> a.field == b.field;
    assert SameValue(s[1], t[1]) <==> a.direction == b.direction;
  }

  /** Orders are written alike exactly when they are equal. */
  lemma OrderByValueDecides(a: seq<OrderColumn>, b: seq<OrderColumn>)
    ensures SameValue(OrderByValue(a), OrderByValue(b)) <==> a == b
  {
    forall i | 0 <= i < |a| && i < |b|
      ensures SameValue(OrderByValue(a).items[i], OrderByValue(b).items[i]) <==> a[i] == b[i]
    {
      OrderValueDecides(a[i], b[i]);
    }
  }

  // ----- Raw queries -----

  function RawKeyText(where: Clause, orderBy: seq<OrderColumn>, texts: NumberTexts): string {
    RawQueryShapeCacheKey(ClauseValue(where), OrderByValue(orderBy), texts)
  }

  /** Two raw queries have one key exactly when their clauses are equal, in whatever order they name fields
      and operators, and they order by the same columns. */
  lemma RawKeyDecidesQuery(where: Clause, orderBy: seq<OrderColumn>, where': Clause, orderBy': seq<OrderColumn>,
                           texts: NumberTexts)
    requires PlainClause(where) && PlainClause(where') && TellsNumbersApart(texts)
    ensures RawKeyText(where, orderBy, texts) == RawKeyText(where', orderBy', texts) <==>
            SameClause(where, where') && orderBy == orderBy'
  {
    OrderByValueIsPlain(orderBy);
    OrderByValueIsPlain(orderBy');
    RawKeyDecidesShape(ClauseValue(where), OrderByValue(orderBy), ClauseValue(where'), OrderByValue(orderBy'), texts);
    OrderByValueDecides(orderBy, orderBy');
  }

  /** Queries with one key match the same rows and compare every two of them alike. */
  lemma OneKeyOnePredicateOneOrder(where: Clause, orderBy: seq<OrderColumn>, where': Clause,
                                   orderBy': seq<OrderColumn>, texts: NumberTexts)
    requires PlainClause(where) && PlainClause(where') && TellsNumbersApart(texts)
    requires RawKeyText(where, orderBy, texts) == RawKeyText(where', orderBy', texts)
    ensures forall row :: WhereMatches(FiltersOf(where), row) <==> WhereMatches(FiltersOf(where'), row)
    ensures forall x, y :: CompareRows(x, y, orderBy) == CompareRows(x, y, orderBy')
  {
    RawKeyDecidesQuery(where, orderBy, where', orderBy', texts);
    forall row
      ensures WhereMatches(FiltersOf(where), row) <==> WhereMatches(FiltersOf(where'), row)
    {
      SameClauseMatchesSame(where, where', row, texts);
    }
  }
}
