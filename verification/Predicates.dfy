/** Filters of a query, the predicate compiled from them, and the hints storage may use in its place. */
module Predicates {
  import opened Values
  import opened Rows

  // ----- Field metadata -----

  datatype ColumnKind = GenericColumn | StringColumn | NumberColumn | BigIntColumn | BigDecimalColumn

  datatype RangeValueKind = NumberRange | BigIntRange | BigDecimalRange

  /** What a schema says about its fields. */
  datatype Metadata = Metadata(
    fieldOrder: seq<string>,
    columnKinds: map<string, ColumnKind>,
    numericFieldNames: set<string>,
    stringFieldNames: set<string>,
    rangeValueKinds: map<string, set<RangeValueKind>>
  )

  function RangeKind(value: Value): Option<RangeValueKind> {
    match value
    case Number(_) => Some(NumberRange)
    case BigInt(_) => Some(BigIntRange)
    case BigDecimal(_) => Some(BigDecimalRange)
    case _ => None
  }

  predicate IsRangePlanValue(field: string, value: Value, metadata: Metadata) {
    && RangeKind(value).Some?
    && field in metadata.rangeValueKinds && metadata.rangeValueKinds[field] == {RangeKind(value).value}
  }

  // ----- Filters -----

  /** What a filter compares with: a scalar, or a list or object, which no scalar field value equals. */
  datatype Operand = Scalar(value: Value) | Structured

  const UNDEFINED := Scalar(Undefined)

  datatype Candidates = Values(operands: seq<Operand>) | NotAList

  /** A field's filter: a plain operand, or operators. An operator given without a value is `Some(UNDEFINED)`. */
  datatype Filter =
    | Exactly(operand: Operand)
    | Operators(
        eq: Option<Operand>, neq: Option<Operand>, oneOf: Option<Candidates>,
        gt: Option<Operand>, gte: Option<Operand>, lt: Option<Operand>, lte: Option<Operand>,
        startsWith: Option<Operand>)

  datatype RangeOperator = Gt | Gte | Lt | Lte

  predicate RangeComparisonMatches(operator: RangeOperator, comparison: int) {
    match operator
    case Gt => comparison > 0
    case Gte => comparison >= 0
    case Lt => comparison < 0
    case Lte => comparison <= 0
  }

  /** Equality can be asked of two values of one kind only. */
  predicate IsEqualityComparable(left: Value, right: Value) {
    match (left, right)
    case (BigDecimal(_), BigDecimal(_)) => true
    case (Number(_), Number(_)) => true
    case (BigInt(_), BigInt(_)) => true
    case (Boolean(_), Boolean(_)) => true
    case (Text(_), Text(_)) => true
    case (Null, Null) => true
    case (Undefined, Undefined) => true
    case _ => false
  }

  predicate EqualsOperand(value: Value, operand: Operand) {
    operand.Scalar? && value == operand.value
  }

  /** A value differs from an operand of its own type. Lists and objects share their type with `null` only. */
  predicate DiffersFrom(value: Value, operand: Operand) {
    match operand
    case Scalar(unexpected) => IsEqualityComparable(value, unexpected) && value != unexpected
    case Structured => value == Null
  }

  predicate IsOneOf(value: Value, candidates: Candidates) {
    candidates.Values? && UNDEFINED !in candidates.operands && Scalar(value) in candidates.operands
  }

  predicate StartsWithOperand(value: Value, operand: Operand) {
    operand.Scalar? && operand.value.Text? && value.Text? && operand.value.s <= value.s
  }

  predicate RangeMatches(operator: RangeOperator, value: Value, operand: Option<Operand>) {
    operand.Some? ==>
      && operand.value.Scalar?
      && var comparison := CompareFilterValue(value, operand.value.value);
         comparison.Some? && RangeComparisonMatches(operator, comparison.value)
  }

  predicate HasUndefinedOperand(filter: Filter)
    requires filter.Operators?
  {
    || filter.eq == Some(UNDEFINED) || filter.neq == Some(UNDEFINED)
    || filter.gt == Some(UNDEFINED) || filter.gte == Some(UNDEFINED)
    || filter.lt == Some(UNDEFINED) || filter.lte == Some(UNDEFINED) || filter.startsWith == Some(UNDEFINED)
  }

  predicate HasNoOperator(filter: Filter)
    requires filter.Operators?
  {
    filter == Operators(None, None, None, None, None, None, None, None)
  }

  /** The compiled matcher of one field's filter. */
  predicate FilterMatches(filter: Filter, value: Value) {
    match filter
    case Exactly(expected) => expected != UNDEFINED && EqualsOperand(value, expected)
    case Operators(eq, neq, oneOf, gt, gte, lt, lte, startsWith) =>
      && !HasNoOperator(filter) && !HasUndefinedOperand(filter)
      && (eq.Some? ==> EqualsOperand(value, eq.value)) && (neq.Some? ==> DiffersFrom(value, neq.value))
      && (oneOf.Some? ==> IsOneOf(value, oneOf.value))
      && (startsWith.Some? ==> StartsWithOperand(value, startsWith.value))
      && RangeMatches(Gt, value, gt) && RangeMatches(Gte, value, gte)
      && RangeMatches(Lt, value, lt) && RangeMatches(Lte, value, lte)
  }

  // ----- Hints -----

  /** A hint about one field. The values of an `in` hint also come as the set of their equality keys. */
  datatype FilterPlan =
    | EqPlan(field: string, value: Value)
    | NeqPlan(field: string, value: Value)
    | RangePlan(field: string, operator: RangeOperator, value: Value)
    | StartsWithPlan(field: string, value: Value)
    | InPlan(field: string, values: seq<Value>, valueKeys: Option<set<Value>>)

  /** The key under which equality buckets hold a value; there is none for an absent value. */
  function ScalarEqualityKey(value: Value): Option<Value> {
    if value == Undefined then None else Some(value)
  }

  function CompareExactRangeColumnValue(left: Value, right: Value): Option<int> {
    match (left, right)
    case (Number(l), Number(r)) => Some(CompareReal(l, r))
    case (BigInt(l), BigInt(r)) => Some(CompareInt(l, r))
    case (BigDecimal(l), BigDecimal(r)) => Some(CompareReal(l, r))
    case _ => None
  }

  /** What storage checks for a hint on a column value: exactly, or only as a necessary condition. */
  predicate HintHolds(plan: FilterPlan, value: Value, exact: bool) {
    match plan
    case EqPlan(_, expected) => value == expected
    case NeqPlan(_, unexpected) => value != unexpected && (exact ==> IsEqualityComparable(value, unexpected))
    case StartsWithPlan(_, prefix) => prefix.Text? ==> value.Text? && prefix.s <= value.s
    case InPlan(_, values, valueKeys) =>
      if valueKeys.Some? then ScalarEqualityKey(value).Some? && ScalarEqualityKey(value).value in valueKeys.value
      else value in values
    case RangePlan(_, operator, operand) =>
      if exact && RangeKind(operand).None? then true
      else
        var comparison := CompareExactRangeColumnValue(value, operand);
        if comparison.Some? then RangeComparisonMatches(operator, comparison.value) else !exact
  }

  ghost predicate HintsHold(filters: seq<FilterPlan>, value: Value, exact: bool) {
    forall p | p in filters :: HintHolds(p, value, exact)
  }

  datatype PredicateFieldPlan = PredicateFieldPlan(filters: seq<FilterPlan>, callbackRequired: bool)

  /** The hints follow from the condition, and unless the callback stays required they amount to it. */
  ghost predicate Represents(plan: PredicateFieldPlan, field: string, condition: Value -> bool) {
    && (forall p | p in plan.filters :: p.field == field)
    && (forall v, exact | condition(v) :: HintsHold(plan.filters, v, exact))
    && (!plan.callbackRequired ==> forall v | HintsHold(plan.filters, v, true) :: condition(v))
  }

  predicate IsScalarPlanValue(value: Value) {
    value != Undefined
  }

  predicate IsNotEqualPlanValue(field: string, value: Value, metadata: Metadata) {
    && IsScalarPlanValue(value)
    && if field in metadata.numericFieldNames then IsRangePlanValue(field, value, metadata)
       else field in metadata.stringFieldNames && value.Text?
  }

  predicate IsInPlanValues(candidates: Candidates) {
    && candidates.Values?
    && forall i | 0 <= i < |candidates.operands| ::
         candidates.operands[i].Scalar? && IsScalarPlanValue(candidates.operands[i].value)
  }

  function EqMatches(eq: Option<Operand>): Value -> bool {
    (v: Value) => eq.Some? ==> EqualsOperand(v, eq.value)
  }

  function NeqMatches(neq: Option<Operand>): Value -> bool {
    (v: Value) => neq.Some? ==> DiffersFrom(v, neq.value)
  }

  function InMatches(oneOf: Option<Candidates>): Value -> bool {
    (v: Value) => oneOf.Some? ==> IsOneOf(v, oneOf.value)
  }

  function StartsWithMatches(startsWith: Option<Operand>): Value -> bool {
    (v: Value) => startsWith.Some? ==> StartsWithOperand(v, startsWith.value)
  }

  function RangeOperatorMatches(operator: RangeOperator, operand: Option<Operand>): Value -> bool {
    (v: Value) => RangeMatches(operator, v, operand)
  }

  function Both(a: Value -> bool, b: Value -> bool): Value -> bool {
    (v: Value) => a(v) && b(v)
  }

  function EqFilterPlan(field: string, eq: Option<Operand>): (plan: PredicateFieldPlan)
    ensures Represents(plan, field, EqMatches(eq))
    ensures eq == Some(UNDEFINED) ==> plan.callbackRequired
  {
    if eq.None? then PredicateFieldPlan([], false)
    else if eq.value.Scalar? && IsScalarPlanValue(eq.value.value) then
      var plan := EqPlan(field, eq.value.value);
      assert forall v | HintsHold([plan], v, true) :: HintHolds(plan, v, true);
      PredicateFieldPlan([plan], false)
    else PredicateFieldPlan([], true)
  }

  function NeqFilterPlan(field: string, neq: Option<Operand>, metadata: Metadata): (plan: PredicateFieldPlan)
    ensures Represents(plan, field, NeqMatches(neq))
    ensures neq == Some(UNDEFINED) ==> plan.callbackRequired
  {
    if neq.None? then PredicateFieldPlan([], false)
    else if neq.value.Scalar? && IsNotEqualPlanValue(field, neq.value.value, metadata) then
      var plan := NeqPlan(field, neq.value.value);
      assert forall v | HintsHold([plan], v, true) :: HintHolds(plan, v, true);
      PredicateFieldPlan([plan], false)
    else PredicateFieldPlan([], true)
  }

  function ScalarEqualityKeys(values: seq<Value>): set<Value> {
    set v | v in values
  }

  function ScalarsOf(operands: seq<Operand>): (values: seq<Value>)
    requires forall i | 0 <= i < |operands| :: operands[i].Scalar?
    ensures forall v :: v in values <==> Scalar(v) in operands
  {
    var values := seq(|operands|, i requires 0 <= i < |operands| => operands[i].value);
    assert forall i | 0 <= i < |operands| :: operands[i] == Scalar(values[i]);
    values
  }

  function InFilterPlan(field: string, oneOf: Option<Candidates>): (plan: PredicateFieldPlan)
    ensures Represents(plan, field, InMatches(oneOf))
  {
    if oneOf.None? then PredicateFieldPlan([], false)
    else if IsInPlanValues(oneOf.value) then
      var values := ScalarsOf(oneOf.value.operands);
      var plan := InPlan(field, values, Some(ScalarEqualityKeys(values)));
      assert forall v | HintsHold([plan], v, true) :: HintHolds(plan, v, true);
      PredicateFieldPlan([plan], false)
    else PredicateFieldPlan([], true)
  }

  function StartsWithFilterPlan(field: string, startsWith: Option<Operand>): (plan: PredicateFieldPlan)
    ensures Represents(plan, field, StartsWithMatches(startsWith))
    ensures startsWith == Some(UNDEFINED) ==> plan.callbackRequired
  {
    if startsWith.None? then PredicateFieldPlan([], false)
    else if startsWith.value.Scalar? && startsWith.value.value.Text? then
      var plan := StartsWithPlan(field, startsWith.value.value);
      assert forall v | HintsHold([plan], v, true) :: HintHolds(plan, v, true);
      PredicateFieldPlan([plan], false)
    else PredicateFieldPlan([], true)
  }

  function RangeFilterPlan(field: string, operator: RangeOperator, operand: Option<Operand>, metadata: Metadata)
    : (plan: PredicateFieldPlan)
    ensures Represents(plan, field, RangeOperatorMatches(operator, operand))
    ensures operand == Some(UNDEFINED) ==> plan.callbackRequired
  {
    if operand.None? then PredicateFieldPlan([], false)
    else if operand.value.Scalar? && IsRangePlanValue(field, operand.value.value, metadata) then
      var plan := RangePlan(field, operator, operand.value.value);
      assert forall v | HintsHold([plan], v, true) :: HintHolds(plan, v, true);
      PredicateFieldPlan([plan], false)
    else PredicateFieldPlan([], true)
  }

  function AddPlan(plan: PredicateFieldPlan, more: PredicateFieldPlan): PredicateFieldPlan {
    PredicateFieldPlan(plan.filters + more.filters, plan.callbackRequired || more.callbackRequired)
  }

  lemma AddedPlanRepresentsBoth(plan: PredicateFieldPlan, a: Value -> bool, more: PredicateFieldPlan, b: Value -> bool,
                                field: string)
    requires Represents(plan, field, a) && Represents(more, field, b)
    ensures Represents(AddPlan(plan, more), field, Both(a, b))
  {
    var sum := AddPlan(plan, more);
    forall v, exact
      ensures HintsHold(sum.filters, v, exact) <==>
        HintsHold(plan.filters, v, exact) && HintsHold(more.filters, v, exact)
    {
      assert forall p | p in plan.filters || p in more.filters :: p in sum.filters;
    }
  }

  /** The hints of one field's filter. They are necessary conditions of its matcher and, when no callback
      is required, together equivalent to it. */
  method PredicateFilterPlans(field: string, filter: Filter, metadata: Metadata) returns (plan: PredicateFieldPlan)
    ensures Represents(plan, field, MatcherOf(filter))
  {
    match filter
    case Exactly(operand) =>
      if operand.Structured? || !IsScalarPlanValue(operand.value) {
        return PredicateFieldPlan([], true);
      }
      plan := EqFilterPlan(field, Some(operand));
      Restated(plan, field, EqMatches(Some(operand)), MatcherOf(filter));
    case Operators(_, _, _, _, _, _, _, _) =>
      plan := OperatorFilterPlans(field, filter, metadata);
  }

  function MatcherOf(filter: Filter): Value -> bool {
    (v: Value) => FilterMatches(filter, v)
  }

  lemma Restated(plan: PredicateFieldPlan, field: string, a: Value -> bool, b: Value -> bool)
    requires Represents(plan, field, a)
    requires forall v | b(v) :: a(v)
    requires !plan.callbackRequired ==> forall v | a(v) :: b(v)
    ensures Represents(plan, field, b)
  {
  }

  lemma NoHints(field: string, callbackRequired: bool, condition: Value -> bool)
    requires forall v :: condition(v)
    ensures Represents(PredicateFieldPlan([], callbackRequired), field, condition)
  {
  }

  method OperatorFilterPlans(field: string, filter: Filter, metadata: Metadata) returns (plan: PredicateFieldPlan)
    requires filter.Operators?
    ensures Represents(plan, field, MatcherOf(filter))
  {
    hide Represents;
    plan := PredicateFieldPlan([], HasNoOperator(filter));
    ghost var condition := (v: Value) => true;
    NoHints(field, HasNoOperator(filter), condition);
    plan, condition := AppendPlan(plan, condition, EqFilterPlan(field, filter.eq), EqMatches(filter.eq), field);
    plan, condition :=
      AppendPlan(plan, condition, NeqFilterPlan(field, filter.neq, metadata), NeqMatches(filter.neq), field);
    plan, condition := AppendPlan(plan, condition, InFilterPlan(field, filter.oneOf), InMatches(filter.oneOf), field);
    ghost var equality := condition;
    plan, condition := AppendRangePlans(plan, condition, field, filter, metadata);
    plan, condition := AppendPlan(plan, condition, StartsWithFilterPlan(field, filter.startsWith),
                                  StartsWithMatches(filter.startsWith), field);
    assert forall v :: equality(v) <==>
      EqMatches(filter.eq)(v) && NeqMatches(filter.neq)(v) && InMatches(filter.oneOf)(v);
    Restated(plan, field, condition, MatcherOf(filter));
  }

  method AppendRangePlans(plan: PredicateFieldPlan, ghost condition: Value -> bool, field: string, filter: Filter,
                          metadata: Metadata)
    returns (result: PredicateFieldPlan, ghost resultCondition: Value -> bool)
    requires filter.Operators? && Represents(plan, field, condition)
    ensures Represents(result, field, resultCondition)
    ensures forall v :: resultCondition(v) <==>
      && condition(v) && RangeMatches(Gt, v, filter.gt) && RangeMatches(Gte, v, filter.gte)
      && RangeMatches(Lt, v, filter.lt) && RangeMatches(Lte, v, filter.lte)
    ensures plan.callbackRequired ==> result.callbackRequired
    ensures Some(UNDEFINED) in [filter.gt, filter.gte, filter.lt, filter.lte] ==> result.callbackRequired
  {
    result, resultCondition := AppendRangePlan(plan, condition, field, Gt, filter.gt, metadata);
    result, resultCondition := AppendRangePlan(result, resultCondition, field, Gte, filter.gte, metadata);
    result, resultCondition := AppendRangePlan(result, resultCondition, field, Lt, filter.lt, metadata);
    result, resultCondition := AppendRangePlan(result, resultCondition, field, Lte, filter.lte, metadata);
  }

  method AppendPlan(plan: PredicateFieldPlan, ghost condition: Value -> bool, more: PredicateFieldPlan,
                    ghost moreCondition: Value -> bool, ghost field: string)
    returns (result: PredicateFieldPlan, ghost resultCondition: Value -> bool)
    requires Represents(plan, field, condition) && Represents(more, field, moreCondition)
    ensures resultCondition == Both(condition, moreCondition) && Represents(result, field, resultCondition)
    ensures result.callbackRequired == (plan.callbackRequired || more.callbackRequired)
  {
    AddedPlanRepresentsBoth(plan, condition, more, moreCondition, field);
    return AddPlan(plan, more), Both(condition, moreCondition);
  }

  method AppendRangePlan(plan: PredicateFieldPlan, ghost condition: Value -> bool, field: string,
                         operator: RangeOperator, operand: Option<Operand>, metadata: Metadata)
    returns (result: PredicateFieldPlan, ghost resultCondition: Value -> bool)
    requires Represents(plan, field, condition)
    ensures resultCondition == Both(condition, RangeOperatorMatches(operator, operand))
    ensures Represents(result, field, resultCondition)
    ensures plan.callbackRequired || operand == Some(UNDEFINED) ==> result.callbackRequired
  {
    result, resultCondition := AppendPlan(plan, condition, RangeFilterPlan(field, operator, operand, metadata),
                                          RangeOperatorMatches(operator, operand), field);
  }

  // ----- The predicate of a query -----

  datatype FieldFilter = FieldFilter(field: string, filter: Filter)

  /** The compiled matcher of a whole `where`. */
  predicate WhereMatches(where: seq<FieldFilter>, row: Row) {
    forall i | 0 <= i < |where| :: FilterMatches(where[i].filter, FieldValue(row, where[i].field))
  }

  function RowMatcher(where: seq<FieldFilter>): Row -> bool {
    (row: Row) => WhereMatches(where, row)
  }

  datatype PredicatePlan = PredicatePlan(filters: seq<FilterPlan>, callbackRequired: bool, callbackSkippable: bool)

  ghost predicate RowHintsHold(filters: seq<FilterPlan>, row: Row, exact: bool) {
    forall p | p in filters :: HintHolds(p, FieldValue(row, p.field), exact)
  }

  /** What storage may rely on: a matching row satisfies every hint, and when the callback may be skipped
      the rows that satisfy every hint exactly are the matching ones. */
  ghost predicate Sound(plan: PredicatePlan, matches: Row -> bool) {
    && (forall row | matches(row) :: RowHintsHold(plan.filters, row, false))
    && (plan.callbackSkippable ==> forall row :: matches(row) <==> RowHintsHold(plan.filters, row, true))
  }

  predicate IsFiltered(where: seq<FieldFilter>, field: string) {
    exists i | 0 <= i < |where| :: where[i].field == field
  }

  /** The hints of all fields' filters, and whether the matcher has to be asked besides. */
  method CompilePredicateParts(metadata: Metadata, where: seq<FieldFilter>) returns (plan: PredicatePlan)
    ensures Sound(plan, RowMatcher(where))
    ensures plan.callbackSkippable == !plan.callbackRequired
    ensures forall p | p in plan.filters :: IsFiltered(where, p.field)
  {
    var filters: seq<FilterPlan> := [];
    var callbackRequired := false;
    for i := 0 to |where|
      invariant forall row, exact | WhereMatches(where[..i], row) :: RowHintsHold(filters, row, exact)
      invariant !callbackRequired ==> forall row | RowHintsHold(filters, row, true) :: WhereMatches(where[..i], row)
      invariant forall p | p in filters :: IsFiltered(where, p.field)
    {
      var fieldPlan := PredicateFilterPlans(where[i].field, where[i].filter, metadata);
      FieldPlanOnRows(fieldPlan, where[i]);
      WhereStep(where, i);
      HintsOfBoth(filters, fieldPlan.filters);
      filters := filters + fieldPlan.filters;
      callbackRequired := callbackRequired || fieldPlan.callbackRequired;
    }
    assert where[..|where|] == where;
    return PredicatePlan(filters, callbackRequired, !callbackRequired);
  }

  lemma FieldPlanOnRows(plan: PredicateFieldPlan, entry: FieldFilter)
    requires Represents(plan, entry.field, MatcherOf(entry.filter))
    ensures forall row, exact | FilterMatches(entry.filter, FieldValue(row, entry.field)) ::
      RowHintsHold(plan.filters, row, exact)
    ensures !plan.callbackRequired ==> forall row | RowHintsHold(plan.filters, row, true) ::
      FilterMatches(entry.filter, FieldValue(row, entry.field))
  {
    forall row, exact | FilterMatches(entry.filter, FieldValue(row, entry.field))
      ensures RowHintsHold(plan.filters, row, exact)
    {
      assert HintsHold(plan.filters, FieldValue(row, entry.field), exact);
    }
    if !plan.callbackRequired {
      forall row | RowHintsHold(plan.filters, row, true)
        ensures FilterMatches(entry.filter, FieldValue(row, entry.field))
      {
        assert HintsHold(plan.filters, FieldValue(row, entry.field), true);
      }
    }
  }

  lemma WhereStep(where: seq<FieldFilter>, i: nat)
    requires i < |where|
    ensures forall row :: WhereMatches(where[..i + 1], row) <==>
      WhereMatches(where[..i], row) && FilterMatches(where[i].filter, FieldValue(row, where[i].field))
  {
    assert where[..i + 1] == where[..i] + [where[i]];
  }

  lemma HintsOfBoth(a: seq<FilterPlan>, b: seq<FilterPlan>)
    ensures forall row, exact :: RowHintsHold(a + b, row, exact) <==>
      RowHintsHold(a, row, exact) && RowHintsHold(b, row, exact)
  {
    forall row, exact
      ensures RowHintsHold(a + b, row, exact) <==> RowHintsHold(a, row, exact) && RowHintsHold(b, row, exact)
    {
      assert forall p | p in a || p in b :: p in a + b;
    }
  }
}
