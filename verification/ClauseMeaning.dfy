/** What a clause asks of a row, operator by operator and field by field. */
module ClauseMeaning {
  import opened Values
  import opened Rows
  import opened Predicates
  import opened QueryValueText
  import opened QueryClauses
  import opened ValueMeaning

  /** The relation in which an operator wants a field's value to stand to its operand. */
  ghost predicate Stands(value: Value, operator: string, operand: QueryValue) {
    if operator == "eq" then operand == ScalarValue(value) && value != Undefined
    else if operator == "neq" then
      if operand.ScalarValue? then
        operand.value != Undefined && OneKind(value, operand.value) && value != operand.value
      else value == Null
    else if operator == "in" then
      operand.ArrayValue? && ScalarValue(Undefined) !in operand.items && ScalarValue(value) in operand.items
    else if operator == "gt" then operand.ScalarValue? && Smaller(operand.value, value)
    else if operator == "gte" then
      operand.ScalarValue? && (Smaller(operand.value, value) || (Ordered(value) && value == operand.value))
    else if operator == "lt" then operand.ScalarValue? && Smaller(value, operand.value)
    else if operator == "lte" then
      operand.ScalarValue? && (Smaller(value, operand.value) || (Ordered(value) && value == operand.value))
    else
      && operator == "startsWith" && operand.ScalarValue? && operand.value.Text? && value.Text?
      && operand.value.s <= value.s
  }

  /** A plain value asks for itself, operators ask for all their relations, and nothing else can be met. */
  ghost predicate Meets(value: Value, filter: QueryValue) {
    match filter
    case ScalarValue(expected) => expected != Undefined && value == expected
    case ArrayValue(_) => false
    case ObjectValue(fields) =>
      fields != [] && forall i | 0 <= i < |fields| :: Stands(value, fields[i].name, fields[i].value)
  }

  /** The row has, in every field the clause names, a value that meets the field's filter. */
  ghost predicate RowMeets(row: Row, clause: Clause) {
    clause.Some? ==> forall i | 0 <= i < |clause.value| ::
      Meets(if clause.value[i].name in row.fields then row.fields[clause.value[i].name] else Undefined,
            clause.value[i].value)
  }

  // ----- Operators -----

  lemma ScalarIsOneOf(items: seq<QueryValue>, value: Value)
    ensures Scalar(value) in OperandsOf(items) <==> ScalarValue(value) in items
  {
    if Scalar(value) in OperandsOf(items) {
      var i :| 0 <= i < |items| && OperandsOf(items)[i] == Scalar(value);
      assert items[i] == ScalarValue(value);
    }
    if ScalarValue(value) in items {
      var i :| 0 <= i < |items| && items[i] == ScalarValue(value);
      assert OperandsOf(items)[i] == Scalar(value);
    }
  }

  lemma RangeMeans(operator: RangeOperator, value: Value, operand: QueryValue)
    ensures
      RangeMatches(operator, value, Some(OperandOf(operand))) <==>
      operand.ScalarValue? &&
        match operator
        case Gt => Smaller(operand.value, value)
        case Gte => Smaller(operand.value, value) || (Ordered(value) && value == operand.value)
        case Lt => Smaller(value, operand.value)
        case Lte => Smaller(value, operand.value) || (Ordered(value) && value == operand.value)
  {
    if operand.ScalarValue? {
      CompareFilterValueMeans(value, operand.value);
    }
  }

  /** The operator, if it is written, has its relation. */
  ghost predicate Asked(fields: seq<QueryField>, operator: string, value: Value) {
    FieldNamed(fields, operator).Some? ==> Stands(value, operator, FieldNamed(fields, operator).value)
  }

  lemma NamesDiffer()
    ensures "neq" != "gte" && "neq" != "lte" && "gte" != "lte"
    ensures "eq" != "in" && "eq" != "gt" && "eq" != "lt" && "in" != "gt" && "in" != "lt" && "gt" != "lt"
  {
    assert "neq"[0] != "gte"[0] && "neq"[0] != "lte"[0] && "gte"[0] != "lte"[0];
    assert "eq"[0] != "in"[0] && "eq"[0] != "gt"[0] && "eq"[0] != "lt"[0];
    assert "in"[0] != "gt"[0] && "in"[0] != "lt"[0] && "gt"[0] != "lt"[0];
  }

  lemma EqualityOperatorsMean(fields: seq<QueryField>, value: Value)
    ensures Asked(fields, "eq", value) <==>
      var eq := OperandNamed(fields, "eq");
      eq.Some? ==> eq.value != UNDEFINED && EqualsOperand(value, eq.value)
    ensures Asked(fields, "neq", value) <==>
      var neq := OperandNamed(fields, "neq");
      neq.Some? ==> neq.value != UNDEFINED && DiffersFrom(value, neq.value)
    ensures Asked(fields, "in", value) <==>
      var oneOf := CandidatesNamed(fields, "in");
      oneOf.Some? ==> IsOneOf(value, oneOf.value)
  {
    hide FieldNamed;
    NamesDiffer();
    var candidates := FieldNamed(fields, "in");
    if candidates.Some? && candidates.value.ArrayValue? {
      ScalarIsOneOf(candidates.value.items, value);
      ScalarIsOneOf(candidates.value.items, Undefined);
    }
  }

  lemma RangeOperatorsMean(fields: seq<QueryField>, value: Value)
    ensures Asked(fields, "gt", value) <==> RangeMatches(Gt, value, OperandNamed(fields, "gt"))
    ensures Asked(fields, "gte", value) <==> RangeMatches(Gte, value, OperandNamed(fields, "gte"))
    ensures Asked(fields, "lt", value) <==> RangeMatches(Lt, value, OperandNamed(fields, "lt"))
    ensures Asked(fields, "lte", value) <==> RangeMatches(Lte, value, OperandNamed(fields, "lte"))
  {
    hide FieldNamed, RangeMatches, Smaller, Ordered;
    NamesDiffer();
    OneRangeOperatorMeans(fields, "gt", Gt, value);
    OneRangeOperatorMeans(fields, "gte", Gte, value);
    OneRangeOperatorMeans(fields, "lt", Lt, value);
    OneRangeOperatorMeans(fields, "lte", Lte, value);
  }

  lemma OneRangeOperatorMeans(fields: seq<QueryField>, name: string, operator: RangeOperator, value: Value)
    ensures RangeMatches(operator, value, OperandNamed(fields, name)) <==>
      (FieldNamed(fields, name).Some? ==>
        var operand := FieldNamed(fields, name).value;
        operand.ScalarValue? &&
          match operator
          case Gt => Smaller(operand.value, value)
          case Gte => Smaller(operand.value, value) || (Ordered(value) && value == operand.value)
          case Lt => Smaller(value, operand.value)
          case Lte => Smaller(value, operand.value) || (Ordered(value) && value == operand.value))
  {
    hide FieldNamed, Smaller, Ordered;
    if FieldNamed(fields, name).Some? {
      RangeMeans(operator, value, FieldNamed(fields, name).value);
    }
  }

  lemma StartsWithMeans(fields: seq<QueryField>, value: Value)
    ensures Asked(fields, "startsWith", value) <==>
      var startsWith := OperandNamed(fields, "startsWith");
      startsWith.Some? ==> startsWith.value != UNDEFINED && StartsWithOperand(value, startsWith.value)
  {
    hide FieldNamed;
  }

  /** An undefined operand asks for what no value has. */
  lemma UndefinedRange(operator: RangeOperator, value: Value)
    ensures !RangeMatches(operator, value, Some(UNDEFINED))
  {
  }

  lemma SomeOperatorIsWritten(fields: seq<QueryField>)
    requires DistinctNames(fields) && IsOperatorFilterObject(fields)
    ensures !HasNoOperator(FilterOf(ObjectValue(fields)))
  {
    FieldNamedFinds(fields, fields[0].name);
    assert HasField(fields, fields[0].name);
  }

  /** A filter of operators matches the values that have all the relations it asks for. */
  lemma OperatorsMean(fields: seq<QueryField>, value: Value)
    requires DistinctNames(fields) && IsOperatorFilterObject(fields)
    ensures FilterMatches(FilterOf(ObjectValue(fields)), value) <==>
      forall operator | operator in FILTER_OPERATOR_KEYS :: Asked(fields, operator, value)
  {
    hide Asked, OperandNamed, CandidatesNamed, RangeMatches, IsOneOf, DiffersFrom, StartsWithOperand, HasNoOperator,
        IsOperatorFilterObject;
    EqualityOperatorsMean(fields, value);
    RangeOperatorsMean(fields, value);
    StartsWithMeans(fields, value);
    SomeOperatorIsWritten(fields);
    UndefinedRange(Gt, value);
    UndefinedRange(Gte, value);
    UndefinedRange(Lt, value);
    UndefinedRange(Lte, value);
  }

  lemma AskedByFields(fields: seq<QueryField>, value: Value)
    requires DistinctNames(fields) && IsOperatorFilterObject(fields)
    ensures (forall operator | operator in FILTER_OPERATOR_KEYS :: Asked(fields, operator, value)) <==>
      forall i | 0 <= i < |fields| :: Stands(value, fields[i].name, fields[i].value)
  {
    hide Stands, FieldNamed;
    if forall operator | operator in FILTER_OPERATOR_KEYS :: Asked(fields, operator, value) {
      forall i | 0 <= i < |fields|
        ensures Stands(value, fields[i].name, fields[i].value)
      {
        FieldNamedFinds(fields, fields[i].name);
        assert Asked(fields, fields[i].name, value);
      }
    }
    if forall i | 0 <= i < |fields| :: Stands(value, fields[i].name, fields[i].value) {
      forall operator | operator in FILTER_OPERATOR_KEYS
        ensures Asked(fields, operator, value)
      {
        FieldNamedFinds(fields, operator);
        if HasField(fields, operator) {
          assert fields[FieldAt(fields, operator)].name == operator;
        }
      }
    }
  }

  lemma UnknownOperator(fields: seq<QueryField>, value: Value)
    requires fields != [] && !IsOperatorFilterObject(fields)
    ensures exists i :: 0 <= i < |fields| && !Stands(value, fields[i].name, fields[i].value)
  {
    var i :| 0 <= i < |fields| && fields[i].name !in FILTER_OPERATOR_KEYS;
    assert !Stands(value, fields[i].name, fields[i].value);
  }

  /** The compiled filter of a query value matches exactly the field values that meet it. */
  lemma FilterMeans(filter: QueryValue, value: Value)
    requires Plain(filter)
    ensures FilterMatches(FilterOf(filter), value) <==> Meets(value, filter)
  {
    if filter.ObjectValue? && filter.fields != [] {
      if IsOperatorFilterObject(filter.fields) {
        OperatorsMean(filter.fields, value);
        AskedByFields(filter.fields, value);
      } else {
        UnknownOperator(filter.fields, value);
      }
    }
  }

  /** The compiled clause matches exactly the rows that meet it in every field. */
  lemma ClauseMeans(clause: Clause, row: Row)
    requires PlainClause(clause)
    ensures WhereMatches(FiltersOf(clause), row) <==> RowMeets(row, clause)
  {
    hide FilterOf, Meets, FilterMatches;
    if clause.Some? {
      forall i | 0 <= i < |clause.value|
        ensures FilterMatches(FiltersOf(clause)[i].filter, FieldValue(row, FiltersOf(clause)[i].field)) <==>
          Meets(if clause.value[i].name in row.fields then row.fields[clause.value[i].name] else Undefined,
                clause.value[i].value)
      {
        FilterMeans(clause.value[i].value, FieldValue(row, clause.value[i].name));
      }
    }
  }
}
