/** Aggregates over the members of a group: what they mean, and the states that follow members coming and
    going. */
module GroupedAggregates {
  import opened Values
  import opened Rationals
  import opened Ranking
  import opened Rows

  datatype SumKind = SumBigInt | SumBigDecimal

  datatype Aggregate =
    | Count
    | CountDistinct(field: string)
    | Sum(field: string, resultKind: SumKind)
    | Average(field: string)
    | Minimum(field: string)
    | Maximum(field: string)

  function AggregateFieldValue(row: Row, aggregate: Aggregate): Value {
    if aggregate.Count? then Undefined else FieldValue(row, aggregate.field)
  }

  function IntegerToDecimal(i: int): Rational {
    IntegerIsRational(i);
    i as real
  }

  function Plus(a: Rational, b: Rational): Rational {
    SumIsRational(a, b);
    a + b
  }

  function Minus(a: Rational, b: Rational): Rational {
    DifferenceIsRational(a, b);
    a - b
  }

  /** The mean of a total over a count; nothing has the mean zero. */
  function Mean(total: Rational, count: int): Rational {
    if count <= 0 then RationalZero() else QuotientIsRational(total, count); total / count as real
  }

  function RuntimeValueToDecimal(value: Value): Option<Rational> {
    match value
    case BigDecimal(d) => Some(d)
    case BigInt(i) => Some(IntegerToDecimal(i))
    case Number(n) => Some(n)
    case _ => None
  }

  // ----- What an aggregate means -----

  ghost function SomeValue(bag: multiset<Value>): (v: Value)
    requires bag != multiset{}
    ensures v in bag
  {
    var v :| v in bag;
    v
  }

  lemma TwoValues(bag: multiset<Value>, v: Value, x: Value)
    requires v in bag && x in bag && v != x
    ensures |bag - multiset{x}| < |bag| && |bag - multiset{v}| < |bag|
    ensures v in bag - multiset{x} && x in bag - multiset{v}
    ensures bag - multiset{x} - multiset{v} == bag - multiset{v} - multiset{x}
  {
  }

  /** The sum of the weights of some values. */
  ghost function Total(bag: multiset<Value>, weight: Value -> Rational): Rational {
    if bag == multiset{} then RationalZero()
    else
      var v := SomeValue(bag);
      Plus(weight(v), Total(bag - multiset{v}, weight))
  }

  ghost function CountIf(bag: multiset<Value>, counts: Value -> bool): nat {
    if bag == multiset{} then 0
    else
      var v := SomeValue(bag);
      (if counts(v) then 1 else 0) + CountIf(bag - multiset{v}, counts)
  }

  lemma {:induction false} CountIfSplit(bag: multiset<Value>, counts: Value -> bool, v: Value)
    requires v in bag
    ensures CountIf(bag, counts) == (if counts(v) then 1 else 0) + CountIf(bag - multiset{v}, counts)
    decreases |bag|
  {
    var x := SomeValue(bag);
    if x != v {
      TwoValues(bag, v, x);
      CountIfSplit(bag - multiset{x}, counts, v);
      CountIfSplit(bag - multiset{v}, counts, x);
    }
  }

  lemma CountIfAdd(bag: multiset<Value>, counts: Value -> bool, v: Value)
    ensures CountIf(bag + multiset{v}, counts) == CountIf(bag, counts) + if counts(v) then 1 else 0
  {
    CountIfSplit(bag + multiset{v}, counts, v);
    assert bag + multiset{v} - multiset{v} == bag;
  }

  lemma {:induction false} TotalSplit(bag: multiset<Value>, weight: Value -> Rational, v: Value)
    requires v in bag
    ensures Total(bag, weight) == weight(v) + Total(bag - multiset{v}, weight)
    decreases |bag|
  {
    var x := SomeValue(bag);
    if x != v {
      TwoValues(bag, v, x);
      TotalSplit(bag - multiset{x}, weight, v);
      TotalSplit(bag - multiset{v}, weight, x);
    }
  }

  lemma TotalAdd(bag: multiset<Value>, weight: Value -> Rational, v: Value)
    ensures Total(bag + multiset{v}, weight) == Total(bag, weight) + weight(v)
  {
    TotalSplit(bag + multiset{v}, weight, v);
    assert bag + multiset{v} - multiset{v} == bag;
  }

  function BigIntWeight(value: Value): Rational {
    if value.BigInt? then IntegerToDecimal(value.i) else RationalZero()
  }

  function DecimalWeight(value: Value): Rational {
    var decimal := RuntimeValueToDecimal(value);
    if decimal.Some? then decimal.value else RationalZero()
  }

  predicate IsDecimal(value: Value) {
    RuntimeValueToDecimal(value).Some?
  }

  ghost function Distinct(bag: multiset<Value>): set<Value> {
    set v | v in bag
  }

  /** Values from the best on, for a minimum or for a maximum. */
  function ValueOrder(largest: bool): (Value, Value) -> int {
    if largest then (a, b) => CompareQueryValue(b, a) else (a, b) => CompareQueryValue(a, b)
  }

  lemma ValueOrderIsTotal(largest: bool, values: set<Value>)
    ensures TotalOn(ValueOrder(largest), values)
  {
    var cmp := ValueOrder(largest);
    forall a, b, c
      ensures cmp(a, b) < 0 <==> cmp(b, a) > 0
      ensures cmp(a, b) == 0 ==> a == b
      ensures cmp(a, b) <= 0 && cmp(b, c) <= 0 ==> cmp(a, c) <= 0
    {
      CompareQueryValueLaws(a, b);
      if cmp(a, b) <= 0 && cmp(b, c) <= 0 {
        if largest {
          CompareQueryValueTransitive(c, b, a);
        } else {
          CompareQueryValueTransitive(a, b, c);
        }
      }
    }
  }

  ghost function Best(bag: multiset<Value>, largest: bool): Value {
    if bag == multiset{} then Undefined
    else
      ValueOrderIsTotal(largest, Distinct(bag));
      var v :| v in bag;
      assert v in Distinct(bag);
      Least(Distinct(bag), ValueOrder(largest))
  }

  lemma BestIsUnique(bag: multiset<Value>, largest: bool, v: Value)
    requires v in bag && IsLeast(v, Distinct(bag), ValueOrder(largest))
    ensures v == Best(bag, largest)
  {
    ValueOrderIsTotal(largest, Distinct(bag));
  }

  /** The value of an aggregate over the values its field has in the members of a group. */
  ghost function AggregateValue(aggregate: Aggregate, bag: multiset<Value>): Value {
    match aggregate
    case Count => BigInt(|bag|)
    case CountDistinct(_) => BigInt(|Distinct(bag)|)
    case Sum(_, SumBigInt) => BigInt(Total(bag, BigIntWeight).Floor)
    case Sum(_, SumBigDecimal) => BigDecimal(Total(bag, DecimalWeight))
    case Average(_) =>
      BigDecimal(Mean(Total(bag, DecimalWeight), CountIf(bag, IsDecimal)))
    case Minimum(_) => Best(bag, false)
    case Maximum(_) => Best(bag, true)
  }

  // ----- States -----

  datatype AggregateState =
    | CountState(count: int)
    | CountDistinctState(values: map<Value, nat>, count: int)
    | BigIntSumState(bigintTotal: int)
    | BigDecimalSumState(decimalTotal: Rational)
    | AverageState(count: int, total: Rational)
      /** With its `values` the state can forget a member again; a one-off evaluation does without. */
    | MinMaxState(largest: bool, retained: Option<map<Value, nat>>, value: Value, hasValue: bool)

  function EmptyAggregateState(aggregate: Aggregate, reversible: bool): AggregateState {
    match aggregate
    case Count => CountState(0)
    case CountDistinct(_) => CountDistinctState(map[], 0)
    case Sum(_, SumBigInt) => BigIntSumState(0)
    case Sum(_, SumBigDecimal) => BigDecimalSumState(RationalZero())
    case Average(_) => AverageState(0, RationalZero())
    case Minimum(_) => MinMaxState(false, if reversible then Some(map[]) else None, Undefined, false)
    case Maximum(_) => MinMaxState(true, if reversible then Some(map[]) else None, Undefined, false)
  }

  function CountOf(values: map<Value, nat>, v: Value): nat {
    if v in values then values[v] else 0
  }

  function Without(values: map<Value, nat>, v: Value): map<Value, nat>
    requires v in values && values[v] > 0
  {
    if values[v] == 1 then values - {v} else values[v := values[v] - 1]
  }

  function BetterValue(state: AggregateState, value: Value): AggregateState
    requires state.MinMaxState?
  {
    if !state.hasValue then state.(value := value, hasValue := true)
    else
      var comparison := CompareQueryValue(value, state.value);
      if (!state.largest && comparison < 0) || (state.largest && comparison > 0) then state.(value := value) else state
  }

  function UpdateAggregateState(state: AggregateState, aggregate: Aggregate, row: Row): AggregateState {
    var value := AggregateFieldValue(row, aggregate);
    match state
    case CountState(count) => CountState(count + 1)
    case CountDistinctState(values, count) =>
      if value in values then CountDistinctState(values[value := values[value] + 1], count)
      else CountDistinctState(values[value := 1], count + 1)
    case BigIntSumState(total) => if value.BigInt? then BigIntSumState(total + value.i) else state
    case BigDecimalSumState(total) =>
      var decimal := RuntimeValueToDecimal(value);
      if decimal.Some? then BigDecimalSumState(Plus(total, decimal.value)) else state
    case AverageState(count, total) =>
      var decimal := RuntimeValueToDecimal(value);
      if decimal.Some? then AverageState(count + 1, Plus(total, decimal.value)) else state
    case MinMaxState(_, None, _, _) => BetterValue(state, value)
    case MinMaxState(_, Some(values), _, _) =>
      BetterValue(state.(retained := Some(values[value := CountOf(values, value) + 1])), value)
  }

  /** The member's value is one the state remembers. */
  predicate CanForget(state: AggregateState, value: Value) {
    match state
    case CountDistinctState(values, _) => CountOf(values, value) > 0
    case MinMaxState(_, Some(values), _, _) => CountOf(values, value) > 0
    case MinMaxState(_, None, _, _) => false
    case _ => true
  }

  /** The state without a member, and whether its minimum or maximum must be found anew. */
  function RemoveAggregateState(state: AggregateState, aggregate: Aggregate, row: Row): (AggregateState, bool)
    requires CanForget(state, AggregateFieldValue(row, aggregate))
  {
    var value := AggregateFieldValue(row, aggregate);
    match state
    case CountState(count) => (CountState(count - 1), false)
    case CountDistinctState(values, count) =>
      (CountDistinctState(Without(values, value), if values[value] == 1 then count - 1 else count), false)
    case BigIntSumState(total) => (if value.BigInt? then BigIntSumState(total - value.i) else state, false)
    case BigDecimalSumState(total) =>
      var decimal := RuntimeValueToDecimal(value);
      (if decimal.Some? then BigDecimalSumState(Minus(total, decimal.value)) else state, false)
    case AverageState(count, total) =>
      var decimal := RuntimeValueToDecimal(value);
      (if decimal.Some? then AverageState(count - 1, Minus(total, decimal.value)) else state, false)
    case MinMaxState(_, Some(values), current, hasValue) =>
      (state.(retained := Some(Without(values, value))), values[value] == 1 && hasValue && current == value)
  }

  /** Finds the minimum or maximum of the remembered values anew. */
  method RecomputeRetainedMinMaxAggregateState(state: AggregateState, ghost bag: multiset<Value>)
    returns (state': AggregateState)
    requires state.MinMaxState? && state.retained.Some? && Counts(state.retained.value, bag)
    ensures state'.MinMaxState? && state' == state.(value := state'.value, hasValue := state'.hasValue)
    ensures ShowsBest(state', bag)
  {
    CountedValues(state.retained.value, bag);
    var nextValue, hasValue := BestOf(state.retained.value.Keys, state.largest);
    state' := state.(value := nextValue, hasValue := hasValue);
  }

  method BestOf(values: set<Value>, largest: bool) returns (nextValue: Value, hasValue: bool)
    ensures hasValue <==> values != {}
    ensures hasValue ==> IsLeast(nextValue, values, ValueOrder(largest))
    ensures !hasValue ==> nextValue == Undefined
  {
    hide TotalOn, CompareQueryValue;
    var remaining := values;
    var cmp := ValueOrder(largest);
    nextValue, hasValue := Undefined, false;
    ghost var seen := {};
    ValueOrderIsTotal(largest, values);
    while remaining != {}
      invariant seen + remaining == values
      invariant hasValue <==> seen != {}
      invariant hasValue ==> IsLeast(nextValue, seen, cmp)
      invariant !hasValue ==> nextValue == Undefined
      decreases |remaining|
    {
      var value :| value in remaining;
      LeastWith(nextValue, hasValue, seen, value, values, cmp);
      if !hasValue || cmp(value, nextValue) < 0 {
        nextValue := value;
      }
      hasValue := true;
      seen := seen + {value};
      remaining := remaining - {value};
    }
  }

  lemma LeastWith(m: Value, some: bool, seen: set<Value>, x: Value, all: set<Value>, cmp: (Value, Value) -> int)
    requires TotalOn(cmp, all) && seen + {x} <= all
    requires some ==> IsLeast(m, seen, cmp)
    requires !some ==> seen == {}
    ensures IsLeast(if !some || cmp(x, m) < 0 then x else m, seen + {x}, cmp)
  {
    if some && cmp(x, m) < 0 {
      forall y | y in seen
        ensures cmp(x, y) <= 0
      {
        Chains(cmp, all, x, m, y);
      }
    }
  }

  function AggregateStateValue(state: AggregateState): Value {
    match state
    case CountState(count) => BigInt(count)
    case CountDistinctState(_, count) => BigInt(count)
    case BigIntSumState(total) => BigInt(total)
    case BigDecimalSumState(total) => BigDecimal(total)
    case AverageState(count, total) => BigDecimal(Mean(total, count))
    case MinMaxState(_, _, value, _) => value
  }

  // ----- States and meaning -----

  ghost predicate Counts(values: map<Value, nat>, bag: multiset<Value>) {
    (forall v :: CountOf(values, v) == bag[v]) && forall v | v in values :: values[v] > 0
  }

  lemma CountedValues(values: map<Value, nat>, bag: multiset<Value>)
    requires Counts(values, bag)
    ensures values.Keys == Distinct(bag) && |values| == |Distinct(bag)|
    ensures values == map[] <==> bag == multiset{}
  {
    forall v
      ensures v in values <==> v in bag
    {
      assert CountOf(values, v) == bag[v];
    }
    assert values.Keys == Distinct(bag);
    assert |values| == |values.Keys|;
  }

  ghost predicate ShowsBest(state: AggregateState, bag: multiset<Value>)
    requires state.MinMaxState?
  {
    && (state.hasValue <==> bag != multiset{})
    && (state.hasValue ==> state.value in bag && IsLeast(state.value, Distinct(bag), ValueOrder(state.largest)))
    && (!state.hasValue ==> state.value == Undefined)
  }

  /** The state of an aggregate whose members have the values in `bag`; the minimum or maximum of a stale one
      waits to be found anew. */
  ghost predicate Reflects(state: AggregateState, aggregate: Aggregate, bag: multiset<Value>, stale: bool) {
    match aggregate
    case Count => state == CountState(|bag|)
    case CountDistinct(_) => state.CountDistinctState? && Counts(state.values, bag) && state.count == |state.values|
    case Sum(_, SumBigInt) => state.BigIntSumState? && state.bigintTotal as real == Total(bag, BigIntWeight)
    case Sum(_, SumBigDecimal) => state == BigDecimalSumState(Total(bag, DecimalWeight))
    case Average(_) =>
      state.AverageState? && state.count == CountIf(bag, IsDecimal) && state.total == Total(bag, DecimalWeight)
    case Minimum(_) => ReflectsBest(state, false, bag, stale)
    case Maximum(_) => ReflectsBest(state, true, bag, stale)
  }

  ghost predicate ReflectsBest(state: AggregateState, largest: bool, bag: multiset<Value>, stale: bool) {
    && state.MinMaxState? && state.largest == largest
    && (state.retained.Some? ==> Counts(state.retained.value, bag))
    && (!stale ==> ShowsBest(state, bag))
  }

  predicate Reversible(state: AggregateState) {
    state.MinMaxState? ==> state.retained.Some?
  }

  lemma EmptyReflects(aggregate: Aggregate, reversible: bool)
    ensures Reflects(EmptyAggregateState(aggregate, reversible), aggregate, multiset{}, false)
    ensures reversible ==> Reversible(EmptyAggregateState(aggregate, reversible))
  {
  }

  lemma CountsMore(values: map<Value, nat>, bag: multiset<Value>, v: Value)
    requires Counts(values, bag)
    ensures Counts(values[v := CountOf(values, v) + 1], bag + multiset{v})
    ensures |values[v := CountOf(values, v) + 1]| == |values| + if v in values then 0 else 1
  {
    var more := values[v := CountOf(values, v) + 1];
    assert more.Keys == values.Keys + {v};
    assert |more| == |more.Keys| && |values| == |values.Keys|;
  }

  lemma CountsLess(values: map<Value, nat>, bag: multiset<Value>, v: Value)
    requires Counts(values, bag) && v in bag
    ensures v in values && values[v] > 0 && Counts(Without(values, v), bag - multiset{v})
    ensures |Without(values, v)| == |values| - if values[v] == 1 then 1 else 0
  {
    assert CountOf(values, v) == bag[v];
    var less := Without(values, v);
    assert less.Keys == if values[v] == 1 then values.Keys - {v} else values.Keys;
    assert |less| == |less.Keys| && |values| == |values.Keys|;
    forall w
      ensures CountOf(less, w) == (bag - multiset{v})[w]
    {
      assert CountOf(values, w) == bag[w];
    }
  }

  /** A better value takes over; another one changes nothing. */
  lemma BetterShowsBest(state: AggregateState, bag: multiset<Value>, v: Value)
    requires state.MinMaxState? && ShowsBest(state, bag)
    ensures ShowsBest(BetterValue(state, v), bag + multiset{v})
  {
    var more := Distinct(bag + multiset{v});
    ValueOrderIsTotal(state.largest, more);
    CompareQueryValueLaws(v, state.value);
    LeastWith(state.value, state.hasValue, Distinct(bag), v, more, ValueOrder(state.largest));
    assert Distinct(bag) + {v} == more;
    assert BetterValue(state, v).value in bag + multiset{v};
  }

  lemma UpdateReflects(state: AggregateState, aggregate: Aggregate, bag: multiset<Value>, row: Row, stale: bool)
    requires Reflects(state, aggregate, bag, stale)
    ensures
      var bag' := bag + multiset{AggregateFieldValue(row, aggregate)};
      Reflects(UpdateAggregateState(state, aggregate, row), aggregate, bag', stale)
    ensures Reversible(state) ==> Reversible(UpdateAggregateState(state, aggregate, row))
  {
    hide Total, CountIf, Counts, ShowsBest;
    var v := AggregateFieldValue(row, aggregate);
    match aggregate
    case Count =>
    case CountDistinct(_) => CountsMore(state.values, bag, v);
    case Sum(_, SumBigInt) => TotalAdd(bag, BigIntWeight, v);
    case Sum(_, SumBigDecimal) => TotalAdd(bag, DecimalWeight, v);
    case Average(_) =>
      CountIfAdd(bag, IsDecimal, v);
      TotalAdd(bag, DecimalWeight, v);
    case _ => UpdateReflectsBest(state, bag, aggregate, row, stale);
  }

  lemma UpdateReflectsBest(state: AggregateState, bag: multiset<Value>, aggregate: Aggregate, row: Row, stale: bool)
    requires state.MinMaxState? && ReflectsBest(state, state.largest, bag, stale)
    ensures
      var state' := UpdateAggregateState(state, aggregate, row);
      && ReflectsBest(state', state.largest, bag + multiset{AggregateFieldValue(row, aggregate)}, stale)
      && (Reversible(state) ==> Reversible(state'))
  {
    var v := AggregateFieldValue(row, aggregate);
    if state.retained.Some? {
      CountsMore(state.retained.value, bag, v);
    }
    if !stale {
      BetterShowsBest(state, bag, v);
    }
  }

  /** Forgetting a member is exact at once, or says that the best value must be found anew. */
  lemma RemoveReflects(state: AggregateState, aggregate: Aggregate, bag: multiset<Value>, row: Row, stale: bool)
    requires Reflects(state, aggregate, bag, stale) && Reversible(state) && AggregateFieldValue(row, aggregate) in bag
    ensures CanForget(state, AggregateFieldValue(row, aggregate))
    ensures
      var (state', dirty) := RemoveAggregateState(state, aggregate, row);
      && Reflects(state', aggregate, bag - multiset{AggregateFieldValue(row, aggregate)}, stale || dirty)
      && Reversible(state')
  {
    hide Total, CountIf, ShowsBest, Without;
    var v := AggregateFieldValue(row, aggregate);
    match aggregate
    case Count =>
    case CountDistinct(_) => CountsLess(state.values, bag, v);
    case Sum(_, SumBigInt) => TotalSplit(bag, BigIntWeight, v);
    case Sum(_, SumBigDecimal) => TotalSplit(bag, DecimalWeight, v);
    case Average(_) =>
      CountIfSplit(bag, IsDecimal, v);
      TotalSplit(bag, DecimalWeight, v);
    case Minimum(_) => RemoveReflectsBest(state, bag, aggregate, row, stale);
    case Maximum(_) => RemoveReflectsBest(state, bag, aggregate, row, stale);
  }

  lemma RemoveReflectsBest(state: AggregateState, bag: multiset<Value>, aggregate: Aggregate, row: Row, stale: bool)
    requires state.MinMaxState? && ReflectsBest(state, state.largest, bag, stale) && Reversible(state)
    requires AggregateFieldValue(row, aggregate) in bag
    ensures CanForget(state, AggregateFieldValue(row, aggregate))
    ensures
      var (state', dirty) := RemoveAggregateState(state, aggregate, row);
      && ReflectsBest(state', state.largest, bag - multiset{AggregateFieldValue(row, aggregate)}, stale || dirty)
      && Reversible(state')
  {
    var v := AggregateFieldValue(row, aggregate);
    CountsLess(state.retained.value, bag, v);
    if !stale && !RemoveAggregateState(state, aggregate, row).1 {
      RestShowsBest(state, bag, v);
    }
  }

  lemma RestShowsBest(state: AggregateState, bag: multiset<Value>, v: Value)
    requires state.MinMaxState? && ShowsBest(state, bag) && v in bag && (state.value == v ==> bag[v] > 1)
    ensures ShowsBest(state, bag - multiset{v})
  {
    var less := bag - multiset{v};
    assert state.value in less;
    forall x | x in Distinct(less)
      ensures ValueOrder(state.largest)(state.value, x) <= 0
    {
      assert x in Distinct(bag);
    }
  }

  /** A state that is not stale gives exactly the aggregate of its members. */
  lemma ReflectedValue(state: AggregateState, aggregate: Aggregate, bag: multiset<Value>)
    requires Reflects(state, aggregate, bag, false)
    ensures AggregateStateValue(state) == AggregateValue(aggregate, bag)
  {
    match aggregate
    case CountDistinct(_) => CountedValues(state.values, bag);
    case Minimum(_) =>
      if state.hasValue {
        BestIsUnique(bag, false, state.value);
      }
    case Maximum(_) =>
      if state.hasValue {
        BestIsUnique(bag, true, state.value);
      }
    case _ =>
  }
}
