/** What an aggregate is of a list of values, spelled out. */
module AggregateMeaning {
  import opened Values
  import opened Ranking
  import opened ValueMeaning
  import opened GroupedAggregates

  /** The sum of the numbers, bigints and decimals among the values. */
  ghost function NumericSum(values: seq<Value>): real {
    if values == [] then 0.0
    else
      NumericSum(values[..|values| - 1]) +
      match values[|values| - 1]
      case Number(n) => n
      case BigInt(i) => i as real
      case BigDecimal(d) => d
      case _ => 0.0
  }

  ghost function NumericCount(values: seq<Value>): nat {
    if values == [] then 0
    else
      var last := values[|values| - 1];
      NumericCount(values[..|values| - 1]) + if last.Number? || last.BigInt? || last.BigDecimal? then 1 else 0
  }

  /** The sum of the bigints alone. */
  ghost function IntegerSum(values: seq<Value>): int {
    if values == [] then 0
    else
      IntegerSum(values[..|values| - 1]) + if values[|values| - 1].BigInt? then values[|values| - 1].i else 0
  }

  ghost predicate IsSmallest(v: Value, values: seq<Value>) {
    if values == [] then v == Undefined else v in values && forall x | x in values :: !Before(x, v)
  }

  ghost predicate IsLargest(v: Value, values: seq<Value>) {
    if values == [] then v == Undefined else v in values && forall x | x in values :: !Before(v, x)
  }

  /** The average of the numeric values; zero when there is none. */
  ghost predicate IsAverage(v: Value, values: seq<Value>) {
    && v.BigDecimal?
    && if NumericCount(values) == 0 then v.d == 0.0 else v.d * NumericCount(values) as real == NumericSum(values)
  }

  ghost predicate IsAggregate(v: Value, aggregate: Aggregate, values: seq<Value>) {
    match aggregate
    case Count => v == BigInt(|values|)
    case CountDistinct(_) => v == BigInt(|Elements(values)|)
    case Sum(_, SumBigInt) => v == BigInt(IntegerSum(values))
    case Sum(_, SumBigDecimal) => v.BigDecimal? && v.d == NumericSum(values)
    case Average(_) => IsAverage(v, values)
    case Minimum(_) => IsSmallest(v, values)
    case Maximum(_) => IsLargest(v, values)
  }

  // ----- Bags -----

  lemma BagOfMore(values: seq<Value>, v: Value)
    ensures multiset(values + [v]) == multiset(values) + multiset{v}
  {
  }

  lemma {:induction false} DecimalTotal(values: seq<Value>)
    ensures Total(multiset(values), DecimalWeight) == NumericSum(values)
    ensures CountIf(multiset(values), IsDecimal) == NumericCount(values)
  {
    if values != [] {
      var front, last := values[..|values| - 1], values[|values| - 1];
      assert values == front + [last];
      DecimalTotal(front);
      BagOfMore(front, last);
      TotalAdd(multiset(front), DecimalWeight, last);
      CountIfAdd(multiset(front), IsDecimal, last);
    }
  }

  lemma {:induction false} BigIntTotal(values: seq<Value>)
    ensures Total(multiset(values), BigIntWeight) == IntegerSum(values) as real
  {
    if values != [] {
      var front, last := values[..|values| - 1], values[|values| - 1];
      assert values == front + [last];
      BigIntTotal(front);
      BagOfMore(front, last);
      TotalAdd(multiset(front), BigIntWeight, last);
    }
  }

  lemma QuotientTimes(total: real, count: int)
    requires count > 0
    ensures (total / count as real) * count as real == total
  {
  }

  lemma AverageMeans(values: seq<Value>, field: string)
    ensures IsAverage(AggregateValue(Average(field), multiset(values)), values)
  {
    DecimalTotal(values);
    if NumericCount(values) > 0 {
      QuotientTimes(NumericSum(values), NumericCount(values));
    }
  }

  lemma BestMeans(values: seq<Value>, largest: bool)
    ensures
      var v := Best(multiset(values), largest);
      if largest then IsLargest(v, values) else IsSmallest(v, values)
  {
    var bag := multiset(values);
    if values != [] {
      ValueOrderIsTotal(largest, Distinct(bag));
      assert values[0] in bag && values[0] in Distinct(bag);
      var v := Best(bag, largest);
      assert IsLeast(v, Distinct(bag), ValueOrder(largest));
      forall x | x in values
        ensures if largest then !Before(v, x) else !Before(x, v)
      {
        assert x in Distinct(bag);
        CompareQueryValueMeans(v, x);
        CompareQueryValueMeans(x, v);
      }
    }
  }

  /** The value of an aggregate over the values of a list is what its name says. */
  lemma AggregateMeans(aggregate: Aggregate, values: seq<Value>)
    ensures IsAggregate(AggregateValue(aggregate, multiset(values)), aggregate, values)
  {
    hide Total, CountIf, Before;
    match aggregate
    case Count =>
    case CountDistinct(_) =>
      assert Distinct(multiset(values)) == Elements(values);
    case Sum(_, SumBigInt) => BigIntTotal(values);
    case Sum(_, SumBigDecimal) => DecimalTotal(values);
    case Average(field) => AverageMeans(values, field);
    case Minimum(_) => BestMeans(values, false);
    case Maximum(_) => BestMeans(values, true);
  }
}
