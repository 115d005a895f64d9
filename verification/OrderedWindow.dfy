/** Range bounds and equality values that a query's hints put on the field an index is ordered by. */
module OrderedWindow {
  import opened Values
  import opened Ranking
  import opened Predicates

  lemma ValuesAreTotal(s: set<Value>)
    ensures TotalOn(CompareQueryValue, s)
  {
    forall a, b, c: Value
      ensures CompareQueryValue(a, b) < 0 <==> CompareQueryValue(b, a) > 0
      ensures CompareQueryValue(a, b) == 0 ==> a == b
      ensures CompareQueryValue(a, b) <= 0 && CompareQueryValue(b, c) <= 0 ==> CompareQueryValue(a, c) <= 0
    {
      CompareQueryValueLaws(a, b);
      if CompareQueryValue(a, b) <= 0 && CompareQueryValue(b, c) <= 0 {
        CompareQueryValueTransitive(a, b, c);
      }
    }
  }

  // ----- Range bounds -----

  datatype RangeBound = RangeBound(exclusive: bool, value: Value)

  datatype RangeBounds = RangeBounds(lower: Option<RangeBound>, upper: Option<RangeBound>)

  const NO_RANGE_BOUNDS: RangeBounds := RangeBounds(None, None)

  predicate AboveLower(lower: Option<RangeBound>, value: Value) {
    lower.Some? ==>
      var comparison := CompareQueryValue(value, lower.value.value);
      comparison > 0 || (comparison == 0 && !lower.value.exclusive)
  }

  predicate BelowUpper(upper: Option<RangeBound>, value: Value) {
    upper.Some? ==>
      var comparison := CompareQueryValue(value, upper.value.value);
      comparison < 0 || (comparison == 0 && !upper.value.exclusive)
  }

  predicate EqualityValueSatisfiesRangeBounds(value: Value, bounds: RangeBounds) {
    AboveLower(bounds.lower, value) && BelowUpper(bounds.upper, value)
  }

  function StrongerLowerBound(current: Option<RangeBound>, candidate: RangeBound): (stronger: RangeBound)
    ensures forall v :: AboveLower(Some(stronger), v) <==> AboveLower(current, v) && AboveLower(Some(candidate), v)
  {
    if current.None? then candidate
    else
      var comparison := CompareQueryValue(candidate.value, current.value.value);
      LowerBoundsNest(current.value, candidate);
      if comparison > 0 then candidate
      else if comparison == 0 && candidate.exclusive && !current.value.exclusive then candidate
      else current.value
  }

  function StrongerUpperBound(current: Option<RangeBound>, candidate: RangeBound): (stronger: RangeBound)
    ensures forall v :: BelowUpper(Some(stronger), v) <==> BelowUpper(current, v) && BelowUpper(Some(candidate), v)
  {
    if current.None? then candidate
    else
      var comparison := CompareQueryValue(candidate.value, current.value.value);
      UpperBoundsNest(current.value, candidate);
      if comparison < 0 then candidate
      else if comparison == 0 && candidate.exclusive && !current.value.exclusive then candidate
      else current.value
  }

  lemma LowerBoundsNest(a: RangeBound, b: RangeBound)
    ensures CompareQueryValue(b.value, a.value) > 0 ==> forall v | AboveLower(Some(b), v) :: AboveLower(Some(a), v)
    ensures CompareQueryValue(b.value, a.value) < 0 ==> forall v | AboveLower(Some(a), v) :: AboveLower(Some(b), v)
    ensures CompareQueryValue(b.value, a.value) == 0 ==> a.value == b.value
  {
    forall v
      ensures CompareQueryValue(b.value, a.value) > 0 && AboveLower(Some(b), v) ==> AboveLower(Some(a), v)
      ensures CompareQueryValue(b.value, a.value) < 0 && AboveLower(Some(a), v) ==> AboveLower(Some(b), v)
    {
      var all := {a.value, b.value, v};
      ValuesAreTotal(all);
      if CompareQueryValue(b.value, a.value) > 0 && AboveLower(Some(b), v) {
        Chains(CompareQueryValue, all, a.value, b.value, v);
      }
      if CompareQueryValue(b.value, a.value) < 0 && AboveLower(Some(a), v) {
        Chains(CompareQueryValue, all, b.value, a.value, v);
      }
    }
    CompareQueryValueLaws(b.value, a.value);
  }

  lemma UpperBoundsNest(a: RangeBound, b: RangeBound)
    ensures CompareQueryValue(b.value, a.value) < 0 ==> forall v | BelowUpper(Some(b), v) :: BelowUpper(Some(a), v)
    ensures CompareQueryValue(b.value, a.value) > 0 ==> forall v | BelowUpper(Some(a), v) :: BelowUpper(Some(b), v)
    ensures CompareQueryValue(b.value, a.value) == 0 ==> a.value == b.value
  {
    forall v
      ensures CompareQueryValue(b.value, a.value) < 0 && BelowUpper(Some(b), v) ==> BelowUpper(Some(a), v)
      ensures CompareQueryValue(b.value, a.value) > 0 && BelowUpper(Some(a), v) ==> BelowUpper(Some(b), v)
    {
      var all := {a.value, b.value, v};
      ValuesAreTotal(all);
      if CompareQueryValue(b.value, a.value) < 0 && BelowUpper(Some(b), v) {
        Chains(CompareQueryValue, all, v, b.value, a.value);
      }
      if CompareQueryValue(b.value, a.value) > 0 && BelowUpper(Some(a), v) {
        Chains(CompareQueryValue, all, v, a.value, b.value);
      }
    }
    CompareQueryValueLaws(b.value, a.value);
  }

  predicate IsRangeFilterOn(filter: FilterPlan, field: string) {
    filter.RangePlan? && filter.field == field
  }

  /** Every range hint on the field, as the storage checks it, is a bound. */
  ghost predicate RangeHintsHold(filters: seq<FilterPlan>, field: string, value: Value) {
    forall p | p in filters && IsRangeFilterOn(p, field) :: HintHolds(p, value, true)
  }

  /** The tightest bounds the range hints on a field put on its values. */
  method OrderedRangeBoundsForField(filters: seq<FilterPlan>, field: string, metadata: Metadata)
    returns (bounds: Option<RangeBounds>)
    ensures bounds.Some? <==>
      forall p | p in filters && IsRangeFilterOn(p, field) :: IsRangePlanValue(field, p.value, metadata)
    ensures bounds.Some? ==>
      forall v | RangeHintsHold(filters, field, v) :: EqualityValueSatisfiesRangeBounds(v, bounds.value)
  {
    var lower: Option<RangeBound>, upper: Option<RangeBound> := None, None;
    for i := 0 to |filters|
      invariant forall p | p in filters[..i] && IsRangeFilterOn(p, field) :: IsRangePlanValue(field, p.value, metadata)
      invariant forall v | RangeHintsHold(filters[..i], field, v) ::
        EqualityValueSatisfiesRangeBounds(v, RangeBounds(lower, upper))
    {
      var filter := filters[i];
      assert filters[..i + 1] == filters[..i] + [filter];
      RangeHintsStep(filters[..i], filter, field);
      if IsRangeFilterOn(filter, field) {
        if !IsRangePlanValue(field, filter.value, metadata) {
          assert filter in filters;
          return None;
        }
        HintIsBound(filter);
        match filter.operator
        case Gt => lower := Some(StrongerLowerBound(lower, RangeBound(true, filter.value)));
        case Gte => lower := Some(StrongerLowerBound(lower, RangeBound(false, filter.value)));
        case Lt => upper := Some(StrongerUpperBound(upper, RangeBound(true, filter.value)));
        case Lte => upper := Some(StrongerUpperBound(upper, RangeBound(false, filter.value)));
      }
    }
    assert filters[..|filters|] == filters;
    return Some(RangeBounds(lower, upper));
  }

  lemma RangeHintsStep(filters: seq<FilterPlan>, filter: FilterPlan, field: string)
    ensures forall v | RangeHintsHold(filters + [filter], field, v) ::
      RangeHintsHold(filters, field, v) && (IsRangeFilterOn(filter, field) ==> HintHolds(filter, v, true))
  {
    forall v | RangeHintsHold(filters + [filter], field, v)
      ensures RangeHintsHold(filters, field, v) && (IsRangeFilterOn(filter, field) ==> HintHolds(filter, v, true))
    {
      assert filter in filters + [filter];
      assert forall p | p in filters :: p in filters + [filter];
    }
  }

  /** An exact range hint with an ordered operand is the corresponding bound. */
  lemma HintIsBound(filter: FilterPlan)
    requires filter.RangePlan? && RangeKind(filter.value).Some?
    ensures forall v | HintHolds(filter, v, true) ::
      && (filter.operator == Gt ==> AboveLower(Some(RangeBound(true, filter.value)), v))
      && (filter.operator == Gte ==> AboveLower(Some(RangeBound(false, filter.value)), v))
      && (filter.operator == Lt ==> BelowUpper(Some(RangeBound(true, filter.value)), v))
      && (filter.operator == Lte ==> BelowUpper(Some(RangeBound(false, filter.value)), v))
  {
  }

  /** Contradictory bounds: no value lies within them. */
  predicate RangeBoundsAreEmpty(bounds: RangeBounds): (empty: bool)
    ensures empty ==> forall v :: !EqualityValueSatisfiesRangeBounds(v, bounds)
  {
    if bounds.lower.None? || bounds.upper.None? then false
    else
      var comparison := CompareQueryValue(bounds.lower.value.value, bounds.upper.value.value);
      var empty := comparison > 0 ||
        (comparison == 0 && (bounds.lower.value.exclusive || bounds.upper.value.exclusive));
      EmptyHasNoValue(bounds.lower.value, bounds.upper.value, empty);
      empty
  }

  lemma EmptyHasNoValue(lower: RangeBound, upper: RangeBound, empty: bool)
    requires empty ==>
      var comparison := CompareQueryValue(lower.value, upper.value);
      comparison > 0 || (comparison == 0 && (lower.exclusive || upper.exclusive))
    ensures empty ==> forall v :: !(AboveLower(Some(lower), v) && BelowUpper(Some(upper), v))
  {
    if empty {
      forall v
        ensures !(AboveLower(Some(lower), v) && BelowUpper(Some(upper), v))
      {
        var all := {lower.value, upper.value, v};
        ValuesAreTotal(all);
        if AboveLower(Some(lower), v) && BelowUpper(Some(upper), v) {
          Chains(CompareQueryValue, all, lower.value, v, upper.value);
        }
      }
    }
  }

  // ----- Equality values -----

  lemma NothingIsSorted<T>(compare: (T, T) -> int)
    ensures Sorted([], compare)
  {
  }

  /** The next of some sorted values is new unless it equals the last. */
  lemma NextDistinct<T(!new)>(distinct: seq<T>, before: seq<T>, value: T, compare: (T, T) -> int, all: set<T>)
    requires TotalOn(compare, all) && value in all && forall v | v in before :: v in all
    requires Sorted(distinct, compare) && (forall v :: v in distinct <==> v in before)
    requires distinct == [] <==> before == []
    requires before != [] ==>
      distinct[|distinct| - 1] == before[|before| - 1] && compare(before[|before| - 1], value) <= 0
    ensures
      var isNew := distinct == [] || compare(distinct[|distinct| - 1], value) != 0;
      var next := if isNew then distinct + [value] else distinct;
      Sorted(next, compare) && next[|next| - 1] == value && forall v :: v in next <==> v in before + [value]
  {
    if distinct != [] && compare(distinct[|distinct| - 1], value) == 0 {
      assert distinct[|distinct| - 1] == value;
    } else {
      LastIsGreatest(distinct, value, compare, all);
    }
  }

  /** The distinct values in ascending order. */
  method DistinctOrderedValues<T(==,!new)>(values: seq<T>, compare: (T, T) -> int) returns (distinct: seq<T>)
    requires TotalOn(compare, Elements(values))
    ensures Sorted(distinct, compare) && forall v :: v in distinct <==> v in values
  {
    hide Sorted;
    var sorted := SortBy(values, compare);
    ghost var all := Elements(values);
    SortByWeakly(values, all, compare);
    distinct := [];
    assert Sorted(distinct, compare) by { NothingIsSorted(compare); }
    for i := 0 to |sorted|
      invariant Sorted(distinct, compare) && forall v :: v in distinct <==> v in sorted[..i]
      invariant distinct == [] <==> i == 0
      invariant i > 0 ==> distinct[|distinct| - 1] == sorted[i - 1]
    {
      var value := sorted[i];
      assert sorted[..i + 1] == sorted[..i] + [value];
      assert value in all && (i > 0 ==> sorted[i - 1] in all);
      NextDistinct(distinct, sorted[..i], value, compare, all);
      if distinct == [] || compare(distinct[|distinct| - 1], value) != 0 {
        distinct := distinct + [value];
      }
    }
    assert sorted[..|sorted|] == sorted;
  }

  lemma LastIsGreatest<T(!new)>(distinct: seq<T>, value: T, compare: (T, T) -> int, all: set<T>)
    requires TotalOn(compare, all) && value in all && forall v | v in distinct :: v in all
    requires Sorted(distinct, compare)
    requires distinct != [] ==> compare(distinct[|distinct| - 1], value) < 0
    ensures Sorted(distinct + [value], compare)
  {
    forall i | 0 <= i < |distinct|
      ensures compare(distinct[i], value) < 0
    {
      var last := distinct[|distinct| - 1];
      assert distinct[i] in distinct && last in distinct;
      if i < |distinct| - 1 {
        Chains(compare, all, distinct[i], last, value);
      }
    }
  }

  /** Every one of the first `n` values of `right` comes before `value`. */
  ghost predicate Behind<T>(right: seq<T>, n: nat, value: T, compare: (T, T) -> int) {
    n <= |right| && forall j | 0 <= j < n :: compare(right[j], value) < 0
  }

  /** The values two ordered lists share, in ascending order. */
  method SharedOrderedValues<T(==,!new)>(left: seq<T>, right: seq<T>, compare: (T, T) -> int, ghost all: set<T>)
    returns (intersection: seq<T>)
    requires TotalOn(compare, all) && (forall v | v in left :: v in all) && (forall v | v in right :: v in all)
    requires Sorted(left, compare) && Sorted(right, compare)
    ensures Sorted(intersection, compare)
    ensures forall v :: v in intersection <==> v in left && v in right
  {
    intersection := [];
    var rightIndex := 0;
    for i := 0 to |left|
      invariant 0 <= rightIndex <= |right| && (i < |left| ==> Behind(right, rightIndex, left[i], compare))
      invariant Sorted(intersection, compare)
      invariant forall v :: v in intersection <==> v in left[..i] && v in right
    {
      var leftValue := left[i];
      assert left[..i + 1] == left[..i] + [leftValue];
      while rightIndex < |right| && compare(right[rightIndex], leftValue) < 0
        invariant 0 <= rightIndex <= |right| && Behind(right, rightIndex, leftValue, compare)
      {
        rightIndex := rightIndex + 1;
      }
      FoundWhereExpected(right, rightIndex, leftValue, compare, all);
      if i + 1 < |left| {
        BehindNext(right, rightIndex, leftValue, left[i + 1], compare, all);
      }
      if rightIndex < |right| && compare(right[rightIndex], leftValue) == 0 {
        forall v | v in intersection
          ensures compare(v, leftValue) < 0
        {
          var h :| 0 <= h < i && left[..i][h] == v;
          assert compare(left[h], left[i]) < 0;
        }
        intersection := intersection + [leftValue];
      }
    }
    assert left[..|left|] == left;
  }

  lemma BehindNext<T(!new)>(right: seq<T>, n: nat, value: T, next: T, compare: (T, T) -> int, all: set<T>)
    requires TotalOn(compare, all) && (forall v | v in right :: v in all) && value in all && next in all
    requires Behind(right, n, value, compare) && compare(value, next) < 0
    ensures Behind(right, n, next, compare)
  {
    forall j | 0 <= j < n
      ensures compare(right[j], next) < 0
    {
      Chains(compare, all, right[j], value, next);
    }
  }

  lemma FoundWhereExpected<T(!new)>(right: seq<T>, n: nat, value: T, compare: (T, T) -> int, all: set<T>)
    requires TotalOn(compare, all) && (forall v | v in right :: v in all) && value in all
    requires Sorted(right, compare) && Behind(right, n, value, compare)
    requires n < |right| ==> compare(right[n], value) >= 0
    ensures value in right <==> n < |right| && compare(right[n], value) == 0
  {
    assert forall h | n < h < |right| :: compare(right[n], right[h]) < 0;
    assert forall h | 0 <= h < |right| && right[h] == value :: h >= n;
    assert n < |right| ==> right[n] in all;
  }

  method IntersectOrderedEqualityValues(leftValues: seq<Value>, rightValues: seq<Value>)
    returns (intersection: seq<Value>)
    ensures forall v :: v in intersection <==> v in leftValues && v in rightValues
  {
    ValuesAreTotal(Elements(leftValues));
    ValuesAreTotal(Elements(rightValues));
    ValuesAreTotal(Elements(leftValues) + Elements(rightValues));
    var left := DistinctOrderedValues(leftValues, CompareQueryValue);
    var right := DistinctOrderedValues(rightValues, CompareQueryValue);
    intersection := SharedOrderedValues(left, right, CompareQueryValue, Elements(leftValues) + Elements(rightValues));
  }

  predicate IsEqualitySeekPlanValue(field: string, value: Value, metadata: Metadata) {
    if field in metadata.stringFieldNames then value.Text? else IsRangePlanValue(field, value, metadata)
  }

  predicate IsEqualityFilterOn(filter: FilterPlan, field: string) {
    (filter.EqPlan? || filter.InPlan?) && filter.field == field
  }

  ghost predicate EqualityHintsHold(filters: seq<FilterPlan>, field: string, value: Value) {
    forall p | p in filters && IsEqualityFilterOn(p, field) :: HintHolds(p, value, true)
  }

  /** The index can seek every value the hint asks for. */
  predicate Seekable(filter: FilterPlan, field: string, metadata: Metadata)
    requires filter.EqPlan? || filter.InPlan?
  {
    match filter
    case EqPlan(_, value) => IsEqualitySeekPlanValue(field, value, metadata)
    case InPlan(_, values, valueKeys) =>
      && (forall i | 0 <= i < |values| :: IsEqualitySeekPlanValue(field, values[i], metadata))
      && (valueKeys.Some? ==> ScalarEqualityKeys(values) == valueKeys.value)
  }

  /** The values an equality hint can be sought by; `None` when the index cannot seek all of them. */
  method SeekValues(filter: FilterPlan, field: string, metadata: Metadata) returns (values: Option<seq<Value>>)
    requires filter.EqPlan? || filter.InPlan?
    ensures values.Some? <==> Seekable(filter, field, metadata)
    ensures values.Some? ==> forall v :: v in values.value <==> HintHolds(filter, v, true)
    ensures values == Some([]) <==> IsEmptyInFilter(filter)
  {
    if filter.EqPlan? {
      return if IsEqualitySeekPlanValue(field, filter.value, metadata) then Some([filter.value]) else None;
    }
    for i := 0 to |filter.values|
      invariant forall j | 0 <= j < i :: IsEqualitySeekPlanValue(field, filter.values[j], metadata)
    {
      if !IsEqualitySeekPlanValue(field, filter.values[i], metadata) {
        return None;
      }
    }
    assert Undefined !in filter.values;
    var valueKeys := ScalarEqualityKeys(filter.values);
    if filter.valueKeys.Some? && valueKeys != filter.valueKeys.value {
      return None;
    }
    return Some(filter.values);
  }

  /** A list hint that no value satisfies. */
  predicate IsEmptyInFilter(filter: FilterPlan) {
    filter.InPlan? && filter.values == [] && (filter.valueKeys.None? || filter.valueKeys.value == {})
  }

  ghost predicate HasEqualityFilter(filters: seq<FilterPlan>, field: string) {
    exists p :: p in filters && IsEqualityFilterOn(p, field)
  }

  ghost predicate HasUnsafeFilter(filters: seq<FilterPlan>, field: string, metadata: Metadata) {
    exists p :: p in filters && IsEqualityFilterOn(p, field) && !Seekable(p, field, metadata)
  }

  ghost predicate HasEmptyInFilter(filters: seq<FilterPlan>, field: string) {
    exists p :: p in filters && IsEqualityFilterOn(p, field) && IsEmptyInFilter(p)
  }

  lemma EqualityHintsStep(filters: seq<FilterPlan>, filter: FilterPlan, field: string, metadata: Metadata)
    ensures forall v :: EqualityHintsHold(filters + [filter], field, v) <==>
      EqualityHintsHold(filters, field, v) && (IsEqualityFilterOn(filter, field) ==> HintHolds(filter, v, true))
    ensures
      var more, on := filters + [filter], IsEqualityFilterOn(filter, field);
      && (HasEqualityFilter(more, field) <==> HasEqualityFilter(filters, field) || on)
      && (HasUnsafeFilter(more, field, metadata) <==>
          HasUnsafeFilter(filters, field, metadata) || (on && !Seekable(filter, field, metadata)))
      && (HasEmptyInFilter(more, field) <==> HasEmptyInFilter(filters, field) || (on && IsEmptyInFilter(filter)))
  {
    hide IsEqualityFilterOn, Seekable, IsEmptyInFilter, HintHolds;
    assert forall p :: p in filters + [filter] <==> p in filters || p == filter;
  }

  /** The values the equality hints on a field leave: exactly those that satisfy all of them. There is no answer
      when there is no such hint, or when the index cannot seek all values of one and no list is empty. */
  method OrderedEqualityValuesForField(filters: seq<FilterPlan>, field: string, metadata: Metadata)
    returns (result: Option<seq<Value>>)
    ensures result.Some? ==> forall v :: v in result.value <==> EqualityHintsHold(filters, field, v)
    ensures result.None? <==>
      && !HasEmptyInFilter(filters, field)
      && (HasUnsafeFilter(filters, field, metadata) || !HasEqualityFilter(filters, field))
  {
    hide IsEqualitySeekPlanValue, Seekable, IsEmptyInFilter, HasEqualityFilter, HasUnsafeFilter, HasEmptyInFilter,
        EqualityHintsHold, HintHolds;
    var values: seq<Value> := [];
    var hasEqualityFilter, hasSafeEqualityFilter, hasUnsafeEqualityFilter, hasEmptyInFilter :=
      false, false, false, false;
    NoFilters(field, metadata);
    for i := 0 to |filters|
      invariant hasEqualityFilter == HasEqualityFilter(filters[..i], field)
      invariant hasUnsafeEqualityFilter == HasUnsafeFilter(filters[..i], field, metadata)
      invariant hasEmptyInFilter == HasEmptyInFilter(filters[..i], field)
      invariant hasSafeEqualityFilter ==> hasEqualityFilter
      invariant !hasEqualityFilter ==> forall v :: EqualityHintsHold(filters[..i], field, v)
      invariant hasEqualityFilter && !hasUnsafeEqualityFilter && !hasEmptyInFilter ==>
        hasSafeEqualityFilter && forall v :: v in values <==> EqualityHintsHold(filters[..i], field, v)
      invariant hasEmptyInFilter ==> forall v :: !EqualityHintsHold(filters[..i], field, v)
    {
      var filter := filters[i];
      assert filters[..i + 1] == filters[..i] + [filter];
      EqualityHintsStep(filters[..i], filter, field, metadata);
      if IsEqualityFilterOn(filter, field) {
        hasEqualityFilter := true;
        var nextValues := SeekValues(filter, field, metadata);
        if nextValues.None? {
          hasUnsafeEqualityFilter := true;
        } else if nextValues.value == [] {
          hasEmptyInFilter := true;
        } else if !hasSafeEqualityFilter {
          values := nextValues.value;
          hasSafeEqualityFilter := true;
        } else {
          values := IntersectOrderedEqualityValues(values, nextValues.value);
        }
      }
    }
    assert filters[..|filters|] == filters;
    if hasEmptyInFilter {
      return Some([]);
    }
    if hasUnsafeEqualityFilter || !hasEqualityFilter {
      return None;
    }
    return Some(values);
  }

  lemma NoFilters(field: string, metadata: Metadata)
    ensures !HasEqualityFilter([], field) && !HasUnsafeFilter([], field, metadata) && !HasEmptyInFilter([], field)
    ensures forall v :: EqualityHintsHold([], field, v)
  {
  }
}
